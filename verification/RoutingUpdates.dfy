/** What an update does before its lines are read, whom updates go to, and what a router's tracks remember. */
module RoutingUpdates {
  import opened Collections
  import opened Routing
  import opened RoutingSafety
  import opened RoutingLures

  // ----- the header -----

  /** Neighbour `h` has been silent for more than three updates when this one arrives. */
  predicate FallenSilent(r: Router, u: Update, h: Host) {
    h != u.from && h in r.linktrack && r.linktrack[h] != -1 && u.clk > r.linktrack[h] + 3
  }

  /** The entry for `d` when the header has been processed: a sender that was down is reached over its link again; a
      neighbour fallen silent, and whatever is routed over one, is unreachable; everything else is as it was. */
  lemma HeaderIs(r: Router, u: Update, d: Host)
    requires Ready(r, u.from) && u.clk >= 0
    ensures Dead(r, u.from) ==> u.from in r.neighbours
    ensures Opened(r, u).table.Keys == r.table.Keys
    ensures d in r.table ==>
      Opened(r, u).table[d] ==
      if d == u.from && Dead(r, d) then Entry(d, r.neighbours[d])
      else if FallenSilent(r, u, d) then Entry(d, INF)
      else if FallenSilent(r, u, r.table[d].nextHop) then Entry(r.table[d].nextHop, INF)
      else r.table[d]
  {
    assert Known(r, u.from);
    HeardKeepsReady(r, u.from, u.clk);
    var heard := Heard(r, u.from, u.clk);
    forall h
      ensures Silent(heard, h, u.clk) <==> FallenSilent(r, u, h)
    {
    }
  }

  lemma HeaderTracks(r: Router, u: Update, h: Host)
    requires Ready(r, u.from) && u.clk >= 0
    ensures h in Opened(r, u).linktrack <==> h in r.linktrack
    ensures h in r.linktrack ==>
      Opened(r, u).linktrack[h] ==
      if h == u.from then u.clk else if FallenSilent(r, u, h) then -1 else r.linktrack[h]
  {
    HeardKeepsReady(r, u.from, u.clk);
  }

  // ----- a link that comes up again -----

  /** The sender is reached over its link. */
  predicate Restored(r: Router, from: Host) {
    from in r.neighbours && from in r.table && r.table[from] == Entry(from, r.neighbours[from])
  }

  lemma LineKeepsRestored(r: Router, from: Host, l: Line)
    requires Ready(r, from) && Restored(r, from) && l.cost >= 0
    ensures Via(r, l.dst, from) ==> from in r.neighbours
    ensures Restored(Learn(r, from, l), from)
  {
  }

  lemma {:induction false} LinesKeepRestored(r: Router, from: Host, lines: seq<Line>)
    requires Ready(r, from) && Restored(r, from) && forall l :: l in lines ==> l.cost >= 0
    ensures Restored(LearnAll(r, from, lines), from)
    decreases |lines|
  {
    if lines != [] {
      assert lines[0] in lines;
      LineKeepsRestored(r, from, lines[0]);
      LearnKeepsReady(r, from, lines[0]);
      LinesKeepRestored(Learn(r, from, lines[0]), from, lines[1..]);
    }
  }

  /** After an update from a neighbour whose link was down, that neighbour is reached over the link, at its cost. */
  lemma LinkComesUp(r: Router, u: Update)
    requires Ready(r, u.from) && Dead(r, u.from) && u.clk >= 0 && forall l :: l in u.lines ==> l.cost >= 0
    ensures Restored(Opened(r, u), u.from) && Restored(Receive(r, u), u.from)
    ensures Receive(r, u).neighbours == r.neighbours && !Dead(Receive(r, u), u.from)
  {
    assert Known(r, u.from);
    HeardKeepsReady(r, u.from, u.clk);
    FailedKeepsReady(Heard(r, u.from, u.clk), u.from, u.clk);
    HeaderIs(r, u, u.from);
    LinesKeepRestored(Opened(r, u), u.from, u.lines);
    ReceiveKeepsReady(r, u);
    DownExactly(r, u, u.from);
  }

  // ----- whom an update goes to -----

  /** A clock tick sends the lines, under the next number, to every neighbour with a link other than INF, down or not,
      and nothing else. */
  lemma TickAnnounces(n: Network, at: Host, lines: seq<Line>, d: Datagram)
    requires Coherent(n) && at in n.routers && Advertises(n.routers[at], lines)
    ensures var r, n' := n.routers[at], Next(n, Clock(at, lines));
      && n'.routers == n.routers[at := r.(updates := r.updates + 1)]
      && (d in n'.wire <==>
        || d in n.wire
        || (d.to in r.neighbours && r.neighbours[d.to] != INF && d.update == Update(at, r.updates + 1, lines)))
  {
  }

  // ----- over whole runs -----

  /** How often router `h` has announced its table. */
  ghost function Announcements(n: Network, events: seq<Event>, h: Host): nat
    requires Coherent(n)
    decreases |events|
  {
    if events == [] then 0
    else
      NextKeepsCoherent(n, events[0]);
      (if Announces(n, events[0], h) then 1 else 0) + Announcements(Next(n, events[0]), events[1..], h)
  }

  ghost predicate Announces(n: Network, e: Event, h: Host) {
    e.Clock? && e.at == h && h in n.routers && Advertises(n.routers[h], e.lines)
  }

  /** Updates on the wire carry the number of one of their sender's announcements. */
  ghost predicate NumbersOk(n: Network) {
    forall d :: d in n.wire && d.update.from in n.routers ==> 1 <= d.update.clk <= n.routers[d.update.from].updates
  }

  lemma NextCounts(n: Network, e: Event, h: Host)
    requires Coherent(n) && NumbersOk(n) && h in n.routers
    ensures Next(n, e).routers.Keys == n.routers.Keys
    ensures NumbersOk(Next(n, e))
    ensures Next(n, e).routers[h].updates == n.routers[h].updates + if Announces(n, e, h) then 1 else 0
  {
    NextKeepsCoherent(n, e);
    if e.Arrives? && e.datagram in n.wire && e.datagram.to in n.routers {
      ReceiveKeepsReady(n.routers[e.datagram.to], e.datagram.update);
    }
  }

  lemma {:induction false} RunCounts(n: Network, events: seq<Event>, h: Host)
    requires Coherent(n) && NumbersOk(n) && h in n.routers
    ensures NumbersOk(After(n, events))
    ensures After(n, events).routers[h].updates == n.routers[h].updates + Announcements(n, events, h)
    decreases |events|
  {
    if events != [] {
      NextKeepsCoherent(n, events[0]);
      NextCounts(n, events[0], h);
      RunCounts(Next(n, events[0]), events[1..], h);
    }
  }

  /** In every run a router's updates are numbered 1, 2, ... by its announcements. */
  lemma UpdatesAreNumbered(hosts: set<Host>, file: seq<Link>, events: seq<Event>, h: Host)
    requires Sensible(file) && h in hosts
    ensures NumbersOk(After(Start(hosts, file), events))
    ensures After(Start(hosts, file), events).routers[h].updates == Announcements(Start(hosts, file), events, h)
  {
    RunCounts(Start(hosts, file), events, h);
  }

  /** What `h` knows of neighbour `k`: the number of the last update from it, or -1 once an update from elsewhere was
      more than three ahead of that. */
  ghost function Track(n: Network, events: seq<Event>, h: Host, k: Host, last: int): int
    requires Coherent(n)
    decreases |events|
  {
    if events == [] then last
    else
      NextKeepsCoherent(n, events[0]);
      Track(Next(n, events[0]), events[1..], h, k, TrackAfter(n, events[0], h, k, last))
  }

  function TrackAfter(n: Network, e: Event, h: Host, k: Host, last: int): int {
    if !(e.Arrives? && e.datagram in n.wire && e.datagram.to == h && h in n.routers) then last
    else
      var u := e.datagram.update;
      if u.from == k then u.clk else if last != -1 && u.clk > last + 3 then -1 else last
  }

  lemma NextTracks(n: Network, e: Event, h: Host, k: Host)
    requires Coherent(n) && NumbersOk(n) && WireIsLocal(n) && h in n.routers && k in n.routers[h].linktrack
    ensures h in Next(n, e).routers && k in Next(n, e).routers[h].linktrack
    ensures Next(n, e).routers[h].linktrack[k] == TrackAfter(n, e, h, k, n.routers[h].linktrack[k])
  {
    NextKeepsCoherent(n, e);
    if e.Arrives? && e.datagram in n.wire && e.datagram.to == h {
      var r, u := n.routers[h], e.datagram.update;
      ArrivesReady(n, e.datagram);
      HeaderTracks(r, u, k);
      HeardKeepsReady(r, u.from, u.clk);
      FailedKeepsReady(Heard(r, u.from, u.clk), u.from, u.clk);
      LearnAllKeepsReady(Opened(r, u), u.from, u.lines);
    }
  }

  /** Every update on the wire was sent by a router of the network. */
  ghost predicate WireIsLocal(n: Network) {
    forall d :: d in n.wire ==> d.update.from in n.routers
  }

  lemma {:induction false} RunTracks(n: Network, events: seq<Event>, h: Host, k: Host)
    requires Coherent(n) && NumbersOk(n) && WireIsLocal(n) && h in n.routers && k in n.routers[h].linktrack
    ensures k in After(n, events).routers[h].linktrack
    ensures After(n, events).routers[h].linktrack[k] == Track(n, events, h, k, n.routers[h].linktrack[k])
    decreases |events|
  {
    if events != [] {
      NextKeepsCoherent(n, events[0]);
      NextCounts(n, events[0], h);
      NextTracks(n, events[0], h, k);
      RunTracks(Next(n, events[0]), events[1..], h, k);
    }
  }

  /** In every run a router's track of a neighbour is what its history says. */
  lemma TracksAreTold(hosts: set<Host>, file: seq<Link>, events: seq<Event>, h: Host, k: Host)
    requires Sensible(file) && h in hosts && k in Start(hosts, file).routers[h].neighbours
    ensures var r := After(Start(hosts, file), events).routers[h];
      k in r.linktrack && r.linktrack[k] == Track(Start(hosts, file), events, h, k, 0)
  {
    RunTracks(Start(hosts, file), events, h, k);
  }
}
