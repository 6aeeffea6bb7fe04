/** What no loss, repetition or reordering of updates can break: costs are costs of real walks, and no route leads
    over a dead link. */
module RoutingSafety {
  import opened Collections
  import opened Routing

  // ----- links and walks -----

  /** Consecutive hosts are linked. */
  predicate Walk(file: seq<Link>, p: seq<Host>)
    decreases |p|
  {
    p != [] && (|p| > 1 ==> LinkCost(file, p[0], p[1]).Some? && Walk(file, p[1..]))
  }

  function Length(file: seq<Link>, p: seq<Host>): int
    requires Walk(file, p)
    decreases |p|
  {
    if |p| == 1 then 0 else LinkCost(file, p[0], p[1]).value + Length(file, p[1..])
  }

  ghost predicate IsWalk(file: seq<Link>, p: seq<Host>, x: Host, y: Host, cost: int) {
    Walk(file, p) && p[0] == x && p[|p| - 1] == y && Length(file, p) == cost
  }

  /** There is a walk of exactly this cost. */
  ghost predicate Reaches(file: seq<Link>, x: Host, y: Host, cost: int) {
    exists p :: IsWalk(file, p, x, y, cost)
  }

  lemma LinkReaches(file: seq<Link>, x: Host, y: Host)
    requires LinkCost(file, x, y).Some?
    ensures Reaches(file, x, y, LinkCost(file, x, y).value)
  {
    var p := [x, y];
    assert p[1..] == [y] && Walk(file, p[1..]) && Length(file, p[1..]) == 0;
    assert IsWalk(file, p, x, y, LinkCost(file, x, y).value);
  }

  lemma {:induction false} JoinWalks(file: seq<Link>, p: seq<Host>, q: seq<Host>)
    requires Walk(file, p) && Walk(file, q) && p[|p| - 1] == q[0]
    ensures Walk(file, p + q[1..]) && Length(file, p + q[1..]) == Length(file, p) + Length(file, q)
    decreases |p|
  {
    var pq := p + q[1..];
    if |p| == 1 {
      assert pq == q;
    } else {
      JoinWalks(file, p[1..], q);
      assert pq[1..] == p[1..] + q[1..];
    }
  }

  lemma ReachesThrough(file: seq<Link>, x: Host, y: Host, z: Host, c: int, d: int)
    requires Reaches(file, x, y, c) && Reaches(file, y, z, d)
    ensures Reaches(file, x, z, c + d)
  {
    var p :| IsWalk(file, p, x, y, c);
    var q :| IsWalk(file, q, y, z, d);
    JoinWalks(file, p, q);
    assert IsWalk(file, p + q[1..], x, z, c + d);
  }

  /** `dist` estimates the cost to `target` from below, link by link, as the shortest distances do. */
  ghost predicate Consistent(file: seq<Link>, dist: Host -> int, target: Host) {
    dist(target) <= 0 &&
    forall x, y :: LinkCost(file, x, y).Some? ==> dist(x) <= LinkCost(file, x, y).value + dist(y)
  }

  lemma {:induction false} WalkIsNoShorter(file: seq<Link>, dist: Host -> int, p: seq<Host>)
    requires Walk(file, p) && Consistent(file, dist, p[|p| - 1])
    ensures dist(p[0]) <= Length(file, p)
    decreases |p|
  {
    if |p| > 1 {
      WalkIsNoShorter(file, dist, p[1..]);
    }
  }

  // ----- the invariant -----

  /** Links are those of the file. A cost below INF is the cost of a walk, and its next hop is a neighbour not known
      to be down. */
  ghost predicate HostOk(file: seq<Link>, r: Router, d: Host) {
    && (d in r.neighbours ==> LinkCost(file, r.me, d) == Some(r.neighbours[d]))
    && (d in r.table ==> EntryOk(file, r, d, r.table[d]))
  }

  ghost predicate EntryOk(file: seq<Link>, r: Router, d: Host, e: Entry) {
    && e.cost >= 0
    && (e.cost < INF ==> Reaches(file, r.me, d, e.cost) && e.nextHop in r.linktrack && r.linktrack[e.nextHop] != -1)
  }

  ghost predicate RouterOk(file: seq<Link>, r: Router) {
    forall d :: HostOk(file, r, d)
  }

  ghost predicate LineOk(file: seq<Link>, from: Host, l: Line) {
    l.cost >= 0 && (l.cost < INF ==> Reaches(file, from, l.dst, l.cost))
  }

  ghost predicate UpdateOk(file: seq<Link>, u: Update) {
    u.clk >= 0 && Once(u.lines) && forall l :: l in u.lines ==> LineOk(file, u.from, l)
  }

  ghost predicate Inv(file: seq<Link>, n: Network) {
    Sensible(file) && Coherent(n) && RoutersOk(file, n.routers) && WireOk(file, n.wire)
  }

  ghost predicate RoutersOk(file: seq<Link>, routers: map<Host, Router>) {
    forall h :: h in routers ==> RouterOk(file, routers[h])
  }

  ghost predicate WireOk(file: seq<Link>, wire: set<Datagram>) {
    forall d :: d in wire ==> UpdateOk(file, d.update)
  }

  // ----- every step keeps it -----

  lemma DirectLink(file: seq<Link>, r: Router, h: Host)
    requires Sensible(file) && RouterOk(file, r) && h in r.neighbours
    ensures r.neighbours[h] >= 0 && Reaches(file, r.me, h, r.neighbours[h])
  {
    assert HostOk(file, r, h);
    LinkIsSensible(file, r.me, h);
    LinkReaches(file, r.me, h);
  }

  /** Writing one sound entry. */
  lemma PutKeeps(file: seq<Link>, r: Router, dst: Host, n: Host, c: int)
    requires RouterOk(file, r) && EntryOk(file, r, dst, Entry(n, c))
    ensures RouterOk(file, Put(r, dst, n, c))
  {
    var r' := Put(r, dst, n, c);
    forall d
      ensures HostOk(file, r', d)
    {
      assert HostOk(file, r, d);
      assert d in r'.table ==> r'.table[d] == if d == dst then Entry(n, c) else r.table[d];
    }
  }

  lemma HeardKeeps(file: seq<Link>, r: Router, from: Host, clk: int)
    requires Sensible(file) && RouterOk(file, r) && clk >= 0 && Ready(r, from)
    ensures from in r.linktrack ==> from in r.neighbours
    ensures RouterOk(file, Heard(r, from, clk)) && !Dead(Heard(r, from, clk), from)
  {
    assert Known(r, from);
    if from in r.linktrack {
      DirectLink(file, r, from);
      var tracked := r.(linktrack := r.linktrack[from := clk]);
      forall d
        ensures HostOk(file, tracked, d)
      {
        assert HostOk(file, r, d);
      }
      PutKeeps(file, tracked, from, from, r.neighbours[from]);
      assert Heard(r, from, clk) ==
        if r.linktrack[from] == -1 then Put(tracked, from, from, r.neighbours[from]) else tracked;
    }
  }

  lemma FailedKeeps(file: seq<Link>, r: Router, clk: int)
    requires RouterOk(file, r)
    ensures RouterOk(file, Failed(r, clk))
  {
    var r' := Failed(r, clk);
    forall d
      ensures HostOk(file, r', d)
    {
      assert HostOk(file, r, d);
    }
  }

  lemma RepricedKeeps(file: seq<Link>, r: Router, from: Host, l: Line)
    requires Sensible(file) && RouterOk(file, r) && Ready(r, from) && !Dead(r, from) && LineOk(file, from, l)
    ensures Via(r, l.dst, from) ==> from in r.neighbours
    ensures RouterOk(file, Repriced(r, from, l))
  {
    if Via(r, l.dst, from) {
      var w := r.neighbours[from];
      assert Known(r, from);
      DirectLink(file, r, from);
      if w + l.cost < INF {
        ReachesThrough(file, r.me, from, l.dst, w, l.cost);
      }
      PutKeeps(file, r, l.dst, from, w + l.cost);
    }
  }

  lemma RelaxedKeeps(file: seq<Link>, r: Router, from: Host, l: Line)
    requires RouterOk(file, r) && l.dst in r.table && from in r.table && LineOk(file, from, l)
    ensures RouterOk(file, Relaxed(r, from, l))
  {
    var via := r.table[from];
    assert HostOk(file, r, from);
    if via.cost + l.cost < INF {
      ReachesThrough(file, r.me, from, l.dst, via.cost, l.cost);
    }
    PutKeeps(file, r, l.dst, via.nextHop, via.cost + l.cost);
  }

  lemma ShortcutKeeps(file: seq<Link>, r: Router, from: Host)
    requires Sensible(file) && RouterOk(file, r) && WellFormed(r) && from in r.table && !Dead(r, from)
    ensures RouterOk(file, Shortcut(r, from))
  {
    if from in r.neighbours {
      assert Known(r, from);
      DirectLink(file, r, from);
      PutKeeps(file, r, from, from, r.neighbours[from]);
    }
  }

  lemma LearnKeeps(file: seq<Link>, r: Router, from: Host, l: Line)
    requires Sensible(file) && RouterOk(file, r) && Ready(r, from) && !Dead(r, from) && LineOk(file, from, l)
    ensures Via(r, l.dst, from) ==> from in r.neighbours
    ensures RouterOk(file, Learn(r, from, l))
  {
    if l.dst in r.table && from in r.table {
      var r1 := Repriced(r, from, l);
      RepricedKeepsReady(r, from, l);
      RepricedKeeps(file, r, from, l);
      RelaxedKeepsReady(r1, from, l);
      RelaxedKeeps(file, r1, from, l);
      ShortcutKeeps(file, Relaxed(r1, from, l), from);
    }
  }

  lemma {:induction false} LearnAllKeeps(file: seq<Link>, r: Router, from: Host, lines: seq<Line>)
    requires Sensible(file) && RouterOk(file, r) && Ready(r, from) && !Dead(r, from)
    requires forall l :: l in lines ==> LineOk(file, from, l)
    ensures RouterOk(file, LearnAll(r, from, lines))
    decreases |lines|
  {
    if lines != [] {
      LearnKeeps(file, r, from, lines[0]);
      LearnKeepsReady(r, from, lines[0]);
      LearnAllKeeps(file, Learn(r, from, lines[0]), from, lines[1..]);
    }
  }

  lemma ReceiveKeeps(file: seq<Link>, r: Router, u: Update)
    requires Sensible(file) && RouterOk(file, r) && Ready(r, u.from) && UpdateOk(file, u)
    ensures RouterOk(file, Receive(r, u))
  {
    HeardKeeps(file, r, u.from, u.clk);
    HeardKeepsReady(r, u.from, u.clk);
    var heard := Heard(r, u.from, u.clk);
    assert Known(r, u.from);
    assert u.from in heard.linktrack ==> heard.linktrack[u.from] == u.clk;
    FailedKeeps(file, heard, u.clk);
    FailedKeepsReady(heard, u.from, u.clk);
    LearnAllKeeps(file, Failed(heard, u.clk), u.from, u.lines);
  }

  lemma CountKeeps(file: seq<Link>, r: Router)
    requires RouterOk(file, r)
    ensures RouterOk(file, r.(updates := r.updates + 1))
  {
    var r' := r.(updates := r.updates + 1);
    forall d
      ensures HostOk(file, r', d)
    {
      assert HostOk(file, r, d);
    }
  }

  lemma LinesAreOk(file: seq<Link>, r: Router, lines: seq<Line>)
    requires RouterOk(file, r) && Advertises(r, lines)
    ensures UpdateOk(file, Update(r.me, r.updates + 1, lines))
  {
    forall l | l in lines
      ensures LineOk(file, r.me, l)
    {
      assert Announced(r, l) && HostOk(file, r, l.dst);
    }
  }

  lemma ReplaceKeeps(file: seq<Link>, routers: map<Host, Router>, h: Host, r: Router)
    requires RoutersOk(file, routers) && RouterOk(file, r)
    ensures RoutersOk(file, routers[h := r])
  {
  }

  lemma SendKeeps(file: seq<Link>, n: Network, at: Host, lines: seq<Line>)
    requires Inv(file, n) && at in n.routers && Advertises(n.routers[at], lines)
    ensures RoutersOk(file, Send(n, at, lines).routers) && WireOk(file, Send(n, at, lines).wire)
  {
    var r := n.routers[at];
    CountKeeps(file, r);
    ReplaceKeeps(file, n.routers, at, r.(updates := r.updates + 1));
    LinesAreOk(file, r, lines);
    assert WireOk(file, Sent(r, lines));
  }

  lemma StepKeeps(file: seq<Link>, n: Network, e: Event)
    requires Inv(file, n)
    ensures Inv(file, Next(n, e))
  {
    NextKeepsCoherent(n, e);
    match e
    case Clock(at, lines) =>
      if at in n.routers && Advertises(n.routers[at], lines) {
        SendKeeps(file, n, at, lines);
      }
    case Arrives(d) =>
      if d in n.wire && d.to in n.routers {
        var r := n.routers[d.to];
        ReceiveKeeps(file, r, d.update);
        ReplaceKeeps(file, n.routers, d.to, Receive(r, d.update));
      }
  }

  lemma StartedIsOk(file: seq<Link>, me: Host)
    requires Sensible(file)
    ensures RouterOk(file, Started(me, file))
  {
    var r := Started(me, file);
    forall d
      ensures HostOk(file, r, d)
    {
      TableIs(me, file, d);
      StartedIs(me, file, d);
      LinkIsSensible(file, me, d);
      if LinkCost(file, me, d).Some? {
        LinkReaches(file, me, d);
      }
    }
  }

  lemma StartKeeps(hosts: set<Host>, file: seq<Link>)
    requires Sensible(file)
    ensures Inv(file, Start(hosts, file))
  {
    forall h | h in hosts
      ensures RouterOk(file, Start(hosts, file).routers[h])
    {
      StartedIsOk(file, h);
    }
  }

  lemma {:induction false} RunKeeps(file: seq<Link>, n: Network, events: seq<Event>)
    requires Inv(file, n)
    ensures Inv(file, After(n, events))
    decreases |events|
  {
    if events != [] {
      StepKeeps(file, n, events[0]);
      RunKeeps(file, Next(n, events[0]), events[1..]);
    }
  }

  /** What holds of every router of every run. */
  lemma RunIsSound(hosts: set<Host>, file: seq<Link>, events: seq<Event>, h: Host, d: Host)
    requires Sensible(file) && h in hosts
    ensures var r := After(Start(hosts, file), events).routers[h];
      r.me == h && WellFormed(r) && (d in r.table ==> EntryOk(file, r, d, r.table[d]))
  {
    StartKeeps(hosts, file);
    RunKeeps(file, Start(hosts, file), events);
    assert HostOk(file, After(Start(hosts, file), events).routers[h], d);
  }

  // ----- what every run guarantees -----

  /** Over any run of a network, however updates are lost, repeated or reordered: a cost below INF is the cost of an
      actual walk to that destination. */
  lemma CostsAreWalks(hosts: set<Host>, file: seq<Link>, events: seq<Event>, h: Host, d: Host)
    requires Sensible(file) && h in hosts
    ensures var r := After(Start(hosts, file), events).routers[h];
      d in r.table && r.table[d].cost < INF ==> Reaches(file, h, d, r.table[d].cost)
  {
    RunIsSound(hosts, file, events, h, d);
  }

  /** So a cost never undercuts the shortest path: below INF it is no less than any estimate from below. */
  lemma NeverUndercuts(hosts: set<Host>, file: seq<Link>, events: seq<Event>, h: Host, d: Host, dist: Host -> int)
    requires Sensible(file) && h in hosts && Consistent(file, dist, d)
    ensures var r := After(Start(hosts, file), events).routers[h];
      d in r.table ==> Min(dist(h), INF) <= r.table[d].cost
  {
    CostsAreWalks(hosts, file, events, h, d);
    var r := After(Start(hosts, file), events).routers[h];
    if d in r.table && r.table[d].cost < INF {
      var p :| IsWalk(file, p, h, d, r.table[d].cost);
      WalkIsNoShorter(file, dist, p);
    }
  }

  /** Over any run: a route with a cost below INF leads to a neighbour that is not known to be down. */
  lemma NoRouteOverDeadLink(hosts: set<Host>, file: seq<Link>, events: seq<Event>, h: Host, d: Host)
    requires Sensible(file) && h in hosts
    ensures var r := After(Start(hosts, file), events).routers[h];
      d in r.table && r.table[d].cost < INF ==> r.table[d].nextHop in r.neighbours && !Dead(r, r.table[d].nextHop)
  {
    RunIsSound(hosts, file, events, h, d);
    var r := After(Start(hosts, file), events).routers[h];
    if d in r.table {
      assert Known(r, r.table[d].nextHop);
    }
  }

  // ----- what one update does -----

  /** A link is down exactly when its last update is more than three behind the one just received, or it was down
      and has not been heard since. */
  lemma DownExactly(r: Router, u: Update, h: Host)
    requires Ready(r, u.from) && u.clk >= 0
    ensures Dead(Receive(r, u), h) <==> h != u.from && (Dead(r, h) || Silent(r, h, u.clk))
    ensures h in r.linktrack ==>
      h in Receive(r, u).linktrack && (Dead(Receive(r, u), h) || Receive(r, u).linktrack[h] + 3 >= u.clk)
  {
    assert Known(r, u.from);
    HeardKeepsReady(r, u.from, u.clk);
    var heard := Heard(r, u.from, u.clk);
    FailedKeepsReady(heard, u.from, u.clk);
    LearnAllKeepsReady(Failed(heard, u.clk), u.from, u.lines);
  }

  function Min(a: int, b: int): int {
    if a <= b then a else b
  }

  /** What the router knows about a destination before it considers the path by way of the sender: a path that leads
      through the sender is known at the sender's new cost. */
  function KnownCost(r: Router, from: Host, l: Line): int
    requires l.dst in r.table && from in r.neighbours
  {
    if Via(r, l.dst, from) then r.neighbours[from] + l.cost else r.table[l.dst].cost
  }

  /** One line from a neighbour, as a relaxation: the entry keeps its hop at the known cost, or takes the sender's
      hop at the cost by way of the sender if that is cheaper. Lines that lead back here change nothing. The
      sender's own entry ends at the link to it if that is cheaper; no other entry changes. */
  lemma LineRelaxes(r: Router, from: Host, l: Line)
    requires from in r.neighbours && from in r.table && l.dst in r.table && l.dst != from
    ensures var r' := Learn(r, from, l); var through := r.table[from].cost + l.cost;
      && r'.table.Keys == r.table.Keys
      && r'.table[l.dst] ==
        (if l.via == r.me then r.table[l.dst]
         else if through < KnownCost(r, from, l) then Entry(r.table[from].nextHop, through)
         else Entry(r.table[l.dst].nextHop, KnownCost(r, from, l)))
      && r'.table[from] == Direct(r, from, r.table[from])
      && (forall d :: d in r.table && d != l.dst && d != from ==> r'.table[d] == r.table[d])
  {
    var r1 := Repriced(r, from, l);
    var r2 := Relaxed(r1, from, l);
    assert r1.table[from] == r.table[from] && r2.table[from] == r.table[from];
    assert Learn(r, from, l) == Shortcut(r2, from);
  }

  /** An entry for a neighbour, or the link to it if that is cheaper. */
  function Direct(r: Router, h: Host, e: Entry): Entry
    requires h in r.neighbours
  {
    if r.neighbours[h] < e.cost then Entry(h, r.neighbours[h]) else e
  }

  /** A line about the sender itself: its entry never costs more than the link, and a detour of the sender to itself is
      never taken. */
  lemma OwnLineRelaxes(r: Router, from: Host, l: Line)
    requires from in r.neighbours && from in r.table && l.dst == from && l.cost >= 0
    ensures var r' := Learn(r, from, l);
      && r'.table.Keys == r.table.Keys
      && r'.table[from] == Direct(r, from,
        if l.via != r.me && Via(r, from, from) then Entry(from, r.neighbours[from] + l.cost) else r.table[from])
      && (forall d :: d in r.table && d != from ==> r'.table[d] == r.table[d])
  {
    var r1 := Repriced(r, from, l);
    assert Relaxed(r1, from, l) == r1;
    assert Learn(r, from, l) == Shortcut(r1, from);
  }
}
