/** When the code's own reading of reachability, a cost other than INF, sends a route over a dead link. */
module RoutingLures {
  import opened Routing
  import opened RoutingSafety

  // ----- one line -----

  /** The test the code makes before it forwards or announces is `!= INF`. */
  predicate Unsafe(r: Router, d: Host) {
    d in r.table && r.table[d].cost != INF && Dead(r, r.table[d].nextHop)
  }

  /** Read that way, no route leads over a dead link. */
  ghost predicate NoDeadRoute(r: Router) {
    forall d :: !Unsafe(r, d)
  }

  /** The line offers a path by way of a sender whose own route is dead, for a destination that costs more than INF. */
  predicate Lures(r: Router, from: Host, l: Line) {
    && l.dst in r.table && from in r.table && l.via != r.me && l.cost > 0
    && Dead(r, r.table[from].nextHop)
    && INF < if Via(r, l.dst, from) && from in r.neighbours then r.neighbours[from] else r.table[l.dst].cost - l.cost
  }

  lemma PutRoute(r: Router, dst: Host, n: Host, c: int)
    requires NoDeadRoute(r)
    ensures NoDeadRoute(Put(r, dst, n, c)) <==> c == INF || !Dead(r, n)
    ensures forall d :: d != dst ==> !Unsafe(Put(r, dst, n, c), d)
  {
    var r' := Put(r, dst, n, c);
    forall d
      ensures d != dst ==> !Unsafe(r', d)
    {
      assert !Unsafe(r, d);
    }
    assert Unsafe(r', dst) <==> c != INF && Dead(r, n);
  }

  /** Routes are kept off dead links in the sense of `!= INF` except exactly where a cost above INF meets a path at
      INF. */
  lemma DeadRouteExactly(r: Router, from: Host, l: Line)
    requires Ready(r, from) && NoDeadRoute(r) && !Dead(r, from) && l.cost >= 0
    ensures Via(r, l.dst, from) ==> from in r.neighbours
    ensures NoDeadRoute(Learn(r, from, l)) <==> !Lures(r, from, l)
  {
    if l.dst in r.table && from in r.table {
      RepriceKeepsRoutes(r, from, l);
      var r1 := Repriced(r, from, l);
      RelaxRoutes(r1, from, l);
      ShortcutKeepsRoutes(Relaxed(r1, from, l), from);
    }
  }

  lemma RepriceKeepsRoutes(r: Router, from: Host, l: Line)
    requires Ready(r, from) && NoDeadRoute(r) && !Dead(r, from) && l.cost >= 0 && l.dst in r.table && from in r.table
    ensures Via(r, l.dst, from) ==> from in r.neighbours
    ensures NoDeadRoute(Repriced(r, from, l))
    ensures Lures(Repriced(r, from, l), from, l) <==> Lures(r, from, l)
  {
    if Via(r, l.dst, from) && l.via != r.me {
      PutRoute(r, l.dst, from, r.neighbours[from] + l.cost);
      assert l.dst != from ==> Repriced(r, from, l).table[from] == r.table[from];
    }
  }

  /** Once the line has repriced its own path. */
  lemma RelaxRoutes(r: Router, from: Host, l: Line)
    requires NoDeadRoute(r) && l.cost >= 0 && l.dst in r.table && from in r.table && !Dead(r, from)
    requires Via(r, l.dst, from) && l.via != r.me ==>
      from in r.neighbours && r.table[l.dst].cost == r.neighbours[from] + l.cost
    ensures NoDeadRoute(Relaxed(r, from, l)) <==> !Lures(r, from, l)
    ensures !Unsafe(Relaxed(r, from, l), from)
  {
    var via := r.table[from];
    assert !Unsafe(r, from) && !Unsafe(r, l.dst);
    PutRoute(r, l.dst, via.nextHop, via.cost + l.cost);
  }

  lemma ShortcutKeepsRoutes(r: Router, from: Host)
    requires !Dead(r, from) && from in r.table && !Unsafe(r, from)
    ensures NoDeadRoute(Shortcut(r, from)) <==> NoDeadRoute(r)
  {
    var r' := Shortcut(r, from);
    forall d
      ensures Unsafe(r', d) <==> Unsafe(r, d)
    {
      assert d != from && d in r.table ==> r'.table[d] == r.table[d];
      assert r'.table[from] == r.table[from] || r'.table[from].nextHop == from;
    }
  }

  // ----- the header of an update -----

  lemma HeardKeepsRoutes(r: Router, from: Host, clk: int)
    requires Ready(r, from) && NoDeadRoute(r) && clk >= 0
    ensures from in r.linktrack ==> from in r.neighbours
    ensures NoDeadRoute(Heard(r, from, clk)) && !Dead(Heard(r, from, clk), from)
  {
    assert Known(r, from);
    var r' := Heard(r, from, clk);
    forall d
      ensures !Unsafe(r', d)
    {
      assert !Unsafe(r, d);
    }
  }

  lemma FailedKeepsRoutes(r: Router, clk: int)
    requires NoDeadRoute(r)
    ensures NoDeadRoute(Failed(r, clk))
  {
    var r' := Failed(r, clk);
    forall d
      ensures !Unsafe(r', d)
    {
      assert !Unsafe(r, d);
    }
  }

  /** The router when the header of an update has been processed. */
  function Opened(r: Router, u: Update): Router
    requires Ready(r, u.from)
  {
    HeardKeepsReady(r, u.from, u.clk);
    Failed(Heard(r, u.from, u.clk), u.clk)
  }

  lemma OpenedKeepsRoutes(r: Router, u: Update)
    requires Ready(r, u.from) && NoDeadRoute(r) && u.clk >= 0
    ensures var r1 := Opened(r, u);
      && Ready(r1, u.from) && NoDeadRoute(r1) && !Dead(r1, u.from)
      && Receive(r, u) == LearnAll(r1, u.from, u.lines)
  {
    HeardKeepsReady(r, u.from, u.clk);
    var heard := Heard(r, u.from, u.clk);
    FailedKeepsReady(heard, u.from, u.clk);
    HeardKeepsRoutes(r, u.from, u.clk);
    FailedKeepsRoutes(heard, u.clk);
    assert u.from in heard.linktrack ==> heard.linktrack[u.from] == u.clk;
  }

  // ----- the lines of an update -----

  /** No line lures at its turn. */
  predicate NoLure(r: Router, from: Host, lines: seq<Line>)
    requires Ready(r, from)
    decreases |lines|
  {
    lines != [] ==>
      && !Lures(r, from, lines[0])
      && (LearnKeepsReady(r, from, lines[0]); NoLure(Learn(r, from, lines[0]), from, lines[1..]))
  }

  /** A line is about its destination and the sender only. */
  lemma OthersStay(r: Router, from: Host, l: Line, d: Host)
    requires Ready(r, from) && d != from && d != l.dst
    ensures Via(r, l.dst, from) ==> from in r.neighbours
    ensures var r' := Learn(r, from, l);
      (d in r'.table <==> d in r.table) && (d in r.table ==> r'.table[d] == r.table[d])
  {
    LearnKeepsReady(r, from, l);
  }

  lemma {:induction false} OthersStayUnsafe(r: Router, from: Host, lines: seq<Line>, d: Host)
    requires Ready(r, from) && Unsafe(r, d) && d != from && forall l :: l in lines ==> l.dst != d
    ensures Unsafe(LearnAll(r, from, lines), d)
    decreases |lines|
  {
    if lines != [] {
      assert lines[0] in lines;
      LearnKeepsReady(r, from, lines[0]);
      OthersStay(r, from, lines[0], d);
      OthersStayUnsafe(Learn(r, from, lines[0]), from, lines[1..], d);
    }
  }

  /** A luring line spoils the route to its own destination, which is not the sender. */
  lemma LureSpoilsItsOwn(r: Router, from: Host, l: Line)
    requires Ready(r, from) && NoDeadRoute(r) && !Dead(r, from) && l.cost >= 0 && Lures(r, from, l)
    ensures Via(r, l.dst, from) ==> from in r.neighbours
    ensures l.dst != from && Unsafe(Learn(r, from, l), l.dst)
  {
    DeadRouteExactly(r, from, l);
    assert !Unsafe(r, from);
    var d :| Unsafe(Learn(r, from, l), d);
    LearnKeepsReady(r, from, l);
    if d != l.dst && d != from {
      OthersStay(r, from, l, d);
      assert !Unsafe(r, d);
    }
  }

  /** When all lines are processed, a route leads over a dead link exactly if some line lured at its turn. */
  lemma {:induction false} LinesKeepRoutes(r: Router, from: Host, lines: seq<Line>)
    requires Ready(r, from) && NoDeadRoute(r) && !Dead(r, from) && Once(lines)
    requires forall l :: l in lines ==> l.cost >= 0
    ensures NoDeadRoute(LearnAll(r, from, lines)) <==> NoLure(r, from, lines)
    decreases |lines|
  {
    if lines != [] {
      var l := lines[0];
      LearnKeepsReady(r, from, l);
      if Lures(r, from, l) {
        LureSpoilsItsOwn(r, from, l);
        OthersStayUnsafe(Learn(r, from, l), from, lines[1..], l.dst);
      } else {
        DeadRouteExactly(r, from, l);
        LinesKeepRoutes(Learn(r, from, l), from, lines[1..]);
      }
    }
  }

  // ----- the same, told before any line is processed -----

  /** The link to the sender costs less than INF. */
  predicate Near(r: Router, from: Host) {
    from in r.neighbours && r.neighbours[from] < INF
  }

  /** Line `k` lures, and no earlier line gives the code occasion to restore the link to the sender. */
  predicate LuredBy(r: Router, from: Host, lines: seq<Line>, k: nat)
    requires k < |lines|
  {
    Lures(r, from, lines[k]) && (Near(r, from) ==> forall j :: 0 <= j < k ==> lines[j].dst !in r.table)
  }

  predicate Lured(r: Router, from: Host, lines: seq<Line>) {
    exists k :: 0 <= k < |lines| && LuredBy(r, from, lines, k)
  }

  lemma LuredUnfolds(r: Router, from: Host, lines: seq<Line>)
    requires lines != []
    ensures Lured(r, from, lines) <==>
      Lures(r, from, lines[0]) || ((Near(r, from) ==> lines[0].dst !in r.table) && Lured(r, from, lines[1..]))
  {
    var rest := lines[1..];
    if Lured(r, from, lines) {
      var k :| 0 <= k < |lines| && LuredBy(r, from, lines, k);
      if k > 0 {
        assert LuredBy(r, from, rest, k - 1);
      }
    }
    if Lures(r, from, lines[0]) {
      assert LuredBy(r, from, lines, 0);
    } else if (Near(r, from) ==> lines[0].dst !in r.table) && Lured(r, from, rest) {
      var k :| 0 <= k < |rest| && LuredBy(r, from, rest, k);
      assert LuredBy(r, from, lines, k + 1);
    }
  }

  /** The first line about a known destination restores the link to the sender, if it is near; else the sender's own
      route stays as dead as it was. */
  lemma HopAfter(r: Router, from: Host, l: Line)
    requires Ready(r, from) && NoDeadRoute(r) && !Dead(r, from) && l.cost >= 0 && l.dst in r.table && from in r.table
    ensures Via(r, l.dst, from) ==> from in r.neighbours
    ensures var r' := Learn(r, from, l);
      && from in r'.table
      && (Dead(r', r'.table[from].nextHop) <==> Dead(r, r.table[from].nextHop) && !Near(r, from))
  {
    LearnKeepsReady(r, from, l);
    assert !Unsafe(r, from);
  }

  /** A line that does not restore the link leaves it open which later lines lure. */
  lemma LureStays(r: Router, from: Host, l: Line, m: Line)
    requires Ready(r, from) && NoDeadRoute(r) && !Dead(r, from) && l.cost >= 0 && l.dst in r.table && from in r.table
    requires !Near(r, from) && m.dst != l.dst && m.cost >= 0
    ensures Via(r, l.dst, from) ==> from in r.neighbours
    ensures Lures(Learn(r, from, l), from, m) <==> Lures(r, from, m)
  {
    HopAfter(r, from, l);
    LearnKeepsReady(r, from, l);
    assert !Unsafe(r, from);
    if m.dst != from {
      OthersStay(r, from, l, m.dst);
    }
  }

  lemma LinesStayLured(r: Router, from: Host, l: Line, rest: seq<Line>)
    requires Ready(r, from) && NoDeadRoute(r) && !Dead(r, from) && l.cost >= 0 && l.dst in r.table && from in r.table
    requires forall m :: m in rest ==> m.dst != l.dst && m.cost >= 0
    ensures Via(r, l.dst, from) ==> from in r.neighbours
    ensures Lured(Learn(r, from, l), from, rest) <==> !Near(r, from) && Lured(r, from, rest)
  {
    HopAfter(r, from, l);
    LearnKeepsReady(r, from, l);
    var r' := Learn(r, from, l);
    if Near(r, from) {
      assert forall k :: 0 <= k < |rest| ==> !LuredBy(r', from, rest, k);
    } else {
      forall k | 0 <= k < |rest|
        ensures LuredBy(r', from, rest, k) <==> LuredBy(r, from, rest, k)
      {
        LureStays(r, from, l, rest[k]);
      }
    }
  }

  lemma {:induction false} LuredAtTurn(r: Router, from: Host, lines: seq<Line>)
    requires Ready(r, from) && NoDeadRoute(r) && !Dead(r, from) && Once(lines)
    requires forall l :: l in lines ==> l.cost >= 0
    ensures NoLure(r, from, lines) <==> !Lured(r, from, lines)
    decreases |lines|
  {
    if lines != [] {
      var l, rest := lines[0], lines[1..];
      LuredUnfolds(r, from, lines);
      LearnKeepsReady(r, from, l);
      if !Lures(r, from, l) {
        DeadRouteExactly(r, from, l);
        LuredAtTurn(Learn(r, from, l), from, rest);
        if l.dst in r.table && from in r.table {
          LinesStayLured(r, from, l, rest);
        }
      }
    }
  }

  /** An update leaves every route off dead links, in the sense of `!= INF`, if and only if with the tables as its
      header leaves them no line lures before the link to the sender is restored. */
  lemma UpdateKeepsRoutesExactly(r: Router, u: Update)
    requires Ready(r, u.from) && NoDeadRoute(r) && u.clk >= 0
    requires Once(u.lines) && forall l :: l in u.lines ==> l.cost >= 0
    ensures NoDeadRoute(Receive(r, u)) <==> !Lured(Opened(r, u), u.from, u.lines)
  {
    OpenedKeepsRoutes(r, u);
    LinesKeepRoutes(Opened(r, u), u.from, u.lines);
    LuredAtTurn(Opened(r, u), u.from, u.lines);
  }

  // ----- whole runs -----

  ghost predicate AllSafe(n: Network) {
    forall h :: h in n.routers ==> NoDeadRoute(n.routers[h])
  }

  /** At no point of the run does any router have a route over a dead link. */
  ghost predicate AlwaysSafe(n: Network, events: seq<Event>)
    requires Coherent(n)
    decreases |events|
  {
    && AllSafe(n)
    && (events != [] ==> (NextKeepsCoherent(n, events[0]); AlwaysSafe(Next(n, events[0]), events[1..])))
  }

  /** Whoever an update arrives at knows its sender for a neighbour. */
  lemma ArrivesReady(n: Network, d: Datagram)
    requires Coherent(n) && d in n.wire && d.to in n.routers
    ensures Ready(n.routers[d.to], d.update.from)
  {
  }

  /** The event is not the arrival of an update that lures its receiver. */
  ghost predicate Harmless(n: Network, e: Event)
    requires Coherent(n)
  {
    e.Arrives? && e.datagram in n.wire && e.datagram.to in n.routers ==>
      var r, u := n.routers[e.datagram.to], e.datagram.update;
      ArrivesReady(n, e.datagram);
      !Lured(Opened(r, u), u.from, u.lines)
  }

  ghost predicate NeverLured(n: Network, events: seq<Event>)
    requires Coherent(n)
    decreases |events|
  {
    events != [] ==>
      Harmless(n, events[0]) && (NextKeepsCoherent(n, events[0]); NeverLured(Next(n, events[0]), events[1..]))
  }

  lemma ReplacedIsSafe(n: Network, h: Host, r: Router)
    requires AllSafe(n) && h in n.routers
    ensures AllSafe(n.(routers := n.routers[h := r])) <==> NoDeadRoute(r)
  {
    var n' := n.(routers := n.routers[h := r]);
    assert n'.routers[h] == r;
  }

  lemma EventKeepsRoutesExactly(file: seq<Link>, n: Network, e: Event)
    requires Inv(file, n) && AllSafe(n)
    ensures AllSafe(Next(n, e)) <==> Harmless(n, e)
  {
    match e
    case Clock(at, lines) =>
      if at in n.routers {
        var r := n.routers[at];
        var r' := r.(updates := r.updates + 1);
        assert forall d :: Unsafe(r', d) <==> Unsafe(r, d);
        ReplacedIsSafe(n, at, r');
      }
    case Arrives(d) =>
      if d in n.wire && d.to in n.routers {
        var r, u := n.routers[d.to], d.update;
        assert UpdateOk(file, u);
        UpdateKeepsRoutesExactly(r, u);
        ReplacedIsSafe(n, d.to, Receive(r, u));
      }
  }

  lemma {:induction false} EventsKeepRoutesExactly(file: seq<Link>, n: Network, events: seq<Event>)
    requires Inv(file, n) && AllSafe(n)
    ensures AlwaysSafe(n, events) <==> NeverLured(n, events)
    decreases |events|
  {
    if events != [] {
      EventKeepsRoutesExactly(file, n, events[0]);
      StepKeeps(file, n, events[0]);
      if AllSafe(Next(n, events[0])) {
        EventsKeepRoutesExactly(file, Next(n, events[0]), events[1..]);
      }
    }
  }

  /** Over every run of a network: no router ever has a route over a dead link, in the sense of `!= INF`, if and only
      if no update that arrives lures its receiver. */
  lemma RunKeepsRoutesExactly(hosts: set<Host>, file: seq<Link>, events: seq<Event>)
    requires Sensible(file)
    ensures AlwaysSafe(Start(hosts, file), events) <==> NeverLured(Start(hosts, file), events)
  {
    StartKeeps(hosts, file);
    EventsKeepRoutesExactly(file, Start(hosts, file), events);
  }
}
