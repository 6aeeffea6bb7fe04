/** A run of a network that ends with a route over a dead link, at a cost above INF that counts as reachable. */
module RoutingDeadRoute {
  import opened Routing
  import opened RoutingSafety
  import opened RoutingLures

  // `a` has links to `b` (2000000), `c` (1) and `d` (10); `d` has cheap links to `b` and `c`.
  const AB: Link := Link("a", "b", 2000000)
  const AC: Link := Link("a", "c", 1)
  const AD: Link := Link("a", "d", 10)
  const CD: Link := Link("c", "d", 2)
  const BD: Link := Link("b", "d", 1)
  const TOPOLOGY: seq<Link> := [AB, AC, AD, CD, BD]

  lemma NextLink(me: Host, k: nat)
    requires k < |TOPOLOGY|
    ensures ReadFile(me, TOPOLOGY[..k + 1]) == ReadLine(me, ReadFile(me, TOPOLOGY[..k]), TOPOLOGY[k])
  {
    assert TOPOLOGY[..k + 1][..k] == TOPOLOGY[..k];
  }

  /** The table `me` starts with, link by link. */
  lemma TableOf(me: Host)
    ensures ReadFile(me, TOPOLOGY) ==
      ReadLine(me, ReadLine(me, ReadLine(me, ReadLine(me, ReadLine(me, map[], AB), AC), AD), CD), BD)
  {
    NextLink(me, 0);
    NextLink(me, 1);
    NextLink(me, 2);
    NextLink(me, 3);
    NextLink(me, 4);
    assert TOPOLOGY[..5] == TOPOLOGY;
  }

  lemma StartOfA()
    ensures Started("a", TOPOLOGY) == Router("a",
      map["b" := Entry("b", 2000000), "c" := Entry("c", 1), "d" := Entry("d", 10)],
      map["b" := 2000000, "c" := 1, "d" := 10], map["b" := 0, "c" := 0, "d" := 0], 0)
  {
    TableOf("a");
    var table := ReadFile("a", TOPOLOGY);
    assert table == map["b" := Entry("b", 2000000), "c" := Entry("c", 1), "d" := Entry("d", 10)];
  }

  lemma StartOfB()
    ensures Started("b", TOPOLOGY).table ==
      map["a" := Entry("a", 2000000), "c" := Entry(UNDEFINED, INF), "d" := Entry("d", 1)]
  {
    TableOf("b");
  }

  lemma StartOfC()
    ensures Started("c", TOPOLOGY).table ==
      map["a" := Entry("a", 1), "b" := Entry(UNDEFINED, INF), "d" := Entry("d", 2)]
  {
    TableOf("c");
  }

  lemma StartOfD()
    ensures Started("d", TOPOLOGY).table ==
      map["a" := Entry("a", 10), "b" := Entry("b", 1), "c" := Entry("c", 2)]
  {
    TableOf("d");
  }

  // ----- what `a` makes of three updates -----

  /** Router `a` with these entries and tracks. */
  function A(b: Entry, c: Entry, d: Entry, tb: int, tc: int, td: int): Router {
    Router("a", map["b" := b, "c" := c, "d" := d], map["b" := 2000000, "c" := 1, "d" := 10],
           map["b" := tb, "c" := tc, "d" := td], 0)
  }

  lemma Known3(b: Entry, c: Entry, d: Entry, tb: int, tc: int, td: int, from: Host)
    requires {b.nextHop, c.nextHop, d.nextHop} <= {"b", "c", "d"} && from in {"b", "c", "d"}
    ensures Ready(A(b, c, d, tb, tc, td), from)
  {
  }

  const B0: Entry := Entry("b", 2000000)
  const C0: Entry := Entry("c", 1)
  const D0: Entry := Entry("d", 10)
  const DOWN: Entry := Entry("c", INF)

  // Each update lists its sender's table in the order of destinations.
  const LINES_B: seq<Line> := [Line("a", "a", 2000000), Line("d", "d", 1)]
  const LINES_C: seq<Line> := [Line("a", "a", 1), Line("d", "d", 2)]
  const LINES_D: seq<Line> := [Line("a", "a", 10), Line("b", "b", 1), Line("c", "c", 2)]

  lemma TwoLines(r: Router, from: Host, l1: Line, l2: Line)
    requires Ready(r, from)
    ensures Via(r, l1.dst, from) ==> from in r.neighbours
    ensures Ready(Learn(r, from, l1), from) && (Via(Learn(r, from, l1), l2.dst, from) ==> from in r.neighbours)
    ensures LearnAll(r, from, [l1, l2]) == Learn(Learn(r, from, l1), from, l2)
  {
    LearnKeepsReady(r, from, l1);
    LearnKeepsReady(Learn(r, from, l1), from, l2);
    assert [l1, l2][1..] == [l2] && [l2][1..] == [];
    assert LearnAll(Learn(r, from, l1), from, [l2]) == LearnAll(Learn(Learn(r, from, l1), from, l2), from, []);
  }

  /** A line about `a` itself changes nothing. */
  lemma OwnLine(r: Router, from: Host, l: Line)
    requires Ready(r, from) && l.dst !in r.table
    ensures Learn(r, from, l) == r
  {
  }

  /** First `c` offers a shorter way to `d`. */
  lemma UpdateFromC()
    ensures Ready(A(B0, C0, D0, 0, 0, 0), "c")
    ensures Receive(A(B0, C0, D0, 0, 0, 0), Update("c", 1, LINES_C)) == A(B0, C0, Entry("c", 3), 0, 1, 0)
  {
    var r := A(B0, C0, D0, 0, 1, 0);
    Known3(B0, C0, D0, 0, 0, 0, "c");
    Known3(B0, C0, D0, 0, 1, 0, "c");
    assert Heard(A(B0, C0, D0, 0, 0, 0), "c", 1) == r;
    assert Failed(r, 1) == r by {
      assert Failed(r, 1).table == r.table && Failed(r, 1).linktrack == r.linktrack;
    }
    TwoLines(r, "c", LINES_C[0], LINES_C[1]);
    OwnLine(r, "c", LINES_C[0]);
    assert Learn(r, "c", LINES_C[1]) == A(B0, C0, Entry("c", 3), 0, 1, 0);
  }

  /** An update from `b` only shows that `b` is up. */
  lemma UpdateFromB()
    ensures Ready(A(B0, C0, Entry("c", 3), 0, 1, 0), "b")
    ensures Receive(A(B0, C0, Entry("c", 3), 0, 1, 0), Update("b", 2, LINES_B)) == A(B0, C0, Entry("c", 3), 2, 1, 0)
  {
    var r := A(B0, C0, Entry("c", 3), 2, 1, 0);
    Known3(B0, C0, Entry("c", 3), 0, 1, 0, "b");
    Known3(B0, C0, Entry("c", 3), 2, 1, 0, "b");
    assert Heard(A(B0, C0, Entry("c", 3), 0, 1, 0), "b", 2) == r;
    assert Failed(r, 2) == r by {
      assert Failed(r, 2).table == r.table && Failed(r, 2).linktrack == r.linktrack;
    }
    TwoLines(r, "b", LINES_B[0], LINES_B[1]);
    OwnLine(r, "b", LINES_B[0]);
    assert Learn(r, "b", LINES_B[1]) == r;
  }

  /** The fifth update from `d` shows `c` to be down: both routes over it are cut. */
  lemma HeaderFromD()
    ensures Failed(Heard(A(B0, C0, Entry("c", 3), 2, 1, 0), "d", 5), 5) == A(B0, DOWN, DOWN, 2, -1, 5)
  {
    assert Heard(A(B0, C0, Entry("c", 3), 2, 1, 0), "d", 5) == A(B0, C0, Entry("c", 3), 2, 1, 5);
    SilenceOfC();
  }

  lemma SilenceOfC()
    ensures Failed(A(B0, C0, Entry("c", 3), 2, 1, 5), 5) == A(B0, DOWN, DOWN, 2, -1, 5)
  {
    var heard, r := A(B0, C0, Entry("c", 3), 2, 1, 5), A(B0, DOWN, DOWN, 2, -1, 5);
    var r' := Failed(heard, 5);
    assert Silent(heard, "c", 5) && !Silent(heard, "b", 5) && !Silent(heard, "d", 5);
    assert r'.linktrack == r.linktrack;
    assert r'.table["b"] == B0 && r'.table["c"] == DOWN && r'.table["d"] == DOWN;
    assert r'.table == r.table;
  }

  /** Its line for `b` is read while the way to `d` is still the one over `c`. */
  lemma LineForB()
    ensures Learn(A(B0, DOWN, DOWN, 2, -1, 5), "d", LINES_D[1]) == A(Entry("c", 1000000), DOWN, D0, 2, -1, 5)
  {
    var r := A(B0, DOWN, DOWN, 2, -1, 5);
    var r2 := Relaxed(Repriced(r, "d", LINES_D[1]), "d", LINES_D[1]);
    assert r2 == A(Entry("c", 1000000), DOWN, DOWN, 2, -1, 5);
  }

  lemma LineForC()
    ensures Learn(A(Entry("c", 1000000), DOWN, D0, 2, -1, 5), "d", LINES_D[2])
      == A(Entry("c", 1000000), Entry("d", 12), D0, 2, -1, 5)
  {
  }

  lemma LinesFromD()
    ensures Ready(A(B0, DOWN, DOWN, 2, -1, 5), "d")
    ensures LearnAll(A(B0, DOWN, DOWN, 2, -1, 5), "d", LINES_D) == A(Entry("c", 1000000), Entry("d", 12), D0, 2, -1, 5)
  {
    var r := A(B0, DOWN, DOWN, 2, -1, 5);
    Known3(B0, DOWN, DOWN, 2, -1, 5, "d");
    OwnLine(r, "d", LINES_D[0]);
    assert LINES_D[1..] == [LINES_D[1], LINES_D[2]];
    TwoLines(r, "d", LINES_D[1], LINES_D[2]);
    LineForB();
    LineForC();
  }

  lemma UpdateFromD()
    ensures Ready(A(B0, C0, Entry("c", 3), 2, 1, 0), "d")
    ensures Receive(A(B0, C0, Entry("c", 3), 2, 1, 0), Update("d", 5, LINES_D))
      == A(Entry("c", 1000000), Entry("d", 12), D0, 2, -1, 5)
  {
    Known3(B0, C0, Entry("c", 3), 2, 1, 0, "d");
    HeaderFromD();
    LinesFromD();
  }

  // ----- the run -----

  function Ticks(at: Host, lines: seq<Line>, k: nat): seq<Event> {
    seq(k, _ => Clock(at, lines))
  }

  lemma StillAdvertises(r: Router, lines: seq<Line>)
    requires Advertises(r, lines)
    ensures Advertises(r.(updates := r.updates + 1), lines)
  {
    var r' := r.(updates := r.updates + 1);
    forall i | 0 <= i < |lines|
      ensures Announced(r', lines[i])
    {
      assert Announced(r, lines[i]);
    }
  }

  /** The network after `k` ticks at `at`, whose router was `r`. */
  ghost predicate Ticked(n: Network, n': Network, at: Host, r: Router, lines: seq<Line>, k: nat) {
    && n'.routers == n.routers[at := r.(updates := r.updates + k)]
    && n.wire <= n'.wire
    && (k > 0 ==> Sent(r.(updates := r.updates + k - 1), lines) <= n'.wire)
  }

  /** A router that hears nothing sends the same lines at every tick. */
  lemma {:induction false} Ticking(n: Network, at: Host, lines: seq<Line>, k: nat)
    requires Coherent(n) && at in n.routers && Advertises(n.routers[at], lines)
    ensures Ticked(n, After(n, Ticks(at, lines, k)), at, n.routers[at], lines, k)
    decreases k
  {
    var r := n.routers[at];
    if k == 0 {
      assert n.routers == n.routers[at := r.(updates := r.updates + 0)];
    } else {
      var r1 := r.(updates := r.updates + 1);
      var n1 := Send(n, at, lines);
      assert Next(n, Clock(at, lines)) == n1 && n1.routers[at] == r1;
      NextKeepsCoherent(n, Clock(at, lines));
      StillAdvertises(r, lines);
      Ticking(n1, at, lines, k - 1);
      FirstTick(n, at, lines, k);
      OneTickMore(n, After(n, Ticks(at, lines, k)), at, r, lines, k);
    }
  }

  lemma FirstTick(n: Network, at: Host, lines: seq<Line>, k: nat)
    requires Coherent(n) && Coherent(Next(n, Clock(at, lines))) && k > 0
    ensures After(n, Ticks(at, lines, k)) == After(Next(n, Clock(at, lines)), Ticks(at, lines, k - 1))
  {
    assert Ticks(at, lines, k)[1..] == Ticks(at, lines, k - 1);
  }

  lemma OneTickMore(n: Network, n': Network, at: Host, r: Router, lines: seq<Line>, k: nat)
    requires at in n.routers && n.routers[at] == r && k > 0
    requires Ticked(Send(n, at, lines), n', at, r.(updates := r.updates + 1), lines, k - 1)
    ensures Ticked(n, n', at, r, lines, k)
  {
    var r1 := r.(updates := r.updates + 1);
    assert r1.(updates := r1.updates + (k - 1)) == r.(updates := r.updates + k);
    assert n.routers[at := r1][at := r.(updates := r.updates + k)] == n.routers[at := r.(updates := r.updates + k)];
    assert Sent(r, lines) <= n'.wire;
    if k > 1 {
      assert r1.(updates := r1.updates + (k - 1) - 1) == r.(updates := r.updates + k - 1);
    } else {
      assert r.(updates := r.updates + k - 1) == r;
    }
  }

  lemma {:induction false} AfterChain(n: Network, first: seq<Event>, second: seq<Event>)
    requires Coherent(n)
    ensures After(n, first + second) == After(After(n, first), second)
    decreases |first|
  {
    if first == [] {
      assert first + second == second;
    } else {
      NextKeepsCoherent(n, first[0]);
      assert (first + second)[1..] == first[1..] + second;
      AfterChain(Next(n, first[0]), first[1..], second);
    }
  }

  const HOSTS: set<Host> := {"a", "b", "c", "d"}
  const FROM_C: Datagram := Datagram("a", Update("c", 1, LINES_C))
  const FROM_B: Datagram := Datagram("a", Update("b", 2, LINES_B))
  const FROM_D: Datagram := Datagram("a", Update("d", 5, LINES_D))

  /** The router has sent nothing yet, would send these lines, and has `a` for a neighbour. */
  ghost predicate Speaks(r: Router, lines: seq<Line>) {
    && Advertises(r, lines) && r.updates == 0
    && "a" in r.neighbours && r.neighbours["a"] != INF
  }

  lemma LastIsSent(r: Router, lines: seq<Line>, k: nat, wire: set<Datagram>)
    requires Speaks(r, lines) && k > 0 && Sent(r.(updates := r.updates + k - 1), lines) <= wire
    ensures Datagram("a", Update(r.me, k, lines)) in wire
  {
    var r' := r.(updates := r.updates + k - 1);
    assert Datagram("a", Update(r'.me, r'.updates + 1, lines)) in Sent(r', lines);
  }

  /** Some run leads from `n` to `n'`. */
  ghost predicate Reached(n: Network, n': Network)
    requires Coherent(n)
  {
    exists events :: After(n, events) == n'
  }

  lemma ReachedThrough(n: Network, n1: Network, n2: Network)
    requires Coherent(n) && Coherent(n1) && Reached(n, n1) && Reached(n1, n2)
    ensures Reached(n, n2)
  {
    var first :| After(n, first) == n1;
    var second :| After(n1, second) == n2;
    AfterChain(n, first, second);
    assert After(n, first + second) == n2;
  }

  /** `n'` comes after `n`: more is on the wire, and only router `at` has changed. */
  ghost predicate Later(n: Network, n': Network, at: Host) {
    && Coherent(n) && Coherent(n') && Reached(n, n') && n'.routers.Keys == n.routers.Keys && n.wire <= n'.wire
    && forall h :: h in n.routers && h != at ==> n'.routers[h] == n.routers[h]
  }

  lemma Speaking(n: Network, at: Host, lines: seq<Line>, k: nat) returns (n': Network)
    requires Coherent(n) && at in n.routers && Speaks(n.routers[at], lines) && k > 0
    ensures Later(n, n', at) && Datagram("a", Update(at, k, lines)) in n'.wire
  {
    Ticking(n, at, lines, k);
    n' := After(n, Ticks(at, lines, k));
    LastIsSent(n.routers[at], lines, k, n'.wire);
  }

  /** The four routers as they start. */
  ghost predicate Ready4(n: Network) {
    && Coherent(n) && n.routers.Keys == HOSTS
    && n.routers["a"] == A(B0, C0, D0, 0, 0, 0)
    && Speaks(n.routers["b"], LINES_B) && Speaks(n.routers["c"], LINES_C) && Speaks(n.routers["d"], LINES_D)
  }

  /** `c` ticks once, `b` twice and `d` five times. */
  lemma AllSpeak(n0: Network) returns (n: Network)
    requires Ready4(n0)
    ensures Coherent(n) && Reached(n0, n)
    ensures "a" in n.routers && n.routers["a"] == n0.routers["a"]
    ensures FROM_C in n.wire && FROM_B in n.wire && FROM_D in n.wire
  {
    var n1 := Speaking(n0, "c", LINES_C, 1);
    assert n1.routers["a"] == n0.routers["a"] && FROM_C in n1.wire;
    var n2 := Speaking(n1, "b", LINES_B, 2);
    assert n2.routers["a"] == n0.routers["a"] && FROM_C in n2.wire && FROM_B in n2.wire;
    n := Speaking(n2, "d", LINES_D, 5);
    assert n.routers["a"] == n0.routers["a"] && FROM_D in n.wire;
    ReachedThrough(n0, n1, n2);
    ReachedThrough(n0, n2, n);
  }

  lemma StartOf(h: Host)
    requires h in HOSTS
    ensures Sensible(TOPOLOGY) && Start(HOSTS, TOPOLOGY).routers[h] == Started(h, TOPOLOGY)
  {
  }

  lemma StartIsReady4()
    ensures Sensible(TOPOLOGY) && Ready4(Start(HOSTS, TOPOLOGY))
  {
    StartOf("a");
    StartOf("b");
    StartOf("c");
    StartOf("d");
    assert Started("a", TOPOLOGY) == A(B0, C0, D0, 0, 0, 0) by {
      StartOfA();
    }
    assert Speaks(Started("b", TOPOLOGY), LINES_B) by {
      BSpeaks();
    }
    assert Speaks(Started("c", TOPOLOGY), LINES_C) by {
      CSpeaks();
    }
    assert Speaks(Started("d", TOPOLOGY), LINES_D) by {
      DSpeaks();
    }
  }

  lemma CSpeaks()
    ensures Speaks(Started("c", TOPOLOGY), LINES_C)
  {
    StartOfC();
    assert LINES_C[0] in LINES_C && LINES_C[1] in LINES_C;
  }

  lemma BSpeaks()
    ensures Speaks(Started("b", TOPOLOGY), LINES_B)
  {
    StartOfB();
    assert LINES_B[0] in LINES_B && LINES_B[1] in LINES_B;
  }

  lemma DSpeaks()
    ensures Speaks(Started("d", TOPOLOGY), LINES_D)
  {
    StartOfD();
    assert LINES_D[0] in LINES_D && LINES_D[1] in LINES_D && LINES_D[2] in LINES_D;
  }

  lemma Arriving(n: Network, d: Datagram, r': Router) returns (n': Network)
    requires Coherent(n) && d in n.wire && d.to == "a" && "a" in n.routers
    requires Ready(n.routers["a"], d.update.from) && Receive(n.routers["a"], d.update) == r'
    ensures Coherent(n') && Reached(n, n') && n'.wire == n.wire && "a" in n'.routers && n'.routers["a"] == r'
  {
    var e := Arrives(d);
    NextKeepsCoherent(n, e);
    n' := Next(n, e);
    assert [e][1..] == [];
    assert After(n, [e]) == After(n', []) == n';
  }

  /** The three updates arrive. */
  lemma AllArrive(n: Network) returns (n': Network)
    requires Coherent(n) && "a" in n.routers && n.routers["a"] == A(B0, C0, D0, 0, 0, 0)
    requires FROM_C in n.wire && FROM_B in n.wire && FROM_D in n.wire
    ensures Coherent(n') && Reached(n, n')
    ensures "a" in n'.routers && n'.routers["a"] == A(Entry("c", 1000000), Entry("d", 12), D0, 2, -1, 5)
  {
    UpdateFromC();
    var n1 := Arriving(n, FROM_C, A(B0, C0, Entry("c", 3), 0, 1, 0));
    UpdateFromB();
    var n2 := Arriving(n1, FROM_B, A(B0, C0, Entry("c", 3), 2, 1, 0));
    UpdateFromD();
    n' := Arriving(n2, FROM_D, A(Entry("c", 1000000), Entry("d", 12), D0, 2, -1, 5));
    ReachedThrough(n, n1, n2);
    ReachedThrough(n, n2, n');
  }

  lemma DeadRouteFrom(n0: Network)
    requires Ready4(n0)
    ensures exists n :: Reached(n0, n) && "a" in n.routers && !NoDeadRoute(n.routers["a"])
  {
    var n1 := AllSpeak(n0);
    var n2 := AllArrive(n1);
    ReachedThrough(n0, n1, n2);
    assert Unsafe(n2.routers["a"], "b");
  }

  /** A run of this network ends with `a` routing to `b` by way of `c`, which it knows to be down, at a cost that
      counts as reachable. */
  lemma DeadRouteIsReached()
    ensures Sensible(TOPOLOGY)
    ensures exists events ::
      var n := After(Start(HOSTS, TOPOLOGY), events); "a" in n.routers && !NoDeadRoute(n.routers["a"])
  {
    StartIsReady4();
    var n0 := Start(HOSTS, TOPOLOGY);
    DeadRouteFrom(n0);
    var n :| Reached(n0, n) && "a" in n.routers && !NoDeadRoute(n.routers["a"]);
    var events :| After(n0, events) == n;
  }
}
