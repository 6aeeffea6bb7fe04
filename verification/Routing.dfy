/** The distance-vector router's tables, as functions on values, and a network of such routers. */
module Routing {
  import opened Collections
  type Host = string

  const INF: int := 999999
  const UNDEFINED: Host := " undefined  "

  datatype Entry = Entry(nextHop: Host, cost: int)

  /** One line of the topology file: a link and its cost. */
  datatype Link = Link(a: Host, b: Host, cost: int)

  /** One line of an update: what the sender pays to reach `dst`, and by which hop. */
  datatype Line = Line(dst: Host, via: Host, cost: int)

  datatype Update = Update(from: Host, clk: int, lines: seq<Line>)

  datatype Router = Router(
    me: Host, table: map<Host, Entry>, neighbours: map<Host, int>, linktrack: map<Host, int>, updates: nat)

  // ----- start-up -----

  /** Link costs are not negative, and no host carries the name kept for an undefined hop. */
  predicate Sensible(file: seq<Link>) {
    forall l :: l in file ==> l.cost >= 0 && l.a != UNDEFINED && l.b != UNDEFINED
  }

  predicate Joins(l: Link, x: Host, y: Host) {
    (l.a == x && l.b == y) || (l.a == y && l.b == x)
  }

  /** The table after one more line of the topology file: own links replace what was there, other hosts are only
      added. */
  function ReadLine(me: Host, table: map<Host, Entry>, l: Link): map<Host, Entry> {
    if l.a == me then table[l.b := Entry(l.b, l.cost)]
    else if l.b == me then table[l.a := Entry(l.a, l.cost)]
    else AddHost(AddHost(table, l.a), l.b)
  }

  function AddHost(table: map<Host, Entry>, h: Host): map<Host, Entry> {
    if h in table then table else table[h := Entry(UNDEFINED, INF)]
  }

  function ReadFile(me: Host, file: seq<Link>): map<Host, Entry> {
    if file == [] then map[] else ReadLine(me, ReadFile(me, file[..|file| - 1]), file[|file| - 1])
  }

  /** The cost of the link between two hosts: the last line of the file that joins them. */
  function LinkCost(file: seq<Link>, x: Host, y: Host): Option<int> {
    if file == [] then None
    else
      var l := file[|file| - 1];
      if Joins(l, x, y) then Some(l.cost) else LinkCost(file[..|file| - 1], x, y)
  }

  lemma {:induction false} LinkIsSensible(file: seq<Link>, x: Host, y: Host)
    requires Sensible(file)
    ensures LinkCost(file, x, y) == LinkCost(file, y, x)
    ensures LinkCost(file, x, y).Some? ==> LinkCost(file, x, y).value >= 0 && x != UNDEFINED && y != UNDEFINED
  {
    if file != [] {
      assert file[|file| - 1] in file;
      LinkIsSensible(file[..|file| - 1], x, y);
    }
  }

  /** As `me` reads it, this line names `h`: on an own link, or on a link of two other hosts. */
  predicate Names(l: Link, me: Host, h: Host) {
    Joins(l, me, h) || (l.a != me && l.b != me && (l.a == h || l.b == h))
  }

  lemma OneMoreLine(me: Host, table: map<Host, Entry>, l: Link, h: Host)
    ensures h in ReadLine(me, table, l) <==> h in table || Names(l, me, h)
    ensures Joins(l, me, h) ==> h in ReadLine(me, table, l) && ReadLine(me, table, l)[h] == Entry(h, l.cost)
    ensures h in ReadLine(me, table, l) && !Joins(l, me, h) ==>
      ReadLine(me, table, l)[h] == if h in table then table[h] else Entry(UNDEFINED, INF)
  {
  }

  /** The table holds exactly the hosts the file names, each with its direct link or undefined. */
  lemma {:induction false} TableIs(me: Host, file: seq<Link>, h: Host)
    ensures h in ReadFile(me, file) <==> exists l :: l in file && Names(l, me, h)
    ensures h in ReadFile(me, file) ==>
      var link := LinkCost(file, me, h);
      ReadFile(me, file)[h] == if link.Some? then Entry(h, link.value) else Entry(UNDEFINED, INF)
    ensures LinkCost(file, me, h).Some? ==> h in ReadFile(me, file)
  {
    if file != [] {
      var n := |file| - 1;
      TableIs(me, file[..n], h);
      assert file == file[..n] + [file[n]];
      OneMoreLine(me, ReadFile(me, file[..n]), file[n], h);
    }
  }

  function Started(me: Host, file: seq<Link>): Router {
    var table := ReadFile(me, file);
    Router(me, table,
           map h | h in table && table[h].cost != INF :: table[h].cost,
           map h | h in table && table[h].cost != INF :: 0,
           0)
  }

  /** The neighbours are exactly the hosts with a direct link of cost other than INF. */
  lemma StartedIs(me: Host, file: seq<Link>, h: Host)
    requires Sensible(file)
    ensures h in Started(me, file).neighbours <==> LinkCost(file, me, h).Some? && LinkCost(file, me, h).value != INF
    ensures h in Started(me, file).neighbours ==> LinkCost(file, me, h) == Some(Started(me, file).neighbours[h])
  {
    TableIs(me, file, h);
  }

  // ----- receiving an update -----

  /** Tracked hosts are neighbours and have an entry; a next hop is a neighbour, undefined, or the destination
      itself. */
  predicate Known(r: Router, d: Host) {
    && (d in r.linktrack <==> d in r.neighbours)
    && (d in r.neighbours ==> d in r.table)
    && (d in r.table ==>
      var hop := r.table[d].nextHop; hop in r.neighbours || hop == UNDEFINED || hop == d)
  }

  ghost predicate WellFormed(r: Router) {
    UNDEFINED !in r.neighbours && forall d :: Known(r, d)
  }

  predicate Via(r: Router, d: Host, hop: Host) {
    d in r.table && r.table[d].nextHop == hop
  }

  /** What the code relies on when it looks up the link to a sender without checking: who is a next hop is a
      neighbour. */
  ghost predicate Admits(r: Router, from: Host) {
    from in r.neighbours || forall d :: !Via(r, d, from)
  }

  ghost predicate Ready(r: Router, from: Host) {
    WellFormed(r) && Admits(r, from)
  }

  predicate Dead(r: Router, h: Host) {
    h in r.linktrack && r.linktrack[h] == -1
  }

  function Put(r: Router, dst: Host, n: Host, c: int): Router {
    r.(table := r.table[dst := Entry(n, c)])
  }

  /** The sender is up: its link is restored if it was down, and its clock noted. */
  function Heard(r: Router, from: Host, clk: int): Router
    requires from in r.linktrack ==> from in r.neighbours
  {
    if from !in r.linktrack then r
    else
      var restored := if r.linktrack[from] == -1 then Put(r, from, from, r.neighbours[from]) else r;
      restored.(linktrack := r.linktrack[from := clk])
  }

  /** Neighbours whose last update is more than three behind. */
  predicate Silent(r: Router, h: Host, clk: int) {
    h in r.linktrack && r.linktrack[h] != -1 && r.linktrack[h] + 3 < clk
  }

  /** Silent links are marked down, and every entry for or through one is unreachable. */
  function Failed(r: Router, clk: int): Router {
    r.(linktrack := map h | h in r.linktrack :: if Silent(r, h, clk) then -1 else r.linktrack[h],
       table := map d | d in r.table ::
         if Silent(r, d, clk) then Entry(d, INF)
         else if Silent(r, r.table[d].nextHop, clk) then Entry(r.table[d].nextHop, INF)
         else r.table[d])
  }

  /** Case 1: a path that goes through the sender takes the sender's new cost. */
  function Repriced(r: Router, from: Host, l: Line): Router
    requires Via(r, l.dst, from) ==> from in r.neighbours
  {
    if Via(r, l.dst, from) && l.via != r.me then Put(r, l.dst, from, r.neighbours[from] + l.cost) else r
  }

  /** Case 2: a cheaper path by way of the sender. */
  function Relaxed(r: Router, from: Host, l: Line): Router
    requires l.dst in r.table && from in r.table
  {
    var cost := r.table[from].cost + l.cost;
    if cost < r.table[l.dst].cost && l.via != r.me then Put(r, l.dst, r.table[from].nextHop, cost) else r
  }

  /** Case 3: the link to the sender itself is cheaper. */
  function Shortcut(r: Router, from: Host): Router
    requires from in r.table
  {
    if from in r.neighbours && r.neighbours[from] < r.table[from].cost
    then Put(r, from, from, r.neighbours[from])
    else r
  }

  function Learn(r: Router, from: Host, l: Line): Router
    requires Via(r, l.dst, from) ==> from in r.neighbours
  {
    if l.dst in r.table && from in r.table then Shortcut(Relaxed(Repriced(r, from, l), from, l), from) else r
  }

  function LearnAll(r: Router, from: Host, lines: seq<Line>): Router
    requires Ready(r, from)
    decreases |lines|
  {
    if lines == [] then r
    else
      LearnKeepsReady(r, from, lines[0]);
      LearnAll(Learn(r, from, lines[0]), from, lines[1..])
  }

  function Receive(r: Router, u: Update): Router
    requires Ready(r, u.from)
  {
    assert Known(r, u.from);
    HeardKeepsReady(r, u.from, u.clk);
    FailedKeepsReady(Heard(r, u.from, u.clk), u.from, u.clk);
    LearnAll(Failed(Heard(r, u.from, u.clk), u.clk), u.from, u.lines)
  }

  // ----- every lookup the code makes without checking is valid -----

  /** An update changes costs, hops and tracks, nothing else. */
  predicate Same(r: Router, r': Router) {
    r'.me == r.me && r'.neighbours == r.neighbours && r'.updates == r.updates
  }

  lemma PutKeepsReady(r: Router, from: Host, dst: Host, n: Host, c: int)
    requires Ready(r, from) && dst in r.table
    requires n in r.neighbours || (n == UNDEFINED && n != from)
    ensures Ready(Put(r, dst, n, c), from)
  {
    var r' := Put(r, dst, n, c);
    forall d
      ensures Known(r', d) && (!Via(r, d, from) && from !in r.neighbours ==> !Via(r', d, from))
    {
      assert Known(r, d);
    }
  }

  lemma HeardKeepsReady(r: Router, from: Host, clk: int)
    requires Ready(r, from)
    ensures from in r.linktrack ==> from in r.neighbours
    ensures Ready(Heard(r, from, clk), from) && Same(r, Heard(r, from, clk))
  {
    assert Known(r, from);
    if from in r.linktrack {
      PutKeepsReady(r, from, from, from, r.neighbours[from]);
      var restored := if r.linktrack[from] == -1 then Put(r, from, from, r.neighbours[from]) else r;
      var r' := restored.(linktrack := r.linktrack[from := clk]);
      forall d
        ensures Known(r', d)
      {
        assert Known(restored, d);
      }
    }
  }

  lemma FailedKeepsReady(r: Router, from: Host, clk: int)
    requires Ready(r, from)
    ensures Ready(Failed(r, clk), from) && Same(r, Failed(r, clk))
  {
    var r' := Failed(r, clk);
    forall d
      ensures Known(r', d) && (!Via(r, d, from) && from !in r.neighbours ==> !Via(r', d, from))
    {
      assert Known(r, d);
    }
  }

  lemma LearnKeepsReady(r: Router, from: Host, l: Line)
    requires Ready(r, from)
    ensures Via(r, l.dst, from) ==> from in r.neighbours
    ensures Ready(Learn(r, from, l), from) && Same(r, Learn(r, from, l)) && Learn(r, from, l).linktrack == r.linktrack
  {
    if l.dst in r.table && from in r.table {
      RepricedKeepsReady(r, from, l);
      var r1 := Repriced(r, from, l);
      RelaxedKeepsReady(r1, from, l);
      var r2 := Relaxed(r1, from, l);
      if from in r2.neighbours {
        PutKeepsReady(r2, from, from, from, r2.neighbours[from]);
      }
    }
  }

  lemma RepricedKeepsReady(r: Router, from: Host, l: Line)
    requires Ready(r, from) && l.dst in r.table
    ensures Via(r, l.dst, from) ==> from in r.neighbours
    ensures Ready(Repriced(r, from, l), from) && Same(r, Repriced(r, from, l))
  {
    if Via(r, l.dst, from) {
      PutKeepsReady(r, from, l.dst, from, r.neighbours[from] + l.cost);
    }
  }

  lemma RelaxedKeepsReady(r: Router, from: Host, l: Line)
    requires Ready(r, from) && l.dst in r.table && from in r.table
    ensures Ready(Relaxed(r, from, l), from) && Same(r, Relaxed(r, from, l))
  {
    assert Known(r, from) && (from in r.neighbours || !Via(r, from, from));
    PutKeepsReady(r, from, l.dst, r.table[from].nextHop, r.table[from].cost + l.cost);
  }

  lemma {:induction false} LearnAllKeepsReady(r: Router, from: Host, lines: seq<Line>)
    requires Ready(r, from)
    ensures Ready(LearnAll(r, from, lines), from) && Same(r, LearnAll(r, from, lines))
    ensures LearnAll(r, from, lines).linktrack == r.linktrack
    decreases |lines|
  {
    if lines != [] {
      LearnKeepsReady(r, from, lines[0]);
      LearnAllKeepsReady(Learn(r, from, lines[0]), from, lines[1..]);
    }
  }

  /** An update from a neighbour, or from a host that is nobody's next hop, keeps it so. */
  lemma ReceiveKeepsReady(r: Router, u: Update)
    requires Ready(r, u.from)
    ensures Ready(Receive(r, u), u.from) && Same(r, Receive(r, u))
  {
    HeardKeepsReady(r, u.from, u.clk);
    FailedKeepsReady(Heard(r, u.from, u.clk), u.from, u.clk);
    LearnAllKeepsReady(Failed(Heard(r, u.from, u.clk), u.clk), u.from, u.lines);
  }

  // ----- sending one -----

  /** No two lines are about the same destination. */
  predicate Once(lines: seq<Line>) {
    forall i, j :: 0 <= i < j < |lines| ==> lines[i].dst != lines[j].dst
  }

  /** The lines of an update: every entry that is not exactly INF, once, in any order. */
  ghost predicate Advertises(r: Router, lines: seq<Line>) {
    && Once(lines)
    && (forall i :: 0 <= i < |lines| ==> Announced(r, lines[i]))
    && (forall d :: d in r.table && r.table[d].cost != INF ==> Line(d, r.table[d].nextHop, r.table[d].cost) in lines)
  }

  predicate Announced(r: Router, l: Line) {
    l.dst in r.table && r.table[l.dst] == Entry(l.via, l.cost) && l.cost != INF
  }

  // ----- a network of routers -----

  datatype Datagram = Datagram(to: Host, update: Update)

  /** Everything ever sent stays on the wire: an update may arrive never, once, again, or late. */
  datatype Network = Network(routers: map<Host, Router>, wire: set<Datagram>)

  datatype Event = Clock(at: Host, lines: seq<Line>) | Arrives(datagram: Datagram)

  /** Links are known at both ends, and what is on the wire goes from a neighbour to a neighbour. */
  ghost predicate Coherent(n: Network) {
    && (forall h :: h in n.routers ==> WellFormed(n.routers[h]) && n.routers[h].me == h)
    && (forall h, k :: h in n.routers && k in n.routers ==>
      (k in n.routers[h].neighbours ==> h in n.routers[k].neighbours))
    && (forall d :: d in n.wire && d.to in n.routers ==> d.update.from in n.routers[d.to].neighbours)
  }

  /** One router's update goes out to all its neighbours. */
  function Sent(r: Router, lines: seq<Line>): set<Datagram> {
    set h | h in r.neighbours && r.neighbours[h] != INF :: Datagram(h, Update(r.me, r.updates + 1, lines))
  }

  /** A clock tick at `at`: it sends these lines to its neighbours. */
  function Send(n: Network, at: Host, lines: seq<Line>): Network
    requires at in n.routers
  {
    var r := n.routers[at];
    Network(n.routers[at := r.(updates := r.updates + 1)], n.wire + Sent(r, lines))
  }

  function Deliver(n: Network, d: Datagram): Network
    requires d.to in n.routers && Ready(n.routers[d.to], d.update.from)
  {
    n.(routers := n.routers[d.to := Receive(n.routers[d.to], d.update)])
  }

  ghost function Next(n: Network, e: Event): Network
    requires Coherent(n)
  {
    match e
    case Clock(at, lines) => if at in n.routers && Advertises(n.routers[at], lines) then Send(n, at, lines) else n
    case Arrives(d) => if d in n.wire && d.to in n.routers then Deliver(n, d) else n
  }

  /** A router whose costs, hops and tracks have changed fits in as before. */
  lemma ReplacedIsCoherent(n: Network, h: Host, r: Router)
    requires Coherent(n) && h in n.routers
    requires WellFormed(r) && r.me == h && r.neighbours == n.routers[h].neighbours
    ensures Coherent(n.(routers := n.routers[h := r])) && n.routers[h := r].Keys == n.routers.Keys
  {
  }

  lemma NextKeepsCoherent(n: Network, e: Event)
    requires Coherent(n)
    ensures Coherent(Next(n, e)) && Next(n, e).routers.Keys == n.routers.Keys
  {
    match e
    case Clock(at, lines) =>
      if at in n.routers {
        var r := n.routers[at];
        var r' := r.(updates := r.updates + 1);
        assert WellFormed(r') by {
          forall d
            ensures Known(r', d)
          {
            assert Known(r, d);
          }
        }
        ReplacedIsCoherent(n, at, r');
      }
    case Arrives(d) =>
      if d in n.wire && d.to in n.routers {
        ReceiveKeepsReady(n.routers[d.to], d.update);
        ReplacedIsCoherent(n, d.to, Receive(n.routers[d.to], d.update));
      }
  }

  ghost function After(n: Network, events: seq<Event>): (n': Network)
    requires Coherent(n)
    ensures Coherent(n') && n'.routers.Keys == n.routers.Keys
    decreases |events|
  {
    if events == [] then n
    else
      NextKeepsCoherent(n, events[0]);
      After(Next(n, events[0]), events[1..])
  }

  lemma StartedIsWellFormed(me: Host, file: seq<Link>)
    requires Sensible(file)
    ensures WellFormed(Started(me, file))
  {
    forall d
      ensures Known(Started(me, file), d)
    {
      TableIs(me, file, d);
    }
    StartedIs(me, file, UNDEFINED);
    LinkIsSensible(file, me, UNDEFINED);
  }

  lemma NeighboursAreMutual(file: seq<Link>, h: Host, k: Host)
    requires Sensible(file)
    ensures k in Started(h, file).neighbours <==> h in Started(k, file).neighbours
  {
    StartedIs(h, file, k);
    StartedIs(k, file, h);
    LinkIsSensible(file, h, k);
  }

  lemma StartIsCoherent(hosts: set<Host>, file: seq<Link>)
    requires Sensible(file)
    ensures Coherent(Network(map h | h in hosts :: Started(h, file), {}))
  {
    forall h | h in hosts
      ensures WellFormed(Started(h, file))
    {
      StartedIsWellFormed(h, file);
    }
    forall h, k
      ensures k in Started(h, file).neighbours <==> h in Started(k, file).neighbours
    {
      NeighboursAreMutual(file, h, k);
    }
  }

  /** Routers that have all read the same topology file, before any update. */
  function Start(hosts: set<Host>, file: seq<Link>): (n: Network)
    requires Sensible(file)
    ensures Coherent(n) && n.routers.Keys == hosts
  {
    StartIsCoherent(hosts, file);
    Network(map h | h in hosts :: Started(h, file), {})
  }
}
