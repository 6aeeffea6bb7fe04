/** The router as it runs: a table of entries updated one by one through setters. Each routine is proved against the
    function on values of the same name. */
module RoutingCode {
  import opened Routing

  class RouteEntry {
    var nextHop: Host
    var cost: int

    constructor (n: Host, c: int)
      ensures nextHop == n && cost == c
    {
      nextHop, cost := n, c;
    }
  }

  /** The neighbours among these hosts, with their costs, */
  ghost function Reached(costs: map<Host, Entry>, hosts: set<Host>): map<Host, int> {
    map h | h in hosts && h in costs && costs[h].cost != INF :: costs[h].cost
  }

  /** and each last heard at clock 0. */
  ghost function Heard0(costs: map<Host, Entry>, hosts: set<Host>): map<Host, int> {
    map h | h in hosts && h in costs && costs[h].cost != INF :: 0
  }

  lemma ReachedStep(costs: map<Host, Entry>, done: set<Host>, h: Host)
    requires h in costs
    ensures Reached(costs, done + {h}) ==
      if costs[h].cost != INF then Reached(costs, done)[h := costs[h].cost] else Reached(costs, done)
    ensures Heard0(costs, done + {h}) ==
      if costs[h].cost != INF then Heard0(costs, done)[h := 0] else Heard0(costs, done)
  {
  }

  /** The table when the routes over `hop` of these destinations have been cut. */
  ghost function Severed(table: map<Host, Entry>, done: set<Host>, hop: Host): map<Host, Entry> {
    map d | d in table :: if d in done && table[d].nextHop == hop then Entry(hop, INF) else table[d]
  }

  lemma SeveredStep(table: map<Host, Entry>, done: set<Host>, hop: Host, d: Host)
    requires d in table && d !in done
    ensures var now := Severed(table, done, hop);
      && now[d] == table[d]
      && Severed(table, done + {d}, hop) == if table[d].nextHop == hop then now[d := Entry(hop, INF)] else now
  {
  }

  /** The router when only these tracked neighbours have been looked at. */
  ghost function FailedAmong(r: Router, done: set<Host>, clk: int): Router {
    r.(linktrack := map h | h in r.linktrack :: if h in done && Silent(r, h, clk) then -1 else r.linktrack[h],
       table := map d | d in r.table ::
         if d in done && Silent(r, d, clk) then Entry(d, INF)
         else if r.table[d].nextHop in done && Silent(r, r.table[d].nextHop, clk) then Entry(r.table[d].nextHop, INF)
         else r.table[d])
  }

  lemma FailedStep(r: Router, done: set<Host>, clk: int, h: Host)
    requires WellFormed(r) && h in r.linktrack && h !in done && Silent(r, h, clk)
    ensures var now := FailedAmong(r, done, clk);
      FailedAmong(r, done + {h}, clk)
      == now.(linktrack := now.linktrack[h := -1], table := Severed(now.table[h := Entry(h, INF)], now.table.Keys, h))
  {
    var now := FailedAmong(r, done, clk);
    var next := FailedAmong(r, done + {h}, clk);
    assert Known(r, h);
    assert next.linktrack == now.linktrack[h := -1];
    assert next.table == Severed(now.table[h := Entry(h, INF)], now.table.Keys, h);
  }

  lemma FailedNoStep(r: Router, done: set<Host>, clk: int, h: Host)
    requires !Silent(r, h, clk)
    ensures FailedAmong(r, done + {h}, clk) == FailedAmong(r, done, clk)
  {
    var now := FailedAmong(r, done, clk);
    var next := FailedAmong(r, done + {h}, clk);
    assert next.linktrack == now.linktrack && next.table == now.table;
  }

  lemma FailedAmongNone(r: Router, clk: int)
    ensures FailedAmong(r, {}, clk) == r
  {
    var none := FailedAmong(r, {}, clk);
    assert none.linktrack == r.linktrack && none.table == r.table;
  }

  lemma FailedAmongAll(r: Router, clk: int)
    requires WellFormed(r)
    ensures FailedAmong(r, r.linktrack.Keys, clk) == Failed(r, clk)
  {
    var all := FailedAmong(r, r.linktrack.Keys, clk);
    assert all.linktrack == Failed(r, clk).linktrack;
    assert all.table == Failed(r, clk).table;
  }

  class RouterNode {
    const me: Host
    var table: map<Host, RouteEntry>
    var neighbours: map<Host, int>
    var linktrack: map<Host, int>
    var updates: nat
    ghost var costs: map<Host, Entry>  // what the entries hold

    ghost predicate Mirrors(d: Host)
      reads this`table, this`costs, table.Values
    {
      && (d in table <==> d in costs)
      && (d in table ==> costs[d] == Entry(table[d].nextHop, table[d].cost))
    }

    /** No two destinations share an entry. */
    ghost predicate Valid()
      reads this`table, this`costs, table.Values
    {
      && (forall d :: Mirrors(d))
      && (forall c, d :: c in table && d in table && c != d ==> table[c] != table[d])
    }

    ghost function View(): Router
      reads this
    {
      Router(me, costs, neighbours, linktrack, updates)
    }

    /** `initRoutingTable`. */
    constructor (me: Host, file: seq<Link>)
      ensures Valid() && View() == Started(me, file) && fresh(table.Values)
    {
      this.me := me;
      table, neighbours, linktrack, updates, costs := map[], map[], map[], 0, map[];
      new;
      ReadTopology(file);
      NoteNeighbours();
    }

    method ReadTopology(file: seq<Link>)
      requires Valid() && table == map[] && costs == map[]
      modifies this`table, this`costs
      ensures Valid() && costs == ReadFile(me, file) && fresh(table.Values)
    {
      for i := 0 to |file|
        invariant Valid() && fresh(table.Values) && costs == ReadFile(me, file[..i])
      {
        assert file[..i + 1][..i] == file[..i];
        HandleLink(file[i]);
      }
      assert file[..|file|] == file;
    }

    method HandleLink(l: Link)
      requires Valid()
      modifies this`table, this`costs
      ensures Valid() && costs == ReadLine(me, old(costs), l) && fresh(table.Values - old(table.Values))
    {
      if l.a == me {
        Put(l.b, l.b, l.cost);
      } else if l.b == me {
        Put(l.a, l.a, l.cost);
      } else {
        PutIfAbsent(l.a);
        PutIfAbsent(l.b);
      }
    }

    /** Every host with a cost is a neighbour, heard at clock 0. */
    method NoteNeighbours()
      requires Valid() && neighbours == map[] && linktrack == map[]
      modifies this`neighbours, this`linktrack
      ensures Valid()
      ensures linktrack == Heard0(costs, costs.Keys) && neighbours == Reached(costs, costs.Keys)
    {
      ghost var done := {};
      var todo := table.Keys;
      while todo != {}
        invariant Valid() && todo !! done && todo + done == table.Keys
        invariant linktrack == Heard0(costs, done) && neighbours == Reached(costs, done)
      {
        var h :| h in todo;
        assert Mirrors(h);
        ReachedStep(costs, done, h);
        if table[h].cost != INF {
          linktrack := linktrack[h := 0];
          neighbours := neighbours[h := table[h].cost];
        }
        todo, done := todo - {h}, done + {h};
      }
      AllMirrored(done);
    }

    lemma AllMirrored(hosts: set<Host>)
      requires Valid() && hosts == table.Keys
      ensures hosts == costs.Keys
    {
      forall h
        ensures h in hosts <==> h in costs
      {
        assert Mirrors(h);
      }
    }

    /** Erases an old entry and inserts a new one. */
    method Put(d: Host, n: Host, c: int)
      requires Valid()
      modifies this`table, this`costs
      ensures Valid() && costs == old(costs)[d := Entry(n, c)] && fresh(table.Values - old(table.Values))
    {
      var e := new RouteEntry(n, c);
      table := table[d := e];
      costs := costs[d := Entry(n, c)];
      forall h
        ensures Mirrors(h)
      {
        assert old(Mirrors(h));
      }
    }

    method PutIfAbsent(d: Host)
      requires Valid()
      modifies this`table, this`costs
      ensures Valid() && costs == AddHost(old(costs), d) && fresh(table.Values - old(table.Values))
    {
      assert Mirrors(d);
      if d !in table {
        Put(d, UNDEFINED, INF);
      }
    }

    method SetEntry(d: Host, n: Host, c: int)
      requires Valid() && d in table
      modifies this`costs, table[d]
      ensures Valid() && costs == old(costs)[d := Entry(n, c)]
    {
      var e := table[d];
      e.nextHop := n;
      e.cost := c;
      costs := costs[d := Entry(n, c)];
      forall h
        ensures Mirrors(h)
      {
        assert old(Mirrors(h));
      }
    }

    method SetCost(d: Host, c: int)
      requires Valid() && d in table
      modifies this`costs, table[d]
      ensures Valid() && d in old(costs) && costs == old(costs)[d := old(costs)[d].(cost := c)]
    {
      assert Mirrors(d);
      var e := table[d];
      e.cost := c;
      costs := costs[d := costs[d].(cost := c)];
      forall h
        ensures Mirrors(h)
      {
        assert old(Mirrors(h));
      }
    }

    method HandleHeard(from: Host, clk: int)
      requires Valid() && (from in linktrack ==> from in neighbours && from in table)
      modifies this`linktrack, this`costs, table.Values
      ensures Valid() && View() == Heard(old(View()), from, clk)
    {
      if from in linktrack {
        if linktrack[from] == -1 {
          SetEntry(from, from, neighbours[from]);
        }
        linktrack := linktrack[from := clk];
      }
    }

    /** Every route over `hop` becomes unreachable. */
    method Sever(hop: Host)
      requires Valid()
      modifies this`costs, table.Values
      ensures Valid() && costs == Severed(old(costs), old(costs).Keys, hop)
    {
      ghost var was, done := costs, {};
      var todo := table.Keys;
      while todo != {}
        invariant Valid() && todo !! done && todo + done == table.Keys
        invariant costs == Severed(was, done, hop)
      {
        var j :| j in todo;
        assert Mirrors(j);
        SeveredStep(was, done, hop, j);
        if table[j].nextHop == hop {
          SetCost(j, INF);
        }
        todo, done := todo - {j}, done + {j};
      }
      AllMirrored(done);
    }

    /** The link to `h` has failed. */
    method Fail(h: Host)
      requires Valid() && h in table
      modifies this`linktrack, this`costs, table.Values
      ensures Valid() && linktrack == old(linktrack)[h := -1]
      ensures costs == Severed(old(costs)[h := Entry(h, INF)], old(costs).Keys, h)
    {
      assert Mirrors(h);
      linktrack := linktrack[h := -1];
      SetEntry(h, h, INF);
      assert costs.Keys == old(costs).Keys;
      Sever(h);
    }

    /** One turn of the failure detection loop. */
    method Track(h: Host, clk: int, ghost r: Router, ghost done: set<Host>)
      requires Valid() && WellFormed(r) && h in r.linktrack && h !in done && View() == FailedAmong(r, done, clk)
      modifies this`linktrack, this`costs, table.Values
      ensures Valid() && View() == FailedAmong(r, done + {h}, clk)
    {
      assert Known(r, h) && Mirrors(h);
      assert linktrack[h] == r.linktrack[h];
      if linktrack[h] == -1 {
        FailedNoStep(r, done, clk, h);
      } else if linktrack[h] + 3 < clk {
        FailedStep(r, done, clk, h);
        Fail(h);
      } else {
        FailedNoStep(r, done, clk, h);
      }
    }

    method HandleSilence(clk: int)
      requires Valid() && WellFormed(View())
      modifies this`linktrack, this`costs, table.Values
      ensures Valid() && View() == Failed(old(View()), clk)
    {
      ghost var r, done := View(), {};
      FailedAmongNone(r, clk);
      var todo := linktrack.Keys;
      while todo != {}
        invariant todo !! done && todo + done == r.linktrack.Keys
        invariant Valid() && View() == FailedAmong(r, done, clk)
      {
        var h :| h in todo;
        Track(h, clk, r, done);
        todo, done := todo - {h}, done + {h};
      }
      assert done == r.linktrack.Keys;
      FailedAmongAll(r, clk);
    }

    /** Case 1. */
    method Reprice(from: Host, l: Line)
      requires Valid() && l.dst in table && (Via(View(), l.dst, from) ==> from in neighbours)
      modifies this`costs, table.Values
      ensures Valid() && View() == Repriced(old(View()), from, l)
    {
      assert Mirrors(l.dst);
      if table[l.dst].nextHop == from && l.via != me {
        var w := neighbours[from];
        SetCost(l.dst, w + l.cost);
      }
    }

    /** Case 2. */
    method Relax(from: Host, l: Line)
      requires Valid() && l.dst in costs && from in costs
      modifies this`costs, table.Values
      ensures Valid() && View() == Relaxed(old(View()), from, l)
    {
      assert Mirrors(l.dst) && Mirrors(from);
      var costToSender := table[from].cost;
      var newCost := costToSender + l.cost;
      if newCost < table[l.dst].cost && l.via != me {
        SetEntry(l.dst, table[from].nextHop, newCost);
      }
    }

    /** Case 3. */
    method TakeShortcut(from: Host)
      requires Valid() && from in costs
      modifies this`costs, table.Values
      ensures Valid() && View() == Shortcut(old(View()), from)
    {
      assert Mirrors(from);
      if from !in neighbours {
        return;
      }
      var edgeCost := neighbours[from];
      if edgeCost < table[from].cost {
        SetEntry(from, from, edgeCost);
      }
    }

    method HandleLine(from: Host, l: Line)
      requires Valid() && (Via(View(), l.dst, from) ==> from in neighbours)
      modifies this`costs, table.Values
      ensures Valid() && View() == Learn(old(View()), from, l)
    {
      assert Mirrors(l.dst) && Mirrors(from);
      if l.dst in table && from in table {
        Reprice(from, l);
        Relax(from, l);
        TakeShortcut(from);
      }
    }

    /** `updateRoutingTable`. */
    method HandleUpdate(u: Update)
      requires Valid() && Ready(View(), u.from)
      modifies this`linktrack, this`costs, table.Values
      ensures Valid() && View() == Receive(old(View()), u)
    {
      ghost var r := View();
      assert Known(r, u.from) && Mirrors(u.from);
      HeardKeepsReady(r, u.from, u.clk);
      FailedKeepsReady(Heard(r, u.from, u.clk), u.from, u.clk);
      HandleHeard(u.from, u.clk);
      HandleSilence(u.clk);
      ghost var final := LearnAll(View(), u.from, u.lines);
      for i := 0 to |u.lines|
        invariant Valid() && Ready(View(), u.from) && LearnAll(View(), u.from, u.lines[i..]) == final
      {
        assert u.lines[i..][1..] == u.lines[i + 1..];
        LearnKeepsReady(View(), u.from, u.lines[i]);
        HandleLine(u.from, u.lines[i]);
      }
    }

    method CollectLines() returns (lines: seq<Line>)
      requires Valid()
      ensures Advertises(View(), lines)
    {
      lines := [];
      ghost var done := {};
      var todo := table.Keys;
      while todo != {}
        invariant todo !! done && todo + done == table.Keys
        invariant forall i :: 0 <= i < |lines| ==> Announced(View(), lines[i]) && lines[i].dst in done
        invariant Once(lines)
        invariant forall d :: d in done && d in costs && costs[d].cost != INF ==>
          Line(d, costs[d].nextHop, costs[d].cost) in lines
      {
        var d :| d in todo;
        assert Mirrors(d);
        var e := table[d];
        if e.cost != INF {
          var l := Line(d, e.nextHop, e.cost);
          lines := lines + [l];
          assert lines[|lines| - 1] == l;
        }
        todo, done := todo - {d}, done + {d};
      }
      AllMirrored(done);
    }

    /** `sendRoutingUpdates`. */
    method HandleClock() returns (out: set<Datagram>, lines: seq<Line>)
      requires Valid()
      modifies this`updates
      ensures Valid() && View() == old(View()).(updates := old(updates) + 1)
      ensures Advertises(old(View()), lines) && out == Sent(old(View()), lines)
    {
      lines := CollectLines();
      updates := updates + 1;
      out := {};
      ghost var done := {};
      var todo := neighbours.Keys;
      while todo != {}
        invariant todo !! done && todo + done == neighbours.Keys
        invariant out == set h | h in done && neighbours[h] != INF :: Datagram(h, Update(me, updates, lines))
      {
        var h :| h in todo;
        if neighbours[h] != INF {
          out := out + {Datagram(h, Update(me, updates, lines))};
        }
        todo, done := todo - {h}, done + {h};
      }
      assert done == neighbours.Keys;
    }
  }
}
