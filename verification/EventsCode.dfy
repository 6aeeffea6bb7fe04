/** The emulator's event list as it is stored: nodes linked both ways, spliced in place. */
module EventsCode {
  import opened Collections
  import opened Packets
  import opened Events

  class EventNode {
    const event: Event
    var prev: EventNode?
    var next: EventNode?

    constructor (e: Event)
      ensures event == e && prev == null && next == null
    {
      event := e;
      prev, next := null, null;
    }
  }

  ghost function Following(nodes: seq<EventNode>, i: int): EventNode?
    requires 0 <= i < |nodes|
  {
    if i + 1 < |nodes| then nodes[i + 1] else null
  }

  ghost function Preceding(nodes: seq<EventNode>, i: int): EventNode?
    requires 0 <= i < |nodes|
  {
    if i > 0 then nodes[i - 1] else null
  }

  /** The nodes carry these events. */
  ghost predicate Carry(nodes: seq<EventNode>, events: seq<Event>) {
    |nodes| == |events| && forall i :: 0 <= i < |nodes| ==> nodes[i].event == events[i]
  }

  /** Node i of the chain is linked to its neighbours on both sides. */
  ghost predicate LinkedAt(nodes: seq<EventNode>, i: int)
    requires 0 <= i < |nodes|
    reads nodes
  {
    nodes[i].next == Following(nodes, i) && nodes[i].prev == Preceding(nodes, i)
  }

  ghost predicate Linked(nodes: seq<EventNode>)
    reads nodes
  {
    forall i :: 0 <= i < |nodes| ==> LinkedAt(nodes, i)
  }

  // ----- a chain with one node more or less -----

  /** The chain after the four pointer writes that put `p` between the nodes k - 1 and k. */
  ghost predicate SplicedAt(was: seq<EventNode>, k: nat, p: EventNode, i: int)
    requires 0 <= i < |was|
    reads was
  {
    && was[i].next == (if i == k - 1 then p else Following(was, i))
    && was[i].prev == (if i == k then p else Preceding(was, i))
  }

  lemma SplicedIsLinked(was: seq<EventNode>, k: nat, p: EventNode)
    requires 0 < k < |was| && p.next == was[k] && p.prev == was[k - 1]
    requires forall i :: 0 <= i < |was| ==> SplicedAt(was, k, p, i)
    ensures Linked(With(was, k, p))
  {
    var now := With(was, k, p);
    forall i | 0 <= i < |now|
      ensures LinkedAt(now, i)
    {
      if i < k {
        assert SplicedAt(was, k, p, i);
      } else if i > k {
        assert SplicedAt(was, k, p, i - 1);
      }
    }
  }

  /** The chain after the pointer writes that bypass node k. */
  ghost predicate BypassedAt(was: seq<EventNode>, k: nat, i: int)
    requires 0 <= i < |was| && k < |was|
    reads was
  {
    && was[i].next == (if i == k - 1 then Following(was, k) else Following(was, i))
    && was[i].prev == (if i == k + 1 then Preceding(was, k) else Preceding(was, i))
  }

  lemma BypassedIsLinked(was: seq<EventNode>, k: nat)
    requires k < |was|
    requires forall i :: 0 <= i < |was| && i != k ==> BypassedAt(was, k, i)
    ensures Linked(Without(was, k))
  {
    var now := Without(was, k);
    forall i | 0 <= i < |now|
      ensures LinkedAt(now, i)
    {
      assert BypassedAt(was, k, if i < k then i else i + 1);
    }
  }

  lemma WithKeeps(was: seq<EventNode>, events: seq<Event>, k: nat, p: EventNode)
    requires k <= |was| && Carry(was, events) && Distinct(was) && p !in was
    ensures Carry(With(was, k, p), With(events, k, p.event)) && Distinct(With(was, k, p))
    ensures forall n :: n in With(was, k, p) ==> n == p || n in was
  {
  }

  lemma CutKeeps(was: seq<EventNode>, events: seq<Event>, k: nat)
    requires k < |was| && Carry(was, events) && Distinct(was)
    ensures Carry(Without(was, k), Without(events, k)) && Distinct(Without(was, k))
    ensures forall n :: n in Without(was, k) ==> n in was
  {
  }

  // ----- positions found by the loops -----

  lemma {:induction false} InsertAt(events: seq<Event>, e: Event, k: nat)
    requires k <= |events| && forall i :: 0 <= i < k ==> e.time > events[i].time
    requires k < |events| ==> e.time <= events[k].time
    ensures Insert(events, e) == events[..k] + [e] + events[k..]
  {
    if k > 0 {
      InsertAt(events[1..], e, k - 1);
      assert events[..k] == [events[0]] + events[1..][..k - 1];
    } else {
      assert events[..0] + [e] + events[0..] == [e] + events;
    }
  }

  lemma {:induction false} StopAt(events: seq<Event>, x: Entity, k: nat)
    requires k <= |events| && forall i :: 0 <= i < k ==> !IsTimer(events[i], x)
    requires k < |events| ==> IsTimer(events[k], x)
    ensures StopTimer(events, x) == if k < |events| then events[..k] + events[k + 1..] else events
  {
    if k > 0 {
      StopAt(events[1..], x, k - 1);
      assert events[..k] == [events[0]] + events[1..][..k - 1];
    }
  }

  class EventList {
    var head: EventNode?
    ghost var contents: seq<Event>
    ghost var spine: seq<EventNode>
    ghost var Repr: set<object>

    /** The links agree in both directions along `spine`, which is acyclic, and spell out `contents`. */
    ghost predicate Valid()
      reads this, Repr
      ensures Valid() ==> this in Repr
    {
      && this in Repr
      && Carry(spine, contents) && Distinct(spine)
      && (forall n :: n in spine ==> n in Repr)
      && head == (if spine == [] then null else spine[0])
      && Linked(spine)
    }

    constructor ()
      ensures Valid() && contents == [] && fresh(Repr)
    {
      head := null;
      contents, spine := [], [];
      Repr := {this};
    }

    /** The first node that is not earlier than `e`, and the node before it. */
    method Locate(e: Event) returns (q: EventNode?, qold: EventNode?, ghost k: nat)
      requires Valid() && head != null
      ensures k <= |spine| && q == (if k < |spine| then spine[k] else null)
      ensures qold == if k > 0 then spine[k - 1] else spine[0]
      ensures forall i :: 0 <= i < k ==> e.time > contents[i].time
      ensures k < |spine| ==> e.time <= contents[k].time
    {
      q, qold, k := head, head, 0;
      while q != null && e.time > q.event.time
        invariant 0 <= k <= |spine| && q == (if k < |spine| then spine[k] else null)
        invariant qold == if k > 0 then spine[k - 1] else spine[0]
        invariant forall i :: 0 <= i < k ==> e.time > contents[i].time
        decreases |spine| - k
      {
        assert LinkedAt(spine, k);
        qold := q;
        q := q.next;
        k := k + 1;
      }
    }

    /** Links `p` in behind the last node. */
    method PutLast(p: EventNode, qold: EventNode)
      requires Valid() && spine != [] && qold == spine[|spine| - 1]
      requires p !in Repr && p.next == null && p.prev == null
      modifies Repr, p
      ensures Valid() && contents == old(contents) + [p.event] && Repr == old(Repr) + {p}
    {
      ghost var was := spine;
      qold.next := p;
      p.prev := qold;
      p.next := null;
      spine, contents := spine + [p], contents + [p.event];
      Repr := Repr + {p};
      forall i | 0 <= i < |spine|
        ensures LinkedAt(spine, i)
      {
        if i < |was| {
          assert old(LinkedAt(was, i));
        }
      }
    }

    /** Links `p` in before the first node. */
    method PutFirst(p: EventNode)
      requires Valid() && spine != []
      requires p !in Repr && p.next == null && p.prev == null
      modifies Repr, p
      ensures Valid() && contents == [p.event] + old(contents) && Repr == old(Repr) + {p}
    {
      ghost var was := spine;
      p.next := head;
      p.prev := null;
      p.next.prev := p;
      head := p;
      spine, contents := [p] + spine, [p.event] + contents;
      Repr := Repr + {p};
      forall i | 0 <= i < |spine|
        ensures LinkedAt(spine, i)
      {
        if i > 0 {
          assert old(LinkedAt(was, i - 1));
        }
      }
    }

    /** The four pointer writes that put `p` between the nodes k - 1 and k. */
    method Splice(p: EventNode, q: EventNode, ghost k: nat)
      requires Valid() && 0 < k < |spine| && q == spine[k] && p !in Repr
      modifies spine, p
      ensures p.next == q && p.prev == spine[k - 1]
      ensures forall i :: 0 <= i < |spine| ==> SplicedAt(spine, k, p, i)
    {
      assert LinkedAt(spine, k) && LinkedAt(spine, k - 1);
      p.next := q;
      p.prev := q.prev;
      q.prev.next := p;
      q.prev := p;
      forall i | 0 <= i < |spine|
        ensures SplicedAt(spine, k, p, i)
      {
        assert old(LinkedAt(spine, i));
      }
    }

    /** Links `p` in before node `q`, the k-th, and after its predecessor. */
    method PutBefore(p: EventNode, q: EventNode, ghost k: nat)
      requires Valid() && 0 < k < |spine| && q == spine[k]
      requires p !in Repr && p.next == null && p.prev == null
      modifies Repr, p
      ensures Valid() && contents == With(old(contents), k, p.event) && Repr == old(Repr) + {p}
    {
      Splice(p, q, k);
      SplicedIsLinked(spine, k, p);
      WithKeeps(spine, contents, k, p);
      spine, contents := With(spine, k, p), With(contents, k, p.event);
      Repr := Repr + {p};
    }

    method InsertEvent(e: Event)
      requires Valid()
      modifies Repr
      ensures Valid() && contents == Insert(old(contents), e) && fresh(Repr - old(Repr))
    {
      var p := new EventNode(e);
      if head == null {
        head := p;
        spine, contents := [p], [e];
        Repr := Repr + {p};
      } else {
        var q, qold, k := Locate(e);
        InsertAt(contents, e, k);
        if q == null {
          PutLast(p, qold);
        } else if q == head {
          PutFirst(p);
        } else {
          PutBefore(p, q, k);
        }
      }
    }

    method TakeHead() returns (e: Event)
      requires Valid() && contents != []
      modifies Repr
      ensures Valid() && Repr == old(Repr)
      ensures e == old(contents)[0] && contents == old(contents)[1..]
    {
      ghost var was := spine;
      e := head.event;
      assert LinkedAt(spine, 0);
      head := head.next;
      if head != null {
        head.prev := null;
      }
      spine, contents := spine[1..], contents[1..];
      forall i | 0 <= i < |spine|
        ensures LinkedAt(spine, i)
      {
        assert old(LinkedAt(was, i + 1));
      }
    }

    method RemoveTimer(x: Entity)
      requires Valid()
      modifies Repr
      ensures Valid() && contents == StopTimer(old(contents), x) && Repr == old(Repr)
    {
      var q := head;
      ghost var k := 0;
      while q != null && !IsTimer(q.event, x)
        invariant 0 <= k <= |spine| && q == (if k < |spine| then spine[k] else null)
        invariant forall i :: 0 <= i < k ==> !IsTimer(contents[i], x)
        decreases |spine| - k
      {
        assert LinkedAt(spine, k);
        q := q.next;
        k := k + 1;
      }
      StopAt(contents, x, k);
      if q != null {
        Unlink(q, k);
      }
    }

    /** The pointer writes that bypass node `q`, the k-th. */
    method Bypass(q: EventNode, ghost k: nat)
      requires Valid() && k < |spine| && q == spine[k]
      modifies this`head, spine
      ensures head == if k > 0 then spine[0] else Following(spine, k)
      ensures forall i :: 0 <= i < |spine| && i != k ==> BypassedAt(spine, k, i)
    {
      assert LinkedAt(spine, k);
      if q.next == null && q.prev == null {
        head := null;
      } else if q.next == null {
        q.prev.next := null;
      } else if q == head {
        q.next.prev := null;
        head := q.next;
      } else {
        q.next.prev := q.prev;
        q.prev.next := q.next;
      }
      forall i | 0 <= i < |spine| && i != k
        ensures BypassedAt(spine, k, i)
      {
        assert old(LinkedAt(spine, i));
      }
    }

    /** Takes node `q`, the k-th, out of the list. */
    method Unlink(q: EventNode, ghost k: nat)
      requires Valid() && k < |spine| && q == spine[k]
      modifies Repr
      ensures Valid() && contents == Without(old(contents), k) && Repr == old(Repr)
    {
      Bypass(q, k);
      BypassedIsLinked(spine, k);
      CutKeeps(spine, contents, k);
      spine, contents := Without(spine, k), Without(contents, k);
    }

    method TimerIsSet(x: Entity) returns (found: bool)
      requires Valid()
      ensures found == HasTimer(contents, x)
    {
      var q := head;
      ghost var k := 0;
      while q != null
        invariant 0 <= k <= |spine| && q == (if k < |spine| then spine[k] else null)
        invariant forall i :: 0 <= i < k ==> !IsTimer(contents[i], x)
        decreases |spine| - k
      {
        if IsTimer(q.event, x) {
          assert IsTimer(contents[k], x);
          return true;
        }
        assert LinkedAt(spine, k);
        q := q.next;
        k := k + 1;
      }
      found := false;
    }

    /** Scans the whole list for the last packet on its way to `x`. */
    method FindLastArrival(x: Entity, now: real) returns (last: real)
      requires Valid()
      ensures last == LastArrival(contents, x, now)
    {
      last := now;
      var q := head;
      ghost var k := 0;
      while q != null
        invariant 0 <= k <= |spine| && q == (if k < |spine| then spine[k] else null)
        invariant LastArrival(contents[k..], x, last) == LastArrival(contents, x, now)
        decreases |spine| - k
      {
        assert contents[k..][1..] == contents[k + 1..];
        if IsPacketTo(q.event, x) {
          last := q.event.time;
        }
        assert LinkedAt(spine, k);
        q := q.next;
        k := k + 1;
      }
    }
  }
}
