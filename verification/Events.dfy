/** The emulator's event list and its medium, as functions on sequences of events. */
module Events {
  import opened Packets

  datatype Entity = A | B

  datatype Event =
    | TimerAt(time: real, entity: Entity)
    | MessageAt(time: real, entity: Entity)
    | PacketAt(time: real, entity: Entity, packet: Packet)

  /** What `jimsrand` returns. */
  type Unit = u: real | 0.0 <= u <= 1.0

  /** The medium's decisions about one packet: lost, or carried with this delay draw and damage. */
  datatype Carriage = Dropped | Carried(u: Unit, damage: Damage)

  datatype Damage = NoDamage | Damaged(field: Field)

  datatype Emulator = Emulator(time: real, events: seq<Event>, ntolayer3: nat, nlost: nat, ncorrupt: nat)

  function Other(e: Entity): Entity {
    if e == A then B else A
  }

  // ----- the list -----

  predicate Sorted(events: seq<Event>) {
    forall i, j :: 0 <= i < j < |events| ==> events[i].time <= events[j].time
  }

  /** A new event goes in front of all events that are not earlier. */
  function Insert(events: seq<Event>, e: Event): (r: seq<Event>)
    ensures |r| == |events| + 1
  {
    if events == [] || e.time <= events[0].time then [e] + events
    else [events[0]] + Insert(events[1..], e)
  }

  predicate IsTimer(e: Event, x: Entity) {
    e.TimerAt? && e.entity == x
  }

  predicate HasTimer(events: seq<Event>, x: Entity) {
    exists i :: 0 <= i < |events| && IsTimer(events[i], x)
  }

  /** Removes the first timer of `x`. */
  function StopTimer(events: seq<Event>, x: Entity): seq<Event> {
    if events == [] then []
    else if IsTimer(events[0], x) then events[1..]
    else [events[0]] + StopTimer(events[1..], x)
  }

  function StartTimer(em: Emulator, x: Entity, increment: real): Emulator {
    if HasTimer(em.events, x) then em else em.(events := Insert(em.events, TimerAt(em.time + increment, x)))
  }

  predicate IsPacketTo(e: Event, x: Entity) {
    e.PacketAt? && e.entity == x
  }

  /** Arrival time of the last packet on its way to `x`, or `now`. */
  function LastArrival(events: seq<Event>, x: Entity, now: real): real {
    if events == [] then now
    else LastArrival(events[1..], x, if IsPacketTo(events[0], x) then events[0].time else now)
  }

  function Delivered(packet: Packet, damage: Damage): Packet {
    match damage
    case NoDamage => packet
    case Damaged(f) => Corrupt(packet, f)
  }

  /** A packet handed to layer 3: lost, or scheduled 1 to 10 time units after the latest arrival at its target. */
  function ToLayer3(em: Emulator, from: Entity, packet: Packet, c: Carriage): Emulator {
    var counted := em.(ntolayer3 := em.ntolayer3 + 1);
    match c
    case Dropped => counted.(nlost := em.nlost + 1)
    case Carried(u, damage) =>
      var at := LastArrival(em.events, Other(from), em.time) + 1.0 + 9.0 * u;
      counted.(events := Insert(em.events, PacketAt(at, Other(from), Delivered(packet, damage))),
               ncorrupt := em.ncorrupt + if damage.Damaged? then 1 else 0)
  }

  /** A message from layer 5 is due `x` time units from now. */
  function Arrival(em: Emulator, x: real): Emulator {
    em.(events := Insert(em.events, MessageAt(em.time + x, A)))
  }

  /** The main loop takes the head of the list and advances the clock to it. */
  function Take(em: Emulator): Emulator
    requires em.events != []
  {
    em.(time := em.events[0].time, events := em.events[1..])
  }

  /** Nothing is due in the past. */
  predicate Timely(em: Emulator) {
    Sorted(em.events) && forall i :: 0 <= i < |em.events| ==> em.time <= em.events[i].time
  }

  // ----- facts about the list -----

  lemma {:induction false} InsertKeepsSorted(events: seq<Event>, e: Event)
    requires Sorted(events)
    ensures Sorted(Insert(events, e))
    ensures forall x :: x in Insert(events, e) <==> x == e || x in events
  {
    if events != [] {
      assert events == [events[0]] + events[1..];
      if e.time > events[0].time {
        InsertKeepsSorted(events[1..], e);
        var tail := Insert(events[1..], e);
        forall i | 0 <= i < |tail|
          ensures events[0].time <= tail[i].time
        {
          assert tail[i] in tail;
        }
      }
    }
  }

  lemma {:induction false} InsertAddsOne(events: seq<Event>, e: Event)
    ensures multiset(Insert(events, e)) == multiset(events) + multiset{e}
  {
    if events != [] {
      assert events == [events[0]] + events[1..];
      InsertAddsOne(events[1..], e);
    }
  }

  /** Ties: the new event comes before every event of the same time, and no other order changes. */
  lemma {:induction false} InsertPosition(events: seq<Event>, e: Event) returns (k: nat)
    requires Sorted(events)
    ensures k <= |events| && Insert(events, e) == events[..k] + [e] + events[k..]
    ensures forall i :: 0 <= i < k ==> events[i].time < e.time
    ensures forall i :: k <= i < |events| ==> e.time <= events[i].time
  {
    if events == [] || e.time <= events[0].time {
      k := 0;
    } else {
      var j := InsertPosition(events[1..], e);
      k := j + 1;
    }
  }

  lemma {:induction false} StopTimerKeepsSorted(events: seq<Event>, x: Entity)
    requires Sorted(events)
    ensures Sorted(StopTimer(events, x))
    ensures forall e :: e in StopTimer(events, x) ==> e in events
  {
    if events != [] && !IsTimer(events[0], x) {
      StopTimerKeepsSorted(events[1..], x);
      forall i | 0 <= i < |StopTimer(events[1..], x)|
        ensures events[0].time <= StopTimer(events[1..], x)[i].time
      {
        assert StopTimer(events[1..], x)[i] in events[1..];
      }
    }
  }

  lemma {:induction false} LastArrivalBound(events: seq<Event>, x: Entity, now: real)
    requires Sorted(events) && forall i :: 0 <= i < |events| ==> now <= events[i].time
    ensures now <= LastArrival(events, x, now)
    ensures forall i :: 0 <= i < |events| && IsPacketTo(events[i], x) ==> events[i].time <= LastArrival(events, x, now)
    ensures LastArrival(events, x, now) == now ||
      exists i :: 0 <= i < |events| && LastArrival(events, x, now) == events[i].time
  {
    if events != [] {
      LastArrivalBound(events[1..], x, if IsPacketTo(events[0], x) then events[0].time else now);
    }
  }

  // ----- the channel of the emulator -----

  /** The packets on their way to `x`, in the order the list delivers them. */
  function InFlight(events: seq<Event>, x: Entity): seq<Packet> {
    if events == [] then []
    else (if IsPacketTo(events[0], x) then [events[0].packet] else []) + InFlight(events[1..], x)
  }

  lemma {:induction false} InsertOther(events: seq<Event>, e: Event, x: Entity)
    requires !IsPacketTo(e, x)
    ensures InFlight(Insert(events, e), x) == InFlight(events, x)
  {
    if events != [] && e.time > events[0].time {
      InsertOther(events[1..], e, x);
    }
  }

  lemma {:induction false} StopTimerOther(events: seq<Event>, y: Entity, x: Entity)
    ensures InFlight(StopTimer(events, y), x) == InFlight(events, x)
  {
    if events != [] && !IsTimer(events[0], y) {
      StopTimerOther(events[1..], y, x);
    }
  }

  lemma {:induction false} InsertLast(events: seq<Event>, e: Event, x: Entity)
    requires Sorted(events) && IsPacketTo(e, x)
    requires forall i :: 0 <= i < |events| && IsPacketTo(events[i], x) ==> events[i].time < e.time
    ensures InFlight(Insert(events, e), x) == InFlight(events, x) + [e.packet]
  {
    if events == [] {
    } else if e.time <= events[0].time {
      NoneInFlight(events, x);
      assert ([e] + events)[1..] == events;
    } else {
      InsertLast(events[1..], e, x);
    }
  }

  lemma {:induction false} NoneInFlight(events: seq<Event>, x: Entity)
    requires forall i :: 0 <= i < |events| ==> !IsPacketTo(events[i], x)
    ensures InFlight(events, x) == []
  {
    if events != [] {
      NoneInFlight(events[1..], x);
    }
  }

  /** Operations a protocol and the main loop perform on the emulator. */
  datatype Op =
    | Send(from: Entity, packet: Packet, c: Carriage)
    | Start(who: Entity, increment: real)
    | Stop(who: Entity)
    | Schedule(delay: real)
    | TakeNext

  function Perform(em: Emulator, op: Op): Emulator {
    match op
    case Send(from, packet, c) => ToLayer3(em, from, packet, c)
    case Start(x, increment) => StartTimer(em, x, increment)
    case Stop(x) => em.(events := StopTimer(em.events, x))
    case Schedule(x) => Arrival(em, x)
    case TakeNext => if em.events == [] then em else Take(em)
  }

  /** Delays are never negative. */
  predicate Forward(op: Op) {
    (op.Start? ==> op.increment >= 0.0) && (op.Schedule? ==> op.delay >= 0.0)
  }

  function PerformAll(em: Emulator, ops: seq<Op>): Emulator
    decreases |ops|
  {
    if ops == [] then em else PerformAll(Perform(em, ops[0]), ops[1..])
  }

  function EnteredBy(op: Op, x: Entity): seq<Packet> {
    if op.Send? && Other(op.from) == x && op.c.Carried? then [Delivered(op.packet, op.c.damage)] else []
  }

  function ArrivedBy(em: Emulator, op: Op, x: Entity): seq<Packet> {
    if op.TakeNext? && em.events != [] && IsPacketTo(em.events[0], x) then [em.events[0].packet] else []
  }

  /** The packets that entered the medium towards `x` and were not lost, as the medium left them. */
  function Entered(ops: seq<Op>, x: Entity): seq<Packet> {
    if ops == [] then [] else EnteredBy(ops[0], x) + Entered(ops[1..], x)
  }

  /** The packets the main loop handed to `x`. */
  function Arrived(em: Emulator, ops: seq<Op>, x: Entity): seq<Packet>
    decreases |ops|
  {
    if ops == [] then [] else ArrivedBy(em, ops[0], x) + Arrived(Perform(em, ops[0]), ops[1..], x)
  }

  lemma InsertStaysTimely(em: Emulator, e: Event)
    requires Timely(em) && em.time <= e.time
    ensures Timely(em.(events := Insert(em.events, e)))
  {
    InsertKeepsSorted(em.events, e);
    var r := Insert(em.events, e);
    forall i | 0 <= i < |r|
      ensures em.time <= r[i].time
    {
      assert r[i] in r;
    }
  }

  lemma PerformStaysTimely(em: Emulator, op: Op)
    requires Timely(em) && Forward(op)
    ensures Timely(Perform(em, op)) && em.time <= Perform(em, op).time
  {
    match op
    case Send(from, packet, c) =>
      if c.Carried? {
        LastArrivalBound(em.events, Other(from), em.time);
        var at := LastArrival(em.events, Other(from), em.time) + 1.0 + 9.0 * c.u;
        InsertStaysTimely(em, PacketAt(at, Other(from), Delivered(packet, c.damage)));
      }
    case Start(x, increment) => InsertStaysTimely(em, TimerAt(em.time + increment, x));
    case Stop(x) =>
      StopTimerKeepsSorted(em.events, x);
      forall i | 0 <= i < |StopTimer(em.events, x)|
        ensures em.time <= StopTimer(em.events, x)[i].time
      {
        assert StopTimer(em.events, x)[i] in em.events;
      }
    case Schedule(x) => InsertStaysTimely(em, MessageAt(em.time + x, A));
    case TakeNext =>
  }

  lemma SendQueues(em: Emulator, from: Entity, packet: Packet, u: Unit, damage: Damage)
    requires Timely(em)
    ensures InFlight(ToLayer3(em, from, packet, Carried(u, damage)).events, Other(from)) ==
      InFlight(em.events, Other(from)) + [Delivered(packet, damage)]
  {
    LastArrivalBound(em.events, Other(from), em.time);
    var at := LastArrival(em.events, Other(from), em.time) + 1.0 + 9.0 * u;
    InsertLast(em.events, PacketAt(at, Other(from), Delivered(packet, damage)), Other(from));
  }

  /** One operation moves packets only at the ends of the channel to `x`. */
  lemma PerformKeepsOrder(em: Emulator, op: Op, x: Entity)
    requires Timely(em)
    ensures ArrivedBy(em, op, x) + InFlight(Perform(em, op).events, x) == InFlight(em.events, x) + EnteredBy(op, x)
  {
    match op
    case Send(from, packet, c) =>
      if c.Carried? {
        if x == Other(from) {
          SendQueues(em, from, packet, c.u, c.damage);
        } else {
          var at := LastArrival(em.events, Other(from), em.time) + 1.0 + 9.0 * c.u;
          InsertOther(em.events, PacketAt(at, Other(from), Delivered(packet, c.damage)), x);
        }
      }
    case Start(y, increment) => InsertOther(em.events, TimerAt(em.time + increment, y), x);
    case Stop(y) => StopTimerOther(em.events, y, x);
    case Schedule(d) => InsertOther(em.events, MessageAt(em.time + d, A), x);
    case TakeNext =>
  }

  /** In every run the clock never goes back and packets to one side arrive in the order they entered the medium. */
  lemma {:induction false} ChannelIsFifo(em: Emulator, ops: seq<Op>, x: Entity)
    requires Timely(em) && forall op :: op in ops ==> Forward(op)
    ensures var em' := PerformAll(em, ops);
      && Timely(em') && em.time <= em'.time
      && Arrived(em, ops, x) + InFlight(em'.events, x) == InFlight(em.events, x) + Entered(ops, x)
    decreases |ops|
  {
    if ops == [] {
      assert [] + InFlight(em.events, x) == InFlight(em.events, x) + [];
    } else {
      var em1 := Perform(em, ops[0]);
      PerformStaysTimely(em, ops[0]);
      PerformKeepsOrder(em, ops[0], x);
      ChannelIsFifo(em1, ops[1..], x);
      QueuesChain(ArrivedBy(em, ops[0], x), Arrived(em1, ops[1..], x), InFlight(em.events, x), InFlight(em1.events, x),
                  InFlight(PerformAll(em1, ops[1..]).events, x), EnteredBy(ops[0], x), Entered(ops[1..], x));
    }
  }

  lemma QueuesChain(out0: seq<Packet>, out1: seq<Packet>, q0: seq<Packet>, q1: seq<Packet>, q2: seq<Packet>,
                    in0: seq<Packet>, in1: seq<Packet>)
    requires out0 + q1 == q0 + in0 && out1 + q2 == q1 + in1
    ensures (out0 + out1) + q2 == q0 + (in0 + in1)
  {
    assert (out0 + out1) + q2 == out0 + (out1 + q2);
    assert out0 + (q1 + in1) == (out0 + q1) + in1;
    assert (q0 + in0) + in1 == q0 + (in0 + in1);
  }

  lemma {:induction false} EnteredAreCounted(em: Emulator, ops: seq<Op>)
    ensures var em' := PerformAll(em, ops);
      em'.ntolayer3 - em.ntolayer3 == (em'.nlost - em.nlost) + |Entered(ops, A)| + |Entered(ops, B)|
    decreases |ops|
  {
    if ops != [] {
      EnteredAreCounted(Perform(em, ops[0]), ops[1..]);
    }
  }

  /** Every packet handed to layer 3 is lost, arrived or still on its way. */
  lemma PacketsAreConserved(em: Emulator, ops: seq<Op>)
    requires Timely(em) && forall op :: op in ops ==> Forward(op)
    requires em.ntolayer3 == em.nlost + |InFlight(em.events, A)| + |InFlight(em.events, B)|
    ensures var em' := PerformAll(em, ops);
      em'.ntolayer3 == em'.nlost + |Arrived(em, ops, A)| + |Arrived(em, ops, B)|
        + |InFlight(em'.events, A)| + |InFlight(em'.events, B)|
  {
    EnteredAreCounted(em, ops);
    ChannelIsFifo(em, ops, A);
    ChannelIsFifo(em, ops, B);
    var em' := PerformAll(em, ops);
    assert |Arrived(em, ops, A) + InFlight(em'.events, A)| == |InFlight(em.events, A) + Entered(ops, A)|;
    assert |Arrived(em, ops, B) + InFlight(em'.events, B)| == |InFlight(em.events, B) + Entered(ops, B)|;
  }

  // ----- when packets arrive -----

  lemma {:induction false} LastArrivalIs(events: seq<Event>, x: Entity, now: real) returns (i: int)
    requires Sorted(events)
    ensures -1 <= i < |events|
    ensures if i < 0 then LastArrival(events, x, now) == now
            else IsPacketTo(events[i], x) && LastArrival(events, x, now) == events[i].time
    ensures forall j :: i < j < |events| ==> !IsPacketTo(events[j], x)
  {
    i := -1;
    if events != [] {
      var k := LastArrivalIs(events[1..], x, if IsPacketTo(events[0], x) then events[0].time else now);
      i := if k >= 0 then k + 1 else if IsPacketTo(events[0], x) then 0 else -1;
    }
  }

  /** A packet that is not lost arrives one unit, and up to nine as drawn, after the last one on its way to that side,
      or after now if none is. */
  lemma SendSchedules(em: Emulator, from: Entity, packet: Packet, u: Unit, damage: Damage) returns (last: real)
    requires Timely(em)
    ensures var em', x := ToLayer3(em, from, packet, Carried(u, damage)), Other(from);
      && multiset(em'.events) ==
         multiset(em.events) + multiset{PacketAt(last + 1.0 + 9.0 * u, x, Delivered(packet, damage))}
      && (forall e :: e in em.events && IsPacketTo(e, x) ==> e.time <= last)
      && (last == em.time || exists e :: e in em.events && IsPacketTo(e, x) && e.time == last)
  {
    var x := Other(from);
    last := LastArrival(em.events, x, em.time);
    var i := LastArrivalIs(em.events, x, em.time);
    LastArrivalBound(em.events, x, em.time);
    InsertAddsOne(em.events, PacketAt(last + 1.0 + 9.0 * u, x, Delivered(packet, damage)));
    if i >= 0 {
      assert em.events[i] in em.events;
    }
  }

  // ----- timers -----

  function Timers(events: seq<Event>, x: Entity): nat {
    if events == [] then 0 else (if IsTimer(events[0], x) then 1 else 0) + Timers(events[1..], x)
  }

  lemma {:induction false} TimersOfInsert(events: seq<Event>, e: Event, x: Entity)
    ensures Timers(Insert(events, e), x) == Timers(events, x) + if IsTimer(e, x) then 1 else 0
  {
    if events != [] && e.time > events[0].time {
      TimersOfInsert(events[1..], e, x);
    }
  }

  lemma {:induction false} TimersOfStop(events: seq<Event>, y: Entity, x: Entity)
    ensures Timers(StopTimer(events, y), x) == Timers(events, x) - if x == y && Timers(events, x) > 0 then 1 else 0
  {
    if events != [] && !IsTimer(events[0], y) {
      TimersOfStop(events[1..], y, x);
    }
  }

  lemma {:induction false} NoTimers(events: seq<Event>, x: Entity)
    ensures HasTimer(events, x) <==> Timers(events, x) > 0
  {
    if events != [] {
      NoTimers(events[1..], x);
      if HasTimer(events[1..], x) {
        var i :| 0 <= i < |events[1..]| && IsTimer(events[1..][i], x);
        assert IsTimer(events[i + 1], x);
      }
    }
  }

  /** A side never has two timers: starting one that runs changes nothing, and stopping leaves none. */
  lemma PerformKeepsOneTimer(em: Emulator, op: Op, x: Entity)
    requires Timers(em.events, x) <= 1
    ensures Timers(Perform(em, op).events, x) <= 1
    ensures op == Stop(x) ==> Timers(Perform(em, op).events, x) == 0
    ensures op.Start? && op.who == x ==>
      Timers(Perform(em, op).events, x) == 1 && (Timers(em.events, x) == 1 ==> Perform(em, op) == em)
    ensures !op.TakeNext? && !(op.Start? && op.who == x) && op != Stop(x) ==>
      Timers(Perform(em, op).events, x) == Timers(em.events, x)
  {
    match op
    case Send(from, packet, c) =>
      if c.Carried? {
        var at := LastArrival(em.events, Other(from), em.time) + 1.0 + 9.0 * c.u;
        TimersOfInsert(em.events, PacketAt(at, Other(from), Delivered(packet, c.damage)), x);
      }
    case Start(y, increment) =>
      NoTimers(em.events, y);
      TimersOfInsert(em.events, TimerAt(em.time + increment, y), x);
    case Stop(y) => TimersOfStop(em.events, y, x);
    case Schedule(d) => TimersOfInsert(em.events, MessageAt(em.time + d, A), x);
    case TakeNext =>
  }

  lemma {:induction false} TimersStaySingle(em: Emulator, ops: seq<Op>, x: Entity)
    requires Timers(em.events, x) <= 1
    ensures Timers(PerformAll(em, ops).events, x) <= 1
    decreases |ops|
  {
    if ops != [] {
      PerformKeepsOneTimer(em, ops[0], x);
      TimersStaySingle(Perform(em, ops[0]), ops[1..], x);
    }
  }

  // ----- statistics -----

  predicate Damages(op: Op) {
    op.Send? && op.c.Carried? && op.c.damage != NoDamage
  }

  function DamagedBy(ops: seq<Op>): nat {
    if ops == [] then 0 else (if Damages(ops[0]) then 1 else 0) + DamagedBy(ops[1..])
  }

  lemma {:induction false} DamagedAreCounted(em: Emulator, ops: seq<Op>)
    ensures PerformAll(em, ops).ncorrupt == em.ncorrupt + DamagedBy(ops)
    decreases |ops|
  {
    if ops != [] {
      DamagedAreCounted(Perform(em, ops[0]), ops[1..]);
    }
  }
}
