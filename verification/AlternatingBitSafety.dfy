/** Why the alternating-bit protocol is right although A ignores acknowledgement numbers: over every timed run at most
    one packet is in flight, and the timer never fires while it is. */
module AlternatingBitSafety {
  import opened Packets
  import opened Events
  import opened AlternatingBit

  /** The timers and packets on the event list, in order. */
  function Core(events: seq<Event>): seq<Event> {
    if events == [] then []
    else if events[0].MessageAt? then Core(events[1..])
    else [events[0]] + Core(events[1..])
  }

  // ----- the list operations on the core -----

  lemma {:induction false} CoreOf(events: seq<Event>)
    ensures forall e :: e in Core(events) <==> e in events && !e.MessageAt?
    ensures Sorted(events) ==> Sorted(Core(events))
  {
    if events != [] {
      CoreOf(events[1..]);
      assert events == [events[0]] + events[1..];
      if Sorted(events) && !events[0].MessageAt? {
        var c := Core(events[1..]);
        forall i | 0 <= i < |c|
          ensures events[0].time <= c[i].time
        {
          assert c[i] in c;
          assert c[i] in events[1..];
        }
      }
    }
  }

  lemma {:induction false} CoreOfMessage(events: seq<Event>, e: Event)
    requires e.MessageAt?
    ensures Core(Insert(events, e)) == Core(events)
  {
    if events != [] && e.time > events[0].time {
      CoreOfMessage(events[1..], e);
    }
  }

  lemma {:induction false} CoreOfInsert(events: seq<Event>, e: Event)
    requires Sorted(events) && !e.MessageAt?
    ensures Core(Insert(events, e)) == Insert(Core(events), e)
  {
    if events == [] {
    } else if e.time <= events[0].time {
      assert ([e] + events)[1..] == events;
      CoreOf(events);
      var c := Core(events);
      assert c != [] ==> c[0] in c;
    } else {
      CoreOfInsert(events[1..], e);
      var tail := Insert(events[1..], e);
      assert ([events[0]] + tail)[1..] == tail;
      if events[0].MessageAt? {
      } else {
        assert ([events[0]] + Core(events[1..]))[1..] == Core(events[1..]);
      }
    }
  }

  lemma {:induction false} CoreOfStop(events: seq<Event>, x: Entity)
    ensures Core(StopTimer(events, x)) == StopTimer(Core(events), x)
  {
    if events != [] {
      CoreOfStop(events[1..], x);
      if !events[0].MessageAt? {
        assert ([events[0]] + Core(events[1..]))[1..] == Core(events[1..]);
      }
      if !IsTimer(events[0], x) {
        assert ([events[0]] + StopTimer(events[1..], x))[1..] == StopTimer(events[1..], x);
      }
    }
  }

  lemma CoreHasTimer(events: seq<Event>, x: Entity)
    ensures HasTimer(Core(events), x) <==> HasTimer(events, x)
  {
    CoreOf(events);
    var c := Core(events);
    if HasTimer(c, x) {
      var i :| 0 <= i < |c| && IsTimer(c[i], x);
      assert c[i] in events;
    }
    if HasTimer(events, x) {
      var i :| 0 <= i < |events| && IsTimer(events[i], x);
      assert events[i] in c;
    }
  }

  lemma {:induction false} CoreLastArrival(events: seq<Event>, x: Entity, now: real)
    ensures LastArrival(Core(events), x, now) == LastArrival(events, x, now)
  {
    if events != [] {
      CoreLastArrival(events[1..], x, if IsPacketTo(events[0], x) then events[0].time else now);
      if !events[0].MessageAt? {
        assert ([events[0]] + Core(events[1..]))[1..] == Core(events[1..]);
      }
    }
  }

  // ----- the invariant -----

  predicate IsBit(n: int) {
    n == 0 || n == 1
  }

  /** `x` came from `original` through the medium. */
  predicate From(x: Packet, original: Packet) {
    x == original || exists f: Field :: x == Corrupt(original, f)
  }

  /** Nothing outstanding: no timer, nothing in flight, everything accepted is delivered. */
  ghost predicate Idle(s: State) {
    && Core(s.em.events) == []
    && s.p.prevAck.seqnum == 1 - s.p.seqNum
    && s.delivered == s.accepted
  }

  /** Data in flight leaves B time to answer before `timer`; B's answer arrives by `timer`. */
  ghost predicate InTime(p: Protocol, e: Event, timer: real) {
    e.PacketAt? &&
    if e.entity == B then From(e.packet, p.prevPacket) && e.time <= timer - 10.0
    else p.prevAck.seqnum == p.prevPacket.seqnum && From(e.packet, p.prevAck) && e.time <= timer
  }

  /** The timer is running, and at most one packet is in flight, which the list has before the timer. */
  ghost predicate Flight(p: Protocol, core: seq<Event>) {
    || (|core| == 1 && IsTimer(core[0], A))
    || (|core| == 2 && IsTimer(core[1], A) && InTime(p, core[0], core[1].time))
  }

  /** The outstanding message, delivered exactly when B has toggled the sequence number. */
  ghost predicate Outstanding(p: Protocol, accepted: seq<Payload>, delivered: seq<Payload>) {
    var q := p.prevPacket.seqnum;
    && accepted != []
    && Intact(p.prevPacket) && IsBit(q) && IsBit(p.prevPacket.acknum)
    && p.prevPacket.payload == accepted[|accepted| - 1] && p.prevPacket.payload[0] != CORRUPT_BYTE
    && if p.seqNum == q then p.prevAck.seqnum == 1 - q && delivered == accepted[..|accepted| - 1]
       else p.prevAck.seqnum == q && delivered == accepted
            && Intact(p.prevAck) && p.prevAck.payload[0] != CORRUPT_BYTE && IsBit(p.prevAck.acknum)
  }

  ghost predicate Waiting(s: State) {
    Outstanding(s.p, s.accepted, s.delivered) && Flight(s.p, Core(s.em.events))
  }

  ghost predicate Inv(s: State) {
    && Timely(s.em) && s.lambda >= 0.0 && s.timeout >= TWO_HOPS
    && IsBit(s.p.seqNum) && IsBit(s.p.ack)
    && if s.p.phase == SendPacket then Idle(s) else Waiting(s)
  }

  // ----- what the emulator operations do to the core -----

  /** With nothing on its way to the receiver, a packet is lost or due 1 to 10 time units from now. */
  lemma SendCore(em: Emulator, from: Entity, packet: Packet, c: Carriage)
    requires Timely(em)
    requires forall e :: e in Core(em.events) ==> !IsPacketTo(e, Other(from))
    ensures var em' := ToLayer3(em, from, packet, c);
      && Timely(em') && em'.time == em.time
      && if c.Dropped? then Core(em'.events) == Core(em.events)
         else var e := PacketAt(em.time + 1.0 + 9.0 * c.u, Other(from), Delivered(packet, c.damage));
           Core(em'.events) == Insert(Core(em.events), e) && e.time <= em.time + 10.0
  {
    PerformStaysTimely(em, Send(from, packet, c));
    if c.Carried? {
      CoreLastArrival(em.events, Other(from), em.time);
      NoArrival(Core(em.events), Other(from), em.time);
      var e := PacketAt(em.time + 1.0 + 9.0 * c.u, Other(from), Delivered(packet, c.damage));
      CoreOfInsert(em.events, e);
    }
  }

  lemma {:induction false} NoArrival(events: seq<Event>, x: Entity, now: real)
    requires forall e :: e in events ==> !IsPacketTo(e, x)
    ensures LastArrival(events, x, now) == now
  {
    if events != [] {
      assert events[0] in events;
      NoArrival(events[1..], x, now);
    }
  }

  lemma StartCore(em: Emulator, timeout: real)
    requires timeout >= 0.0 && Timely(em) && !HasTimer(Core(em.events), A)
    ensures var em' := StartTimer(em, A, timeout);
      && Timely(em') && em'.time == em.time
      && Core(em'.events) == Insert(Core(em.events), TimerAt(em.time + timeout, A))
  {
    PerformStaysTimely(em, Start(A, timeout));
    CoreHasTimer(em.events, A);
    CoreOfInsert(em.events, TimerAt(em.time + timeout, A));
  }

  lemma TakeCore(em: Emulator)
    requires Timely(em) && em.events != []
    ensures Timely(Take(em)) && em.time <= Take(em).time
    ensures if em.events[0].MessageAt? then Core(Take(em).events) == Core(em.events)
            else Core(em.events) == [em.events[0]] + Core(Take(em).events)
  {
    PerformStaysTimely(em, TakeNext);
  }

  // ----- every event keeps the invariant -----

  /** A packet on its way from A is recognised, or dropped at B. */
  lemma DataVerdict(x: Packet, original: Packet)
    requires From(x, original) && Intact(original) && IsBit(original.seqnum)
    ensures x.seqnum == original.seqnum || x.seqnum == CORRUPT_NUMBER
    ensures Intact(x) ==> x == original
  {
    if x != original {
      var f: Field :| x == Corrupt(original, f);
      CorruptionIsCaught(original, f);
    }
  }

  lemma DeliveredIsFrom(packet: Packet, damage: Damage)
    ensures From(Delivered(packet, damage), packet)
  {
  }

  lemma OutputKeeps(s: State, m: Payload, c: Carriage)
    requires Inv(s) && m[0] != CORRUPT_BYTE
    ensures Inv(AOutput(s, m, c)) && AOutput(s, m, c).em.time == s.em.time
    ensures s.p.phase == WaitAck ==> AOutput(s, m, c) == s
  {
    if s.p.phase == SendPacket {
      var packet := Sealed(s.p.seqNum, s.p.ack, m);
      SendCore(s.em, A, packet, c);
      StartCore(ToLayer3(s.em, A, packet, c), s.timeout);
      if c.Carried? {
        DeliveredIsFrom(packet, c.damage);
      }
    }
  }

  lemma ScheduleKeeps(s: State, gap: real)
    requires Inv(s) && gap >= 0.0
    ensures var s' := ScheduleNext(s, gap); Inv(s') && Core(s'.em.events) == Core(s.em.events)
  {
    PerformStaysTimely(s.em, Schedule(gap));
    CoreOfMessage(s.em.events, MessageAt(s.em.time + gap, A));
  }

  lemma MessageKeeps(s: State, x: Entity, draw: Draw)
    requires Inv(s)
    ensures Inv(MessageDue(s, x, draw)) && MessageDue(s, x, draw).em.time == s.em.time
  {
    if s.nsim < s.nsimmax {
      var gap := Gap(s.lambda, draw.arrival);
      ScheduleKeeps(s, gap);
      if x == A {
        OutputKeeps(ScheduleNext(s, gap), Letters(s.nsim), draw.carriage);
      }
    }
  }

  /** The timer goes off: by then nothing is in flight, and the last packet is sent again. */
  lemma TimerKeeps(s: State, c: Carriage)
    requires Timely(s.em) && s.lambda >= 0.0 && s.timeout >= TWO_HOPS && IsBit(s.p.seqNum) && IsBit(s.p.ack)
    requires s.p.phase == WaitAck && Outstanding(s.p, s.accepted, s.delivered) && Core(s.em.events) == []
    ensures Inv(ATimer(s, c)) && ATimer(s, c) == s.(em := ATimer(s, c).em)
    ensures Core(ATimer(s, c).em.events) ==
      (if c.Dropped? then []
       else [PacketAt(s.em.time + 1.0 + 9.0 * c.u, B, Delivered(s.p.prevPacket, c.damage))])
      + [TimerAt(s.em.time + s.timeout, A)]
  {
    StartCore(s.em, s.timeout);
    var started := StartTimer(s.em, A, s.timeout);
    assert Core(started.events) == [TimerAt(s.em.time + s.timeout, A)];
    SendCore(started, A, s.p.prevPacket, c);
    if c.Carried? {
      DeliveredIsFrom(s.p.prevPacket, c.damage);
    }
  }

  /** B's answer is the acknowledgement of the outstanding packet, intact until the medium damages it. */
  ghost predicate Answered(s: State, s': State, c: Carriage) {
    && s'.p.prevPacket == s.p.prevPacket && s'.p.phase == s.p.phase && s'.accepted == s.accepted
    && s'.p.prevAck.seqnum == s.p.prevPacket.seqnum && Intact(s'.p.prevAck)
    && (c.Carried? ==>
      var e := PacketAt(s.em.time + 1.0 + 9.0 * c.u, A, Delivered(s'.p.prevAck, c.damage));
      Core(s'.em.events) == [e] + Core(s.em.events))
  }

  /** A packet reaches B: a repeated number is acknowledged again, the expected packet delivered, damage ignored. */
  lemma BInputKeeps(s: State, x: Packet, c: Carriage, filler: Payload, t: real)
    requires Timely(s.em) && s.lambda >= 0.0 && s.timeout >= TWO_HOPS && IsBit(s.p.seqNum) && IsBit(s.p.ack)
    requires s.p.phase == WaitAck && Outstanding(s.p, s.accepted, s.delivered)
    requires From(x, s.p.prevPacket) && Core(s.em.events) == [TimerAt(t, A)] && s.em.time <= t - 10.0
    ensures Inv(BInput(s, x, c, filler))
    ensures if x == s.p.prevPacket || x.seqnum == s.p.prevAck.seqnum then Answered(s, BInput(s, x, c, filler), c)
            else BInput(s, x, c, filler) == s
  {
    DataVerdict(x, s.p.prevPacket);
    if x.seqnum == s.p.prevAck.seqnum {
      AnswerKeeps(s, s.p.prevAck, c, t);
    } else if Intact(x) {
      var ack := Sealed(x.seqnum, x.acknum, AckPayload(filler));
      var s1 := s.(delivered := s.delivered + [x.payload], p := s.p.(prevAck := ack, seqNum := Toggle(s.p.seqNum)));
      assert s1.delivered == s1.accepted;
      AnswerKeeps(s1, ack, c, t);
      assert BInput(s, x, c, filler) == s1.(em := ToLayer3(s.em, B, ack, c));
    }
  }

  lemma AnswerKeeps(s: State, ack: Packet, c: Carriage, t: real)
    requires Timely(s.em) && s.lambda >= 0.0 && s.timeout >= TWO_HOPS && IsBit(s.p.seqNum) && IsBit(s.p.ack)
    requires s.p.phase == WaitAck && Outstanding(s.p, s.accepted, s.delivered)
    requires ack == s.p.prevAck && ack.seqnum == s.p.prevPacket.seqnum
    requires Core(s.em.events) == [TimerAt(t, A)] && s.em.time <= t - 10.0
    ensures Inv(s.(em := ToLayer3(s.em, B, ack, c)))
    ensures Answered(s, s.(em := ToLayer3(s.em, B, ack, c)), c)
  {
    SendCore(s.em, B, ack, c);
    if c.Carried? {
      DeliveredIsFrom(ack, c.damage);
    }
  }

  /** An answer reaches A: intact, it can only acknowledge the outstanding message. */
  lemma AInputKeeps(s: State, x: Packet, t: real)
    requires Timely(s.em) && s.lambda >= 0.0 && s.timeout >= TWO_HOPS && IsBit(s.p.seqNum) && IsBit(s.p.ack)
    requires s.p.phase == WaitAck && Outstanding(s.p, s.accepted, s.delivered)
    requires s.p.prevAck.seqnum == s.p.prevPacket.seqnum && From(x, s.p.prevAck) && Core(s.em.events) == [TimerAt(t, A)]
    ensures Inv(AInput(s, x))
    ensures Intact(x) ==> AInput(s, x).p.phase == SendPacket && AInput(s, x).delivered == s.accepted
    ensures !Intact(x) ==> AInput(s, x) == s
  {
    PerformStaysTimely(s.em, Stop(A));
    CoreOfStop(s.em.events, A);
  }

  lemma StepKeeps(s: State, draw: Draw)
    requires Inv(s)
    ensures Inv(Next(s, draw)) && s.em.time <= Next(s, draw).em.time
  {
    if s.em.events != [] {
      TakeCore(s.em);
      var e := s.em.events[0];
      var s1 := s.(em := Take(s.em));
      var core := Core(s.em.events);
      if e.MessageAt? {
        MessageKeeps(s1, e.entity, draw);
      } else {
        assert core[0] == e && core[1..] == Core(s1.em.events);
        if e.TimerAt? {
          TimerKeeps(s1, draw.carriage);
        } else if e.entity == B {
          BInputKeeps(s1, e.packet, draw.carriage, draw.filler, core[1].time);
        } else {
          AInputKeeps(s1, e.packet, core[1].time);
        }
      }
    }
  }

  lemma {:induction false} RunKeeps(s: State, draws: seq<Draw>)
    requires Inv(s)
    ensures Inv(After(s, draws)) && s.em.time <= After(s, draws).em.time
    decreases |draws|
  {
    if draws != [] {
      StepKeeps(s, draws[0]);
      RunKeeps(Next(s, draws[0]), draws[1..]);
    }
  }

  lemma StartKeeps(s: State)
    requires Initial(s) && s.timeout >= TWO_HOPS
    ensures Inv(s)
  {
    var x: real :| x >= 0.0 && s.em.events == [MessageAt(x, A)];
    assert Core(s.em.events[1..]) == [];
  }

  // ----- what every run guarantees -----

  /** B hands up exactly what A accepted, in order: it is never more than one message behind, and never behind while
      A is ready to send. The clock never goes back. */
  lemma DeliveryIsPrefix(s0: State, draws: seq<Draw>)
    requires Initial(s0) && s0.timeout >= TWO_HOPS
    ensures var s := After(s0, draws);
      && s.delivered <= s.accepted
      && |s.accepted| <= |s.delivered| + 1
      && (s.p.phase == SendPacket ==> s.delivered == s.accepted)
      && s0.em.time <= s.em.time
  {
    StartKeeps(s0);
    RunKeeps(s0, draws);
  }

  lemma {:induction false} InFlightOfCore(events: seq<Event>, x: Entity)
    ensures InFlight(Core(events), x) == InFlight(events, x)
  {
    if events != [] {
      InFlightOfCore(events[1..], x);
      if !events[0].MessageAt? {
        assert ([events[0]] + Core(events[1..]))[1..] == Core(events[1..]);
      }
    }
  }

  /** When A's timer is next to go off, nothing is in flight. */
  predicate Patient(s: State) {
    s.em.events != [] && IsTimer(s.em.events[0], A) ==> InFlight(s.em.events, A) == [] && InFlight(s.em.events, B) == []
  }

  /** Over both directions at most one packet is in flight; A's timer goes off only when none is, and only while A is
      waiting; an acknowledgement always finds the timer running. */
  lemma OneInFlight(s0: State, draws: seq<Draw>)
    requires Initial(s0) && s0.timeout >= TWO_HOPS
    ensures var s := After(s0, draws);
      && |InFlight(s.em.events, A)| + |InFlight(s.em.events, B)| <= 1
      && (HasTimer(s.em.events, A) <==> s.p.phase == WaitAck)
      && Patient(s)
  {
    StartKeeps(s0);
    RunKeeps(s0, draws);
    var s := After(s0, draws);
    var core := Core(s.em.events);
    InFlightOfCore(s.em.events, A);
    InFlightOfCore(s.em.events, B);
    CoreHasTimer(s.em.events, A);
    CoreOf(s.em.events);
    if |core| > 0 {
      assert InFlight(core, A) == InFlight([core[0]], A) + InFlight(core[1..], A);
      assert InFlight(core, B) == InFlight([core[0]], B) + InFlight(core[1..], B);
    }
    if |core| == 2 {
      assert core[1..] == [core[1]];
    }
    if s.em.events != [] && IsTimer(s.em.events[0], A) {
      assert core[0] == s.em.events[0];
    }
  }

  /** A never looks at the number of an answer, and need not: in every run an intact packet that reaches A
      acknowledges the packet A last sent, and everything accepted has been delivered. */
  lemma AnswersMatch(s0: State, draws: seq<Draw>)
    requires Initial(s0) && s0.timeout >= TWO_HOPS
    ensures var s := After(s0, draws);
      s.em.events != [] && IsPacketTo(s.em.events[0], A) && Intact(s.em.events[0].packet) ==>
        && s.p.phase == WaitAck && s.em.events[0].packet.seqnum == s.p.prevPacket.seqnum
        && s.delivered == s.accepted
  {
    StartKeeps(s0);
    RunKeeps(s0, draws);
    var s := After(s0, draws);
    if s.em.events != [] && IsPacketTo(s.em.events[0], A) {
      TakeCore(s.em);
      DataVerdict(s.em.events[0].packet, s.p.prevAck);
    }
  }

  // ----- a shorter timeout would not do -----

  /** One message, due at once. */
  function OneMessage(timeout: real): State {
    var blank := Packet(0, 0, 0, seq(PAYLOAD_SIZE, _ => 0));
    State(Emulator(0.0, [MessageAt(0.0, A)], 0, 0, 0), Protocol(SendPacket, 0, 0, blank, blank.(seqnum := 1)),
          0, 1, 0.0, timeout, [], [])
  }

  const SLOW: Draw := Draw(0.0, Carried(1.0, NoDamage), seq(PAYLOAD_SIZE, _ => 0))

  /** The packet takes ten units: a timeout of at most ten goes off before it. */
  lemma FirstHop(timeout: real)
    requires timeout >= 0.0
    ensures var s := Next(OneMessage(timeout), SLOW); var e := PacketAt(10.0, B, Sealed(0, 0, Letters(0)));
      && s.em.time == 0.0 && s.timeout == timeout && s.p.prevAck.seqnum == 1
      && s.em.events == if timeout <= 10.0 then [TimerAt(timeout, A), e] else [e, TimerAt(timeout, A)]
  {
    var s0 := OneMessage(timeout);
    var packet := Sealed(0, 0, Letters(0));
    var s1 := s0.(em := Take(s0.em), nsim := 1);
    assert s1.em.events == [];
    var sent := ToLayer3(s1.em, A, packet, SLOW.carriage);
    assert sent.events == [PacketAt(10.0, B, packet)];
    assert Insert([], TimerAt(timeout, A)) == [TimerAt(timeout, A)];
    assert !HasTimer(sent.events, A);
    assert StartTimer(sent, A, timeout).events == Insert(sent.events, TimerAt(timeout, A));
    assert sent.events[1..] == [];
    assert Next(s0, SLOW) == AOutput(s1, Letters(0), SLOW.carriage);
  }

  /** So does its acknowledgement: a timeout below twenty goes off before that. */
  lemma SecondHop(timeout: real)
    requires 10.0 < timeout < 20.0
    ensures var s := Next(Next(OneMessage(timeout), SLOW), SLOW);
      |s.em.events| == 2 && s.em.events[0] == TimerAt(timeout, A) && IsPacketTo(s.em.events[1], A)
  {
    FirstHop(timeout);
    var s := Next(OneMessage(timeout), SLOW);
    var packet := s.em.events[0].packet;
    var s1 := s.(em := Take(s.em));
    var ack := Sealed(packet.seqnum, packet.acknum, AckPayload(SLOW.filler));
    assert s1.em.events == [TimerAt(timeout, A)] && s1.em.time == 10.0;
    assert s1.em.events[1..] == [];
    assert LastArrival(s1.em.events, A, 10.0) == 10.0;
    assert Next(s, SLOW) == BInput(s1, packet, SLOW.carriage, SLOW.filler);
    assert ToLayer3(s1.em, B, ack, SLOW.carriage).events == Insert(s1.em.events, PacketAt(20.0, A, ack));
    assert Insert([], PacketAt(20.0, A, ack)) == [PacketAt(20.0, A, ack)];
  }

  lemma ImpatientRun(timeout: real) returns (draws: seq<Draw>)
    requires 0.0 <= timeout < TWO_HOPS
    ensures Initial(OneMessage(timeout)) && !Patient(After(OneMessage(timeout), draws))
  {
    var s0 := OneMessage(timeout);
    assert s0.em.events == [MessageAt(0.0, A)];
    FirstHop(timeout);
    var s1 := Next(s0, SLOW);
    if timeout <= 10.0 {
      draws := [SLOW];
      assert After(s0, draws) == After(s1, []);
      assert InFlight(s1.em.events, B) == InFlight(s1.em.events[1..], B) == [s1.em.events[1].packet] + InFlight([], B);
    } else {
      draws := [SLOW, SLOW];
      SecondHop(timeout);
      var s2 := Next(s1, SLOW);
      assert draws[1..] == [SLOW];
      assert After(s0, draws) == After(s1, [SLOW]) == After(s2, []);
      assert InFlight(s2.em.events, A) == InFlight(s2.em.events[1..], A) == [s2.em.events[1].packet] + InFlight([], A);
    }
  }

  /** The timer never goes off while something is in flight, in any run, exactly if the timeout covers two hops. */
  lemma TimeoutCoversExactly(timeout: real)
    requires timeout >= 0.0
    ensures (forall s0, draws :: Initial(s0) && s0.timeout == timeout ==> Patient(After(s0, draws)))
      <==> timeout >= TWO_HOPS
  {
    if timeout >= TWO_HOPS {
      forall s0, draws | Initial(s0) && s0.timeout == timeout
        ensures Patient(After(s0, draws))
      {
        OneInFlight(s0, draws);
      }
    } else {
      var draws := ImpatientRun(timeout);
      assert OneMessage(timeout).timeout == timeout;
    }
  }

  // ----- without loss the timer never goes off -----

  predicate Perfect(draws: seq<Draw>) {
    forall d :: d in draws ==> d.carriage.Carried? && d.carriage.damage == NoDamage
  }

  /** While A waits, the expected packet is under way, unharmed. */
  ghost predicate Steady(s: State) {
    && Inv(s)
    && s.em.ntolayer3 == |s.accepted| + |s.delivered|
    && (s.p.phase == WaitAck ==>
      var core := Core(s.em.events);
      && |core| == 2
      && (core[0].entity == B ==> core[0].packet == s.p.prevPacket && s.p.seqNum == s.p.prevPacket.seqnum)
      && (core[0].entity == A ==> core[0].packet == s.p.prevAck && s.p.seqNum != s.p.prevPacket.seqnum))
  }

  lemma SteadyOutput(s: State, m: Payload, c: Carriage)
    requires Steady(s) && m[0] != CORRUPT_BYTE && c.Carried? && c.damage == NoDamage
    ensures Steady(AOutput(s, m, c))
  {
    OutputKeeps(s, m, c);
    if s.p.phase == SendPacket {
      var packet := Sealed(s.p.seqNum, s.p.ack, m);
      SendCore(s.em, A, packet, c);
      StartCore(ToLayer3(s.em, A, packet, c), s.timeout);
    }
  }

  lemma SteadyBInput(s: State, c: Carriage, filler: Payload, t: real)
    requires Timely(s.em) && s.lambda >= 0.0 && s.timeout >= TWO_HOPS && IsBit(s.p.seqNum) && IsBit(s.p.ack)
    requires s.p.phase == WaitAck && Outstanding(s.p, s.accepted, s.delivered) && s.p.seqNum == s.p.prevPacket.seqnum
    requires Core(s.em.events) == [TimerAt(t, A)] && s.em.time <= t - 10.0
    requires s.em.ntolayer3 == |s.accepted| + |s.delivered|
    requires c.Carried? && c.damage == NoDamage
    ensures Steady(BInput(s, s.p.prevPacket, c, filler))
  {
    BInputKeeps(s, s.p.prevPacket, c, filler, t);
    var packet := s.p.prevPacket;
    SendCore(s.em, B, Sealed(packet.seqnum, packet.acknum, AckPayload(filler)), c);
  }

  lemma SteadySchedule(s: State, gap: real)
    requires Steady(s) && gap >= 0.0
    ensures Steady(ScheduleNext(s, gap))
  {
    ScheduleKeeps(s, gap);
  }

  lemma SteadyMessage(s: State, x: Entity, draw: Draw)
    requires Steady(s) && draw.carriage.Carried? && draw.carriage.damage == NoDamage
    ensures Steady(MessageDue(s, x, draw))
  {
    if s.nsim < s.nsimmax {
      var gap := Gap(s.lambda, draw.arrival);
      SteadySchedule(s, gap);
      if x == A {
        SteadyOutput(ScheduleNext(s, gap), Letters(s.nsim), draw.carriage);
      }
    }
  }

  lemma SteadyStep(s: State, draw: Draw)
    requires Steady(s) && draw.carriage.Carried? && draw.carriage.damage == NoDamage
    ensures s.em.events != [] ==> !IsTimer(s.em.events[0], A)
    ensures Steady(Next(s, draw))
  {
    if s.em.events != [] {
      StepKeeps(s, draw);
      TakeCore(s.em);
      var e := s.em.events[0];
      var s1 := s.(em := Take(s.em));
      var core := Core(s.em.events);
      if e.MessageAt? {
        SteadyMessage(s1, e.entity, draw);
      } else {
        assert core[0] == e && core[1..] == Core(s1.em.events);
        assert e.PacketAt?;
        if e.entity == B {
          SteadyBInput(s1, draw.carriage, draw.filler, core[1].time);
        }
      }
    }
  }

  /** Two delays of at most ten units always fit the timeout: without loss or damage the timer never goes off, and each
      message costs one packet and one acknowledgement. */
  lemma {:induction false} NoNeedlessTimeout(s: State, draws: seq<Draw>)
    requires Steady(s) && Perfect(draws)
    ensures var s' := After(s, draws);
      && Steady(s')
      && (s'.em.events != [] ==> !IsTimer(s'.em.events[0], A))
    decreases |draws|
  {
    if draws == [] {
      SteadyStep(s, Draw(0.0, Carried(0.0, NoDamage), seq(PAYLOAD_SIZE, _ => 0)));
    } else {
      assert draws[0] in draws;
      SteadyStep(s, draws[0]);
      NoNeedlessTimeout(Next(s, draws[0]), draws[1..]);
    }
  }

  lemma PerfectRun(s0: State, draws: seq<Draw>)
    requires Initial(s0) && s0.timeout >= TWO_HOPS && Perfect(draws)
    ensures var s := After(s0, draws);
      && s.em.ntolayer3 == |s.accepted| + |s.delivered|
      && (s.em.events != [] ==> !IsTimer(s.em.events[0], A))
  {
    StartKeeps(s0);
    NoNeedlessTimeout(s0, draws);
  }
}
