/** Progress of selective repeat under every schedule: once the medium loses nothing, it does not matter when packets
    arrive and when the timer ticks. */
module SelectiveRepeatSchedules {
  import opened Collections
  import opened Packets
  import opened SelectiveRepeat
  import opened SelectiveRepeatSafety
  import opened SelectiveRepeatOrder
  import opened SelectiveRepeatProgress

  /** Ticks and deliveries in any order; nothing is lost or damaged, and layer 5 gives nothing. */
  predicate Quiet(steps: seq<Step>) {
    forall st :: st in steps ==> Uneventful(st)
  }

  predicate Uneventful(step: Step) {
    step.fates == [] && !step.event.FromLayer5?
  }

  function Ticks(steps: seq<Step>): nat {
    if steps == [] then 0 else (if steps[0].event.Timer? then 1 else 0) + Ticks(steps[1..])
  }

  /** Packet `t` has left the window, or a copy or an acknowledgement of it is in flight. */
  predicate UnderWay(s: System, t: nat) {
    t < s.a.base || (t < |s.sent| && s.sent[t] in s.toB) || AckIn(s.toA, t)
  }

  /** Or it is sent again within the next `ticks` ticks. */
  predicate Expected(s: System, t: nat, ticks: nat) {
    || UnderWay(s, t)
    || (ticks > 0 && t == s.a.base && At(s.a.ring, t).timeout < s.a.clock + ticks as real)
  }

  /** Nothing new is accepted, and the window does not move back. */
  predicate Onward(s: System, s': System) {
    s'.given == s.given && s.a.base <= s'.a.base
  }

  lemma WholeTransmit(out: seq<Packet>)
    ensures Transmit(out, []) == out
  {
  }

  lemma StillIn<T>(s: seq<T>, i: nat, x: T)
    requires i < |s| && x in s && x != s[i]
    ensures x in Without(s, i)
  {
    var k :| 0 <= k < |s| && s[k] == x;
    assert Without(s, i)[if k < i then k else k - 1] == x;
  }

  // ----- one event -----

  lemma TickAwaits(s: System, step: Step, t: nat, ticks: nat)
    requires Inv(s) && Uneventful(step) && step.event.Timer? && t <= s.a.base && t < s.a.nextSeq
    requires ticks > 0 && Expected(s, t, ticks)
    ensures Onward(s, Next(s, step)) && Expected(Next(s, step), t, ticks - 1)
  {
    var out := Tick(s.a).1;
    WholeTransmit(out);
    assert Next(s, step).toB == s.toB + out;
    if s.a.base < s.a.nextSeq {
      TickAtBase(s.a, s.sent);
    }
  }

  lemma DataAwaits(s: System, step: Step, t: nat, ticks: nat)
    requires Inv(s) && Uneventful(step) && step.event.ArriveAtB? && t <= s.a.base && t < s.a.nextSeq
    requires Expected(s, t, ticks)
    ensures Onward(s, Next(s, step)) && Expected(Next(s, step), t, ticks)
  {
    var i := step.event.i;
    if i < |s.toB| {
      var p := s.toB[i];
      ReceiverInputKeeps(s.b, p, s.sent, s.delivered);
      WholeTransmit(ReceiverInput(s.b, p).1);
      var s' := Next(s, step);
      if p == s.sent[t] {
        assert Ack(p) in s'.toA;
      } else if s.sent[t] in s.toB {
        StillIn(s.toB, i, s.sent[t]);
      }
      if AckIn(s.toA, t) {
        var q :| q in s.toA && Intact(q) && q.acknum == t;
        assert q in s'.toA;
      }
    }
  }

  /** An acknowledgement that does not move the window leaves the slot of its first packet alone. */
  lemma BaseSlotStays(a: Sender, b: Receiver, p: Packet, sent: seq<Packet>, delivered: seq<Payload>)
    requires SenderOk(a, sent) && ReceiverOk(b, sent, delivered) && AcksSound(a, b) && a.base < a.nextSeq
    requires Intact(p) ==> 0 <= p.acknum < |sent| && Has(b, p.acknum)
    requires SenderInput(a, p).0.base == a.base
    ensures var a' := SenderInput(a, p).0; a'.clock == a.clock && At(a'.ring, a.base) == At(a.ring, a.base)
  {
    InputMovesBase(a, b, p, sent, delivered);
    if Intact(p) && p.acknum > a.base {
      var t: nat := p.acknum;
      MarkedKeeps(a, t, sent);
      var a1 := Marked(a, t % N);
      DistinctSlots(a.base, t);
      assert a1.ring[a.base % N] == a.ring[a.base % N];
      NothingFreed(a1);
    }
  }

  lemma NothingFreed(a: Sender)
    requires a.ringStart == a.base && At(a.ring, a.base).flag != ACKED
    ensures FreeSendBuf(a) == (a, [])
  {
    assert Slotted(a.ringStart, 0) == a.base % N;
    assert Run(a.ring, a.ringStart, ACKED, 0) == 0;
    assert Freed(a.ring, a.ringStart, 0) == a.ring;
  }

  lemma AckAwaits(s: System, step: Step, t: nat, ticks: nat)
    requires Inv(s) && Uneventful(step) && step.event.ArriveAtA? && t <= s.a.base && t < s.a.nextSeq
    requires Expected(s, t, ticks)
    ensures Onward(s, Next(s, step)) && Expected(Next(s, step), t, ticks)
  {
    var i := step.event.i;
    if i < |s.toA| {
      var p, s' := s.toA[i], Next(s, step);
      SenderInputKeeps(s.a, s.b, p, s.sent, s.delivered);
      if s'.a.base == s.a.base && t == s.a.base {
        BaseSlotStays(s.a, s.b, p, s.sent, s.delivered);
        if AckIn(s.toA, t) {
          var q :| q in s.toA && Intact(q) && q.acknum == t;
          StillIn(s.toA, i, q);
        }
      }
    }
  }

  lemma StepAwaits(s: System, step: Step, t: nat, ticks: nat)
    requires Inv(s) && Uneventful(step) && t <= s.a.base && t < s.a.nextSeq
    requires step.event.Timer? ==> ticks > 0
    requires Expected(s, t, ticks)
    ensures Onward(s, Next(s, step))
    ensures Expected(Next(s, step), t, if step.event.Timer? then ticks - 1 else ticks)
  {
    if step.event.Timer? {
      TickAwaits(s, step, t, ticks);
    } else if step.event.ArriveAtA? {
      AckAwaits(s, step, t, ticks);
    } else {
      DataAwaits(s, step, t, ticks);
    }
  }

  // ----- a whole schedule -----

  lemma SentStays(s: System, step: Step)
    requires Inv(s)
    ensures Inv(Next(s, step)) && s.a.nextSeq <= Next(s, step).a.nextSeq
  {
    StepKeeps(s, step);
    HistoryGrows(s, [step]);
    assert After(Next(s, step), []) == Next(s, step);
  }

  lemma {:induction false} ScheduleAwaits(s: System, steps: seq<Step>, t: nat)
    requires Inv(s) && Quiet(steps) && t <= s.a.base && t < s.a.nextSeq && Expected(s, t, Ticks(steps))
    ensures Inv(After(s, steps)) && Onward(s, After(s, steps)) && UnderWay(After(s, steps), t)
    decreases |steps|
  {
    if steps != [] {
      SentStays(s, steps[0]);
      StepAwaits(s, steps[0], t, Ticks(steps));
      ScheduleAwaits(Next(s, steps[0]), steps[1..], t);
    }
  }

  lemma {:induction false} ScheduleIsQuiet(s: System, steps: seq<Step>)
    requires Inv(s) && Quiet(steps)
    ensures Inv(After(s, steps)) && Onward(s, After(s, steps))
    decreases |steps|
  {
    if steps != [] {
      SentStays(s, steps[0]);
      assert Onward(s, Next(s, steps[0])) by {
        OneOnward(s, steps[0]);
      }
      ScheduleIsQuiet(Next(s, steps[0]), steps[1..]);
    }
  }

  lemma OneOnward(s: System, step: Step)
    requires Inv(s) && Uneventful(step)
    ensures Onward(s, Next(s, step))
  {
    if step.event.Timer? {
      ResendKeeps(s.a.(clock := s.a.clock + INTERVAL), s.a.base, s.sent);
    } else if step.event.ArriveAtA? && step.event.i < |s.toA| {
      SenderInputKeeps(s.a, s.b, s.toA[step.event.i], s.sent, s.delivered);
    }
  }

  /** More ticks than a timeout lasts, and time for whatever is in flight to arrive. */
  predicate Complete(s: System, steps: seq<Step>) {
    Quiet(steps) && Ticks(steps) as real > TIMEOUT && After(s, steps).toB == [] && After(s, steps).toA == []
  }

  /** Whatever the order of ticks and arrivals: once more than a timeout has passed and nothing is in flight any
      more, the oldest outstanding packet has been acknowledged. */
  lemma BaseMovesOn(s: System, steps: seq<Step>)
    requires Inv(s) && s.a.base < s.a.nextSeq && Complete(s, steps)
    ensures s.a.base < After(s, steps).a.base
  {
    assert At(s.a.ring, s.a.base).timeout <= s.a.clock + TIMEOUT;
    ScheduleAwaits(s, steps, s.a.base);
  }

  // ----- such rounds exist -----

  /** Delivering everything in flight, and what is sent in answer, ends. */
  lemma {:induction false} Drain(s: System) returns (steps: seq<Step>)
    requires Inv(s)
    ensures Quiet(steps) && After(s, steps).toB == [] && After(s, steps).toA == []
    decreases |s.given| - |s.sent|, 2 * |s.toB| + |s.toA|
  {
    steps := [];
    if s.toB != [] || s.toA != [] {
      var arrive := Step(if s.toB != [] then ArriveAtB(0) else ArriveAtA(0), []);
      SentStays(s, arrive);
      OneOnward(s, arrive);
      Arrived(s, arrive);
      var rest := Drain(Next(s, arrive));
      steps := [arrive] + rest;
      assert steps[1..] == rest;
    }
  }

  /** An arrival makes room in flight, unless it lets the sender number another message. */
  lemma Arrived(s: System, step: Step)
    requires Inv(s) && step.fates == []
    requires if s.toB != [] then step.event == ArriveAtB(0) else step.event == ArriveAtA(0) && s.toA != []
    ensures var s' := Next(s, step);
      && |s.sent| <= |s'.sent| <= |s'.given|
      && (|s'.sent| == |s.sent| ==> 2 * |s'.toB| + |s'.toA| < 2 * |s.toB| + |s.toA|)
  {
    StepKeeps(s, step);
    AcceptedSize(Next(s, step));
    if step.event.ArriveAtB? {
      WholeTransmit(ReceiverInput(s.b, s.toB[0]).1);
    } else {
      WholeTransmit(SenderInput(s.a, s.toA[0]).1);
    }
  }

  lemma {:induction false} JoinedTicks(first: seq<Step>, second: seq<Step>)
    ensures Ticks(first + second) == Ticks(first) + Ticks(second)
  {
    if first == [] {
      assert first + second == second;
    } else {
      assert (first + second)[1..] == first[1..] + second;
      JoinedTicks(first[1..], second);
    }
  }

  lemma {:induction false} ManyTicks(n: nat) returns (steps: seq<Step>)
    ensures Quiet(steps) && Ticks(steps) == n
  {
    steps := [];
    if n > 0 {
      var rest := ManyTicks(n - 1);
      steps := [Step(Timer, [])] + rest;
      assert steps[1..] == rest;
    }
  }

  lemma CompleteIsPossible(s: System)
    requires Inv(s)
    ensures exists steps :: Complete(s, steps)
  {
    var ticks := ManyTicks(21);
    ScheduleIsQuiet(s, ticks);
    var drain := Drain(After(s, ticks));
    AfterChain(s, ticks, drain);
    JoinedTicks(ticks, drain);
    assert Complete(s, ticks + drain);
  }

  // ----- until everything is settled -----

  function Joined(rounds: seq<seq<Step>>): seq<Step> {
    if rounds == [] then [] else rounds[0] + Joined(rounds[1..])
  }

  /** Every round is complete. */
  predicate Rounds(s: System, rounds: seq<seq<Step>>)
    decreases |rounds|
  {
    rounds != [] ==> Complete(s, rounds[0]) && Rounds(After(s, rounds[0]), rounds[1..])
  }

  lemma SettledWhenAcked(s: System)
    requires Inv(s) && s.a.base == s.a.nextSeq
    ensures Settled(s)
  {
    AcceptedSize(s);
    assert s.a.queue == [];
    assert s.delivered == Payloads(s.sent)[..s.b.base] == Payloads(s.sent);
  }

  lemma {:induction false} RoundsSettle(s: System, rounds: seq<seq<Step>>)
    requires Inv(s) && Rounds(s, rounds) && |rounds| >= |s.given| - s.a.base
    ensures Settled(After(s, Joined(rounds))) && After(s, Joined(rounds)).given == s.given
    decreases |rounds|
  {
    AcceptedSize(s);
    if rounds == [] {
      SettledWhenAcked(s);
    } else {
      var s1 := After(s, rounds[0]);
      ScheduleIsQuiet(s, rounds[0]);
      if s.a.base < s.a.nextSeq {
        BaseMovesOn(s, rounds[0]);
      } else {
        AcceptedSize(s1);
      }
      RoundsSettle(s1, rounds[1..]);
      AfterChain(s, rounds[0], Joined(rounds[1..]));
    }
  }

  /** From every reachable state, every schedule without loss that leaves enough such rounds delivers and acknowledges
      everything. */
  lemma EveryScheduleSettles(s0: System, past: seq<Step>, rounds: seq<seq<Step>>)
    requires Initial(s0)
    requires var s := After(s0, past); Rounds(s, rounds) && |rounds| >= |s.given| - s.a.base
    ensures var s := After(s0, past);
      Settled(After(s, Joined(rounds))) && After(s, Joined(rounds)).given == s.given
  {
    StartKeeps(s0);
    RunKeeps(s0, past);
    RoundsSettle(After(s0, past), rounds);
  }
}
