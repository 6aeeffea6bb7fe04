/** Selective repeat against its history: what the sender puts on the wire, and when, told from what happened before
    rather than from its ring. */
module SelectiveRepeatHistory {
  import opened Collections
  import opened Packets
  import opened SelectiveRepeat
  import opened SelectiveRepeatSafety

  /** When each number was last handed to layer 3, which numbers an intact acknowledgement has reached the sender for,
      and how often the timer has gone off. */
  datatype Log = Log(sentAt: map<int, real>, acked: set<int>, ticks: nat)

  const NOTHING: Log := Log(map[], {}, 0)

  /** What the sender hands to layer 3 in a step. */
  function Handed(s: System, step: Step): seq<Packet> {
    match step.event
    case FromLayer5(m) => Output(s.a, m).1
    case Timer => Tick(s.a).1
    case ArriveAtA(i) => if i < |s.toA| then SenderInput(s.a, s.toA[i]).1 else []
    case ArriveAtB(_) => []
  }

  function Stamped(sentAt: map<int, real>, out: seq<Packet>, now: real): map<int, real> {
    sentAt + map p | p in out :: p.seqnum := now
  }

  function AckedBy(s: System, step: Step): set<int> {
    if step.event.ArriveAtA? && step.event.i < |s.toA| && Intact(s.toA[step.event.i])
    then {s.toA[step.event.i].acknum} else {}
  }

  function Recorded(log: Log, s: System, step: Step): Log {
    var ticks := log.ticks + if step.event.Timer? then 1 else 0;
    Log(Stamped(log.sentAt, Handed(s, step), ticks as real), log.acked + AckedBy(s, step), ticks)
  }

  function History(log: Log, s: System, steps: seq<Step>): Log
    decreases |steps|
  {
    if steps == [] then log else History(Recorded(log, s, steps[0]), Next(s, steps[0]), steps[1..])
  }

  /** The packets not acknowledged and last handed to layer 3 more than twenty time units before `now`, in the order of
      their numbers from `i` on. */
  function Late(sent: seq<Packet>, log: Log, now: real, i: nat): seq<Packet>
    decreases |sent| - i
  {
    if i >= |sent| then []
    else
      (if i !in log.acked && i in log.sentAt && now > log.sentAt[i] + 20.0 then [sent[i]] else [])
      + Late(sent, log, now, i + 1)
  }

  // ----- the ring agrees with the history -----

  /** Slot `n` of the window: unacknowledged exactly as logged, and due twenty units after it was last sent. */
  ghost predicate SlotTold(a: Sender, log: Log, n: nat) {
    && (n in log.acked <==> At(a.ring, n).flag == ACKED)
    && (At(a.ring, n).flag == HELD ==> n in log.sentAt && At(a.ring, n).timeout == log.sentAt[n] + 20.0)
  }

  ghost predicate Told(a: Sender, log: Log) {
    && a.clock == log.ticks as real
    && (forall n: nat :: a.base <= n < a.nextSeq ==> SlotTold(a, log, n))
    && (forall n: nat :: n < a.base ==> n in log.acked)
    && (forall n: int :: n in log.acked ==> 0 <= n < a.nextSeq)
  }

  /** The slots in use stay as they were, and those taken since hold packets sent now. */
  ghost predicate Places(a: Sender, a': Sender) {
    && a'.clock == a.clock && a'.base == a.base <= a.nextSeq <= a'.nextSeq <= a.base + N
    && (forall n: nat :: a.base <= n < a.nextSeq ==> At(a'.ring, n) == At(a.ring, n))
    && (forall n: nat :: a.nextSeq <= n < a'.nextSeq ==> SentNow(a, At(a'.ring, n)))
  }

  predicate SentNow(a: Sender, slot: Slot) {
    slot.flag == HELD && slot.timeout == a.clock + 20.0
  }

  lemma OutputPlaces(a: Sender, m: Payload, sent: seq<Packet>, room: nat)
    requires SenderCore(a, sent, room)
    ensures Places(a, Output(a, m).0)
  {
    if a.nextSeq < a.base + N {
      var q := a.queue + [m];
      assert RingIndex(a.base, a.ringStart, a.nextSeq) == a.nextSeq % N;
      assert At(a.ring, a.nextSeq).flag == FREE;
      var slot := Slot(HELD, DataPacket(a.nextSeq, q[0]), a.clock + 20.0);
      PutIs(a.ring, a.base, a.nextSeq, slot);
      assert Output(a, m).0.ring == a.ring[a.nextSeq % N := slot];
    }
  }

  lemma {:induction false} RefillPlaces(a: Sender, count: nat, sent: seq<Packet>)
    requires SenderCore(a, sent, count)
    ensures Places(a, Refill(a, count).0)
    decreases count
  {
    if count > 0 && a.queue != [] {
      var popped := a.(queue := a.queue[1..]);
      var r := Output(popped, a.queue[0]);
      OutputPlaces(popped, a.queue[0], sent, count);
      OutputKeeps(popped, a.queue[0], sent, count);
      RefillPlaces(r.0, count - 1, sent + r.1);
      PlacesChain(popped, r.0, Refill(r.0, count - 1).0);
    }
  }

  lemma PlacesChain(a: Sender, a1: Sender, a2: Sender)
    requires Places(a, a1) && Places(a1, a2)
    ensures Places(a, a2)
  {
  }

  lemma MarkedTold(a: Sender, t: nat, sent: seq<Packet>, log: Log)
    requires SenderCore(a, sent, 0) && a.base <= t < a.nextSeq && Told(a, log)
    ensures Told(Marked(a, t % N), log.(acked := log.acked + {t as int}))
  {
    var a1, log1 := Marked(a, t % N), log.(acked := log.acked + {t as int});
    forall n: nat | a.base <= n < a.nextSeq
      ensures SlotTold(a1, log1, n)
    {
      assert SlotTold(a, log, n);
      if n != t {
        DistinctSlots(n, t);
      }
    }
  }

  /** The numbers of packets just sent are stamped with the time, the others keep their stamps. */
  lemma StampedIs(sentAt: map<int, real>, sent: seq<Packet>, out: seq<Packet>, now: real, n: int)
    requires Numbered(sent + out) && 0 <= n < |sent + out|
    ensures var after := Stamped(sentAt, out, now);
      if n < |sent| then (n in after <==> n in sentAt) && (n in sentAt ==> after[n] == sentAt[n])
      else n in after && after[n] == now
  {
    forall p | p in out
      ensures p.seqnum >= |sent|
    {
      var i :| 0 <= i < |out| && out[i] == p;
      assert (sent + out)[|sent| + i] == p;
    }
    if n >= |sent| {
      var p := out[n - |sent|];
      assert (sent + out)[n] == p && p in out && p.seqnum == n;
    }
  }

  lemma PlacesTold(a: Sender, a': Sender, sent: seq<Packet>, out: seq<Packet>, log: Log)
    requires Told(a, log) && Places(a, a') && a.nextSeq == |sent| && a'.nextSeq == |sent + out| && Numbered(sent + out)
    ensures Told(a', log.(sentAt := Stamped(log.sentAt, out, a.clock)))
  {
    var log1 := log.(sentAt := Stamped(log.sentAt, out, a.clock));
    forall n: nat | a'.base <= n < a'.nextSeq
      ensures SlotTold(a', log1, n)
    {
      StampedIs(log.sentAt, sent, out, a.clock, n);
      if n < a.nextSeq {
        assert SlotTold(a, log, n);
      } else {
        assert SentNow(a, At(a'.ring, n));
      }
    }
  }

  lemma SlideTold(a: Sender, sent: seq<Packet>, log: Log)
    requires SenderCore(a, sent, 0) && Told(a, log)
    ensures Told(Slide(a, Run(a.ring, a.ringStart, ACKED, 0)), log)
  {
    SlideKeeps(a, sent);
    var slid := Slide(a, Run(a.ring, a.ringStart, ACKED, 0));
    forall n: nat | slid.base <= n < slid.nextSeq
      ensures SlotTold(slid, log, n)
    {
      assert SlotTold(a, log, n);
    }
    forall n: nat | n < slid.base
      ensures n in log.acked
    {
      assert n >= a.base ==> SlotTold(a, log, n);
    }
  }

  lemma FreeSendBufTold(a: Sender, sent: seq<Packet>, log: Log)
    requires SenderCore(a, sent, 0) && Told(a, log)
    ensures Told(FreeSendBuf(a).0, log.(sentAt := Stamped(log.sentAt, FreeSendBuf(a).1, a.clock)))
  {
    var count := Run(a.ring, a.ringStart, ACKED, 0);
    var slid := Slide(a, count);
    SlideTold(a, sent, log);
    assert SenderCore(slid, sent, count) by {
      SlideKeeps(a, sent);
    }
    var r := Refill(slid, count);
    assert Places(slid, r.0) by {
      RefillPlaces(slid, count, sent);
    }
    assert SenderCore(r.0, sent + r.1, 0) by {
      RefillKeeps(slid, count, sent);
    }
    PlacesTold(slid, r.0, sent, r.1, log);
  }

  // ----- every event -----

  lemma GivenTold(s: System, m: Payload, fates: seq<Fate>, log: Log)
    requires Inv(s) && Told(s.a, log)
    ensures var step := Step(FromLayer5(m), fates); Told(Next(s, step).a, Recorded(log, s, step))
  {
    var r := Output(s.a, m);
    OutputPlaces(s.a, m, s.sent, 0);
    assert SenderCore(r.0, s.sent + r.1, 0) by {
      OutputKeeps(s.a, m, s.sent, 0);
    }
    PlacesTold(s.a, r.0, s.sent, r.1, log);
    assert log.acked + {} == log.acked;
  }

  lemma AckTold(s: System, i: nat, fates: seq<Fate>, log: Log)
    requires Inv(s) && Told(s.a, log)
    ensures var step := Step(ArriveAtA(i), fates); Told(Next(s, step).a, Recorded(log, s, step))
  {
    var step := Step(ArriveAtA(i), fates);
    if i < |s.toA| && Intact(s.toA[i]) && s.toA[i].acknum >= s.a.base {
      var t: nat := s.toA[i].acknum;
      var a1, log1 := Marked(s.a, t % N), log.(acked := log.acked + {t as int});
      MarkedTold(s.a, t, s.sent, log);
      assert SenderCore(a1, s.sent, 0) && RingIndex(s.a.base, s.a.ringStart, t) == t % N by {
        MarkedKeeps(s.a, t, s.sent);
      }
      FreeSendBufTold(a1, s.sent, log1);
    } else {
      assert Stamped(log.sentAt, [], log.ticks as real) == log.sentAt;
      assert log.acked + AckedBy(s, step) == log.acked;
      assert Recorded(log, s, step) == log;
    }
  }

  ghost predicate Hands(out: seq<Packet>, n: int) {
    exists p :: p in out && p.seqnum == n
  }

  lemma {:induction false} OverdueHands(a: Sender, i: nat, sent: seq<Packet>, n: nat)
    requires Numbered(sent) && a.nextSeq == |sent| && a.base <= i
    ensures Hands(OverdueFrom(a, i, sent), n) <==> i <= n && Overdue(a, n)
    decreases a.nextSeq - i
  {
    if i < a.nextSeq {
      OverdueHands(a, i + 1, sent, n);
      var first, rest := if Overdue(a, i) then [sent[i]] else [], OverdueFrom(a, i + 1, sent);
      assert OverdueFrom(a, i, sent) == first + rest && sent[i].seqnum == i;
      if Hands(rest, n) {
        var p :| p in rest && p.seqnum == n;
        assert p in first + rest;
      }
      if n == i && Overdue(a, i) {
        assert sent[i] in first + rest;
      }
    }
  }

  lemma {:induction false} OverdueIsLate(a: Sender, i: nat, sent: seq<Packet>, log: Log)
    requires SenderCore(a, sent, 0) && a.base <= i
    requires forall n: nat :: a.base <= n < a.nextSeq ==> SlotTold(a, log, n)
    ensures OverdueFrom(a, i, sent) == Late(sent, log, a.clock, i)
    decreases a.nextSeq - i
  {
    if i < a.nextSeq {
      assert SlotTold(a, log, i) && At(a.ring, i).flag in {HELD, ACKED};
      OverdueIsLate(a, i + 1, sent, log);
    }
  }

  lemma {:induction false} AckedAreNotLate(sent: seq<Packet>, log: Log, now: real, i: nat, base: nat)
    requires i <= base <= |sent| && forall n: nat :: i <= n < base ==> n in log.acked
    ensures Late(sent, log, now, i) == Late(sent, log, now, base)
    decreases base - i
  {
    if i < base {
      AckedAreNotLate(sent, log, now, i + 1, base);
      assert [] + Late(sent, log, now, i + 1) == Late(sent, log, now, i + 1);
    }
  }

  /** The next tick hands to layer 3 exactly the late packets. */
  predicate SendsLate(s: System, log: Log) {
    Tick(s.a).1 == Late(s.sent, log, (log.ticks + 1) as real, 0)
  }

  lemma TickSendsLate(s: System, log: Log)
    requires Inv(s) && Told(s.a, log)
    ensures SendsLate(s, log)
  {
    var a1 := s.a.(clock := s.a.clock + INTERVAL);
    assert Tick(s.a).1 == OverdueFrom(a1, a1.base, s.sent) by {
      ResendIsExact(a1, a1.base, s.sent);
    }
    assert OverdueFrom(a1, a1.base, s.sent) == Late(s.sent, log, a1.clock, a1.base) by {
      forall n: nat | a1.base <= n < a1.nextSeq
        ensures SlotTold(a1, log, n)
      {
        assert SlotTold(s.a, log, n);
      }
      OverdueIsLate(a1, a1.base, s.sent, log);
    }
    AckedAreNotLate(s.sent, log, a1.clock, 0, a1.base);
  }

  /** What a tick makes of one slot. */
  lemma TickedSlot(s: System, n: nat)
    requires Inv(s) && s.a.base <= n < s.a.nextSeq
    ensures var a1, r := s.a.(clock := s.a.clock + INTERVAL), Tick(s.a);
      && At(r.0.ring, n) == Renewed(a1, n)
      && (Hands(r.1, n) <==> Overdue(a1, n))
  {
    var a1 := s.a.(clock := s.a.clock + INTERVAL);
    assert SenderOk(a1, s.sent);
    ResendIsExact(a1, a1.base, s.sent);
    OverdueHands(a1, a1.base, s.sent, n);
  }

  lemma HandsStamped(sentAt: map<int, real>, out: seq<Packet>, now: real, n: int)
    ensures var after := Stamped(sentAt, out, now);
      if Hands(out, n) then n in after && after[n] == now
      else (n in after <==> n in sentAt) && (n in sentAt ==> after[n] == sentAt[n])
  {
  }

  lemma TickedSlotTold(s: System, log: Log, n: nat)
    requires Inv(s) && s.a.base <= n < s.a.nextSeq && SlotTold(s.a, log, n) && s.a.clock == log.ticks as real
    ensures SlotTold(Tick(s.a).0, Recorded(log, s, Step(Timer, [])), n)
  {
    TickedSlot(s, n);
    HandsStamped(log.sentAt, Tick(s.a).1, (log.ticks + 1) as real, n);
  }

  lemma TickStays(a: Sender, sent: seq<Packet>)
    requires SenderOk(a, sent)
    ensures var a' := Tick(a).0; a'.base == a.base && a'.nextSeq == a.nextSeq && a'.clock == a.clock + 1.0
  {
    ResendKeeps(a.(clock := a.clock + INTERVAL), a.base, sent);
  }

  lemma TickTold(s: System, fates: seq<Fate>, log: Log)
    requires Inv(s) && Told(s.a, log)
    ensures var step := Step(Timer, fates); Told(Next(s, step).a, Recorded(log, s, step))
  {
    TickStays(s.a, s.sent);
    assert Recorded(log, s, Step(Timer, fates)) == Recorded(log, s, Step(Timer, []));
    forall n: nat | s.a.base <= n < s.a.nextSeq
      ensures SlotTold(Tick(s.a).0, Recorded(log, s, Step(Timer, [])), n)
    {
      TickedSlotTold(s, log, n);
    }
  }

  lemma StepTold(s: System, step: Step, log: Log)
    requires Inv(s) && Told(s.a, log)
    ensures Told(Next(s, step).a, Recorded(log, s, step))
  {
    match step.event
    case FromLayer5(m) => GivenTold(s, m, step.fates, log);
    case Timer => TickTold(s, step.fates, log);
    case ArriveAtA(i) => AckTold(s, i, step.fates, log);
    case ArriveAtB(i) =>
      assert Stamped(log.sentAt, [], log.ticks as real) == log.sentAt;
      assert Recorded(log, s, step) == log;
  }

  lemma {:induction false} RunTold(s: System, steps: seq<Step>, log: Log)
    requires Inv(s) && Told(s.a, log)
    ensures Told(After(s, steps).a, History(log, s, steps)) && Inv(After(s, steps))
    decreases |steps|
  {
    if steps != [] {
      StepTold(s, steps[0], log);
      StepKeeps(s, steps[0]);
      RunTold(Next(s, steps[0]), steps[1..], Recorded(log, s, steps[0]));
    }
  }

  // ----- what every run does -----

  /** In every run a tick hands to layer 3 exactly the numbered packets that no intact acknowledgement has come for and
      that were last handed to it more than twenty time units ago, each once and in order. */
  lemma TickIsExact(s0: System, past: seq<Step>)
    requires Initial(s0)
    ensures SendsLate(After(s0, past), History(NOTHING, s0, past))
  {
    StartKeeps(s0);
    RunTold(s0, past, NOTHING);
    TickSendsLate(After(s0, past), History(NOTHING, s0, past));
  }

  /** And the window begins at the least number no intact acknowledgement has come for. */
  lemma BaseIsLeastUnacked(s0: System, past: seq<Step>, n: nat)
    requires Initial(s0)
    ensures var s, log := After(s0, past), History(NOTHING, s0, past);
      && (n < s.a.base ==> n in log.acked) && s.a.base !in log.acked
      && (s.a.base <= n < s.a.nextSeq ==> (n in log.acked <==> At(s.a.ring, n).flag == ACKED))
  {
    StartKeeps(s0);
    RunTold(s0, past, NOTHING);
    var s, log := After(s0, past), History(NOTHING, s0, past);
    if s.a.base < s.a.nextSeq {
      assert SlotTold(s.a, log, s.a.base);
    }
    if s.a.base <= n < s.a.nextSeq {
      assert SlotTold(s.a, log, n);
    }
  }

  lemma {:induction false} LateIsLate(sent: seq<Packet>, log: Log, now: real, i: nat, p: Packet)
    requires Numbered(sent) && p in Late(sent, log, now, i)
    ensures p.seqnum in log.sentAt && p.seqnum !in log.acked && now > log.sentAt[p.seqnum] + 20.0
    decreases |sent| - i
  {
    if i < |sent| && p in Late(sent, log, now, i + 1) {
      LateIsLate(sent, log, now, i + 1, p);
    } else {
      assert p == sent[i] && sent[i].seqnum == i;
    }
  }

  lemma ResentAreLate(s: System, log: Log, p: Packet)
    requires Inv(s) && Told(s.a, log) && p in Tick(s.a).1
    ensures ResentLate(log, p)
  {
    TickSendsLate(s, log);
    LateIsLate(s.sent, log, (log.ticks + 1) as real, 0, p);
  }

  /** The packet is not acknowledged, and was last sent more than twenty time units before the next tick. */
  predicate ResentLate(log: Log, p: Packet) {
    p.seqnum in log.sentAt && p.seqnum !in log.acked && (log.ticks + 1) as real > log.sentAt[p.seqnum] + 20.0
  }

  /** In particular, no packet is resent until more than twenty time units after it was last sent. */
  lemma NoEarlyResend(s0: System, past: seq<Step>)
    requires Initial(s0)
    ensures forall p :: p in Tick(After(s0, past).a).1 ==> ResentLate(History(NOTHING, s0, past), p)
  {
    StartKeeps(s0);
    RunTold(s0, past, NOTHING);
    forall p | p in Tick(After(s0, past).a).1
      ensures ResentLate(History(NOTHING, s0, past), p)
    {
      ResentAreLate(After(s0, past), History(NOTHING, s0, past), p);
    }
  }

  function Ticking(k: nat): seq<Step> {
    seq(k, _ => Step(Timer, []))
  }

  /** One packet has been sent, at clock 0, and nothing has arrived. */
  ghost predicate OnlyFirst(s: System, p: Packet, ticks: nat) {
    Inv(s) && Told(s.a, Log(map[0 := 0.0], {}, ticks)) && s.sent == [p]
  }

  lemma OnlyTick(s: System, p: Packet, ticks: nat)
    requires OnlyFirst(s, p, ticks)
    ensures Tick(s.a).1 == if ticks >= 20 then [p] else []
  {
    TickSendsLate(s, Log(map[0 := 0.0], {}, ticks));
    LateAlone(p, ticks);
  }

  lemma NothingRecorded(s: System, log: Log)
    requires Tick(s.a).1 == []
    ensures Recorded(log, s, Step(Timer, [])) == log.(ticks := log.ticks + 1)
  {
  }

  lemma FirstTick(s: System, p: Packet, ticks: nat)
    requires OnlyFirst(s, p, ticks)
    ensures Next(s, Step(Timer, [])).toB == s.toB + (if ticks >= 20 then [p] else [])
    ensures ticks < 20 ==> OnlyFirst(Next(s, Step(Timer, [])), p, ticks + 1)
  {
    OnlyTick(s, p, ticks);
    if ticks < 20 {
      StepKeeps(s, Step(Timer, []));
      TickTold(s, [], Log(map[0 := 0.0], {}, ticks));
      NothingRecorded(s, Log(map[0 := 0.0], {}, ticks));
    }
  }

  lemma LateAlone(p: Packet, ticks: nat)
    ensures Late([p], Log(map[0 := 0.0], {}, ticks), (ticks + 1) as real, 0) == if ticks >= 20 then [p] else []
  {
    assert Late([p], Log(map[0 := 0.0], {}, ticks), (ticks + 1) as real, 1) == [];
  }

  lemma TickingUnfolds(s: System, k: nat)
    requires k > 0
    ensures After(s, Ticking(k)) == After(Next(s, Step(Timer, [])), Ticking(k - 1))
  {
    assert Ticking(k)[1..] == Ticking(k - 1);
  }

  lemma {:induction false} MoreTicks(s: System, k: nat)
    ensures |s.toB| <= |After(s, Ticking(k)).toB|
    decreases k
  {
    if k > 0 {
      TickingUnfolds(s, k);
      MoreTicks(Next(s, Step(Timer, [])), k - 1);
    }
  }

  lemma {:induction false} TicksUntilResend(s: System, p: Packet, ticks: nat, k: nat)
    requires OnlyFirst(s, p, ticks) && ticks <= 20 && s.toB == [p]
    ensures var s' := After(s, Ticking(k)); if ticks + k <= 20 then s'.toB == [p] else |s'.toB| > 1
    decreases k
  {
    if k > 0 {
      TickingUnfolds(s, k);
      FirstTick(s, p, ticks);
      if ticks < 20 {
        TicksUntilResend(Next(s, Step(Timer, [])), p, ticks + 1, k - 1);
      } else {
        MoreTicks(Next(s, Step(Timer, [])), k - 1);
      }
    }
  }

  /** From the start: one message, and no acknowledgement. Twenty ticks leave one copy on the wire, and one more brings
      another. */
  lemma FirstResend(s0: System, m: Payload, k: nat)
    requires Initial(s0)
    ensures var s := After(s0, [Step(FromLayer5(m), [])] + Ticking(k));
      if k <= 20 then s.toB == [DataPacket(0, m)] else |s.toB| > 1
  {
    var given := Step(FromLayer5(m), []);
    var s := Next(s0, given);
    StartKeeps(s0);
    StepKeeps(s0, given);
    GivenTold(s0, m, [], NOTHING);
    assert RingIndex(0, 0, 0) == 0;
    assert Handed(s0, given) == [DataPacket(0, m)];
    assert Recorded(NOTHING, s0, given) == Log(map[0 := 0.0], {}, 0);
    TicksUntilResend(s, DataPacket(0, m), 0, k);
    assert ([given] + Ticking(k))[1..] == Ticking(k);
  }

  // ----- the medium loses what it loses, and nothing else -----

  /** How many of `n` packets these fates lose. */
  function Losses(fates: seq<Fate>, n: nat): nat {
    if n == 0 || fates == [] then 0 else (if fates[0] == Lost then 1 else 0) + Losses(fates[1..], n - 1)
  }

  lemma {:induction false} TransmitLoses(ps: seq<Packet>, fates: seq<Fate>)
    ensures |Transmit(ps, fates)| + Losses(fates, |ps|) == |ps|
  {
    if ps != [] && fates != [] {
      TransmitLoses(ps[1..], fates[1..]);
    }
  }

  lemma {:induction false} WholeStayWhole(ps: seq<Packet>, fates: seq<Fate>)
    requires forall f :: f in fates ==> f == Whole
    ensures Transmit(ps, fates) == ps
  {
    if ps != [] && fates != [] {
      assert fates[0] in fates && forall f :: f in fates[1..] ==> f in fates;
      WholeStayWhole(ps[1..], fates[1..]);
      assert ps == [ps[0]] + ps[1..];
    }
  }

  /** What B hands to layer 3 in a step. */
  function Answered(s: System, step: Step): seq<Packet> {
    if step.event.ArriveAtB? && step.event.i < |s.toB| then ReceiverInput(s.b, s.toB[step.event.i]).1 else []
  }

  /** Packets handed over at either end, lost on the way, and arrived. */
  datatype Traffic = Traffic(handed: nat, lost: nat, arrived: nat)

  function CountedToB(t: Traffic, s: System, step: Step): Traffic {
    Traffic(t.handed + |Handed(s, step)|,
            t.lost + Losses(step.fates, |Handed(s, step)|),
            t.arrived + if step.event.ArriveAtB? && step.event.i < |s.toB| then 1 else 0)
  }

  function CountedToA(t: Traffic, s: System, step: Step): Traffic {
    Traffic(t.handed + |Answered(s, step)|,
            t.lost + Losses(step.fates, |Answered(s, step)|),
            t.arrived + if step.event.ArriveAtA? && step.event.i < |s.toA| then 1 else 0)
  }

  function TrafficToB(t: Traffic, s: System, steps: seq<Step>): Traffic
    decreases |steps|
  {
    if steps == [] then t else TrafficToB(CountedToB(t, s, steps[0]), Next(s, steps[0]), steps[1..])
  }

  function TrafficToA(t: Traffic, s: System, steps: seq<Step>): Traffic
    decreases |steps|
  {
    if steps == [] then t else TrafficToA(CountedToA(t, s, steps[0]), Next(s, steps[0]), steps[1..])
  }

  predicate Balanced(t: Traffic, inFlight: nat) {
    t.handed == t.lost + t.arrived + inFlight
  }

  lemma StepBalances(s: System, step: Step, toB: Traffic, toA: Traffic)
    requires Balanced(toB, |s.toB|) && Balanced(toA, |s.toA|)
    ensures Balanced(CountedToB(toB, s, step), |Next(s, step).toB|)
    ensures Balanced(CountedToA(toA, s, step), |Next(s, step).toA|)
  {
    TransmitLoses(Handed(s, step), step.fates);
    TransmitLoses(Answered(s, step), step.fates);
    assert Transmit([], step.fates) == [] && Losses(step.fates, 0) == 0;
  }

  lemma {:induction false} RunBalances(s: System, steps: seq<Step>, toB: Traffic, toA: Traffic)
    requires Balanced(toB, |s.toB|) && Balanced(toA, |s.toA|)
    ensures Balanced(TrafficToB(toB, s, steps), |After(s, steps).toB|)
    ensures Balanced(TrafficToA(toA, s, steps), |After(s, steps).toA|)
    decreases |steps|
  {
    if steps != [] {
      StepBalances(s, steps[0], toB, toA);
      RunBalances(Next(s, steps[0]), steps[1..], CountedToB(toB, s, steps[0]), CountedToA(toA, s, steps[0]));
    }
  }

  // ----- the sender's own count -----

  lemma OutputCounts(a: Sender, m: Payload)
    ensures Output(a, m).0.toLayer3 == a.toLayer3 + |Output(a, m).1|
  {
  }

  lemma {:induction false} RefillCounts(a: Sender, count: nat)
    ensures Refill(a, count).0.toLayer3 == a.toLayer3 + |Refill(a, count).1|
    decreases count
  {
    if count > 0 && a.queue != [] {
      RefillCounts(Output(a.(queue := a.queue[1..]), a.queue[0]).0, count - 1);
    }
  }

  lemma {:induction false} ResendCounts(a: Sender, i: nat, end: nat)
    ensures ResendFrom(a, i, end).0.toLayer3 == a.toLayer3 + |ResendFrom(a, i, end).1|
    decreases end - i
  {
    if i < end {
      ResendCounts(ResendOne(a, i).0, i + 1, end);
    }
  }

  lemma StepCounts(s: System, step: Step)
    ensures Next(s, step).a.toLayer3 == s.a.toLayer3 + |Handed(s, step)|
  {
    match step.event
    case FromLayer5(m) => OutputCounts(s.a, m);
    case Timer => ResendCounts(s.a.(clock := s.a.clock + INTERVAL), s.a.base, s.a.nextSeq);
    case ArriveAtA(i) =>
      if i < |s.toA| && Intact(s.toA[i]) && s.toA[i].acknum >= s.a.base {
        var k := RingIndex(s.a.base, s.a.ringStart, s.toA[i].acknum);
        if k >= 0 {
          var a1 := Marked(s.a, k);
          var count := Run(a1.ring, a1.ringStart, ACKED, 0);
          RefillCounts(Slide(a1, count), count);
        }
      }
    case ArriveAtB(i) =>
  }

  lemma {:induction false} RunCounts(s: System, steps: seq<Step>, toB: Traffic)
    requires s.a.toLayer3 == toB.handed
    ensures After(s, steps).a.toLayer3 == TrafficToB(toB, s, steps).handed
    decreases |steps|
  {
    if steps != [] {
      StepCounts(s, steps[0]);
      RunCounts(Next(s, steps[0]), steps[1..], CountedToB(toB, s, steps[0]));
    }
  }

  /** In every run, either way, the packets handed to layer 3 are those lost, those arrived and those in flight; and
      the sender's statistics count exactly the packets it handed over. */
  lemma PacketsAreConserved(s0: System, steps: seq<Step>)
    requires Initial(s0)
    ensures var s := After(s0, steps); var none := Traffic(0, 0, 0);
      && Balanced(TrafficToB(none, s0, steps), |s.toB|) && Balanced(TrafficToA(none, s0, steps), |s.toA|)
      && s.a.toLayer3 == TrafficToB(none, s0, steps).handed
  {
    RunBalances(s0, steps, Traffic(0, 0, 0), Traffic(0, 0, 0));
    RunCounts(s0, steps, Traffic(0, 0, 0));
  }

  // ----- acknowledgements -----

  /** An intact packet on its way to A repeats number and payload of the packet it acknowledges. */
  predicate Echoes(q: Packet, sent: seq<Packet>) {
    Intact(q) ==> 0 <= q.acknum < |sent| && q.seqnum == q.acknum && q.payload == sent[q.acknum].payload
  }

  ghost predicate AllEcho(s: System) {
    forall q :: q in s.toA ==> Echoes(q, s.sent)
  }

  lemma AnswersEcho(s: System, step: Step)
    requires Inv(s)
    ensures forall q :: q in Answered(s, step) ==> Intact(q) && Echoes(q, s.sent)
  {
    if step.event.ArriveAtB? && step.event.i < |s.toB| {
      assert s.toB[step.event.i] in s.toB;
    }
  }

  lemma EchoesStay(q: Packet, sent: seq<Packet>, out: seq<Packet>)
    requires Echoes(q, sent)
    ensures Echoes(q, sent + out)
  {
  }

  lemma StepEchoes(s: System, step: Step)
    requires Inv(s) && AllEcho(s)
    ensures AllEcho(Next(s, step))
  {
    var s' := Next(s, step);
    var out := Answered(s, step);
    TransmitSound(out, step.fates);
    AnswersEcho(s, step);
    forall q | q in s'.toA
      ensures Echoes(q, s'.sent)
    {
      assert q in s.toA || q in Transmit(out, step.fates);
      EchoesStay(q, s.sent, Handed(s, step));
    }
  }

  lemma {:induction false} RunEchoes(s: System, steps: seq<Step>)
    requires Inv(s) && AllEcho(s)
    ensures AllEcho(After(s, steps))
    decreases |steps|
  {
    if steps != [] {
      StepEchoes(s, steps[0]);
      StepKeeps(s, steps[0]);
      RunEchoes(Next(s, steps[0]), steps[1..]);
    }
  }

  /** In every run an intact packet on its way to A carries, under one of the numbers sent, that number twice and the
      payload first sent for it. */
  lemma AcksEcho(s0: System, steps: seq<Step>)
    requires Initial(s0)
    ensures AllEcho(After(s0, steps))
  {
    StartKeeps(s0);
    RunEchoes(s0, steps);
  }
}
