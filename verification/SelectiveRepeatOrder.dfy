/** Which order messages leave the sender in. The overflow list is refilled by popping a message and passing it to
    the output routine again, which re-appends it before popping the new head: with two or more messages waiting
    the order of layer 5 is lost. */
module SelectiveRepeatOrder {
  import opened Packets
  import opened SelectiveRepeat
  import opened SelectiveRepeatSafety

  /** Messages are numbered, and then queued, in the order layer 5 gave them. */
  ghost predicate InOrder(s: System) {
    Payloads(s.sent) + s.a.queue == s.given
  }

  /** The order in which a queue leaves, when `k` of its messages are refilled into the window. */
  function Turned(q: seq<Payload>, k: nat): seq<Payload>
    decreases k
  {
    if k == 0 || q == [] then q
    else
      var r := q[1..] + [q[0]];
      [r[0]] + Turned(r[1..], k - 1)
  }

  lemma {:induction false} RefillTurns(a: Sender, count: nat, sent: seq<Packet>)
    requires SenderCore(a, sent, count)
    requires a.queue != [] ==> a.nextSeq + count <= a.base + N
    ensures Payloads(Refill(a, count).1) + Refill(a, count).0.queue == Turned(a.queue, count)
    decreases count
  {
    if count == 0 || a.queue == [] {
      assert Payloads([]) + a.queue == a.queue;
    } else {
      var r := Output(a.(queue := a.queue[1..]), a.queue[0]);
      var later := Refill(r.0, count - 1);
      assert Payloads(r.1) + (Payloads(later.1) + later.0.queue) == Turned(a.queue, count) by {
        RefillTurnsOnce(a, count, sent);
        RefillTurns(r.0, count - 1, sent + r.1);
      }
      assert Refill(a, count) == (later.0, r.1 + later.1) by {
        RefillJoins(a, count);
      }
      PayloadsChain(r.1, later.1, later.0.queue);
    }
  }

  lemma RefillJoins(a: Sender, count: nat)
    requires count > 0 && a.queue != []
    ensures var r := Output(a.(queue := a.queue[1..]), a.queue[0]); var later := Refill(r.0, count - 1);
      Refill(a, count) == (later.0, r.1 + later.1)
  {
  }

  /** One turn of the refill numbers the head of the queue, behind the message it has put back. */
  lemma RefillTurnsOnce(a: Sender, count: nat, sent: seq<Packet>)
    requires SenderCore(a, sent, count) && count > 0 && a.queue != [] && a.nextSeq + count <= a.base + N
    ensures var r := Output(a.(queue := a.queue[1..]), a.queue[0]); var turned := a.queue[1..] + [a.queue[0]];
      && Payloads(r.1) == [turned[0]] && r.0.queue == turned[1..]
      && r.0.base == a.base && r.0.nextSeq == a.nextSeq + 1 && SenderCore(r.0, sent + r.1, count - 1)
  {
    OutputKeeps(a.(queue := a.queue[1..]), a.queue[0], sent, count);
    assert At(a.ring, a.nextSeq).flag == FREE;
  }

  /** The first of two or more waiting messages differs from the second. */
  predicate Mixed(q: seq<Payload>) {
    |q| >= 2 ==> q[0] != q[1]
  }

  /** The order is kept exactly when nothing is refilled or at most one message waits. */
  lemma TurnedIsFifo(q: seq<Payload>, k: nat)
    ensures |q| <= 1 || k == 0 ==> Turned(q, k) == q
    ensures |q| >= 2 && k > 0 ==> Turned(q, k) != [] && Turned(q, k)[0] == q[1]
    ensures Mixed(q) ==> (Turned(q, k) == q <==> |q| <= 1 || k == 0)
  {
    if k > 0 && |q| == 1 {
      assert q[1..] + [q[0]] == q;
      assert Turned(q[1..], k - 1) == [];
    }
  }

  /** The base has moved to `a'.base`, and the waiting messages, some of them now sent as `out`, are in `Turned`
      order. */
  predicate Turns(a: Sender, a': Sender, out: seq<Packet>) {
    a.base <= a'.base && Payloads(out) + a'.queue == Turned(a.queue, a'.base - a.base)
  }

  /** Sliding the window leaves the waiting messages in `Turned` order. */
  lemma SlideTurns(a: Sender, sent: seq<Packet>)
    requires SenderCore(a, sent, 0)
    ensures Turns(a, FreeSendBuf(a).0, FreeSendBuf(a).1)
  {
    var count := Run(a.ring, a.ringStart, ACKED, 0);
    var slid := Slide(a, count);
    assert SenderCore(slid, sent, count) && slid.nextSeq + count <= slid.base + N by {
      SlideKeeps(a, sent);
    }
    assert Refill(slid, count).0.base == slid.base by {
      RefillKeeps(slid, count, sent);
    }
    RefillTurns(slid, count, sent);
  }

  lemma SlideTurnsLike(a: Sender, a1: Sender, sent: seq<Packet>)
    requires SenderCore(a1, sent, 0) && a1.queue == a.queue && a1.base == a.base
    ensures Turns(a, FreeSendBuf(a1).0, FreeSendBuf(a1).1)
  {
    SlideTurns(a1, sent);
  }

  /** What an acknowledgement inside the window comes to. */
  lemma InputSlides(a: Sender, p: Packet, sent: seq<Packet>)
    requires SenderCore(a, sent, 0) && Intact(p) && a.base <= p.acknum < a.nextSeq
    ensures var a1 := Marked(a, p.acknum % N);
      SenderCore(a1, sent, 0) && a1.queue == a.queue && a1.base == a.base && SenderInput(a, p) == FreeSendBuf(a1)
  {
    MarkedKeeps(a, p.acknum, sent);
  }

  /** So does an arriving acknowledgement that moves it. */
  lemma AckTurns(a: Sender, p: Packet, sent: seq<Packet>)
    requires SenderCore(a, sent, 0) && (Intact(p) ==> p.acknum < |sent|)
    ensures Turns(a, SenderInput(a, p).0, SenderInput(a, p).1)
  {
    if Intact(p) && p.acknum >= a.base {
      InputSlides(a, p, sent);
      SlideTurnsLike(a, Marked(a, p.acknum % N), sent);
    } else {
      assert Payloads([]) + a.queue == a.queue;
    }
  }

  // ----- when the window base moves -----

  /** The step brings an intact acknowledgement of the oldest outstanding packet. */
  predicate AcksBase(s: System, step: Step) {
    && step.event.ArriveAtA? && step.event.i < |s.toA|
    && Intact(s.toA[step.event.i]) && s.toA[step.event.i].acknum == s.a.base
  }

  lemma InputMovesBase(a: Sender, b: Receiver, p: Packet, sent: seq<Packet>, delivered: seq<Payload>)
    requires SenderOk(a, sent) && ReceiverOk(b, sent, delivered) && AcksSound(a, b)
    requires Intact(p) ==> 0 <= p.acknum < |sent| && Has(b, p.acknum)
    ensures SenderInput(a, p).0.base != a.base <==> Intact(p) && p.acknum == a.base
  {
    SenderInputKeeps(a, b, p, sent, delivered);
    if Intact(p) && p.acknum > a.base {
      var a1 := Marked(a, p.acknum % N);
      MarkedKeeps(a, p.acknum, sent);
      FreeSendBufKeeps(a1, sent);
      assert At(a1.ring, a.base).flag == HELD;
    }
  }

  /** The window moves exactly when its oldest packet is acknowledged. */
  lemma BaseMovesExactly(s: System, step: Step)
    requires Inv(s)
    ensures Next(s, step).a.base != s.a.base <==> AcksBase(s, step)
  {
    match step.event
    case FromLayer5(m) =>
      OutputKeeps(s.a, m, s.sent, 0);
    case Timer =>
      ResendKeeps(s.a.(clock := s.a.clock + INTERVAL), s.a.base, s.sent);
    case ArriveAtA(i) =>
      if i < |s.toA| {
        InputMovesBase(s.a, s.b, s.toA[i], s.sent, s.delivered);
      }
    case ArriveAtB(i) =>
  }

  // ----- one step -----

  lemma PayloadsChain(sent: seq<Packet>, out: seq<Packet>, q: seq<Payload>)
    ensures Payloads(sent + out) + q == Payloads(sent) + (Payloads(out) + q)
  {
  }

  /** A message given by layer 5 never overtakes another: it is sent at once only when none waits. */
  lemma GivenInOrder(s: System, m: Payload, fates: seq<Fate>)
    requires Inv(s) && InOrder(s)
    ensures InOrder(Next(s, Step(FromLayer5(m), fates)))
  {
    var r := Output(s.a, m);
    OutputKeeps(s.a, m, s.sent, 0);
    if s.a.nextSeq < s.a.base + N {
      assert At(s.a.ring, s.a.nextSeq).flag == FREE;
      assert s.a.queue == [] && Payloads(r.1) == [m] && r.0.queue == [];
      assert Payloads(s.sent + r.1) == Payloads(s.sent) + [m];
    } else {
      assert s.sent + r.1 == s.sent;
    }
  }

  lemma AckInOrder(s: System, i: nat, fates: seq<Fate>)
    requires Inv(s) && InOrder(s) && i < |s.toA|
    requires |s.a.queue| <= 1 || !AcksBase(s, Step(ArriveAtA(i), fates))
    ensures InOrder(Next(s, Step(ArriveAtA(i), fates)))
  {
    var r := SenderInput(s.a, s.toA[i]);
    assert Payloads(r.1) + r.0.queue == s.a.queue by {
      AckTurns(s.a, s.toA[i], s.sent);
      InputMovesBase(s.a, s.b, s.toA[i], s.sent, s.delivered);
      TurnedIsFifo(s.a.queue, r.0.base - s.a.base);
    }
    PayloadsChain(s.sent, r.1, r.0.queue);
  }

  lemma StepInOrder(s: System, step: Step)
    requires Inv(s) && InOrder(s)
    requires |s.a.queue| <= 1 || !AcksBase(s, step)
    ensures InOrder(Next(s, step))
  {
    match step.event
    case FromLayer5(m) =>
      GivenInOrder(s, m, step.fates);
    case Timer =>
      ResendKeeps(s.a.(clock := s.a.clock + INTERVAL), s.a.base, s.sent);
    case ArriveAtA(i) =>
      if i < |s.toA| {
        AckInOrder(s, i, step.fates);
      }
    case ArriveAtB(i) =>
  }

  /** Some message has been numbered out of turn. */
  ghost predicate Misplaced(s: System) {
    exists k :: MisplacedAt(s, k)
  }

  predicate MisplacedAt(s: System, k: int) {
    0 <= k < |s.sent| && k < |s.given| && s.sent[k].payload != s.given[k]
  }

  lemma MisplacedIsNotInOrder(s: System)
    requires Misplaced(s)
    ensures !InOrder(s)
  {
    var k :| MisplacedAt(s, k);
    assert (Payloads(s.sent) + s.a.queue)[k] == s.sent[k].payload;
  }

  /** When the base is acknowledged while two or more messages wait, the next number goes to the second of them. */
  lemma SecondGoesFirst(a: Sender, b: Receiver, p: Packet, sent: seq<Packet>, delivered: seq<Payload>)
    requires SenderOk(a, sent) && ReceiverOk(b, sent, delivered) && AcksSound(a, b)
    requires Intact(p) && p.acknum == a.base < |sent| && Has(b, p.acknum) && |a.queue| >= 2
    ensures var out := SenderInput(a, p).1; out != [] && out[0].payload == a.queue[1]
  {
    var r := SenderInput(a, p);
    SenderInputKeeps(a, b, p, sent, delivered);
    AckTurns(a, p, sent);
    TurnedIsFifo(a.queue, r.0.base - a.base);
    assert r.1 == [] ==> sent + r.1 == sent && r.0.queue == Payloads(r.1) + r.0.queue;
    assert Payloads(r.1)[0] == (Payloads(r.1) + r.0.queue)[0];
  }

  lemma StepOutOfOrder(s: System, step: Step)
    requires Inv(s) && InOrder(s) && |s.a.queue| >= 2 && s.a.queue[0] != s.a.queue[1] && AcksBase(s, step)
    ensures Misplaced(Next(s, step))
  {
    var p := s.toA[step.event.i];
    SecondGoesFirst(s.a, s.b, p, s.sent, s.delivered);
    var out := SenderInput(s.a, p).1;
    assert s.given[|s.sent|] == (Payloads(s.sent) + s.a.queue)[|s.sent|] == s.a.queue[0];
    assert (s.sent + out)[|s.sent|] == out[0];
    assert MisplacedAt(Next(s, step), |s.sent|);
  }

  /** Exactly when one step keeps layer-5 order: unless it acknowledges the oldest packet while two or more messages
      wait. */
  lemma OrderIsKeptExactly(s: System, step: Step)
    requires Inv(s) && InOrder(s) && Mixed(s.a.queue)
    ensures InOrder(Next(s, step)) <==> |s.a.queue| <= 1 || !AcksBase(s, step)
  {
    if |s.a.queue| <= 1 || !AcksBase(s, step) {
      StepInOrder(s, step);
    } else {
      StepOutOfOrder(s, step);
      MisplacedIsNotInOrder(Next(s, step));
    }
  }

  // ----- whole runs -----

  /** No message is given twice in a row. */
  predicate Varied(given: seq<Payload>) {
    forall i :: 0 <= i < |given| - 1 ==> given[i] != given[i + 1]
  }

  /** No step of the run acknowledges the oldest packet while two or more messages wait. */
  predicate NeverHurried(s: System, steps: seq<Step>)
    decreases |steps|
  {
    steps != [] ==> (|s.a.queue| <= 1 || !AcksBase(s, steps[0])) && NeverHurried(Next(s, steps[0]), steps[1..])
  }

  lemma {:induction false} HistoryGrows(s: System, steps: seq<Step>)
    ensures s.sent <= After(s, steps).sent && s.given <= After(s, steps).given
    decreases |steps|
  {
    if steps != [] {
      HistoryGrows(Next(s, steps[0]), steps[1..]);
    }
  }

  lemma MisplacedForGood(s: System, steps: seq<Step>)
    requires Misplaced(s)
    ensures Misplaced(After(s, steps))
  {
    HistoryGrows(s, steps);
    var k :| MisplacedAt(s, k);
    assert MisplacedAt(After(s, steps), k);
  }

  lemma {:induction false} UnhurriedInOrder(s: System, steps: seq<Step>)
    requires Inv(s) && InOrder(s) && NeverHurried(s, steps)
    ensures InOrder(After(s, steps))
    decreases |steps|
  {
    if steps != [] {
      StepKeeps(s, steps[0]);
      StepInOrder(s, steps[0]);
      UnhurriedInOrder(Next(s, steps[0]), steps[1..]);
    }
  }

  lemma {:induction false} HurriedOutOfOrder(s: System, steps: seq<Step>)
    requires Inv(s) && InOrder(s) && Varied(After(s, steps).given) && !NeverHurried(s, steps)
    ensures Misplaced(After(s, steps))
    decreases |steps|
  {
    var step := steps[0];
    if |s.a.queue| <= 1 || !AcksBase(s, step) {
      StepKeeps(s, step);
      StepInOrder(s, step);
      HurriedOutOfOrder(Next(s, step), steps[1..]);
    } else {
      HistoryGrows(s, steps);
      assert s.a.queue[0] == s.given[|s.sent|] && s.a.queue[1] == s.given[|s.sent| + 1];
      assert s.given[|s.sent|] != s.given[|s.sent| + 1];
      StepOutOfOrder(s, step);
      MisplacedForGood(Next(s, step), steps[1..]);
    }
  }

  /** Over a whole run in which no message is given twice in a row: layer-5 order is kept if and only if no step
      acknowledges the oldest packet while two or more messages wait. */
  lemma RunOrderExactly(s0: System, steps: seq<Step>)
    requires Initial(s0) && Varied(After(s0, steps).given)
    ensures InOrder(After(s0, steps)) <==> NeverHurried(s0, steps)
  {
    StartKeeps(s0);
    OrderExactly(s0, steps);
  }

  lemma OrderExactly(s: System, steps: seq<Step>)
    requires Inv(s) && InOrder(s) && Varied(After(s, steps).given)
    ensures InOrder(After(s, steps)) <==> NeverHurried(s, steps)
  {
    if NeverHurried(s, steps) {
      UnhurriedInOrder(s, steps);
    } else {
      HurriedOutOfOrder(s, steps);
      MisplacedIsNotInOrder(After(s, steps));
    }
  }

  /** So in every run of the program's own messages, however many there are. */
  lemma GeneratedOrderExactly(s0: System, steps: seq<Step>)
    requires Initial(s0) && Generated(After(s0, steps).given)
    ensures InOrder(After(s0, steps)) <==> NeverHurried(s0, steps)
  {
    var given := After(s0, steps).given;
    forall i | 0 <= i < |given| - 1
      ensures given[i] != given[i + 1]
    {
      assert given[i][0] == 97 + i % 26 && given[i + 1][0] == 97 + (i + 1) % 26;
    }
    RunOrderExactly(s0, steps);
  }

  /** In an unhurried run B's layer 5 gets a prefix of what A's layer 5 gave, whatever the messages are. */
  lemma DeliveredInOrder(s0: System, steps: seq<Step>)
    requires Initial(s0) && NeverHurried(s0, steps)
    ensures After(s0, steps).delivered <= After(s0, steps).given
  {
    StartKeeps(s0);
    RunKeeps(s0, steps);
    UnhurriedInOrder(s0, steps);
    var s := After(s0, steps);
    assert s.delivered == Payloads(s.sent)[..s.b.base];
  }
}
