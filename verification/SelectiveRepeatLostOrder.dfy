/** A run that loses the order of layer 5: twelve messages and one acknowledgement. */
module SelectiveRepeatLostOrder {
  import opened Packets
  import opened SelectiveRepeat
  import opened SelectiveRepeatSafety
  import opened SelectiveRepeatOrder

  /** The sender has been given the first `n` messages of the program, and nothing else has happened. */
  ghost predicate Given(s0: System, s: System, n: nat) {
    && Inv(s) && InOrder(s) && |s.given| == n && Generated(s.given)
    && s.a.base == 0 && s.toA == [] && s.toB == s.sent && s.b == s0.b
  }

  /** The first `n` messages of the program, none of them lost, before anything arrives. */
  lemma {:induction false} GiveLetters(s0: System, n: nat) returns (steps: seq<Step>)
    requires Initial(s0)
    ensures Given(s0, After(s0, steps), n)
  {
    if n == 0 {
      steps := [];
      StartKeeps(s0);
    } else {
      var before := GiveLetters(s0, n - 1);
      var s1 := After(s0, before);
      var step := Step(FromLayer5(Letters(n - 1)), []);
      steps := before + [step];
      AfterOne(s0, before, step);
      OneMoreGiven(s0, s1, n - 1);
    }
  }

  lemma OneMoreGiven(s0: System, s: System, n: nat)
    requires Given(s0, s, n)
    ensures Given(s0, Next(s, Step(FromLayer5(Letters(n)), [])), n + 1)
  {
    var m := Letters(n);
    var step := Step(FromLayer5(m), []);
    StepKeeps(s, step);
    GivenInOrder(s, m, []);
    assert Next(s, step).a.base == s.a.base by {
      BaseMovesExactly(s, step);
    }
    assert Transmit(Output(s.a, m).1, []) == Output(s.a, m).1;
  }

  lemma {:induction false} AfterOne(s: System, before: seq<Step>, step: Step)
    ensures After(s, before + [step]) == Next(After(s, before), step)
    decreases |before|
  {
    if before == [] {
      assert before + [step] == [step];
      assert After(Next(s, step), []) == Next(s, step);
    } else {
      assert (before + [step])[1..] == before[1..] + [step];
      AfterOne(Next(s, before[0]), before[1..], step);
    }
  }

  /** Twelve messages fill the window and the queue; then packet 0 arrives and its acknowledgement is in
      flight. */
  lemma FullWindow(s0: System, n: nat) returns (steps: seq<Step>)
    requires Initial(s0) && n == N + 2
    ensures var s := After(s0, steps);
      && Inv(s) && InOrder(s) && s.a.base == 0 && |s.a.queue| == 2 && Mixed(s.a.queue)
      && Generated(s.given) && |s.toA| == 1 && Intact(s.toA[0]) && s.toA[0].acknum == 0
  {
    var give := GiveLetters(s0, n);
    var s1 := After(s0, give);
    assert |s1.sent| + |s1.a.queue| == n;
    var data := Step(ArriveAtB(0), []);
    StepKeeps(s1, data);
    AckOfFirst(s1);
    QueueOfLetters(Next(s1, data), n);
    AfterOne(s0, give, data);
    steps := give + [data];
  }

  lemma AckOfFirst(s: System)
    requires Inv(s) && s.toB == s.sent != [] && s.toA == []
    ensures Next(s, Step(ArriveAtB(0), [])).toA == [Ack(s.sent[0])] && s.sent[0].seqnum == 0
  {
    ReceiverInputKeeps(s.b, s.sent[0], s.sent, s.delivered);
  }

  /** Its arrival then numbers the twelfth message before the eleventh. */
  lemma OrderCanBeLost(s0: System)
    requires Initial(s0)
    ensures exists steps :: Generated(After(s0, steps).given) && !InOrder(After(s0, steps))
  {
    var steps := FullWindow(s0, N + 2);
    var s := After(s0, steps);
    var ack := Step(ArriveAtA(0), []);
    OrderIsKeptExactly(s, ack);
    AfterOne(s0, steps, ack);
  }

  lemma QueueOfLetters(s: System, n: nat)
    requires InOrder(s) && |s.given| == n && Generated(s.given) && |s.a.queue| == 2
    ensures Mixed(s.a.queue)
  {
    assert s.a.queue == s.given[|s.sent|..];
    assert s.a.queue[0][0] == 97 + (n - 2) % 26 && s.a.queue[1][0] == 97 + (n - 1) % 26;
  }
}
