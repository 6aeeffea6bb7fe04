/** Progress of selective repeat: from every reachable state a finite run of timer ticks and in-order deliveries
    without further loss gets everything delivered and acknowledged. */
module SelectiveRepeatProgress {
  import opened Packets
  import opened SelectiveRepeat
  import opened SelectiveRepeatSafety

  /** Ticks and deliveries of the oldest packet in flight, with nothing lost or corrupted. */
  predicate LossFree(steps: seq<Step>) {
    forall st :: st in steps ==> st.fates == [] && st.event in {Timer, ArriveAtA(0), ArriveAtB(0)}
  }

  /** Everything given is delivered and acknowledged, and nothing is queued. */
  predicate Settled(s: System) {
    && s.a.queue == []
    && s.a.base == s.a.nextSeq == s.b.base == |s.given|
    && s.delivered == Payloads(s.sent)
    && multiset(s.delivered) == multiset(s.given)
  }

  lemma {:induction false} AfterChain(s: System, first: seq<Step>, second: seq<Step>)
    ensures After(s, first + second) == After(After(s, first), second)
    decreases |first|
  {
    if first == [] {
      assert first + second == second;
    } else {
      assert (first + second)[1..] == first[1..] + second;
      AfterChain(Next(s, first[0]), first[1..], second);
    }
  }

  predicate AckIn(toA: seq<Packet>, t: nat) {
    exists p :: p in toA && Intact(p) && p.acknum == t
  }

  lemma AcceptedSize(s: System)
    requires Inv(s)
    ensures |s.given| == |s.sent| + |s.a.queue|
  {
    assert |multiset(s.given)| == |multiset(Payloads(s.sent))| + |multiset(s.a.queue)|;
  }

  /** A tick resends the oldest unacknowledged packet if it is overdue and otherwise leaves its deadline. */
  lemma TickAtBase(a: Sender, sent: seq<Packet>)
    requires SenderOk(a, sent) && a.base < a.nextSeq
    ensures var (a', out) := Tick(a);
      && a'.base == a.base && a'.nextSeq == a.nextSeq && a'.clock == a.clock + INTERVAL
      && if a'.clock > At(a.ring, a.base).timeout then sent[a.base] in out
         else At(a'.ring, a.base) == At(a.ring, a.base)
  {
    var a0 := a.(clock := a.clock + INTERVAL);
    ResendOneKeeps(a0, a.base, sent);
    ResendKeeps(ResendOne(a0, a.base).0, a.base + 1, sent);
  }

  lemma TickOnce(s: System)
    requires Inv(s) && s.a.base < s.a.nextSeq
    ensures var s1 := Next(s, Step(Timer, []));
      && Inv(s1) && s1.given == s.given && s1.sent == s.sent
      && s1.a.base == s.a.base && s1.a.nextSeq == s.a.nextSeq && s1.a.clock == s.a.clock + INTERVAL
      && if s1.a.clock > At(s.a.ring, s.a.base).timeout then s.sent[s.a.base] in s1.toB
         else At(s1.a.ring, s.a.base) == At(s.a.ring, s.a.base)
  {
    StepKeeps(s, Step(Timer, []));
    TickAtBase(s.a, s.sent);
    assert Transmit(Tick(s.a).1, []) == Tick(s.a).1;
  }

  /** Waiting long enough makes the sender resend its oldest unacknowledged packet. */
  lemma {:induction false} TickUntilResent(s: System, k: nat) returns (steps: seq<Step>)
    requires Inv(s) && s.a.base < s.a.nextSeq
    requires At(s.a.ring, s.a.base).timeout < s.a.clock + k as real
    ensures LossFree(steps)
    ensures var s' := After(s, steps);
      && Inv(s') && s'.given == s.given && s'.sent == s.sent && s'.a.base == s.a.base
      && s.sent[s.a.base] in s'.toB
    decreases k
  {
    var tick := Step(Timer, []);
    var s1 := Next(s, tick);
    TickOnce(s);
    if s.a.clock + INTERVAL > At(s.a.ring, s.a.base).timeout {
      steps := [tick];
      assert After(s1, []) == s1;
    } else {
      var rest := TickUntilResent(s1, k - 1);
      steps := [tick] + rest;
      assert steps[1..] == rest;
    }
  }

  /** Delivering all data in flight puts an acknowledgement of packet `t` in flight. */
  lemma {:induction false} DrainData(s: System, t: nat) returns (steps: seq<Step>)
    requires Inv(s) && t < |s.sent|
    requires s.sent[t] in s.toB || AckIn(s.toA, t)
    ensures LossFree(steps)
    ensures var s' := After(s, steps);
      Inv(s') && s'.given == s.given && s'.a == s.a && s'.sent == s.sent && AckIn(s'.toA, t)
    decreases |s.toB|
  {
    if AckIn(s.toA, t) {
      steps := [];
    } else {
      var arrive := Step(ArriveAtB(0), []);
      var s1 := Next(s, arrive);
      StepKeeps(s, arrive);
      var p := s.toB[0];
      assert s1.toB == s.toB[1..];
      if p == s.sent[t] {
        ReceiverInputKeeps(s.b, p, s.sent, s.delivered);
        assert Ack(p) in s1.toA;
      }
      var rest := DrainData(s1, t);
      steps := [arrive] + rest;
      assert steps[1..] == rest;
    }
  }

  /** Delivering all acknowledgements in flight moves the window past packet `t`. */
  lemma {:induction false} DrainAcks(s: System, t: nat) returns (steps: seq<Step>)
    requires Inv(s)
    requires t < s.a.base || (t == s.a.base && AckIn(s.toA, t))
    ensures LossFree(steps)
    ensures var s' := After(s, steps); Inv(s') && s'.given == s.given && t < s'.a.base
    decreases |s.toA|
  {
    if t < s.a.base {
      steps := [];
    } else {
      var arrive := Step(ArriveAtA(0), []);
      var s1 := Next(s, arrive);
      StepKeeps(s, arrive);
      var p := s.toA[0];
      SenderInputKeeps(s.a, s.b, p, s.sent, s.delivered);
      assert s1.toA == s.toA[1..];
      var rest := DrainAcks(s1, t);
      steps := [arrive] + rest;
      assert steps[1..] == rest;
    }
  }

  /** One round acknowledges at least the oldest outstanding packet. */
  lemma Round(s: System) returns (steps: seq<Step>)
    requires Inv(s) && s.a.base < s.a.nextSeq
    ensures LossFree(steps)
    ensures var s' := After(s, steps); Inv(s') && s'.given == s.given && s.a.base < s'.a.base
  {
    var t := s.a.base;
    assert At(s.a.ring, t).timeout <= s.a.clock + TIMEOUT;
    var ticks := TickUntilResent(s, 21);
    var s1 := After(s, ticks);
    var data := DrainData(s1, t);
    var s2 := After(s1, data);
    var acks := DrainAcks(s2, t);
    steps := ticks + data + acks;
    AfterChain(s, ticks + data, acks);
    AfterChain(s, ticks, data);
  }

  lemma {:induction false} Settle(s: System) returns (steps: seq<Step>)
    requires Inv(s)
    ensures LossFree(steps) && Settled(After(s, steps)) && After(s, steps).given == s.given
    decreases |s.given| - s.a.base
  {
    AcceptedSize(s);
    if s.a.base == s.a.nextSeq {
      steps := [];
    } else {
      var round := Round(s);
      var s1 := After(s, round);
      AcceptedSize(s1);
      var rest := Settle(s1);
      steps := round + rest;
      AfterChain(s, round, rest);
    }
  }

  /** The transport never gets stuck: whatever the medium did so far, a loss-free continuation settles everything. */
  lemma ProgressIsPossible(s0: System, past: seq<Step>)
    requires Initial(s0)
    ensures var s := After(s0, past);
      exists steps :: LossFree(steps) && Settled(After(s, steps)) && After(s, steps).given == s.given
  {
    StartKeeps(s0);
    RunKeeps(s0, past);
    var steps := Settle(After(s0, past));
  }
}
