/** Progress of the alternating bit: once the medium behaves, whatever is outstanding is delivered and acknowledged. */
module AlternatingBitProgress {
  import opened Packets
  import opened Events
  import opened AlternatingBit
  import opened AlternatingBitSafety

  /** Events whose packets are neither lost nor damaged, whatever else is drawn. */
  predicate Good(draw: Draw) {
    draw.carriage.Carried? && draw.carriage.damage == NoDamage
  }

  /** How far the outstanding message is from being acknowledged. */
  function Distance(p: Protocol, core: seq<Event>): nat {
    if core == [] then 0
    else
      match core[0]
      case TimerAt(_, _) => 2
      case MessageAt(_, _) => 0
      case PacketAt(_, x, packet) =>
        if x == A then (if Intact(packet) then 0 else 3) else (if packet == p.prevPacket then 1 else 3)
  }

  /** Messages layer 5 has still to offer. */
  function Offers(s: State): nat {
    if s.nsim < s.nsimmax then s.nsimmax - s.nsim else 0
  }

  /** How many events the wait can still take. */
  function Patience(s: State): nat {
    2 * Distance(s.p, Core(s.em.events)) + Offers(s) + |s.em.events|
  }

  /** The wait is over, or it goes on for the same message, nearer its end. */
  ghost predicate Nearer(s: State, s': State) {
    Inv(s') && s'.accepted == s.accepted && (s'.p.phase == WaitAck ==> Patience(s') < Patience(s))
  }

  lemma InsertedOne(events: seq<Event>, e: Event)
    ensures |Insert(events, e)| == |events| + 1
  {
  }

  /** A message offered during the wait is refused. */
  lemma RefusalIsNearer(s: State, draw: Draw)
    requires Inv(s) && s.p.phase == WaitAck && s.em.events != [] && s.em.events[0].MessageAt?
    ensures Nearer(s, Next(s, draw))
  {
    StepKeeps(s, draw);
    TakeCore(s.em);
    var s1 := s.(em := Take(s.em));
    if s1.nsim < s1.nsimmax {
      ScheduleKeeps(s1, Gap(s1.lambda, draw.arrival));
      InsertedOne(s1.em.events, MessageAt(s1.em.time + Gap(s1.lambda, draw.arrival), A));
    }
  }

  lemma TimerIsNearer(s: State, draw: Draw)
    requires Inv(s) && s.p.phase == WaitAck && s.em.events != [] && s.em.events[0].TimerAt? && Good(draw)
    ensures Nearer(s, Next(s, draw))
  {
    StepKeeps(s, draw);
    TakeCore(s.em);
    TimerKeeps(s.(em := Take(s.em)), draw.carriage);
  }

  lemma DataIsNearer(s: State, draw: Draw)
    requires Inv(s) && s.p.phase == WaitAck && s.em.events != [] && IsPacketTo(s.em.events[0], B) && Good(draw)
    ensures Nearer(s, Next(s, draw))
  {
    StepKeeps(s, draw);
    TakeCore(s.em);
    var core := Core(s.em.events);
    BInputKeeps(s.(em := Take(s.em)), s.em.events[0].packet, draw.carriage, draw.filler, core[1].time);
  }

  lemma AnswerIsNearer(s: State, draw: Draw)
    requires Inv(s) && s.p.phase == WaitAck && s.em.events != [] && IsPacketTo(s.em.events[0], A)
    ensures Nearer(s, Next(s, draw))
  {
    StepKeeps(s, draw);
    TakeCore(s.em);
    var core := Core(s.em.events);
    AInputKeeps(s.(em := Take(s.em)), s.em.events[0].packet, core[1].time);
  }

  lemma GoodStep(s: State, draw: Draw)
    requires Inv(s) && s.p.phase == WaitAck && Good(draw)
    ensures s.em.events != [] && Nearer(s, Next(s, draw))
  {
    assert s.em.events != [];
    TakeCore(s.em);
    var e := s.em.events[0];
    if e.MessageAt? {
      RefusalIsNearer(s, draw);
    } else if e.TimerAt? {
      TimerIsNearer(s, draw);
    } else if e.entity == B {
      DataIsNearer(s, draw);
    } else {
      AnswerIsNearer(s, draw);
    }
  }

  /** After the first `k` draws A may send again, and everything accepted is delivered, with nothing new accepted. */
  ghost predicate OverAfter(s: State, draws: seq<Draw>, k: nat)
    requires k <= |draws|
  {
    var s' := After(s, draws[..k]);
    s'.p.phase == SendPacket && s'.delivered == s'.accepted == s.accepted
  }

  /** Whatever is drawn: a wait is over within so many events without loss or damage. */
  lemma {:induction false} WaitEnds(s: State, draws: seq<Draw>) returns (k: nat)
    requires Inv(s) && Perfect(draws) && |draws| >= Patience(s)
    ensures k <= |draws| && OverAfter(s, draws, k)
    decreases |draws|
  {
    if s.p.phase == SendPacket {
      k := 0;
    } else {
      assert s.em.events != [];
      GoodStep(s, draws[0]);
      var s1 := Next(s, draws[0]);
      if s1.p.phase == SendPacket {
        k := 1;
        assert draws[..1][1..] == [];
        assert After(s1, []) == s1;
      } else {
        var later := WaitEnds(s1, draws[1..]);
        k := later + 1;
        assert draws[..k][1..] == draws[1..][..later];
      }
    }
  }

  /** From every reachable state, whatever was lost before: every continuation without loss or damage that is long
      enough comes to a point where everything accepted is delivered, nothing new has been accepted, and A may send
      the next message. */
  lemma EveryWaitEnds(s0: State, past: seq<Draw>, draws: seq<Draw>)
    requires Initial(s0) && s0.timeout >= TWO_HOPS
    requires Perfect(draws) && |draws| >= Patience(After(s0, past))
    ensures exists k: nat :: k <= |draws| && OverAfter(After(s0, past), draws, k)
  {
    StartKeeps(s0);
    RunKeeps(s0, past);
    var k := WaitEnds(After(s0, past), draws);
  }

  /** So there is such a continuation. */
  lemma WaitCanEnd(s0: State, past: seq<Draw>)
    requires Initial(s0) && s0.timeout >= TWO_HOPS
    ensures var s := After(s0, past);
      exists draws :: Perfect(draws) &&
        var s' := After(s, draws); s'.p.phase == SendPacket && s'.delivered == s'.accepted == s.accepted
  {
    var s := After(s0, past);
    var good := Draw(0.0, Carried(0.0, NoDamage), seq(PAYLOAD_SIZE, _ => 0));
    var draws := seq(Patience(s), _ => good);
    StartKeeps(s0);
    RunKeeps(s0, past);
    var k := WaitEnds(s, draws);
    assert Perfect(draws[..k]);
  }
}
