/** What layer 5 offers A, when, and what A makes of it: the arrivals of a run, and the bits of its packets. */
module AlternatingBitOffers {
  import opened Packets
  import opened Events
  import opened AlternatingBit
  import opened AlternatingBitSafety

  /** An offer to A: when, whether A could send, and the draw that decides when the next one comes. */
  datatype Offer = Offer(time: real, ready: bool, arrival: Unit)

  function OfferedBy(s: State, draw: Draw): seq<Offer> {
    if s.em.events != [] && s.em.events[0].MessageAt? && s.nsim < s.nsimmax
    then [Offer(s.em.events[0].time, s.p.phase == SendPacket, draw.arrival)] else []
  }

  function Offers(s: State, draws: seq<Draw>): seq<Offer>
    decreases |draws|
  {
    if draws == [] then [] else OfferedBy(s, draws[0]) + Offers(Next(s, draws[0]), draws[1..])
  }

  /** The messages of the offers that found A ready; the first of them is message number `n`. */
  function Taken(offers: seq<Offer>, n: nat): seq<Payload> {
    if offers == [] then []
    else (if offers[0].ready then [Letters(n)] else []) + Taken(offers[1..], n + 1)
  }

  /** Nineteen times the letter of the alphabet whose turn it is, and a terminator. */
  lemma LettersAre(n: nat, i: nat)
    requires i < PAYLOAD_SIZE
    ensures Letters(n)[i] == if i < 19 then 97 + n % 26 else 0
  {
  }

  // ----- the pending arrivals -----

  function Messages(events: seq<Event>): seq<Event> {
    if events == [] then []
    else (if events[0].MessageAt? then [events[0]] else []) + Messages(events[1..])
  }

  lemma {:induction false} InsertedMessage(events: seq<Event>, e: Event)
    requires e.MessageAt? && Messages(events) == []
    ensures Messages(Insert(events, e)) == [e]
  {
    if events != [] && e.time > events[0].time {
      InsertedMessage(events[1..], e);
    }
  }

  lemma {:induction false} InsertedOther(events: seq<Event>, e: Event)
    requires !e.MessageAt?
    ensures Messages(Insert(events, e)) == Messages(events)
  {
    if events != [] && e.time > events[0].time {
      InsertedOther(events[1..], e);
    }
  }

  lemma {:induction false} StoppedOther(events: seq<Event>, x: Entity)
    ensures Messages(StopTimer(events, x)) == Messages(events)
  {
    if events != [] && !IsTimer(events[0], x) {
      StoppedOther(events[1..], x);
    }
  }

  lemma SentOther(em: Emulator, from: Entity, packet: Packet, c: Carriage)
    ensures Messages(ToLayer3(em, from, packet, c).events) == Messages(em.events)
  {
    if c.Carried? {
      var at := LastArrival(em.events, Other(from), em.time) + 1.0 + 9.0 * c.u;
      InsertedOther(em.events, PacketAt(at, Other(from), Delivered(packet, c.damage)));
    }
  }

  lemma StartedOther(em: Emulator, x: Entity, increment: real)
    ensures Messages(StartTimer(em, x, increment).events) == Messages(em.events)
  {
    InsertedOther(em.events, TimerAt(em.time + increment, x));
  }

  /** When the next message is due, if the first was due at `first`. */
  function Due(first: real, lambda: real, offers: seq<Offer>): real {
    if offers == [] then first
    else var last := offers[|offers| - 1]; last.time + 2.0 * lambda * last.arrival
  }

  /** While messages remain exactly one is pending; when all have been offered, none is. */
  ghost predicate Pending(s: State, first: real, offers: seq<Offer>) {
    && s.nsim == |offers| <= s.nsimmax
    && (s.nsim < s.nsimmax ==> Messages(s.em.events) == [MessageAt(Due(first, s.lambda, offers), A)])
    && (s.nsim == s.nsimmax > 0 ==> Messages(s.em.events) == [])
  }

  /** Each offer comes when the one before it said. */
  predicate Spaced(offers: seq<Offer>, first: real, lambda: real) {
    forall i :: 0 <= i < |offers| ==> offers[i].time == Due(first, lambda, offers[..i])
  }

  ghost predicate Told(s: State, first: real, offers: seq<Offer>) {
    Pending(s, first, offers) && Spaced(offers, first, s.lambda) && s.accepted == Taken(offers, 0)
  }

  lemma {:induction false} TakenMore(offers: seq<Offer>, o: Offer, n: nat)
    ensures Taken(offers + [o], n) == Taken(offers, n) + (if o.ready then [Letters(n + |offers|)] else [])
  {
    var last := if o.ready then [Letters(n + |offers|)] else [];
    if offers == [] {
      assert [o][1..] == [];
    } else {
      var head := if offers[0].ready then [Letters(n)] else [];
      TakenMore(offers[1..], o, n + 1);
      assert (offers + [o])[1..] == offers[1..] + [o];
      assert n + 1 + |offers[1..]| == n + |offers|;
      assert head + (Taken(offers[1..], n + 1) + last) == head + Taken(offers[1..], n + 1) + last;
    }
  }

  lemma SpacedMore(offers: seq<Offer>, o: Offer, first: real, lambda: real)
    requires Spaced(offers, first, lambda) && o.time == Due(first, lambda, offers)
    ensures Spaced(offers + [o], first, lambda)
  {
    var more := offers + [o];
    forall i | 0 <= i < |more|
      ensures more[i].time == Due(first, lambda, more[..i])
    {
      assert more[..i] == offers[..i];
      assert offers[..|offers|] == offers;
    }
  }

  // ----- every turn -----

  lemma AOutputTells(s: State, m: Payload, c: Carriage)
    ensures var s' := AOutput(s, m, c);
      && Messages(s'.em.events) == Messages(s.em.events)
      && s'.accepted == s.accepted + (if s.p.phase == SendPacket then [m] else [])
      && s'.nsim == s.nsim && s'.nsimmax == s.nsimmax && s'.lambda == s.lambda
  {
    var packet := Sealed(s.p.seqNum, s.p.ack, m);
    SentOther(s.em, A, packet, c);
    StartedOther(ToLayer3(s.em, A, packet, c), A, s.timeout);
  }

  /** The message taken from the list is the pending one, and no other is left. */
  lemma PendingFirst(s: State, first: real, offers: seq<Offer>)
    requires Pending(s, first, offers) && s.em.events != [] && s.em.events[0].MessageAt? && s.nsim < s.nsimmax
    ensures s.em.events[0] == MessageAt(Due(first, s.lambda, offers), A) && Messages(s.em.events[1..]) == []
  {
    var e, later := s.em.events[0], Messages(s.em.events[1..]);
    assert Messages(s.em.events) == [e] + later && ([e] + later)[0] == e && |[e] + later| == 1 + |later|;
  }

  /** The list once the next arrival has been drawn. */
  lemma NextPending(s1: State, gap: real, first: real, offers: seq<Offer>, o: Offer)
    requires Messages(s1.em.events) == [] && s1.nsim == |offers| < s1.nsimmax
    requires o.time == s1.em.time && gap == 2.0 * s1.lambda * o.arrival
    ensures Pending(ScheduleNext(s1, gap), first, offers + [o])
  {
    if s1.nsim + 1 < s1.nsimmax {
      InsertedMessage(s1.em.events, MessageAt(s1.em.time + gap, A));
      assert (offers + [o])[|offers|] == o;
      assert Due(first, s1.lambda, offers + [o]) == s1.em.time + gap;
    }
  }

  lemma MessageTells(s: State, draw: Draw, first: real, offers: seq<Offer>)
    requires Told(s, first, offers) && s.em.events != [] && s.em.events[0].MessageAt? && s.nsim < s.nsimmax
    ensures Told(Next(s, draw), first, offers + OfferedBy(s, draw))
  {
    var e, s1 := s.em.events[0], s.(em := Take(s.em));
    var o := Offer(e.time, s.p.phase == SendPacket, draw.arrival);
    var drawn := ScheduleNext(s1, Gap(s.lambda, draw.arrival));
    PendingFirst(s, first, offers);
    NextPending(s1, Gap(s.lambda, draw.arrival), first, offers, o);
    AOutputTells(drawn, Letters(s.nsim), draw.carriage);
    SpacedMore(offers, o, first, s.lambda);
    TakenMore(offers, o, 0);
    assert Next(s, draw) == AOutput(drawn, Letters(s.nsim), draw.carriage) && OfferedBy(s, draw) == [o];
  }

  lemma OtherTells(s: State, draw: Draw)
    requires s.em.events != [] && (s.em.events[0].MessageAt? ==> s.nsim >= s.nsimmax)
    ensures var s' := Next(s, draw);
      && Messages(s'.em.events) == Messages(s.em.events[1..]) && s'.accepted == s.accepted
      && s'.nsim == s.nsim && s'.nsimmax == s.nsimmax && s'.lambda == s.lambda
      && OfferedBy(s, draw) == []
  {
    var e, s1 := s.em.events[0], s.(em := Take(s.em));
    if e.TimerAt? {
      StartedOther(s1.em, A, s.timeout);
      SentOther(StartTimer(s1.em, A, s.timeout), A, s.p.prevPacket, draw.carriage);
    } else if e.PacketAt? && e.entity == A {
      StoppedOther(s1.em.events, A);
    } else if e.PacketAt? {
      SentOther(s1.em, B, s.p.prevAck, draw.carriage);
      SentOther(s1.em, B, Sealed(e.packet.seqnum, e.packet.acknum, AckPayload(draw.filler)), draw.carriage);
    }
  }

  lemma TurnTells(s: State, draw: Draw, first: real, offers: seq<Offer>)
    requires Told(s, first, offers)
    ensures Told(Next(s, draw), first, offers + OfferedBy(s, draw))
  {
    if s.em.events == [] {
      assert offers + [] == offers;
    } else if s.em.events[0].MessageAt? && s.nsim < s.nsimmax {
      MessageTells(s, draw, first, offers);
    } else {
      OtherTells(s, draw);
      assert offers + [] == offers;
    }
  }

  lemma {:induction false} RunTells(s: State, draws: seq<Draw>, first: real, offers: seq<Offer>)
    requires Told(s, first, offers)
    ensures Told(After(s, draws), first, offers + Offers(s, draws))
    decreases |draws|
  {
    if draws == [] {
      assert offers + [] == offers;
    } else {
      var now := OfferedBy(s, draws[0]);
      TurnTells(s, draws[0], first, offers);
      RunTells(Next(s, draws[0]), draws[1..], first, offers + now);
      JoinedOffers(offers, now, Offers(Next(s, draws[0]), draws[1..]));
    }
  }

  lemma JoinedOffers(offers: seq<Offer>, now: seq<Offer>, later: seq<Offer>)
    ensures (offers + now) + later == offers + (now + later)
  {
  }

  // ----- what every run offers -----

  /** In every run exactly one message is pending while fewer than `nsimmax` have been offered, and none afterwards.
      Each comes twice the mean times its draw after the one before, and A accepts exactly those that find it ready. */
  lemma OffersAreExact(s0: State, draws: seq<Draw>)
    requires Initial(s0)
    ensures Told(After(s0, draws), s0.em.events[0].time, Offers(s0, draws))
  {
    var first := s0.em.events[0].time;
    assert Messages(s0.em.events[1..]) == [];
    RunTells(s0, draws, first, []);
    assert [] + Offers(s0, draws) == Offers(s0, draws);
  }

  /** A run whose event list is empty has offered all messages, and B has delivered those that A accepted. */
  lemma EndedRunIsComplete(s0: State, draws: seq<Draw>)
    requires Initial(s0) && s0.timeout >= TWO_HOPS && After(s0, draws).em.events == []
    ensures var offers := Offers(s0, draws);
      |offers| == After(s0, draws).nsimmax && After(s0, draws).delivered == Taken(offers, 0)
  {
    OffersAreExact(s0, draws);
    StartKeeps(s0);
    RunKeeps(s0, draws);
  }

  // ----- the bits of the packets -----

  /** Messages A is done with. */
  function Closed(s: State): int {
    |s.accepted| - if s.p.phase == WaitAck then 1 else 0
  }

  /** A's bit counts the messages it is done with, the shared sequence number those delivered; the outstanding packet
      and B's answer to it carry them. */
  ghost predicate BitsCount(s: State) {
    && s.p.ack == Closed(s) % 2 && s.p.seqNum == |s.delivered| % 2
    && (s.p.phase == WaitAck ==>
      && s.p.prevPacket.seqnum == s.p.prevPacket.acknum == Closed(s) % 2
      && (s.p.seqNum != s.p.prevPacket.seqnum ==>
        s.p.prevAck.acknum == s.p.prevPacket.acknum && s.p.prevAck.payload[0] == 0))
  }

  lemma TurnCounts(s: State, draw: Draw)
    requires Inv(s) && BitsCount(s)
    ensures BitsCount(Next(s, draw))
  {
    if s.em.events != [] {
      TakeCore(s.em);
      var e, core := s.em.events[0], Core(s.em.events);
      if e.PacketAt? {
        assert s.p.phase == WaitAck;
        DataVerdict(e.packet, if e.entity == B then s.p.prevPacket else s.p.prevAck);
      }
    }
  }

  lemma {:induction false} RunCountsBits(s: State, draws: seq<Draw>)
    requires Inv(s) && BitsCount(s)
    ensures BitsCount(After(s, draws))
    decreases |draws|
  {
    if draws != [] {
      TurnCounts(s, draws[0]);
      StepKeeps(s, draws[0]);
      RunCountsBits(Next(s, draws[0]), draws[1..]);
    }
  }

  lemma BitsAlternate(s0: State, draws: seq<Draw>)
    requires Initial(s0) && s0.timeout >= TWO_HOPS
    ensures BitsCount(After(s0, draws))
  {
    StartKeeps(s0);
    RunCountsBits(s0, draws);
  }
}
