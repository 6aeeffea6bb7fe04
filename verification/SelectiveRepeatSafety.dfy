/** Safety of selective repeat over every run: one inductive invariant over both ends and everything in flight. */
module SelectiveRepeatSafety {
  import opened Packets
  import opened SelectiveRepeat

  function Payloads(ps: seq<Packet>): (r: seq<Payload>)
    ensures |r| == |ps|
  {
    seq(|ps|, i requires 0 <= i < |ps| => ps[i].payload)
  }

  function At(ring: Ring, seqnum: nat): Slot {
    ring[seqnum % N]
  }

  /** The receiver has delivered or is holding the packet of `seqnum`. */
  predicate Has(r: Receiver, seqnum: nat) {
    seqnum < r.base || (seqnum < r.base + N && At(r.ring, seqnum).flag == HELD)
  }

  /** Sequence numbers were assigned 0, 1, 2, ... */
  predicate Numbered(sent: seq<Packet>) {
    forall i :: 0 <= i < |sent| ==> sent[i] == DataPacket(i, sent[i].payload)
  }

  /** The slots of the window: outstanding packets first, then free slots. */
  ghost predicate Outstanding(ring: Ring, base: nat, sent: seq<Packet>, deadline: real) {
    && (forall s: nat :: base <= s < |sent| ==>
      At(ring, s).packet == sent[s] && At(ring, s).flag in {HELD, ACKED} && At(ring, s).timeout <= deadline)
    && (forall s: nat :: |sent| <= s < base + N ==> At(ring, s).flag == FREE)
  }

  /** The sender's ring holds exactly the outstanding packets; `room` more may be sent while messages are queued. */
  ghost predicate SenderCore(a: Sender, sent: seq<Packet>, room: nat) {
    && a.ringStart == a.base
    && a.base <= a.nextSeq <= a.base + N
    && a.nextSeq == a.fromLayer5 == |sent|
    && a.bugs == 0
    && Numbered(sent)
    && (a.queue != [] ==> a.nextSeq + room >= a.base + N)
    && Outstanding(a.ring, a.base, sent, a.clock + TIMEOUT)
  }

  /** Between events the oldest outstanding packet is unacknowledged, and messages queue only behind a full window. */
  ghost predicate SenderOk(a: Sender, sent: seq<Packet>) {
    && SenderCore(a, sent, 0)
    && (a.base < a.nextSeq ==> At(a.ring, a.base).flag == HELD)
  }

  /** The receiver's ring holds only packets the sender sent. */
  ghost predicate ReceiverCore(b: Receiver, sent: seq<Packet>, delivered: seq<Payload>) {
    && b.ringStart == b.base == b.toLayer5
    && b.base <= |sent|
    && b.bugs == 0
    && delivered == Payloads(sent)[..b.base]
    && (forall s: nat :: b.base <= s < b.base + N ==> At(b.ring, s).flag in {FREE, HELD})
    && (forall s: nat :: b.base <= s < b.base + N && At(b.ring, s).flag == HELD ==>
      s < |sent| && At(b.ring, s).packet == sent[s])
  }

  ghost predicate ReceiverOk(b: Receiver, sent: seq<Packet>, delivered: seq<Payload>) {
    ReceiverCore(b, sent, delivered) && At(b.ring, b.base).flag == FREE
  }

  /** Whatever the sender counts as acknowledged, the receiver has. */
  ghost predicate AcksSound(a: Sender, b: Receiver) {
    && a.base <= b.base
    && forall s: nat :: a.base <= s < a.nextSeq && At(a.ring, s).flag == ACKED ==> Has(b, s)
  }

  ghost predicate DataSound(toB: seq<Packet>, sent: seq<Packet>) {
    forall p :: p in toB && Intact(p) ==> 0 <= p.seqnum < |sent| && p == sent[p.seqnum]
  }

  ghost predicate AcksInFlightSound(toA: seq<Packet>, b: Receiver, sent: seq<Packet>) {
    forall p :: p in toA && Intact(p) ==> 0 <= p.acknum < |sent| && Has(b, p.acknum)
  }

  ghost predicate Inv(s: System) {
    && SenderOk(s.a, s.sent)
    && ReceiverOk(s.b, s.sent, s.delivered)
    && AcksSound(s.a, s.b)
    && DataSound(s.toB, s.sent)
    && AcksInFlightSound(s.toA, s.b, s.sent)
    && multiset(s.given) == Accepted(s.a, s.sent)
  }

  /** The messages assigned a sequence number or still queued. */
  function Accepted(a: Sender, sent: seq<Packet>): multiset<Payload> {
    multiset(Payloads(sent)) + multiset(a.queue)
  }

  // ----- rings -----

  lemma {:induction false} RunIs(ring: Ring, start: nat, flag: int, i: nat)
    requires i <= N
    ensures var n := Run(ring, start, flag, i);
      && (forall s: nat :: start + i <= s < start + i + n ==> At(ring, s).flag == flag)
      && (i + n < N ==> At(ring, start + i + n).flag != flag)
    decreases N - i
  {
    if i < N && At(ring, start + i).flag == flag {
      RunIs(ring, start, flag, i + 1);
    }
  }

  /** Window numbers never share a slot: writing one slot changes one of them only. */
  lemma PutIs(ring: Ring, base: nat, t: nat, slot: Slot)
    requires base <= t < base + N
    ensures forall s: nat :: base <= s < base + N ==> At(ring[t % N := slot], s) == if s == t then slot else At(ring, s)
  {
    forall s: nat | base <= s < base + N
      ensures At(ring[t % N := slot], s) == if s == t then slot else At(ring, s)
    {
      if s != t {
        DistinctSlots(s, t);
      }
    }
  }

  lemma DistinctSlots(s: nat, t: nat)
    requires s != t && s - N < t < s + N
    ensures s % N != t % N
  {
    assert s == N * (s / N) + s % N && t == N * (t / N) + t % N;
  }

  lemma OffsetInWindow(start: nat, s: nat)
    requires start <= s < start + N
    ensures (s % N - start) % N == s - start
  {
    var q := s / N;
    assert s % N - start == (s - start) + N * -q;
  }

  /** Freeing the first `k` window slots leaves the others as they were; slots of different window numbers differ. */
  lemma FreedIs(ring: Ring, start: nat, k: nat)
    requires k <= N
    ensures forall s: nat :: start <= s < start + k ==> At(Freed(ring, start, k), s).flag == FREE
    ensures forall s: nat :: start + N <= s < start + N + k ==> At(Freed(ring, start, k), s).flag == FREE
    ensures forall s: nat :: start + k <= s < start + N ==> At(Freed(ring, start, k), s) == At(ring, s)
  {
    forall s: nat | start <= s < start + N
      ensures At(Freed(ring, start, k), s) == if s < start + k then At(ring, s).(flag := FREE) else At(ring, s)
    {
      OffsetInWindow(start, s);
    }
    forall s: nat | start + N <= s < start + N + k
      ensures At(Freed(ring, start, k), s).flag == FREE
    {
      OffsetInWindow(start, s - N);
      assert s % N == (s - N) % N;
    }
  }

  // ----- sender -----

  /** No slot became acknowledged and the window base did not move. */
  ghost predicate NoNewAcks(a: Sender, a': Sender) {
    && a'.base == a.base
    && (forall s: nat :: a'.base <= s < a'.nextSeq && At(a'.ring, s).flag == ACKED ==>
      s < a.nextSeq && At(a.ring, s).flag == ACKED)
    && (a'.base < a'.nextSeq && At(a'.ring, a'.base).flag != HELD ==>
      a.base < a.nextSeq && At(a.ring, a.base).flag != HELD)
  }

  /** What sending `out` did: the sender still holds exactly what it sent, and nothing new is acknowledged. */
  ghost predicate Sends(a: Sender, sent: seq<Packet>, a': Sender, out: seq<Packet>, room: nat) {
    && SenderCore(a', sent + out, room)
    && NoNewAcks(a, a')
    && forall p :: p in out ==> Intact(p)
  }

  lemma OutputKeeps(a: Sender, m: Payload, sent: seq<Packet>, room: nat)
    requires SenderCore(a, sent, room)
    ensures Sends(a, sent, Output(a, m).0, Output(a, m).1, if room == 0 then 0 else room - 1)
    ensures |Output(a, m).1| <= 1
  {
    var (a', out) := Output(a, m);
    var q := a.queue + [m];
    if a.nextSeq < a.base + N {
      assert RingIndex(a.base, a.ringStart, a.nextSeq) == a.nextSeq % N;
      assert At(a.ring, a.nextSeq).flag == FREE;
      var slot := Slot(HELD, DataPacket(a.nextSeq, q[0]), a.clock + TIMEOUT);
      PutIs(a.ring, a.base, a.nextSeq, slot);
      assert a'.ring == a.ring[a.nextSeq % N := slot];
      forall s: nat | |sent + out| <= s < a'.base + N
        ensures At(a'.ring, s).flag == FREE
      {
        assert At(a.ring, s).flag == FREE;
      }
    } else {
      assert sent + out == sent;
    }
  }

  lemma {:induction false} RefillKeeps(a: Sender, count: nat, sent: seq<Packet>)
    requires SenderCore(a, sent, count)
    ensures Sends(a, sent, Refill(a, count).0, Refill(a, count).1, 0)
    decreases count
  {
    if count == 0 || a.queue == [] {
      assert sent + [] == sent;
    } else {
      var popped := a.(queue := a.queue[1..]);
      OutputKeeps(popped, a.queue[0], sent, count);
      var (a1, now) := Output(popped, a.queue[0]);
      RefillKeeps(a1, count - 1, sent + now);
      var (a2, later) := Refill(a1, count - 1);
      SendsChain(popped, sent, a1, now, a2, later, count - 1);
    }
  }

  lemma SendsChain(
    a: Sender, sent: seq<Packet>, a1: Sender, now: seq<Packet>, a2: Sender, later: seq<Packet>, room: nat)
    requires Sends(a, sent, a1, now, room) && Sends(a1, sent + now, a2, later, 0)
    ensures Sends(a, sent, a2, now + later, 0)
  {
    assert sent + (now + later) == sent + now + later;
  }

  /** Sliding past the acknowledged run makes room for as many messages as it was long. */
  lemma SlideKeeps(a: Sender, sent: seq<Packet>)
    requires SenderCore(a, sent, 0)
    ensures var count := Run(a.ring, a.ringStart, ACKED, 0); var slid := Slide(a, count);
      && SenderCore(slid, sent, count)
      && slid.base <= a.nextSeq
      && (forall s: nat :: a.base <= s < slid.base ==> At(a.ring, s).flag == ACKED)
      && (forall s: nat :: slid.base <= s < a.nextSeq ==> At(slid.ring, s) == At(a.ring, s))
      && (slid.base < a.nextSeq ==> At(a.ring, slid.base).flag == HELD)
  {
    var count := Run(a.ring, a.ringStart, ACKED, 0);
    RunIs(a.ring, a.ringStart, ACKED, 0);
    assert a.nextSeq < a.base + N ==> At(a.ring, a.nextSeq).flag == FREE;
    FreedIs(a.ring, a.base, count);
  }

  /** Acknowledging an outstanding packet and sliding the window frees exactly the acknowledged run at its base. */
  lemma FreeSendBufKeeps(a: Sender, sent: seq<Packet>)
    requires SenderCore(a, sent, 0)
    ensures var (a', out) := FreeSendBuf(a);
      && SenderOk(a', sent + out)
      && a.base <= a'.base <= a.nextSeq
      && (forall s: nat :: a.base <= s < a'.base ==> At(a.ring, s).flag == ACKED)
      && (a'.base < a.nextSeq ==> At(a.ring, a'.base).flag == HELD)
      && (forall s: nat :: a'.base <= s < a'.nextSeq && At(a'.ring, s).flag == ACKED ==>
        s < a.nextSeq && At(a.ring, s).flag == ACKED)
      && (forall p :: p in out ==> Intact(p))
  {
    var count := Run(a.ring, a.ringStart, ACKED, 0);
    SlideKeeps(a, sent);
    RefillKeeps(Slide(a, count), count, sent);
  }

  lemma OutputConserves(a: Sender, m: Payload, sent: seq<Packet>, room: nat)
    requires SenderCore(a, sent, room)
    ensures Accepted(Output(a, m).0, sent + Output(a, m).1) == Accepted(a, sent) + multiset{m}
  {
    var q := a.queue + [m];
    if a.nextSeq < a.base + N {
      assert RingIndex(a.base, a.ringStart, a.nextSeq) == a.nextSeq % N;
      assert At(a.ring, a.nextSeq).flag == FREE;
      assert q == [q[0]] + q[1..];
      assert Payloads(sent + Output(a, m).1) == Payloads(sent) + [q[0]];
    } else {
      assert sent + [] == sent;
    }
  }

  lemma RefillUnfolds(a: Sender, count: nat, sent: seq<Packet>)
    requires count > 0 && a.queue != []
    ensures var r := Output(a.(queue := a.queue[1..]), a.queue[0]);
      && Refill(a, count).0 == Refill(r.0, count - 1).0
      && sent + Refill(a, count).1 == sent + r.1 + Refill(r.0, count - 1).1
  {
  }

  lemma {:induction false} RefillConserves(a: Sender, count: nat, sent: seq<Packet>)
    requires SenderCore(a, sent, count)
    ensures Accepted(Refill(a, count).0, sent + Refill(a, count).1) == Accepted(a, sent)
    decreases count
  {
    if count == 0 || a.queue == [] {
      assert sent + [] == sent;
    } else {
      var popped := a.(queue := a.queue[1..]);
      var r := Output(popped, a.queue[0]);
      OutputKeeps(popped, a.queue[0], sent, count);
      assert SenderCore(r.0, sent + r.1, count - 1);
      RequeueConserves(a, sent, count);
      RefillConserves(r.0, count - 1, sent + r.1);
      RefillUnfolds(a, count, sent);
    }
  }

  /** Popping a message and passing it to the output routine again neither loses nor doubles it. */
  lemma RequeueConserves(a: Sender, sent: seq<Packet>, room: nat)
    requires SenderCore(a, sent, room) && a.queue != []
    ensures var r := Output(a.(queue := a.queue[1..]), a.queue[0]); Accepted(r.0, sent + r.1) == Accepted(a, sent)
  {
    OutputConserves(a.(queue := a.queue[1..]), a.queue[0], sent, room);
    PopConserves(a, sent);
  }

  lemma PopConserves(a: Sender, sent: seq<Packet>)
    requires a.queue != []
    ensures Accepted(a, sent) == Accepted(a.(queue := a.queue[1..]), sent) + multiset{a.queue[0]}
  {
    assert a.queue == [a.queue[0]] + a.queue[1..];
  }

  lemma FreeSendBufAccounts(a: Sender, sent: seq<Packet>)
    requires SenderCore(a, sent, 0)
    ensures Accepted(FreeSendBuf(a).0, sent + FreeSendBuf(a).1) == Accepted(a, sent)
  {
    var count := Run(a.ring, a.ringStart, ACKED, 0);
    SlideKeeps(a, sent);
    RefillConserves(Slide(a, count), count, sent);
  }

  ghost predicate FromSent(ps: seq<Packet>, sent: seq<Packet>) {
    forall p :: p in ps ==> Intact(p) && 0 <= p.seqnum < |sent| && p == sent[p.seqnum]
  }

  /** A resend changes nothing but a deadline. */
  lemma ResendOneKeeps(a: Sender, i: nat, sent: seq<Packet>)
    requires SenderOk(a, sent) && a.base <= i < a.nextSeq
    ensures var (a', out) := ResendOne(a, i);
      && SenderOk(a', sent) && NoNewAcks(a, a') && FromSent(out, sent)
      && a' == a.(ring := a'.ring, toLayer3 := a'.toLayer3)
      && (forall s: nat :: a.base <= s < a.base + N && s != i ==> At(a'.ring, s) == At(a.ring, s))
      && (a.clock > At(a.ring, i).timeout && At(a.ring, i).flag == HELD ==> out == [sent[i]])
      && (a.clock <= At(a.ring, i).timeout ==> a' == a)
  {
    assert RingIndex(a.base, a.ringStart, i) == i % N;
    var slot := At(a.ring, i).(timeout := a.clock + TIMEOUT);
    PutIs(a.ring, a.base, i, slot);
    assert At(a.ring, i).packet == sent[i];
    var a' := ResendOne(a, i).0;
    forall s: nat | a.nextSeq <= s < a.base + N
      ensures At(a'.ring, s).flag == FREE
    {
      assert At(a.ring, s).flag == FREE;
    }
  }

  /** The timer resends outstanding packets; slots before `i` are not touched. */
  lemma {:induction false} ResendKeeps(a: Sender, i: nat, sent: seq<Packet>)
    requires SenderOk(a, sent) && a.base <= i
    ensures var a' := ResendFrom(a, i, a.nextSeq).0;
      && SenderOk(a', sent) && NoNewAcks(a, a') && FromSent(ResendFrom(a, i, a.nextSeq).1, sent)
      && a' == a.(ring := a'.ring, toLayer3 := a'.toLayer3)
      && (forall s: nat :: a.base <= s < i && s < a.base + N ==> At(a'.ring, s) == At(a.ring, s))
    decreases a.nextSeq - i
  {
    if i < a.nextSeq {
      ResendOneKeeps(a, i, sent);
      ResendKeeps(ResendOne(a, i).0, i + 1, sent);
    }
  }

  /** The packet is unacknowledged past its deadline. */
  predicate Overdue(a: Sender, s: nat) {
    a.base <= s < a.nextSeq && At(a.ring, s).flag == HELD && a.clock > At(a.ring, s).timeout
  }

  function OverdueFrom(a: Sender, i: nat, sent: seq<Packet>): seq<Packet>
    requires a.nextSeq <= |sent|
    decreases a.nextSeq - i
  {
    if i >= a.nextSeq then []
    else (if Overdue(a, i) then [sent[i]] else []) + OverdueFrom(a, i + 1, sent)
  }

  function Renewed(a: Sender, s: nat): Slot {
    if Overdue(a, s) then At(a.ring, s).(timeout := a.clock + TIMEOUT) else At(a.ring, s)
  }

  /** One turn of the resend loop, seen from the sender it will leave alone from `i + 1` on. */
  lemma ResendOneIsExact(a: Sender, i: nat, sent: seq<Packet>)
    requires SenderOk(a, sent) && a.base <= i < a.nextSeq
    ensures var r := ResendOne(a, i);
      && r.1 == (if Overdue(a, i) then [sent[i]] else [])
      && forall s: nat :: a.base <= s < a.base + N ==>
        At(r.0.ring, s) == if s == i then Renewed(a, i) else At(a.ring, s)
  {
    ResendOneKeeps(a, i, sent);
    assert RingIndex(a.base, a.ringStart, i) == i % N;
    assert At(a.ring, i).packet == sent[i];
    PutIs(a.ring, a.base, i, At(a.ring, i).(timeout := a.clock + TIMEOUT));
  }

  lemma {:induction false} SameOverdue(a: Sender, a': Sender, i: nat, sent: seq<Packet>)
    requires a.base == a'.base <= i && a.nextSeq == a'.nextSeq <= |sent| && a.clock == a'.clock
    requires forall s: nat :: i <= s < a.nextSeq ==> At(a'.ring, s) == At(a.ring, s)
    ensures OverdueFrom(a, i, sent) == OverdueFrom(a', i, sent)
    decreases a.nextSeq - i
  {
    if i < a.nextSeq {
      SameOverdue(a, a', i + 1, sent);
    }
  }

  /** The timer resends exactly the overdue packets, each once and in order, and renews only their deadlines. */
  lemma {:induction false} ResendIsExact(a: Sender, i: nat, sent: seq<Packet>)
    requires SenderOk(a, sent) && a.base <= i
    ensures var r := ResendFrom(a, i, a.nextSeq);
      && r.1 == OverdueFrom(a, i, sent)
      && forall s: nat :: a.base <= s < a.base + N ==>
        At(r.0.ring, s) == if i <= s then Renewed(a, s) else At(a.ring, s)
    decreases a.nextSeq - i
  {
    if i < a.nextSeq {
      var a1 := ResendOne(a, i).0;
      ResendOneKeeps(a, i, sent);
      ResendOneIsExact(a, i, sent);
      ResendIsExact(a1, i + 1, sent);
      assert OverdueFrom(a, i + 1, sent) == OverdueFrom(a1, i + 1, sent) by {
        SameOverdue(a, a1, i + 1, sent);
      }
      forall s: nat | a.base <= s < a.base + N
        ensures At(ResendFrom(a, i, a.nextSeq).0.ring, s) == if i <= s then Renewed(a, s) else At(a.ring, s)
      {
        assert At(a1.ring, s) == if s == i then Renewed(a, i) else At(a.ring, s);
        assert s != i ==> Renewed(a1, s) == Renewed(a, s);
      }
    }
  }

  // ----- receiver -----

  lemma {:induction false} WindowIs(ring: Ring, start: nat, n: nat, sent: seq<Packet>)
    requires n <= N && start + n <= |sent|
    requires forall s: nat :: start <= s < start + n ==> At(ring, s).packet == sent[s]
    ensures Window(ring, start, n) == Payloads(sent)[start..start + n]
  {
    if n > 0 {
      WindowIs(ring, start, n - 1, sent);
      assert At(ring, start + n - 1).packet == sent[start + n - 1];
    }
  }

  /** Handing the run at the base to layer 5 extends what was delivered and leaves the new base slot free. */
  lemma FreeRecvBufKeeps(b: Receiver, sent: seq<Packet>, delivered: seq<Payload>)
    requires ReceiverCore(b, sent, delivered)
    ensures var b' := FreeRecvBuf(b).0;
      && ReceiverOk(b', sent, delivered + FreeRecvBuf(b).1)
      && b.base <= b'.base
      && (forall s: nat :: Has(b, s) <==> Has(b', s))
  {
    var count := Run(b.ring, b.ringStart, HELD, 0);
    RunIs(b.ring, b.ringStart, HELD, 0);
    FreedIs(b.ring, b.base, count);
    assert count > 0 ==> At(b.ring, b.base + count - 1).flag == HELD;
    assert b.base + count <= |sent|;
    assert delivered + FreeRecvBuf(b).1 == Payloads(sent)[..b.base + count] by {
      WindowIs(b.ring, b.base, count, sent);
      DeliveredExtends(sent, b.base, count);
    }
    var b' := FreeRecvBuf(b).0;
    forall s: nat
      ensures Has(b, s) <==> Has(b', s)
    {
      HasIsKept(b, count, s);
    }
    assert At(b'.ring, b'.base).flag == FREE;
  }

  lemma DeliveredExtends(sent: seq<Packet>, base: nat, count: nat)
    requires base + count <= |sent|
    ensures Payloads(sent)[..base] + Payloads(sent)[base..base + count] == Payloads(sent)[..base + count]
  {
  }

  /** Handing up the run at the base changes no answer to what the receiver has. */
  lemma HasIsKept(b: Receiver, count: nat, s: nat)
    requires b.ringStart == b.base && count == Run(b.ring, b.ringStart, HELD, 0)
    ensures Has(b, s) <==> Has(FreeRecvBuf(b).0, s)
  {
    RunIs(b.ring, b.ringStart, HELD, 0);
    FreedIs(b.ring, b.base, count);
    var b' := FreeRecvBuf(b).0;
    assert b.base + N <= s < b'.base + N ==> At(b'.ring, s).flag == FREE;
    assert b'.base <= s < b.base + N ==> At(b'.ring, s) == At(b.ring, s);
  }

  /** A packet the sender sent is held or delivered afterwards, and so are all packets held before. */
  lemma ReceiverInputKeeps(b: Receiver, p: Packet, sent: seq<Packet>, delivered: seq<Payload>)
    requires ReceiverOk(b, sent, delivered)
    requires Intact(p) ==> 0 <= p.seqnum < |sent| && p == sent[p.seqnum] && p.seqnum < b.base + N
    ensures var (b', out, up) := ReceiverInput(b, p);
      && ReceiverOk(b', sent, delivered + up)
      && b.base <= b'.base
      && (forall s: nat :: Has(b', s) <==> Has(b, s) || (Intact(p) && s == p.seqnum))
      && out == (if Intact(p) then [Ack(p)] else [])
  {
    assert delivered + [] == delivered;
    if Intact(p) && p.seqnum >= b.base {
      var t: nat := p.seqnum;
      var k := RingIndex(b.base, b.ringStart, t);
      assert k == t % N;
      if b.ring[k].flag != HELD {
        var slot := b.ring[k].(flag := HELD, packet := p);
        PutIs(b.ring, b.base, t, slot);
        var b1 := b.(ring := b.ring[k := slot]);
        assert b1.ring == b.ring[t % N := slot];
        forall s: nat | b.base <= s < b.base + N
          ensures At(b1.ring, s).flag in {FREE, HELD}
          ensures At(b1.ring, s).flag == HELD ==> s < |sent| && At(b1.ring, s).packet == sent[s]
        {
          assert At(b.ring, s).flag in {FREE, HELD};
        }
        forall s: nat
          ensures Has(b1, s) <==> Has(b, s) || s == t
        {
        }
        FreeRecvBufKeeps(b1, sent, delivered);
      }
    }
  }

  lemma ReceiverGrows(b: Receiver, sent: seq<Packet>, out: seq<Packet>, delivered: seq<Payload>)
    requires ReceiverOk(b, sent, delivered)
    ensures ReceiverOk(b, sent + out, delivered)
  {
    assert Payloads(sent + out)[..b.base] == Payloads(sent)[..b.base];
  }

  // ----- the medium -----

  lemma {:induction false} TransmitSound(ps: seq<Packet>, fates: seq<Fate>)
    requires forall p :: p in ps ==> Intact(p)
    ensures forall q :: q in Transmit(ps, fates) && Intact(q) ==> q in ps
  {
    if ps != [] && fates != [] {
      EmergesIntact(ps[0], fates[0]);
      TransmitSound(ps[1..], fates[1..]);
    }
  }

  lemma TransmitKeepsData(toB: seq<Packet>, out: seq<Packet>, fates: seq<Fate>, sent: seq<Packet>)
    requires DataSound(toB, sent) && FromSent(out, sent)
    ensures DataSound(toB + Transmit(out, fates), sent)
  {
    TransmitSound(out, fates);
  }

  /** Packets sent for the first time are sound with respect to the longer history. */
  lemma FirstSent(toB: seq<Packet>, sent: seq<Packet>, out: seq<Packet>)
    requires DataSound(toB, sent) && Numbered(sent + out)
    ensures DataSound(toB, sent + out) && FromSent(out, sent + out)
  {
    forall p | p in out
      ensures Intact(p) && 0 <= p.seqnum < |sent + out| && p == (sent + out)[p.seqnum]
    {
      var j :| 0 <= j < |out| && out[j] == p;
      assert (sent + out)[|sent| + j] == p;
    }
  }

  // ----- every step keeps the invariant -----

  lemma SenderInputKeeps(a: Sender, b: Receiver, p: Packet, sent: seq<Packet>, delivered: seq<Payload>)
    requires SenderOk(a, sent) && ReceiverOk(b, sent, delivered) && AcksSound(a, b)
    requires Intact(p) ==> 0 <= p.acknum < |sent| && Has(b, p.acknum)
    ensures var (a', out) := SenderInput(a, p);
      && SenderOk(a', sent + out)
      && AcksSound(a', b)
      && a.base <= a'.base
      && (Intact(p) && p.acknum == a.base ==> a.base < a'.base)
      && Accepted(a', sent + out) == Accepted(a, sent)
  {
    assert sent + [] == sent;
    if Intact(p) && p.acknum >= a.base {
      var a1 := Marked(a, p.acknum % N);
      MarkedKeeps(a, p.acknum, sent);
      FreeSendBufKeeps(a1, sent);
      FreeSendBufAccounts(a1, sent);
      AcksStaySound(a1, FreeSendBuf(a1).0, b);
    }
  }

  lemma MarkedKeeps(a: Sender, t: nat, sent: seq<Packet>)
    requires SenderCore(a, sent, 0) && a.base <= t < a.nextSeq
    ensures var a1 := Marked(a, t % N);
      && RingIndex(a.base, a.ringStart, t) == t % N
      && SenderCore(a1, sent, 0)
      && Accepted(a1, sent) == Accepted(a, sent)
      && (forall s: nat :: a.base <= s < a.nextSeq ==>
        At(a1.ring, s).flag == if s == t then ACKED else At(a.ring, s).flag)
  {
    var slot := a.ring[t % N].(flag := ACKED);
    PutIs(a.ring, a.base, t, slot);
    var a1 := Marked(a, t % N);
    assert a1.ring == a.ring[t % N := slot];
    forall s: nat | a.nextSeq <= s < a.base + N
      ensures At(a1.ring, s).flag == FREE
    {
      assert At(a.ring, s).flag == FREE;
    }
  }

  lemma AcksStaySound(a: Sender, a': Sender, b: Receiver)
    requires a.base <= a'.base <= a.nextSeq && a.base <= b.base && At(b.ring, b.base).flag == FREE
    requires forall s: nat :: a.base <= s < a.nextSeq && At(a.ring, s).flag == ACKED ==> Has(b, s)
    requires forall s: nat :: a.base <= s < a'.base ==> At(a.ring, s).flag == ACKED
    requires forall s: nat :: a'.base <= s < a'.nextSeq && At(a'.ring, s).flag == ACKED ==>
      s < a.nextSeq && At(a.ring, s).flag == ACKED
    ensures AcksSound(a', b)
  {
    assert a'.base <= b.base || At(a.ring, b.base).flag == ACKED;
  }

  lemma GivenKeeps(s: System, m: Payload, fates: seq<Fate>)
    requires Inv(s)
    ensures Inv(Next(s, Step(FromLayer5(m), fates)))
  {
    OutputKeeps(s.a, m, s.sent, 0);
    OutputConserves(s.a, m, s.sent, 0);
    var r := Output(s.a, m);
    FirstSent(s.toB, s.sent, r.1);
    TransmitKeepsData(s.toB, r.1, fates, s.sent + r.1);
    ReceiverGrows(s.b, s.sent, r.1, s.delivered);
  }

  lemma TickKeeps(s: System, fates: seq<Fate>)
    requires Inv(s)
    ensures Inv(Next(s, Step(Timer, fates)))
  {
    var a0 := s.a.(clock := s.a.clock + INTERVAL);
    ResendKeeps(a0, a0.base, s.sent);
    TransmitKeepsData(s.toB, Tick(s.a).1, fates, s.sent);
  }

  lemma AckKeeps(s: System, i: nat, fates: seq<Fate>)
    requires Inv(s) && i < |s.toA|
    ensures Inv(Next(s, Step(ArriveAtA(i), fates)))
  {
    SenderInputKeeps(s.a, s.b, s.toA[i], s.sent, s.delivered);
    var r := SenderInput(s.a, s.toA[i]);
    FirstSent(s.toB, s.sent, r.1);
    TransmitKeepsData(s.toB, r.1, fates, s.sent + r.1);
    ReceiverGrows(s.b, s.sent, r.1, s.delivered);
  }

  lemma DataKeeps(s: System, i: nat, fates: seq<Fate>)
    requires Inv(s) && i < |s.toB|
    ensures Inv(Next(s, Step(ArriveAtB(i), fates)))
  {
    ReceiverInputKeeps(s.b, s.toB[i], s.sent, s.delivered);
    TransmitSound(ReceiverInput(s.b, s.toB[i]).1, fates);
  }

  /** Every event, whatever the medium does with the packets it sends, keeps the invariant. */
  lemma StepKeeps(s: System, step: Step)
    requires Inv(s)
    ensures Inv(Next(s, step))
  {
    match step.event
    case FromLayer5(m) => GivenKeeps(s, m, step.fates);
    case Timer => TickKeeps(s, step.fates);
    case ArriveAtA(i) =>
      if i < |s.toA| {
        AckKeeps(s, i, step.fates);
      }
    case ArriveAtB(i) =>
      if i < |s.toB| {
        DataKeeps(s, i, step.fates);
      }
  }

  lemma StartKeeps(s: System)
    requires Initial(s)
    ensures Inv(s)
  {
    assert forall k: nat :: At(s.a.ring, k).flag == FREE && At(s.b.ring, k).flag == FREE;
  }

  lemma {:induction false} RunKeeps(s: System, steps: seq<Step>)
    requires Inv(s)
    ensures Inv(After(s, steps))
    decreases |steps|
  {
    if steps != [] {
      StepKeeps(s, steps[0]);
      RunKeeps(Next(s, steps[0]), steps[1..]);
    }
  }

  // ----- what every run guarantees -----

  /** Under loss, corruption, reordering and any timer schedule the receiver hands up exactly the payloads the
      sender numbered 0 .. base-1, each once and in that order; whatever is acknowledged has been handed up. */
  lemma DeliveryIsExact(s0: System, steps: seq<Step>)
    requires Initial(s0)
    ensures var s := After(s0, steps);
      && |s.delivered| == s.b.base == s.b.toLayer5
      && s.a.base <= s.b.base <= |s.sent|
      && (forall i :: 0 <= i < |s.sent| ==> s.sent[i] == DataPacket(i, s.sent[i].payload))
      && (forall i :: 0 <= i < s.b.base ==> s.delivered[i] == s.sent[i].payload)
  {
    StartKeeps(s0);
    RunKeeps(s0, steps);
  }

  /** The windows never drift apart, and none of the branches that report a bug is ever taken. */
  lemma WindowsAgree(s0: System, steps: seq<Step>)
    requires Initial(s0)
    ensures var s := After(s0, steps);
      && s.a.base <= s.b.base <= s.a.nextSeq <= s.a.base + N
      && s.a.nextSeq == s.a.fromLayer5 == |s.sent|
      && s.a.bugs == 0 && s.b.bugs == 0
      && (forall p :: p in s.toB && Intact(p) ==> 0 <= p.seqnum < s.b.base + N)
      && (forall p :: p in s.toA && Intact(p) ==> 0 <= p.acknum < s.a.nextSeq && Has(s.b, p.acknum))
  {
    StartKeeps(s0);
    RunKeeps(s0, steps);
  }

  /** No message is lost or invented: every one given is numbered or still queued, and messages queue only while
      the window is full. */
  lemma MessagesAreConserved(s0: System, steps: seq<Step>)
    requires Initial(s0)
    ensures var s := After(s0, steps);
      && multiset(s.given) == multiset(Payloads(s.sent)) + multiset(s.a.queue)
      && (s.a.queue != [] ==> s.a.nextSeq == s.a.base + N)
  {
    StartKeeps(s0);
    RunKeeps(s0, steps);
  }

  /** The window number that slot `k` stands for. */
  function NumberOf(base: nat, k: nat): (s: nat)
    requires k < N
    ensures base <= s < base + N
  {
    base + (k - base) % N
  }

  lemma NumberOfSlot(base: nat, k: nat)
    requires k < N
    ensures NumberOf(base, k) % N == k
  {
    var q := (k - base) / N;
    assert NumberOf(base, k) == k + N * -q && q <= 0;
  }

  lemma SlotOfNumber(base: nat, k: nat)
    requires k < N
    ensures RingIndex(base, base, NumberOf(base, k)) == k && NumberOf(base, k) % N == k
  {
    NumberOfSlot(base, k);
  }

  lemma SenderRingIsMap(a: Sender, sent: seq<Packet>, k: nat)
    requires SenderOk(a, sent) && k < N
    ensures var n := NumberOf(a.base, k);
      && RingIndex(a.base, a.ringStart, n) == k
      && if n < |sent| then a.ring[k].packet == sent[n] && a.ring[k].flag in {HELD, ACKED} else a.ring[k].flag == FREE
  {
    SlotOfNumber(a.base, k);
    assert a.ring[k] == At(a.ring, NumberOf(a.base, k));
  }

  lemma ReceiverRingIsMap(b: Receiver, sent: seq<Packet>, delivered: seq<Payload>, k: nat)
    requires ReceiverOk(b, sent, delivered) && k < N
    ensures var n := NumberOf(b.base, k);
      && RingIndex(b.base, b.ringStart, n) == k
      && b.ring[k].flag in {FREE, HELD}
      && (b.ring[k].flag == HELD ==> b.base < n < |sent| && b.ring[k].packet == sent[n])
  {
    SlotOfNumber(b.base, k);
    assert b.ring[k] == At(b.ring, NumberOf(b.base, k));
  }

  /** Each ring is a map from window numbers to slots: every slot stands for one number, the sender's holds the
      packet first sent for it or is free, and the receiver's holds that packet or is free. */
  lemma RingsAreMaps(s0: System, steps: seq<Step>, k: nat)
    requires Initial(s0) && k < N
    ensures var s := After(s0, steps); var n := NumberOf(s.a.base, k);
      && RingIndex(s.a.base, s.a.ringStart, n) == k
      && if n < |s.sent| then s.a.ring[k].packet == s.sent[n] && s.a.ring[k].flag in {HELD, ACKED}
         else s.a.ring[k].flag == FREE
    ensures var s := After(s0, steps); var n := NumberOf(s.b.base, k);
      && RingIndex(s.b.base, s.b.ringStart, n) == k
      && s.b.ring[k].flag in {FREE, HELD}
      && (s.b.ring[k].flag == HELD ==> s.b.base < n < |s.sent| && s.b.ring[k].packet == s.sent[n])
  {
    StartKeeps(s0);
    RunKeeps(s0, steps);
    var s := After(s0, steps);
    SenderRingIsMap(s.a, s.sent, k);
    ReceiverRingIsMap(s.b, s.sent, s.delivered, k);
  }
}
