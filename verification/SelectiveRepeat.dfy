/** The selective-repeat handlers as functions on values: what each event does to the sender, the receiver and
    the wire. */
module SelectiveRepeat {
  import opened Collections
  import opened Packets

  const N: nat := 10
  const INTERVAL: real := 1.0
  const TIMEOUT: real := 20.0
  const DEFAULT_ACK: int := 111

  // Slot flags. The receiver uses only the first two.
  const FREE: int := 0
  const HELD: int := 1
  const ACKED: int := 2

  datatype Slot = Slot(flag: int, packet: Packet, timeout: real)

  type Ring = r: seq<Slot> | |r| == N witness seq(N, _ => Slot(FREE, Packet(0, 0, 0, seq(PAYLOAD_SIZE, _ => 0)), 0.0))

  datatype Sender = Sender(
    base: nat, ringStart: nat, nextSeq: nat, ring: Ring,
    queue: seq<Payload>,  // the overflow list
    clock: real,
    fromLayer5: nat, toLayer3: nat,  // statistics
    bugs: nat)  // how often a "BUG" line was reached

  datatype Receiver = Receiver(base: nat, ringStart: nat, ring: Ring, toLayer5: nat, bugs: nat)

  function Slotted(start: nat, offset: nat): (k: nat)
    ensures k < N
  {
    (start + offset) % N
  }

  /** The slot of a sequence number, or -1 outside the window. */
  function RingIndex(base: nat, ringStart: nat, seqnum: int): (k: int)
    ensures -1 <= k < N
    ensures k >= 0 <==> base <= seqnum < base + N
  {
    if seqnum < base || seqnum >= base + N then -1 else Slotted(ringStart, seqnum - base)
  }

  /** Length of the run of slots flagged `flag` from window offset `i` on. */
  function Run(ring: Ring, start: nat, flag: int, i: nat): (n: nat)
    requires i <= N
    ensures i + n <= N
    decreases N - i
  {
    if i == N || ring[Slotted(start, i)].flag != flag then 0 else 1 + Run(ring, start, flag, i + 1)
  }

  /** The ring with the first `k` window slots freed. */
  function Freed(ring: Ring, start: nat, k: nat): Ring {
    seq(N, j requires 0 <= j < N => if (j - start) % N < k then ring[j].(flag := FREE) else ring[j])
  }

  function DataPacket(seqnum: nat, m: Payload): Packet {
    Sealed(seqnum, DEFAULT_ACK, m)
  }

  // ----- sender -----

  /** Pops the head of the queue and sends it in the next slot of the window. */
  function SendHead(s: Sender): (Sender, seq<Packet>)
    requires s.queue != []
  {
    var k := RingIndex(s.base, s.ringStart, s.nextSeq);
    if k < 0 || s.ring[k].flag == HELD then (s.(queue := s.queue[1..], bugs := s.bugs + 1), [])
    else
      var p := DataPacket(s.nextSeq, s.queue[0]);
      (s.(queue := s.queue[1..],
          ring := s.ring[k := Slot(HELD, p, s.clock + TIMEOUT)],
          nextSeq := s.nextSeq + 1,
          fromLayer5 := s.fromLayer5 + 1,
          toLayer3 := s.toLayer3 + 1),
       [p])
  }

  /** A message from layer 5: queue it, then send the head of the queue if the window has room. */
  function Output(s: Sender, m: Payload): (Sender, seq<Packet>) {
    var queued := s.(queue := s.queue + [m]);
    if s.nextSeq >= s.base + N then (queued, []) else SendHead(queued)
  }

  /** Pops up to `count` queued messages and passes each to `Output` again. */
  function Refill(s: Sender, count: nat): (Sender, seq<Packet>)
    decreases count
  {
    if count == 0 || s.queue == [] then (s, [])
    else
      var (s1, now) := Output(s.(queue := s.queue[1..]), s.queue[0]);
      var (s2, later) := Refill(s1, count - 1);
      (s2, now + later)
  }

  function Slide(s: Sender, count: nat): Sender {
    s.(ring := Freed(s.ring, s.ringStart, count), base := s.base + count, ringStart := s.ringStart + count)
  }

  function FreeSendBuf(s: Sender): (Sender, seq<Packet>) {
    var count := Run(s.ring, s.ringStart, ACKED, 0);
    Refill(Slide(s, count), count)
  }

  function Marked(s: Sender, k: nat): Sender
    requires k < N
  {
    s.(ring := s.ring[k := s.ring[k].(flag := ACKED)])
  }

  /** A packet from layer 3 at the sender. */
  function SenderInput(s: Sender, p: Packet): (Sender, seq<Packet>) {
    if !Intact(p) || p.acknum < s.base then (s, [])
    else
      var k := RingIndex(s.base, s.ringStart, p.acknum);
      if k < 0 then (s.(bugs := s.bugs + 1), []) else FreeSendBuf(Marked(s, k))
  }

  /** Resends the packet of sequence number `i` if it is overdue. */
  function ResendOne(s: Sender, i: nat): (Sender, seq<Packet>) {
    var k := RingIndex(s.base, s.ringStart, i);
    if k >= 0 && s.ring[k].flag == HELD && s.clock > s.ring[k].timeout then
      (s.(ring := s.ring[k := s.ring[k].(timeout := s.clock + TIMEOUT)], toLayer3 := s.toLayer3 + 1),
       [s.ring[k].packet])
    else (s, [])
  }

  /** Resends every overdue packet from sequence number `i` up to `end`. */
  function ResendFrom(s: Sender, i: nat, end: nat): (Sender, seq<Packet>)
    decreases end - i
  {
    if i >= end then (s, [])
    else
      var (s1, now) := ResendOne(s, i);
      var (s2, later) := ResendFrom(s1, i + 1, end);
      (s2, now + later)
  }

  /** The sender's periodic timer. */
  function Tick(s: Sender): (Sender, seq<Packet>) {
    ResendFrom(s.(clock := s.clock + INTERVAL), s.base, s.nextSeq)
  }

  // ----- receiver -----

  function Ack(p: Packet): Packet {
    Sealed(p.seqnum, p.seqnum, p.payload)
  }

  /** The payloads of the first `n` window slots. */
  function Window(ring: Ring, start: nat, n: nat): (r: seq<Payload>)
    ensures |r| == n
  {
    if n == 0 then [] else Window(ring, start, n - 1) + [ring[Slotted(start, n - 1)].packet.payload]
  }

  /** Hands the run of received packets at the window base to layer 5. */
  function FreeRecvBuf(r: Receiver): (Receiver, seq<Payload>) {
    var count := Run(r.ring, r.ringStart, HELD, 0);
    (r.(ring := Freed(r.ring, r.ringStart, count), base := r.base + count, ringStart := r.ringStart + count,
        toLayer5 := r.toLayer5 + count),
     Window(r.ring, r.ringStart, count))
  }

  /** A packet from layer 3 at the receiver: the new receiver, the acks sent and the payloads given to layer 5. */
  function ReceiverInput(r: Receiver, p: Packet): (Receiver, seq<Packet>, seq<Payload>) {
    if !Intact(p) then (r, [], [])
    else if p.seqnum >= r.base + N then (r.(bugs := r.bugs + 1), [], [])
    else
      var k := RingIndex(r.base, r.ringStart, p.seqnum);
      if k < 0 || r.ring[k].flag == HELD then (r, [Ack(p)], [])
      else
        var (r1, up) := FreeRecvBuf(r.(ring := r.ring[k := r.ring[k].(flag := HELD, packet := p)]));
        (r1, [Ack(p)], up)
  }

  // ----- the whole system -----

  /** The message text of the main loop: one letter of the alphabet after the other, twenty times each. */
  function Letters(n: nat): Payload {
    seq(PAYLOAD_SIZE, _ => 97 + n % 26)
  }

  /** The messages a run of the program gives the sender. */
  predicate Generated(given: seq<Payload>) {
    forall i :: 0 <= i < |given| ==> given[i] == Letters(i)
  }

  /** Both ends, what is in flight each way, and the history of a run: the messages layer 5 gave the sender, the
      packet first sent for each sequence number, and what the receiver gave its layer 5. */
  datatype System = System(
    a: Sender, b: Receiver, toB: seq<Packet>, toA: seq<Packet>,
    given: seq<Payload>, sent: seq<Packet>, delivered: seq<Payload>)

  /** An event of the emulator. The medium may deliver any packet in flight; the emulator always picks the oldest. */
  datatype Event = FromLayer5(m: Payload) | Timer | ArriveAtA(i: nat) | ArriveAtB(i: nat)

  /** An event and the fates of the packets it sends; packets beyond the listed fates come through whole. */
  datatype Step = Step(event: Event, fates: seq<Fate>)

  /** What the medium makes of the packets `ps`. */
  function Transmit(ps: seq<Packet>, fates: seq<Fate>): seq<Packet> {
    if ps == [] then []
    else if fates == [] then ps
    else Emerging(ps[0], fates[0]) + Transmit(ps[1..], fates[1..])
  }

  function Next(s: System, step: Step): System {
    match step.event
    case FromLayer5(m) =>
      var (a, out) := Output(s.a, m);
      s.(a := a, toB := s.toB + Transmit(out, step.fates), given := s.given + [m], sent := s.sent + out)
    case Timer =>
      var (a, out) := Tick(s.a);
      s.(a := a, toB := s.toB + Transmit(out, step.fates))
    case ArriveAtA(i) =>
      if i >= |s.toA| then s
      else
        var (a, out) := SenderInput(s.a, s.toA[i]);
        s.(a := a, toA := Without(s.toA, i), toB := s.toB + Transmit(out, step.fates), sent := s.sent + out)
    case ArriveAtB(i) =>
      if i >= |s.toB| then s
      else
        var (b, out, up) := ReceiverInput(s.b, s.toB[i]);
        s.(b := b, toB := Without(s.toB, i), toA := s.toA + Transmit(out, step.fates), delivered := s.delivered + up)
  }

  predicate AllFree(ring: Ring) {
    forall k :: 0 <= k < N ==> ring[k].flag == FREE
  }

  /** The state after both init routines. */
  ghost predicate Initial(s: System) {
    && s.a == Sender(0, 0, 0, s.a.ring, [], 0.0, 0, 0, 0) && AllFree(s.a.ring)
    && s.b == Receiver(0, 0, s.b.ring, 0, 0) && AllFree(s.b.ring)
    && s.toB == [] && s.toA == [] && s.given == [] && s.sent == [] && s.delivered == []
  }

  /** The state after the given steps. */
  function After(s: System, steps: seq<Step>): System
    decreases |steps|
  {
    if steps == [] then s else After(Next(s, steps[0]), steps[1..])
  }
}
