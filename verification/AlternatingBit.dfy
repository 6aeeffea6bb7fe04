/** The alternating-bit protocol driven by the emulator's event list, as functions on values. */
module AlternatingBit {
  import opened Packets
  import opened Events

  const TIMEOUT: real := 20.0

  /** The longest a packet and its answer can take with nothing else on the way. */
  const TWO_HOPS: real := 20.0

  datatype Phase = WaitAck | SendPacket

  /** The protocol's globals. The sequence number is one variable, read by A and toggled by B. */
  datatype Protocol = Protocol(phase: Phase, ack: int, seqNum: int, prevPacket: Packet, prevAck: Packet)

  /** The program state, with the timeout the program was built with and the history of messages A accepted and
      messages B handed to its layer 5. */
  datatype State = State(
    em: Emulator, p: Protocol, nsim: nat, nsimmax: nat, lambda: real, timeout: real,
    accepted: seq<Payload>, delivered: seq<Payload>)

  /** The random draws one event may consume, and the bytes an uninitialised acknowledgement payload holds. */
  datatype Draw = Draw(arrival: Unit, carriage: Carriage, filler: Payload)

  /** The message text of the main loop: nineteen equal letters and a terminator. */
  function Letters(n: nat): Payload {
    seq(PAYLOAD_SIZE, i requires 0 <= i < PAYLOAD_SIZE => if i < PAYLOAD_SIZE - 1 then 97 + n % 26 else 0)
  }

  function Toggle(bit: int): int {
    if bit == 0 then 1 else 0
  }

  /** The acknowledgement payload: `memset` up to the first terminator leaves at least the first byte zero. */
  function AckPayload(filler: Payload): Payload {
    filler[0 := 0]
  }

  function AOutput(s: State, m: Payload, c: Carriage): State {
    if s.p.phase == WaitAck then s
    else
      var packet := Sealed(s.p.seqNum, s.p.ack, m);
      var sent := ToLayer3(s.em, A, packet, c);
      s.(p := s.p.(prevPacket := packet, phase := WaitAck),
         em := StartTimer(sent, A, s.timeout),
         accepted := s.accepted + [m])
  }

  function AInput(s: State, packet: Packet): State {
    if Intact(packet) then
      s.(p := s.p.(ack := Toggle(s.p.ack), phase := SendPacket), em := s.em.(events := StopTimer(s.em.events, A)))
    else s
  }

  function ATimer(s: State, c: Carriage): State {
    var started := StartTimer(s.em, A, s.timeout);
    if s.p.phase == WaitAck then s.(em := ToLayer3(started, A, s.p.prevPacket, c)) else s.(em := started)
  }

  function BInput(s: State, packet: Packet, c: Carriage, filler: Payload): State {
    if packet.seqnum == s.p.prevAck.seqnum then s.(em := ToLayer3(s.em, B, s.p.prevAck, c))
    else if Intact(packet) then
      var ack := Sealed(packet.seqnum, packet.acknum, AckPayload(filler));
      s.(em := ToLayer3(s.em, B, ack, c),
         delivered := s.delivered + [packet.payload],
         p := s.p.(prevAck := ack, seqNum := Toggle(s.p.seqNum)))
    else s
  }

  /** Time to the next message: uniform with mean `lambda`. */
  function Gap(lambda: real, u: Unit): (x: real)
    ensures lambda >= 0.0 ==> x >= 0.0
  {
    lambda * u * 2.0
  }

  /** The event is drawn again while messages remain. */
  function ScheduleNext(s: State, gap: real): State {
    s.(em := if s.nsim + 1 < s.nsimmax then Arrival(s.em, gap) else s.em, nsim := s.nsim + 1)
  }

  /** A layer-5 event at `x`: draw the next arrival, then pass the message to A; at B it is only shown. */
  function MessageDue(s: State, x: Entity, draw: Draw): State {
    if s.nsim >= s.nsimmax then s
    else
      var drawn := ScheduleNext(s, Gap(s.lambda, draw.arrival));
      if x == A then AOutput(drawn, Letters(s.nsim), draw.carriage) else drawn
  }

  /** One turn of the main loop. */
  function Next(s: State, draw: Draw): State {
    if s.em.events == [] then s
    else
      var e := s.em.events[0];
      var s1 := s.(em := Take(s.em));
      match e
      case MessageAt(_, x) => MessageDue(s1, x, draw)
      case PacketAt(_, x, packet) =>
        if x == A then AInput(s1, packet) else BInput(s1, packet, draw.carriage, draw.filler)
      case TimerAt(_, x) => if x == A then ATimer(s1, draw.carriage) else s1
  }

  function After(s: State, draws: seq<Draw>): State
    decreases |draws|
  {
    if draws == [] then s else After(Next(s, draws[0]), draws[1..])
  }

  /** The state when the main loop starts: the first message is due, nothing has been sent. */
  ghost predicate Initial(s: State) {
    && s.lambda >= 0.0 && s.timeout >= 0.0
    && s.em.time == 0.0 && s.em.ntolayer3 == s.em.nlost == s.em.ncorrupt == 0
    && (exists x: real :: x >= 0.0 && s.em.events == [MessageAt(x, A)])
    && s.p.phase == SendPacket && s.p.ack == 0 && s.p.seqNum == 0 && s.p.prevAck.seqnum == 1
    && s.nsim == 0 && s.accepted == [] && s.delivered == []
  }
}
