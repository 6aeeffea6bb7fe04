/** The alternating-bit program as it runs: globals updated in place and the linked event list. Each routine is proved
    against the function on values of the same name. */
module AlternatingBitCode {
  import opened Packets
  import opened Events
  import opened EventsCode
  import opened AlternatingBit
  import opened AlternatingBitSafety

  class Simulator {
    // the protocol
    var phase: Phase
    var ack: int
    var seqNum: int
    var prevPacket: Packet
    var prevAck: Packet
    // the emulator
    const list: EventList
    var time: real
    var nsim: nat
    var nsimmax: nat
    var lambda: real
    var ntolayer3: nat
    var nlost: nat
    var ncorrupt: nat
    // the history
    ghost var accepted: seq<Payload>
    ghost var delivered: seq<Payload>

    ghost predicate Valid()
      reads this, list, list.Repr
    {
      list.Valid() && (this as object) !in list.Repr
    }

    ghost function Em(): Emulator
      reads this, list
    {
      Emulator(time, list.contents, ntolayer3, nlost, ncorrupt)
    }

    ghost function View(): State
      reads this, list
    {
      State(Em(), Protocol(phase, ack, seqNum, prevPacket, prevAck),
            nsim, nsimmax, lambda, TIMEOUT, accepted, delivered)
    }

    /** `init`, `A_init` and `B_init`: the counters start at zero and the first message is drawn. */
    constructor (nsimmax: nat, lambda: real, u: Unit, prevPacket: Packet, prevAck: Packet)
      requires lambda >= 0.0
      ensures Valid() && Initial(View())
      ensures View().nsimmax == nsimmax && View().lambda == lambda && View().timeout == TIMEOUT
    {
      phase, ack, seqNum := SendPacket, 0, 0;
      this.prevPacket := prevPacket;
      this.prevAck := prevAck.(seqnum := 1);
      list := new EventList();
      time, nsim, ntolayer3, nlost, ncorrupt := 0.0, 0, 0, 0, 0;
      this.nsimmax, this.lambda := nsimmax, lambda;
      accepted, delivered := [], [];
      new;
      GenerateNextArrival(u);
      assert list.contents == [MessageAt(Gap(lambda, u), A)];
    }

    method AddEvent(e: Event)
      requires Valid()
      modifies list.Repr
      ensures Valid() && fresh(list.Repr - old(list.Repr))
      ensures Em() == old(Em()).(events := Insert(old(Em()).events, e)) && View() == old(View()).(em := Em())
    {
      list.InsertEvent(e);
    }

    method GenerateNextArrival(u: Unit)
      requires Valid()
      modifies list.Repr
      ensures Valid() && fresh(list.Repr - old(list.Repr))
      ensures Em() == Arrival(old(Em()), Gap(lambda, u)) && View() == old(View()).(em := Em())
    {
      var x := lambda * u * 2.0;
      assert x == Gap(lambda, u);
      AddEvent(MessageAt(time + x, A));
    }

    method DoStartTimer(x: Entity, increment: real)
      requires Valid()
      modifies list.Repr
      ensures Valid() && fresh(list.Repr - old(list.Repr))
      ensures Em() == StartTimer(old(Em()), x, increment) && View() == old(View()).(em := Em())
    {
      var running := list.TimerIsSet(x);
      if running {
        return;
      }
      AddEvent(TimerAt(time + increment, x));
    }

    method DoStopTimer(x: Entity)
      requires Valid()
      modifies list.Repr
      ensures Valid() && fresh(list.Repr - old(list.Repr))
      ensures Em() == old(Em()).(events := StopTimer(old(Em()).events, x)) && View() == old(View()).(em := Em())
    {
      list.RemoveTimer(x);
    }

    /** The copy the medium carries, with one field overwritten if it is damaged. */
    method CarryCopy(packet: Packet, damage: Damage) returns (copy: Packet)
      ensures copy == Delivered(packet, damage)
    {
      copy := packet;
      if damage.Damaged? {
        if damage.field == PayloadField {
          copy := copy.(payload := copy.payload[0 := CORRUPT_BYTE]);
        } else if damage.field == SeqnumField {
          copy := copy.(seqnum := CORRUPT_NUMBER);
        } else {
          copy := copy.(acknum := CORRUPT_NUMBER);
        }
      }
    }

    /** Handing a packet to layer 3 touches nothing but the emulator. */
    method HandleToLayer3(from: Entity, packet: Packet, c: Carriage)
      requires Valid()
      modifies this`ntolayer3, this`nlost, this`ncorrupt, list.Repr
      ensures Valid() && fresh(list.Repr - old(list.Repr))
      ensures Em() == ToLayer3(old(Em()), from, packet, c) && View() == old(View()).(em := Em())
    {
      EmulateLayer3(from, packet, c);
    }

    method EmulateLayer3(from: Entity, packet: Packet, c: Carriage)
      requires Valid()
      modifies this`ntolayer3, this`nlost, this`ncorrupt, list.Repr
      ensures Valid() && fresh(list.Repr - old(list.Repr))
      ensures Em() == ToLayer3(old(Em()), from, packet, c)
    {
      ntolayer3 := ntolayer3 + 1;
      if c.Dropped? {
        nlost := nlost + 1;
        return;
      }
      var target := if from == A then B else A;
      var last := list.FindLastArrival(target, time);
      var at := last + 1.0 + 9.0 * c.u;
      var copy := CarryCopy(packet, c.damage);
      if c.damage.Damaged? {
        ncorrupt := ncorrupt + 1;
      }
      CarriedIs(old(Em()), from, packet, c);
      AddEvent(PacketAt(at, target, copy));
    }

    method HandleAOutput(m: Payload, c: Carriage)
      requires Valid()
      modifies this, list.Repr
      ensures Valid() && fresh(list.Repr - old(list.Repr))
      ensures View() == AOutput(old(View()), m, c)
    {
      if phase == WaitAck {
        return;
      }
      var packet := Packet(seqNum, ack, 0, m);
      var checksum := CalcChecksum(packet);
      packet := packet.(checksum := checksum);
      assert packet == Sealed(seqNum, ack, m);
      prevPacket := packet;
      phase := WaitAck;
      accepted := accepted + [m];
      HandleToLayer3(A, packet, c);
      assert Em() == ToLayer3(old(Em()), A, packet, c);
      DoStartTimer(A, TIMEOUT);
    }

    method HandleAInput(packet: Packet)
      requires Valid()
      modifies this, list.Repr
      ensures Valid() && fresh(list.Repr - old(list.Repr))
      ensures View() == AInput(old(View()), packet)
    {
      var checksum := CalcChecksum(packet);
      if checksum == packet.checksum {
        if ack == 0 {
          ack := 1;
        } else {
          ack := 0;
        }
        DoStopTimer(A);
        phase := SendPacket;
      }
    }

    method HandleATimer(c: Carriage)
      requires Valid()
      modifies this, list.Repr
      ensures Valid() && fresh(list.Repr - old(list.Repr))
      ensures View() == ATimer(old(View()), c)
    {
      DoStartTimer(A, TIMEOUT);
      if phase == WaitAck {
        HandleToLayer3(A, prevPacket, c);
        phase := WaitAck;
      }
    }

    method MakeAnswer(packet: Packet, filler: Payload) returns (answer: Packet)
      ensures answer == Sealed(packet.seqnum, packet.acknum, AckPayload(filler))
    {
      answer := Packet(packet.seqnum, packet.acknum, 0, AckPayload(filler));
      var sum := CalcChecksum(answer);
      answer := answer.(checksum := sum);
    }

    method HandleBInput(packet: Packet, c: Carriage, filler: Payload)
      requires Valid()
      modifies this, list.Repr
      ensures Valid() && fresh(list.Repr - old(list.Repr))
      ensures View() == BInput(old(View()), packet, c, filler)
    {
      var checksum := CalcChecksum(packet);
      if packet.seqnum == prevAck.seqnum {
        HandleToLayer3(B, prevAck, c);
      } else if checksum == packet.checksum {
        var answer := MakeAnswer(packet, filler);
        HandleToLayer3(B, answer, c);
        delivered := delivered + [packet.payload];
        prevAck := answer;
        if seqNum == 0 {
          seqNum := 1;
        } else {
          seqNum := 0;
        }
      }
    }

    /** The main loop's message: twenty equal letters, the last one overwritten by a terminator. */
    method FillLetters() returns (m: Payload)
      ensures m == Letters(nsim)
    {
      var data := new int[PAYLOAD_SIZE];
      var j := nsim % 26;
      for i := 0 to PAYLOAD_SIZE
        invariant forall k :: 0 <= k < i ==> data[k] == 97 + j
      {
        data[i] := 97 + j;
      }
      data[PAYLOAD_SIZE - 1] := 0;
      m := data[..];
    }

    method HandleMessage(x: Entity, draw: Draw)
      requires Valid()
      modifies this, list.Repr
      ensures Valid() && fresh(list.Repr - old(list.Repr))
      ensures View() == MessageDue(old(View()), x, draw)
    {
      if nsim < nsimmax {
        if nsim + 1 < nsimmax {
          GenerateNextArrival(draw.arrival);
        }
        var m := FillLetters();
        nsim := nsim + 1;
        if x == A {
          HandleAOutput(m, draw.carriage);
        }
      }
    }

    /** One turn of the main loop; false when the list is empty and the simulation ends. */
    method Turn(draw: Draw) returns (more: bool)
      requires Valid()
      modifies this, list.Repr
      ensures Valid() && fresh(list.Repr - old(list.Repr))
      ensures more == (old(Em()).events != [])
      ensures View() == Next(old(View()), draw)
    {
      if list.head == null {
        return false;
      }
      var e := list.TakeHead();
      time := e.time;
      match e {
        case MessageAt(_, x) => HandleMessage(x, draw);
        case PacketAt(_, x, packet) =>
          if x == A {
            HandleAInput(packet);
          } else {
            HandleBInput(packet, draw.carriage, draw.filler);
          }
        case TimerAt(_, x) =>
          if x == A {
            HandleATimer(draw.carriage);
          }
      }
      more := true;
    }

    /** The main loop over these draws: started afresh, it delivers a prefix of what A accepted, at most one message
        behind, and never behind while A is ready to send. */
    method Simulate(draws: seq<Draw>)
      requires Valid()
      modifies this, list.Repr
      ensures Valid() && View() == After(old(View()), draws)
      ensures Initial(old(View())) ==> delivered <= accepted && |accepted| <= |delivered| + 1
      ensures Initial(old(View())) && phase == SendPacket ==> delivered == accepted
    {
      if Initial(View()) {
        DeliveryIsPrefix(View(), draws);
      }
      ghost var final := After(View(), draws);
      var i := 0;
      var more := true;
      while i < |draws| && more
        invariant 0 <= i <= |draws| && Valid() && fresh(list.Repr - old(list.Repr))
        invariant more ==> After(View(), draws[i..]) == final
        invariant !more ==> View() == final
      {
        assert draws[i..][1..] == draws[i + 1..];
        Quiet(View(), draws[i..]);
        more := Turn(draws[i]);
        i := i + 1;
      }
    }
  }

  /** What a carried packet does to the emulator, field by field. */
  lemma CarriedIs(em: Emulator, from: Entity, packet: Packet, c: Carriage)
    requires c.Carried?
    ensures var at := LastArrival(em.events, Other(from), em.time) + 1.0 + 9.0 * c.u;
      ToLayer3(em, from, packet, c) ==
        Emulator(em.time, Insert(em.events, PacketAt(at, Other(from), Delivered(packet, c.damage))),
                 em.ntolayer3 + 1, em.nlost, em.ncorrupt + if c.damage.Damaged? then 1 else 0)
  {
  }

  /** Once the list is empty nothing happens any more. */
  lemma {:induction false} Quiet(s: State, draws: seq<Draw>)
    ensures s.em.events == [] ==> After(s, draws) == s
    decreases |draws|
  {
    if draws != [] && s.em.events == [] {
      Quiet(s, draws[1..]);
    }
  }
}
