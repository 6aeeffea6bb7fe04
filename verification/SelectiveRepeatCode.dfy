/** The selective-repeat routines as they run: ring buffers in arrays, the overflow list as linked nodes. Each is
    proved against the function on values of the same name. */
module SelectiveRepeatCode {
  import opened Packets
  import opened SelectiveRepeat
  import opened SelectiveRepeatSafety

  class Node {
    const message: Payload
    var next: Node?

    constructor (m: Payload)
      ensures message == m && next == null
    {
      message := m;
      next := null;
    }
  }

  ghost function Successor(nodes: seq<Node>, i: int): Node?
    requires 0 <= i < |nodes|
  {
    if i + 1 < |nodes| then nodes[i + 1] else null
  }

  /** The overflow list: head and end pointers over singly linked nodes. */
  class MessageList {
    var head: Node?
    var end: Node?
    var size: int
    ghost var contents: seq<Payload>
    ghost var spine: seq<Node>
    ghost var Repr: set<object>

    ghost predicate Valid()
      reads this, Repr
      ensures Valid() ==> this in Repr
    {
      && this in Repr
      && size == |spine| == |contents|
      && (forall i :: 0 <= i < |spine| ==> spine[i] in Repr)
      && (forall i, j :: 0 <= i < j < |spine| ==> spine[i] != spine[j])
      && (if spine == [] then head == null && end == null else head == spine[0] && end == spine[|spine| - 1])
      && (forall i :: 0 <= i < |spine| ==> spine[i].message == contents[i] && spine[i].next == Successor(spine, i))
    }

    constructor ()
      ensures Valid() && contents == [] && fresh(Repr)
    {
      head, end, size := null, null, 0;
      spine, contents := [], [];
      Repr := {this};
    }

    method Append(m: Payload)
      requires Valid()
      modifies Repr
      ensures Valid() && contents == old(contents) + [m] && fresh(Repr - old(Repr))
    {
      var n := new Node(m);
      if end == null {
        head := n;
        end := n;
      } else {
        end.next := n;
        end := n;
      }
      spine, contents := spine + [n], contents + [m];
      Repr := Repr + {n};
      size := size + 1;
    }

    method Pop() returns (n: Node?)
      requires Valid()
      modifies Repr
      ensures Valid() && Repr == old(Repr)
      ensures n == null <==> old(contents) == []
      ensures n == null ==> contents == []
      ensures n != null ==> n.message == old(contents)[0] && contents == old(contents)[1..]
    {
      if head == null {
        return null;
      }
      n := head;
      assert spine[0].next == Successor(spine, 0);
      head := n.next;
      if head == null {
        end := null;
      }
      size := size - 1;
      spine, contents := spine[1..], contents[1..];
    }
  }

  // ----- the loops' progress, on values -----

  /** Slot `j` is as it was, or free if it is among the first `count` of the window. */
  predicate FreedAt(was: Ring, now: seq<Slot>, start: nat, count: nat, j: nat) {
    j < N == |now| && now[j] == Freed(was, start, count)[j]
  }

  /** The first `count` window slots had this flag and are free now. */
  ghost predicate Freeing(was: Ring, now: seq<Slot>, start: nat, flag: int, count: nat) {
    && count <= N && |now| == N && Run(was, start, flag, 0) == count + Run(was, start, flag, count)
    && forall j: nat :: j < N ==> FreedAt(was, now, start, count, j)
  }

  lemma FreeingStarts(was: Ring, start: nat, flag: int)
    ensures Freeing(was, was, start, flag, 0)
  {
    forall j: nat | j < N
      ensures FreedAt(was, was, start, 0, j)
    {
      assert Freed(was, start, 0)[j] == was[j];
    }
  }

  /** The next slot is untouched; if it has the flag it is freed too, otherwise the run ends. */
  lemma FreeingNext(was: Ring, now: seq<Slot>, start: nat, flag: int, count: nat, k: nat)
    requires Freeing(was, now, start, flag, count) && count < N && k == Slotted(start, count)
    ensures now[k] == was[k]
    ensures if now[k].flag == flag then Freeing(was, now[k := now[k].(flag := FREE)], start, flag, count + 1)
            else Run(was, start, flag, 0) == count && now == Freed(was, start, count)
  {
    FreedStep(was, start, count);
    assert FreedAt(was, now, start, count, k);
    if now[k].flag == flag {
      var next, more := now[k := now[k].(flag := FREE)], count + 1;
      forall j: nat | j < N
        ensures FreedAt(was, next, start, more, j)
      {
        assert FreedAt(was, now, start, count, j);
      }
    } else {
      FreeingEnds(was, now, start, flag, count);
    }
  }

  lemma FreedStep(ring: Ring, start: nat, k: nat)
    requires k < N
    ensures Freed(ring, start, k + 1) ==
      Freed(ring, start, k)[Slotted(start, k) := ring[Slotted(start, k)].(flag := FREE)]
    ensures Freed(ring, start, k)[Slotted(start, k)] == ring[Slotted(start, k)]
  {
    OffsetInWindow(start, start + k);
    var step := Freed(ring, start, k)[Slotted(start, k) := ring[Slotted(start, k)].(flag := FREE)];
    forall j: nat | j < N
      ensures Freed(ring, start, k + 1)[j] == step[j]
    {
      NumberOfSlot(start, j);
    }
  }

  lemma FreeingEnds(was: Ring, now: seq<Slot>, start: nat, flag: int, count: nat)
    requires Freeing(was, now, start, flag, count)
    ensures now == Freed(was, start, count)
    ensures count == N ==> Run(was, start, flag, 0) == count
  {
    forall j | 0 <= j < N
      ensures now[j] == Freed(was, start, count)[j]
    {
      assert FreedAt(was, now, start, count, j);
    }
  }

  /** `count` turns of the refill loop from here lead to `final`, with `log` handed to layer 3. */
  ghost predicate Refilling(s: Sender, wire: seq<Packet>, count: nat, final: Sender, log: seq<Packet>) {
    Refill(s, count).0 == final && wire + Refill(s, count).1 == log
  }

  lemma RefillingNext(s: Sender, wire: seq<Packet>, count: nat, final: Sender, log: seq<Packet>)
    requires Refilling(s, wire, count, final, log)
    ensures count == 0 || s.queue == [] ==> s == final && wire == log
    ensures count > 0 && s.queue != [] ==>
      var r := Output(s.(queue := s.queue[1..]), s.queue[0]); Refilling(r.0, wire + r.1, count - 1, final, log)
  {
    if count > 0 && s.queue != [] {
      RefillUnfolds(s, count, wire);
    } else {
      assert wire + [] == wire;
    }
  }

  /** The resend loop from number `i` on leads to `final`, with `log` handed to layer 3. */
  ghost predicate Resending(s: Sender, wire: seq<Packet>, i: nat, end: nat, final: Sender, log: seq<Packet>) {
    ResendFrom(s, i, end).0 == final && wire + ResendFrom(s, i, end).1 == log
  }

  lemma ResendingNext(s: Sender, wire: seq<Packet>, i: nat, end: nat, final: Sender, log: seq<Packet>)
    requires Resending(s, wire, i, end, final, log)
    ensures i >= end ==> s == final && wire == log
    ensures i < end ==> var r := ResendOne(s, i); Resending(r.0, wire + r.1, i + 1, end, final, log)
  {
    if i < end {
      var r := ResendOne(s, i);
      assert wire + (r.1 + ResendFrom(r.0, i + 1, end).1) == wire + r.1 + ResendFrom(r.0, i + 1, end).1;
    } else {
      assert wire + [] == wire;
    }
  }

  /** The sender when message `m` has been sent in slot `k`. */
  function Placed(s: Sender, m: Payload, k: nat): Sender
    requires k < N
  {
    s.(ring := s.ring[k := Slot(HELD, DataPacket(s.nextSeq, m), s.clock + TIMEOUT)],
       nextSeq := s.nextSeq + 1, fromLayer5 := s.fromLayer5 + 1, toLayer3 := s.toLayer3 + 1)
  }

  /** What sending the head of the queue comes to when slot `k` is the next one. */
  lemma SendHeadIs(s: Sender, popped: Sender, k: nat)
    requires s.queue != [] && popped == s.(queue := s.queue[1..])
    requires k == RingIndex(s.base, s.ringStart, s.nextSeq) && s.ring[k].flag != HELD
    ensures SendHead(s).0 == Placed(popped, s.queue[0], k) && SendHead(s).1 == [DataPacket(s.nextSeq, s.queue[0])]
  {
  }

  class SenderNode {
    var base: nat
    var ringStart: nat
    var nextSeq: nat
    const ring: array<Slot>
    const list: MessageList
    var clock: real
    var fromLayer5: nat
    var toLayer3: nat
    var bugs: nat
    var wire: seq<Packet>  // everything handed to layer 3 so far

    ghost predicate Valid()
      reads this, list, list.Repr
    {
      ring.Length == N && list.Valid() && (this as object) !in list.Repr && (ring as object) !in list.Repr
    }

    ghost function View(): Sender
      requires Valid()
      reads this, ring, list, list.Repr
    {
      Sender(base, ringStart, nextSeq, ring[..], list.contents, clock, fromLayer5, toLayer3, bugs)
    }

    constructor ()
      ensures Valid() && fresh(ring) && fresh(list.Repr) && wire == []
      ensures View() == Sender(0, 0, 0, ring[..], [], 0.0, 0, 0, 0) && AllFree(ring[..])
    {
      base, ringStart, nextSeq := 0, 0, 0;
      ring := new Slot[N](_ => Slot(FREE, Packet(0, 0, 0, seq(PAYLOAD_SIZE, _ => 0)), 0.0));
      list := new MessageList();
      clock := 0.0;
      fromLayer5, toLayer3, bugs := 0, 0, 0;
      wire := [];
    }

    predicate WindowIsFull()
      reads this
    {
      nextSeq >= base + N
    }

    method ToLayer3(p: Packet)
      modifies this`wire
      ensures wire == old(wire) + [p]
    {
      wire := wire + [p];
    }

    /** The next data packet. */
    method MakePacket(m: Payload) returns (p: Packet)
      ensures p == DataPacket(nextSeq, m)
    {
      p := Packet(nextSeq, DEFAULT_ACK, 0, m);
      var checksum := CalcChecksum(p);
      p := p.(checksum := checksum);
    }

    /** Fills slot `k` with the next data packet and sends it. */
    method SendNew(m: Payload, k: nat)
      requires Valid() && k < N
      modifies this, ring
      ensures Valid() && wire == old(wire) + [DataPacket(old(nextSeq), m)]
      ensures View() == Placed(old(View()), m, k)
    {
      fromLayer5 := fromLayer5 + 1;
      var p := MakePacket(m);
      ring[k] := Slot(HELD, p, clock + TIMEOUT);
      ToLayer3(p);
      toLayer3 := toLayer3 + 1;
      nextSeq := nextSeq + 1;
    }

    method HandleSendHead()
      requires Valid() && View().queue != []
      modifies this, ring, list.Repr
      ensures Valid() && View() == SendHead(old(View())).0 && wire == old(wire) + SendHead(old(View())).1
      ensures list.Repr == old(list.Repr)
    {
      ghost var s := View();
      var n := list.Pop();
      ghost var popped := s.(queue := s.queue[1..]);
      assert View() == popped;
      var k := RingIndex(base, ringStart, nextSeq);
      if k < 0 || ring[k].flag == HELD {
        bugs := bugs + 1;
      } else {
        SendHeadIs(s, popped, k);
        SendNew(n.message, k);
      }
    }

    method HandleOutput(m: Payload)
      requires Valid()
      modifies this, ring, list.Repr
      ensures Valid() && View() == Output(old(View()), m).0 && wire == old(wire) + Output(old(View()), m).1
      ensures fresh(list.Repr - old(list.Repr))
    {
      ghost var s := View();
      list.Append(m);
      assert View() == s.(queue := s.queue + [m]);
      if !WindowIsFull() {
        HandleSendHead();
      }
    }

    /** Frees the acknowledged run at the window base. */
    method FreeAcked() returns (count: nat)
      requires ring.Length == N
      modifies ring
      ensures count == Run(old(ring[..]), ringStart, ACKED, 0) && ring[..] == Freed(old(ring[..]), ringStart, count)
    {
      ghost var was: Ring := ring[..];
      count := 0;
      var i := base;
      FreeingStarts(was, ringStart, ACKED);
      while i < base + N
        invariant base <= i <= base + N && i - base == count
        invariant Freeing(was, ring[..], ringStart, ACKED, count)
      {
        var k := RingIndex(base, ringStart, i);
        FreeingNext(was, ring[..], ringStart, ACKED, count, k);
        if k < 0 || ring[k].flag != ACKED {
          return;
        }
        ghost var now := ring[..];
        ring[k] := ring[k].(flag := FREE);
        assert ring[..] == now[k := now[k].(flag := FREE)];
        count := count + 1;
        i := i + 1;
      }
      FreeingEnds(was, ring[..], ringStart, ACKED, count);
    }

    /** One turn of the refill loop with `count` turns to go: false if nothing is queued. */
    method RefillOne(ghost count: nat, ghost final: Sender, ghost log: seq<Packet>) returns (more: bool)
      requires Valid() && count > 0 && Refilling(View(), wire, count, final, log)
      modifies this, ring, list.Repr
      ensures Valid() && fresh(list.Repr - old(list.Repr))
      ensures if more then Refilling(View(), wire, count - 1, final, log) else View() == final && wire == log
    {
      ghost var s := View();
      RefillingNext(s, wire, count, final, log);
      var n := list.Pop();
      more := n != null;
      if more {
        assert View() == s.(queue := s.queue[1..]);
        HandleOutput(n.message);
      } else {
        assert View() == s;
      }
    }

    /** Refills the window from the overflow list. */
    method RefillWindow(room: nat)
      requires Valid()
      modifies this, ring, list.Repr
      ensures Valid() && View() == Refill(old(View()), room).0 && wire == old(wire) + Refill(old(View()), room).1
      ensures fresh(list.Repr - old(list.Repr))
    {
      RefillAll(room, Refill(View(), room).0, wire + Refill(View(), room).1);
    }

    /** The refill loop. */
    method RefillAll(room: nat, ghost final: Sender, ghost log: seq<Packet>)
      requires Valid() && Refilling(View(), wire, room, final, log)
      modifies this, ring, list.Repr
      ensures Valid() && View() == final && wire == log
      ensures fresh(list.Repr - old(list.Repr))
    {
      var count := room;
      while count > 0
        invariant Valid() && fresh(list.Repr - old(list.Repr))
        invariant Refilling(View(), wire, count, final, log)
      {
        var more := RefillOne(count, final, log);
        if !more {
          return;
        }
        count := count - 1;
      }
      RefillingNext(View(), wire, 0, final, log);
    }

    method HandleFreeSendBuf()
      requires Valid()
      modifies this, ring, list.Repr
      ensures Valid() && View() == FreeSendBuf(old(View())).0 && wire == old(wire) + FreeSendBuf(old(View())).1
      ensures fresh(list.Repr - old(list.Repr))
    {
      var count := FreeAcked();
      base := base + count;
      ringStart := ringStart + count;
      assert View() == Slide(old(View()), count);
      RefillWindow(count);
    }

    method HandleInput(p: Packet)
      requires Valid()
      modifies this, ring, list.Repr
      ensures Valid() && View() == SenderInput(old(View()), p).0 && wire == old(wire) + SenderInput(old(View()), p).1
      ensures fresh(list.Repr - old(list.Repr))
    {
      var checksum := CalcChecksum(p);
      if p.checksum != checksum {
        return;
      }
      if p.acknum < base {
        return;
      }
      var k := RingIndex(base, ringStart, p.acknum);
      if k < 0 {
        bugs := bugs + 1;
        return;
      }
      ring[k] := ring[k].(flag := ACKED);
      assert View() == Marked(old(View()), k);
      HandleFreeSendBuf();
    }

    method HandleResend(i: nat)
      requires Valid()
      modifies this, ring
      ensures Valid() && View() == ResendOne(old(View()), i).0 && wire == old(wire) + ResendOne(old(View()), i).1
    {
      var k := RingIndex(base, ringStart, i);
      if k >= 0 && ring[k].flag == HELD && clock > ring[k].timeout {
        ToLayer3(ring[k].packet);
        toLayer3 := toLayer3 + 1;
        ring[k] := ring[k].(timeout := clock + TIMEOUT);
      }
    }

    method HandleTimer()
      requires Valid()
      modifies this, ring
      ensures Valid() && View() == Tick(old(View())).0 && wire == old(wire) + Tick(old(View())).1
    {
      clock := clock + INTERVAL;
      ghost var end := nextSeq;
      ghost var final, log := ResendFrom(View(), base, end).0, wire + ResendFrom(View(), base, end).1;
      assert View() == old(View()).(clock := old(clock) + INTERVAL);
      ResendAll(final, log);
    }

    /** The resend loop. */
    method ResendAll(ghost final: Sender, ghost log: seq<Packet>)
      requires Valid() && Resending(View(), wire, base, nextSeq, final, log)
      modifies this, ring
      ensures Valid() && View() == final && wire == log
    {
      ghost var end := nextSeq;
      var i := base;
      while i < nextSeq
        invariant Valid() && nextSeq == end
        invariant Resending(View(), wire, i, end, final, log)
      {
        ResendingNext(View(), wire, i, end, final, log);
        HandleResend(i);
        i := i + 1;
      }
      ResendingNext(View(), wire, i, end, final, log);
    }
  }

  class ReceiverNode {
    var base: nat
    var ringStart: nat
    const ring: array<Slot>
    var toLayer5: nat
    var bugs: nat
    var wire: seq<Packet>  // everything handed to layer 3 so far
    var upward: seq<Payload>  // everything handed to layer 5 so far

    ghost predicate Valid()
      reads this
    {
      ring.Length == N
    }

    ghost function View(): Receiver
      requires Valid()
      reads this, ring
    {
      Receiver(base, ringStart, ring[..], toLayer5, bugs)
    }

    constructor ()
      ensures Valid() && fresh(ring) && wire == [] && upward == []
      ensures View() == Receiver(0, 0, ring[..], 0, 0) && AllFree(ring[..])
    {
      base, ringStart := 0, 0;
      ring := new Slot[N](_ => Slot(FREE, Packet(0, 0, 0, seq(PAYLOAD_SIZE, _ => 0)), 0.0));
      toLayer5, bugs := 0, 0;
      wire, upward := [], [];
    }

    /** Hands the run of received packets at the base to layer 5. */
    method DeliverRun() returns (count: nat)
      requires Valid()
      modifies ring, this`upward, this`toLayer5
      ensures count == Run(old(ring[..]), ringStart, HELD, 0) && ring[..] == Freed(old(ring[..]), ringStart, count)
      ensures upward == old(upward) + Window(old(ring[..]), ringStart, count) && toLayer5 == old(toLayer5) + count
    {
      ghost var was: Ring := ring[..];
      count := 0;
      var i := base;
      FreeingStarts(was, ringStart, HELD);
      while i < base + N
        invariant base <= i <= base + N && i - base == count
        invariant Freeing(was, ring[..], ringStart, HELD, count)
        invariant upward == old(upward) + Window(was, ringStart, count) && toLayer5 == old(toLayer5) + count
      {
        var k := RingIndex(base, ringStart, i);
        FreeingNext(was, ring[..], ringStart, HELD, count, k);
        if k < 0 || ring[k].flag != HELD {
          return;
        }
        ghost var now := ring[..];
        upward := upward + [ring[k].packet.payload];
        toLayer5 := toLayer5 + 1;
        ring[k] := ring[k].(flag := FREE);
        assert ring[..] == now[k := now[k].(flag := FREE)];
        count := count + 1;
        i := i + 1;
      }
      FreeingEnds(was, ring[..], ringStart, HELD, count);
    }

    method HandleFreeRecvBuf()
      requires Valid()
      modifies this, ring
      ensures Valid() && View() == FreeRecvBuf(old(View())).0
      ensures upward == old(upward) + FreeRecvBuf(old(View())).1 && wire == old(wire)
    {
      var count := DeliverRun();
      base := base + count;
      ringStart := ringStart + count;
    }

    method HandleInput(packet: Packet)
      requires Valid()
      modifies this, ring
      ensures Valid() && View() == ReceiverInput(old(View()), packet).0
      ensures wire == old(wire) + ReceiverInput(old(View()), packet).1
      ensures upward == old(upward) + ReceiverInput(old(View()), packet).2
    {
      var checksum := CalcChecksum(packet);
      if packet.checksum != checksum {
        return;
      }
      if packet.seqnum >= base + N {
        bugs := bugs + 1;
        return;
      }
      var k := RingIndex(base, ringStart, packet.seqnum);
      var ack := packet.(acknum := packet.seqnum);
      checksum := CalcChecksum(ack);
      ack := ack.(checksum := checksum);
      if k < 0 || ring[k].flag == HELD {
        wire := wire + [ack];
        return;
      }
      ring[k] := ring[k].(flag := HELD, packet := packet);
      wire := wire + [ack];
      HandleFreeRecvBuf();
    }
  }
}
