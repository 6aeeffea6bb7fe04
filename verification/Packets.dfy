/** Packets, the additive checksum and the lossy, corrupting medium shared by both transport protocols. */
module Packets {
  const PAYLOAD_SIZE: nat := 20

  /** The character codes of a payload, as the checksum reads them. */
  type Payload = p: seq<int> | |p| == PAYLOAD_SIZE witness seq(PAYLOAD_SIZE, _ => 0)

  datatype Packet = Packet(seqnum: int, acknum: int, checksum: int, payload: Payload)

  /** The three fields the medium may overwrite. */
  datatype Field = PayloadField | SeqnumField | AcknumField

  /** What the medium decides about one packet handed to it. */
  datatype Fate = Whole | Lost | Corrupted(field: Field)

  const CORRUPT_BYTE: int := 90
  const CORRUPT_NUMBER: int := 999999

  function Sum(s: seq<int>): int {
    if s == [] then 0 else Sum(s[..|s| - 1]) + s[|s| - 1]
  }

  function Checksum(p: Packet): int {
    Sum(p.payload) + p.seqnum + p.acknum
  }

  predicate Intact(p: Packet) {
    p.checksum == Checksum(p)
  }

  /** The packet carrying these fields and the checksum that matches them. */
  function Sealed(seqnum: int, acknum: int, payload: Payload): (p: Packet)
    ensures Intact(p)
  {
    Packet(seqnum, acknum, Sum(payload) + seqnum + acknum, payload)
  }

  function Corrupt(p: Packet, f: Field): Packet {
    match f
    case PayloadField => p.(payload := p.payload[0 := CORRUPT_BYTE])
    case SeqnumField => p.(seqnum := CORRUPT_NUMBER)
    case AcknumField => p.(acknum := CORRUPT_NUMBER)
  }

  /** The copies of `p` that come out of the medium: none or one. */
  function Emerging(p: Packet, fate: Fate): seq<Packet> {
    match fate
    case Whole => [p]
    case Lost => []
    case Corrupted(f) => [Corrupt(p, f)]
  }

  lemma {:induction false} SumUpdate(s: seq<int>, i: nat, x: int)
    requires i < |s|
    ensures Sum(s[i := x]) == Sum(s) - s[i] + x
  {
    var t := s[i := x];
    var n := |s| - 1;
    if i < n {
      assert t[..n] == s[..n][i := x];
      SumUpdate(s[..n], i, x);
    } else {
      assert t[..n] == s[..n];
    }
  }

  /** The checksum is additive: it counts every byte of the payload and both numbers once, and nothing else. */
  lemma ChecksumAdds(p: Packet, i: nat, x: int)
    requires i < PAYLOAD_SIZE
    ensures Checksum(p.(payload := p.payload[i := x])) == Checksum(p) - p.payload[i] + x
    ensures Checksum(p.(seqnum := x)) == Checksum(p) - p.seqnum + x
    ensures Checksum(p.(acknum := x)) == Checksum(p) - p.acknum + x
    ensures Checksum(p.(checksum := x)) == Checksum(p)
    ensures Checksum(Packet(0, 0, x, seq(PAYLOAD_SIZE, _ => 0))) == 0
  {
    SumUpdate(p.payload, i, x);
    SumOfZeros(PAYLOAD_SIZE);
  }

  lemma {:induction false} SumOfZeros(n: nat)
    ensures Sum(seq(n, _ => 0)) == 0
  {
    if n > 0 {
      SumOfZeros(n - 1);
      assert seq(n, _ => 0)[..n - 1] == seq(n - 1, _ => 0);
    }
  }

  /** So a change of any one byte or number of an intact packet is noticed. */
  lemma OneChangeIsCaught(p: Packet, i: nat, x: int)
    requires Intact(p) && i < PAYLOAD_SIZE
    ensures Intact(p.(payload := p.payload[i := x])) <==> x == p.payload[i]
    ensures Intact(p.(seqnum := x)) <==> x == p.seqnum
    ensures Intact(p.(acknum := x)) <==> x == p.acknum
    ensures Intact(p.(checksum := x)) <==> x == p.checksum
  {
    ChecksumAdds(p, i, x);
  }

  /** The checksum catches every corruption that changes the packet at all. */
  lemma CorruptionIsCaught(p: Packet, f: Field)
    requires Intact(p)
    ensures Intact(Corrupt(p, f)) <==> Corrupt(p, f) == p
  {
    if f == PayloadField {
      SumUpdate(p.payload, 0, CORRUPT_BYTE);
      if p.payload[0] == CORRUPT_BYTE {
        assert p.payload[0 := CORRUPT_BYTE] == p.payload;
      }
    }
  }

  /** An intact packet coming out of the medium is the packet that went in. */
  lemma EmergesIntact(p: Packet, fate: Fate)
    requires Intact(p)
    ensures |Emerging(p, fate)| <= 1
    ensures forall q :: q in Emerging(p, fate) && Intact(q) ==> q == p
  {
    if fate.Corrupted? {
      CorruptionIsCaught(p, fate.field);
    }
  }

  /** The checksum loop. */
  method CalcChecksum(p: Packet) returns (checksum: int)
    ensures checksum == Checksum(p)
  {
    checksum := 0;
    for i := 0 to PAYLOAD_SIZE
      invariant checksum == Sum(p.payload[..i])
    {
      assert p.payload[..i + 1][..i] == p.payload[..i];
      checksum := checksum + p.payload[i];
    }
    assert p.payload[..PAYLOAD_SIZE] == p.payload;
    checksum := checksum + p.seqnum;
    checksum := checksum + p.acknum;
  }
}
