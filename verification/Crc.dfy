/** Cyclic redundancy check: division of bit sequences over GF(2), as the C++ pipeline and the Python script do it. */
module Crc {

  type Bit = b: int | b == 0 || b == 1

  function Xor(a: Bit, b: Bit): Bit {
    if a == b then 0 else 1
  }

  function XorAll(s: seq<Bit>, t: seq<Bit>): (r: seq<Bit>)
    requires |s| == |t|
    ensures |r| == |s|
  {
    seq(|s|, i requires 0 <= i < |s| => Xor(s[i], t[i]))
  }

  function Zeros(n: nat): (r: seq<Bit>)
    ensures |r| == n
  {
    seq(n, _ => 0)
  }

  /** One division step: cancel the leading bit with the key if it is 1, then drop it. */
  function Cut(f: seq<Bit>, key: seq<Bit>): (r: seq<Bit>)
    requires 1 <= |key| <= |f|
    ensures |r| == |f| - 1
  {
    seq(|f| - 1, i requires 0 <= i < |f| - 1 =>
      if f[0] == 1 && i + 1 < |key| then Xor(f[i + 1], key[i + 1]) else f[i + 1])
  }

  function Remainder(f: seq<Bit>, key: seq<Bit>): (r: seq<Bit>)
    requires |key| >= 1
    decreases |f|
  {
    if |f| < |key| then f else Remainder(Cut(f, key), key)
  }

  function Quotient(f: seq<Bit>, key: seq<Bit>): (q: seq<Bit>)
    requires |key| >= 1
    decreases |f|
  {
    if |f| < |key| then [] else [f[0]] + Quotient(Cut(f, key), key)
  }

  /** The product of the polynomials with coefficients `q` and `key`, highest power first. */
  function Product(q: seq<Bit>, key: seq<Bit>): (r: seq<Bit>)
    requires |key| >= 1
    ensures |r| == |q| + |key| - 1
  {
    if q == [] then Zeros(|key| - 1)
    else XorAll(Part(q[0], key, |q| - 1), [0] + Product(q[1..], key))
  }

  /** `q` times the key plus `r`, with `r` shorter than the key. */
  function Composite(q: seq<Bit>, r: seq<Bit>, key: seq<Bit>): (f: seq<Bit>)
    requires |r| + 1 == |key|
    ensures |f| == |q| + |r|
  {
    XorAll(Product(q, key), Zeros(|q|) + r)
  }

  predicate AllZero(s: seq<Bit>) {
    forall i :: 0 <= i < |s| ==> s[i] == 0
  }

  // ----- the remainder is the remainder of polynomial division -----

  lemma {:induction false} RemainderLength(f: seq<Bit>, key: seq<Bit>)
    requires 1 <= |key| <= |f| + 1
    ensures |Remainder(f, key)| == |key| - 1
    decreases |f|
  {
    if |f| >= |key| {
      RemainderLength(Cut(f, key), key);
    }
  }

  lemma CutAt(f: seq<Bit>, key: seq<Bit>, i: nat)
    requires 1 <= |key| <= |f| && i < |f| - 1
    ensures Cut(f, key)[i] == if f[0] == 1 && i + 1 < |key| then Xor(f[i + 1], key[i + 1]) else f[i + 1]
  {
  }

  /** One coefficient of a product: what the first bit adds to the rest. */
  lemma ProductAt(q: seq<Bit>, key: seq<Bit>, i: nat)
    requires |key| >= 1 && q != [] && i < |q| + |key| - 1
    ensures Product(q, key)[i] ==
      Xor(if q[0] == 1 && i < |key| then key[i] else 0, if i > 0 then Product(q[1..], key)[i - 1] else 0)
  {
    PartAt(q[0], key, |q| - 1, i);
    ShiftAt(Product(q[1..], key), i);
  }

  /** What one quotient bit contributes. */
  function Part(b: Bit, key: seq<Bit>, n: nat): (r: seq<Bit>)
    ensures |r| == |key| + n
  {
    (if b == 1 then key else Zeros(|key|)) + Zeros(n)
  }

  lemma PartAt(b: Bit, key: seq<Bit>, n: nat, i: nat)
    requires i < |key| + n
    ensures Part(b, key, n)[i] == if b == 1 && i < |key| then key[i] else 0
  {
  }

  lemma ShiftAt(p: seq<Bit>, i: nat)
    requires i <= |p|
    ensures ([0] + p)[i] == if i > 0 then p[i - 1] else 0
  {
  }

  /** One coefficient of a composite. */
  lemma CompositeAt(q: seq<Bit>, r: seq<Bit>, key: seq<Bit>, i: nat)
    requires |r| + 1 == |key| && q != [] && i < |q| + |r|
    ensures Composite(q, r, key)[i] ==
      Xor(Xor(if q[0] == 1 && i < |key| then key[i] else 0, if i > 0 then Product(q[1..], key)[i - 1] else 0),
          if i < |q| then 0 else r[i - |q|])
  {
    ProductAt(q, key, i);
    RestAt(q, r, key, i);
  }

  lemma RestAt(q: seq<Bit>, r: seq<Bit>, key: seq<Bit>, i: nat)
    requires |r| + 1 == |key| && i < |q| + |r|
    ensures Composite(q, r, key)[i] == Xor(Product(q, key)[i], if i < |q| then 0 else r[i - |q|])
  {
    assert (Zeros(|q|) + r)[i] == if i < |q| then 0 else r[i - |q|];
  }

  lemma CutComposite(q: seq<Bit>, r: seq<Bit>, key: seq<Bit>)
    requires |r| + 1 == |key| && key[0] == 1 && q != []
    ensures Composite(q, r, key)[0] == q[0]
    ensures Cut(Composite(q, r, key), key) == Composite(q[1..], r, key)
  {
    CompositeAt(q, r, key, 0);
    forall i | 0 <= i < |q| + |r| - 1
      ensures Cut(Composite(q, r, key), key)[i] == Composite(q[1..], r, key)[i]
    {
      CutCompositeAt(q, r, key, i);
    }
  }

  lemma CutCompositeAt(q: seq<Bit>, r: seq<Bit>, key: seq<Bit>, i: nat)
    requires |r| + 1 == |key| && key[0] == 1 && q != [] && i < |q| + |r| - 1
    ensures Cut(Composite(q, r, key), key)[i] == Composite(q[1..], r, key)[i]
  {
    var f, b, c := Composite(q, r, key), Product(q[1..], key)[i], if i + 1 < |q| then 0 else r[i + 1 - |q|];
    assert f[0] == q[0] by {
      CompositeAt(q, r, key, 0);
    }
    assert f[i + 1] == Xor(Xor(if q[0] == 1 && i + 1 < |key| then key[i + 1] else 0, b), c) by {
      CompositeAt(q, r, key, i + 1);
    }
    CutCancels(f, key, i, q[0], b, c);
    RestAt(q[1..], r, key, i);
  }

  /** Cutting cancels the key that the first bit put in. */
  lemma CutCancels(f: seq<Bit>, key: seq<Bit>, i: nat, first: Bit, b: Bit, c: Bit)
    requires 1 <= |key| <= |f| && i < |f| - 1 && f[0] == first
    requires f[i + 1] == Xor(Xor(if first == 1 && i + 1 < |key| then key[i + 1] else 0, b), c)
    ensures Cut(f, key)[i] == Xor(b, c)
  {
    CutAt(f, key, i);
  }

  lemma {:induction false} CompositeDivides(q: seq<Bit>, r: seq<Bit>, key: seq<Bit>)
    requires |r| + 1 == |key| && key[0] == 1
    ensures Remainder(Composite(q, r, key), key) == r
    ensures Quotient(Composite(q, r, key), key) == q
  {
    if q == [] {
      assert Composite(q, r, key) == r;
    } else {
      CutComposite(q, r, key);
      CompositeDivides(q[1..], r, key);
    }
  }

  lemma {:induction false} DivisionComposes(f: seq<Bit>, key: seq<Bit>)
    requires 1 <= |key| <= |f| + 1 && key[0] == 1
    ensures |Quotient(f, key)| == |f| - |key| + 1 && |Remainder(f, key)| + 1 == |key|
    ensures Composite(Quotient(f, key), Remainder(f, key), key) == f
    decreases |f|
  {
    if |f| < |key| {
      assert Composite([], f, key) == f;
    } else {
      var c := Cut(f, key);
      DivisionComposes(c, key);
      ComposesFromCut(f, key, Quotient(c, key), Remainder(c, key));
    }
  }

  /** A frame whose cut is a composite is one itself, with its own first bit in front of the quotient. */
  lemma ComposesFromCut(f: seq<Bit>, key: seq<Bit>, q: seq<Bit>, r: seq<Bit>)
    requires 1 <= |key| <= |f| && key[0] == 1 && |r| + 1 == |key| && Composite(q, r, key) == Cut(f, key)
    ensures Composite([f[0]] + q, r, key) == f
  {
    var g := Composite([f[0]] + q, r, key);
    assert ([f[0]] + q)[1..] == q;
    CutComposite([f[0]] + q, r, key);
    forall i | 0 <= i < |f|
      ensures g[i] == f[i]
    {
      if i > 0 {
        CutAt(f, key, i - 1);
        CutAt(g, key, i - 1);
      }
    }
  }

  /** A frame is key times quotient plus remainder for exactly one quotient and one remainder shorter than the key. */
  lemma DivisionIsUnique(f: seq<Bit>, key: seq<Bit>, q: seq<Bit>, r: seq<Bit>)
    requires 1 <= |key| <= |f| + 1 && key[0] == 1 && |r| + 1 == |key|
    ensures f == Composite(q, r, key) <==> q == Quotient(f, key) && r == Remainder(f, key)
  {
    DivisionComposes(f, key);
    CompositeDivides(q, r, key);
  }

  // ----- linearity and checksums -----

  lemma {:induction false} RemainderIsLinear(f: seq<Bit>, g: seq<Bit>, key: seq<Bit>)
    requires 1 <= |key| <= |f| + 1 && |f| == |g|
    ensures |Remainder(f, key)| == |Remainder(g, key)|
    ensures Remainder(XorAll(f, g), key) == XorAll(Remainder(f, key), Remainder(g, key))
    decreases |f|
  {
    if |f| >= |key| {
      assert Cut(XorAll(f, g), key) == XorAll(Cut(f, key), Cut(g, key));
      RemainderIsLinear(Cut(f, key), Cut(g, key), key);
    }
  }

  lemma {:induction false} LeadingZeros(n: nat, r: seq<Bit>, key: seq<Bit>)
    requires |r| + 1 == |key|
    ensures Remainder(Zeros(n) + r, key) == r
  {
    if n == 0 {
      assert Zeros(0) + r == r;
    } else {
      assert Cut(Zeros(n) + r, key) == Zeros(n - 1) + r;
      LeadingZeros(n - 1, r, key);
    }
  }

  /** Data followed by its checksum. */
  function SentFrame(data: seq<Bit>, key: seq<Bit>): seq<Bit>
    requires |key| >= 1
  {
    data + Remainder(data + Zeros(|key| - 1), key)
  }

  /** A sent frame leaves no remainder. */
  lemma SentFrameIsClean(data: seq<Bit>, key: seq<Bit>)
    requires |key| >= 1
    ensures |SentFrame(data, key)| == |data| + |key| - 1
    ensures AllZero(Remainder(SentFrame(data, key), key))
  {
    var padded := data + Zeros(|key| - 1);
    RemainderLength(padded, key);
    var r := Remainder(padded, key);
    RemainderIsLinear(padded, Zeros(|data|) + r, key);
    LeadingZeros(|data|, r, key);
    assert SentFrame(data, key) == XorAll(padded, Zeros(|data|) + r);
  }

  /** The remainder of what arrives depends only on which bits were flipped. */
  lemma RemainderOfReceived(data: seq<Bit>, key: seq<Bit>, flips: seq<Bit>)
    requires |key| >= 1 && |flips| == |data| + |key| - 1
    ensures |SentFrame(data, key)| == |flips|
    ensures Remainder(XorAll(SentFrame(data, key), flips), key) == Remainder(flips, key)
  {
    SentFrameIsClean(data, key);
    RemainderIsLinear(SentFrame(data, key), flips, key);
    var r := Remainder(flips, key);
    assert XorAll(Remainder(SentFrame(data, key), key), r) == r;
  }

  // ----- which errors are detected -----

  /** The flips escape detection exactly when they are a multiple of the key. */
  lemma UndetectedExactly(data: seq<Bit>, key: seq<Bit>, flips: seq<Bit>)
    requires |key| >= 1 && key[0] == 1 && |flips| == |data| + |key| - 1
    ensures |SentFrame(data, key)| == |flips|
    ensures AllZero(Remainder(XorAll(SentFrame(data, key), flips), key)) <==> exists q :: flips == Product(q, key)
  {
    RemainderOfReceived(data, key, flips);
    if AllZero(Remainder(flips, key)) {
      MultipleIfClean(flips, key);
    }
    forall q | flips == Product(q, key)
      ensures AllZero(Remainder(flips, key))
    {
      ProductIsClean(q, key);
    }
  }

  lemma MultipleIfClean(f: seq<Bit>, key: seq<Bit>)
    requires 1 <= |key| <= |f| + 1 && key[0] == 1 && AllZero(Remainder(f, key))
    ensures f == Product(Quotient(f, key), key)
  {
    DivisionComposes(f, key);
    assert Remainder(f, key) == Zeros(|key| - 1);
    ProductAlone(Quotient(f, key), key);
  }

  lemma ProductAlone(q: seq<Bit>, key: seq<Bit>)
    requires |key| >= 1
    ensures Composite(q, Zeros(|key| - 1), key) == Product(q, key)
  {
    assert Zeros(|q|) + Zeros(|key| - 1) == Zeros(|Product(q, key)|);
    XorZeros(Product(q, key));
  }

  /** All flips lie within `length` consecutive positions from `start`. */
  predicate Burst(flips: seq<Bit>, start: nat, length: nat) {
    forall i :: 0 <= i < |flips| && flips[i] == 1 ==> start <= i < start + length
  }

  lemma {:induction false} RegisterStaysNonZero(f: seq<Bit>, key: seq<Bit>, k: nat)
    requires 1 <= |key| <= |f| + 1 && key[|key| - 1] == 1
    requires k < |key| - 1 && f[k] == 1
    requires forall i :: |key| - 1 <= i < |f| ==> f[i] == 0
    ensures !AllZero(Remainder(f, key))
    decreases |f|
  {
    if |f| < |key| {
      assert Remainder(f, key)[k] == 1;
    } else if f[0] == 1 {
      assert Cut(f, key)[|key| - 2] == 1;
      RegisterStaysNonZero(Cut(f, key), key, |key| - 2);
    } else {
      assert Cut(f, key)[k - 1] == 1;
      RegisterStaysNonZero(Cut(f, key), key, k - 1);
    }
  }

  lemma {:induction false} BurstLeavesRemainder(f: seq<Bit>, key: seq<Bit>, start: nat, length: nat, k: nat)
    requires 1 <= |key| <= |f| + 1 && key[|key| - 1] == 1
    requires Burst(f, start, length) && length < |key| && k < |f| && f[k] == 1
    ensures !AllZero(Remainder(f, key))
    decreases |f|
  {
    if start + length < |key| {
      RegisterStaysNonZero(f, key, k);
    } else if |f| < |key| {
      assert Remainder(f, key)[k] == 1;
    } else {
      assert f[0] == 0;
      assert Cut(f, key) == f[1..];
      BurstLeavesRemainder(f[1..], key, start - 1, length, k - 1);
    }
  }

  /** Every error burst shorter than the key is detected, wherever it falls in a frame of any length. */
  lemma BurstIsDetected(data: seq<Bit>, key: seq<Bit>, flips: seq<Bit>, start: nat, length: nat)
    requires |key| >= 1 && key[|key| - 1] == 1 && |flips| == |data| + |key| - 1
    requires Burst(flips, start, length) && length < |key| && !AllZero(flips)
    ensures |SentFrame(data, key)| == |flips|
    ensures !AllZero(Remainder(XorAll(SentFrame(data, key), flips), key))
  {
    RemainderOfReceived(data, key, flips);
    var k :| 0 <= k < |flips| && flips[k] != 0;
    BurstLeavesRemainder(flips, key, start, length, k);
  }

  /** The bound is tight: a burst as long as the key, with its pattern, goes unnoticed. */
  lemma KeyBurstIsMissed(before: nat, key: seq<Bit>, after: nat)
    requires |key| >= 1 && key[0] == 1
    ensures AllZero(Remainder(Zeros(before) + key + Zeros(after), key))
  {
    ShiftedKey(before, key, after);
    ProductIsClean(Zeros(before) + [1] + Zeros(after), key);
  }

  /** Every damage within fewer bits than the key has is detected. */
  ghost predicate DetectsBursts(data: seq<Bit>, key: seq<Bit>)
    requires |key| >= 1
  {
    forall flips: seq<Bit> ::
      |flips| == |data| + |key| - 1 && HasBurst(flips, |key| - 1) && !AllZero(flips) ==> Detected(data, key, flips)
  }

  ghost predicate HasBurst(flips: seq<Bit>, length: nat) {
    exists start: nat :: Burst(flips, start, length)
  }

  ghost predicate Detected(data: seq<Bit>, key: seq<Bit>, flips: seq<Bit>)
    requires |key| >= 1 && |flips| == |data| + |key| - 1
  {
    |SentFrame(data, key)| == |flips| && !AllZero(Remainder(XorAll(SentFrame(data, key), flips), key))
  }

  /** A key that begins with 1 detects every shorter burst in every frame if and only if it also ends with 1. */
  lemma BurstsDetectedExactly(data: seq<Bit>, key: seq<Bit>)
    requires |key| >= 1 && key[0] == 1 && data != []
    ensures DetectsBursts(data, key) <==> key[|key| - 1] == 1
  {
    if key[|key| - 1] == 1 {
      forall flips: seq<Bit> | |flips| == |data| + |key| - 1 && HasBurst(flips, |key| - 1) && !AllZero(flips)
        ensures Detected(data, key, flips)
      {
        var start: nat :| Burst(flips, start, |key| - 1);
        BurstIsDetected(data, key, flips, start, |key| - 1);
      }
    } else {
      var flips := Zeros(0) + key + Zeros(|data| - 1);
      KeyBurstIsMissed(0, key, |data| - 1);
      RemainderOfReceived(data, key, flips);
      assert flips[0] == 1 && Burst(flips, 0, |key| - 1);
      assert !Detected(data, key, flips);
    }
  }

  lemma ProductIsClean(q: seq<Bit>, key: seq<Bit>)
    requires |key| >= 1 && key[0] == 1
    ensures AllZero(Remainder(Product(q, key), key))
  {
    ProductAlone(q, key);
    CompositeDivides(q, Zeros(|key| - 1), key);
  }

  lemma XorZeros(a: seq<Bit>)
    ensures XorAll(a, Zeros(|a|)) == a && XorAll(Zeros(|a|), a) == a
  {
  }

  lemma {:induction false} ShiftedKey(before: nat, key: seq<Bit>, after: nat)
    requires |key| >= 1
    ensures Product(Zeros(before) + [1] + Zeros(after), key) == Zeros(before) + key + Zeros(after)
  {
    if before == 0 {
      KeyFirst(key, after);
      assert Zeros(0) + [1] + Zeros(after) == [1] + Zeros(after);
      assert Zeros(0) + key + Zeros(after) == key + Zeros(after);
    } else {
      ShiftedKey(before - 1, key, after);
      OneZeroMore(before, [1], after);
      OneZeroMore(before, key, after);
      ZeroFirst(Zeros(before - 1) + [1] + Zeros(after), key);
    }
  }

  lemma OneZeroMore(before: nat, s: seq<Bit>, after: nat)
    requires before > 0
    ensures Zeros(before) + s + Zeros(after) == [0] + (Zeros(before - 1) + s + Zeros(after))
  {
  }

  lemma KeyFirst(key: seq<Bit>, after: nat)
    requires |key| >= 1
    ensures Product([1] + Zeros(after), key) == key + Zeros(after)
  {
    var q := [1] + Zeros(after);
    assert q[1..] == Zeros(after);
    ZeroProduct(after, key);
    forall i | 0 <= i < |key| + after
      ensures Product(q, key)[i] == (key + Zeros(after))[i]
    {
      ProductAt(q, key, i);
    }
  }

  lemma ZeroFirst(q: seq<Bit>, key: seq<Bit>)
    requires |key| >= 1
    ensures Product([0] + q, key) == [0] + Product(q, key)
  {
    assert ([0] + q)[1..] == q;
    forall i | 0 <= i < |q| + |key|
      ensures Product([0] + q, key)[i] == ([0] + Product(q, key))[i]
    {
      ProductAt([0] + q, key, i);
    }
  }

  lemma {:induction false} ZeroProduct(n: nat, key: seq<Bit>)
    requires |key| >= 1
    ensures Product(Zeros(n), key) == Zeros(n + |key| - 1)
  {
    if n > 0 {
      assert Zeros(n)[1..] == Zeros(n - 1);
      ZeroProduct(n - 1, key);
    }
  }

  // ----- the C++ routines -----

  method XorBits(a: seq<Bit>, b: seq<Bit>) returns (tmp: seq<Bit>)
    requires |b| <= |a|
    ensures |tmp| == |b| && forall i :: 0 <= i < |b| ==> tmp[i] == Xor(a[i], b[i])
  {
    tmp := [];
    for i := 0 to |b|
      invariant |tmp| == i && forall j :: 0 <= j < i ==> tmp[j] == Xor(a[j], b[j])
    {
      if a[i] == b[i] {
        tmp := tmp + [0];
      } else {
        tmp := tmp + [1];
      }
    }
  }

  /** The key, or zeros if the register does not begin with 1, is subtracted: the first bit becomes 0. */
  method Subtract(register: seq<Bit>, key: seq<Bit>) returns (tmp: seq<Bit>)
    requires |register| == |key| >= 1 && key[0] == 1
    ensures |tmp| == |key| && tmp[0] == 0 && tmp[1..] == Cut(register, key)
  {
    if register[0] == 1 {
      tmp := XorBits(key, register);
    } else {
      tmp := XorBits(Zeros(|key|), register);
    }
  }

  lemma CutRegister(register: seq<Bit>, rest: seq<Bit>, key: seq<Bit>)
    requires |register| == |key| >= 1
    ensures Cut(register + rest, key) == Cut(register, key) + rest
  {
  }

  /** Division with the whole register kept: it drops the leading bit only when it became 0, which a key starting
      with 1 always achieves. */
  method Division(frame: seq<Bit>, key: seq<Bit>) returns (temp: seq<Bit>)
    requires 1 <= |key| <= |frame| && key[0] == 1
    ensures temp == Remainder(frame, key) && |temp| == |key| - 1
  {
    var divisorLen := |key|;
    temp := frame[..divisorLen];
    assert temp + frame[divisorLen..] == frame;
    while divisorLen < |frame|
      invariant |key| <= divisorLen <= |frame| && |temp| == |key|
      invariant Remainder(temp + frame[divisorLen..], key) == Remainder(frame, key)
    {
      ghost var was, rest := temp, frame[divisorLen..];
      CutRegister(was, rest, key);
      temp := Subtract(temp, key);
      temp := temp + [frame[divisorLen]];
      divisorLen := divisorLen + 1;
      if temp[0] == 0 {
        temp := temp[1..];
      }
      assert temp == Cut(was, key) + [rest[0]];
      assert Cut(was, key) + rest == temp + frame[divisorLen..];
    }
    assert temp + frame[divisorLen..] == temp;
    temp := Subtract(temp, key);
    if temp[0] == 0 {
      temp := temp[1..];
    }
  }

  function Ones(f: seq<Bit>): nat {
    if f == [] then 0 else Ones(f[..|f| - 1]) + f[|f| - 1]
  }

  lemma {:induction false} NoOnes(f: seq<Bit>)
    ensures Ones(f) == 0 <==> AllZero(f)
  {
    if f != [] {
      var n := |f| - 1;
      NoOnes(f[..n]);
      assert f == f[..n] + [f[n]];
    }
  }

  /** Counts the ones left over; none means the frame passes. */
  method ErrorDetection(received: seq<Bit>, key: seq<Bit>) returns (count: nat)
    requires 1 <= |key| <= |received| && key[0] == 1
    ensures count == Ones(Remainder(received, key))
    ensures count == 0 <==> AllZero(Remainder(received, key))
  {
    count := 0;
    var remainder := Division(received, key);
    for i := 0 to |remainder|
      invariant count == Ones(remainder[..i])
    {
      assert remainder[..i + 1][..i] == remainder[..i];
      if remainder[i] != 0 {
        count := count + 1;
      }
    }
    assert remainder[..|remainder|] == remainder;
    NoOnes(remainder);
  }
}
