/** Hamming rows: check bits at the powers of two, correction by the weighted parity sum. */
module Hamming {
  import opened Binary

  const BLANK: int := -1

  predicate AreBits(s: seq<int>) {
    forall i :: 0 <= i < |s| ==> s[i] == 0 || s[i] == 1
  }

  /** Ones among the first `n` positions (counted from 1) that share a bit with `idx`. */
  function Count(row: seq<int>, idx: nat, n: nat): nat
    requires n <= |row|
  {
    if n == 0 then 0 else Count(row, idx, n - 1) + if And(n, idx) != 0 && row[n - 1] == 1 then 1 else 0
  }

  function Parity(row: seq<int>, idx: nat): (p: int)
    ensures p == 0 || p == 1
  {
    Count(row, idx, |row|) % 2
  }

  // ----- encoding -----

  /** The data with a blank inserted at every check-bit position from `k` up to `limit`. */
  function Spread(data: seq<int>, k: nat, limit: nat): seq<int>
    requires k > limit || |data| + k > limit
    decreases limit + 1 - k
  {
    if k > limit then data
    else if IsMarker(k) then [BLANK] + Spread(data, k + 1, limit)
    else [data[0]] + Spread(data[1..], k + 1, limit)
  }

  /** Fills the blanks from position `j` (counted from 0) on, each with the parity of the row so far. */
  function Filled(row: seq<int>, j: nat): seq<int>
    requires j <= |row|
    decreases |row| - j
  {
    if j == |row| then row
    else Filled(if row[j] == BLANK then row[j := Parity(row, j + 1)] else row, j + 1)
  }

  function EncodeRow(data: seq<int>): seq<int> {
    Filled(Spread(data, 1, |data|), 0)
  }

  // ----- decoding -----

  /** The row without its check-bit positions, the first element being position `k`. */
  function Strip(row: seq<int>, k: nat): seq<int> {
    if row == [] then []
    else if IsMarker(k) then Strip(row[1..], k + 1)
    else [row[0]] + Strip(row[1..], k + 1)
  }

  function SyndromeUpTo(row: seq<int>, l: nat): nat {
    if l == 0 then 0 else SyndromeUpTo(row, l - 1) + if Parity(row, Pow2(l - 1)) == 1 then Pow2(l - 1) else 0
  }

  /** The sum of the failing check-bit positions. */
  function Syndrome(row: seq<int>): nat {
    SyndromeUpTo(row, Markers(|row|))
  }

  /** The row with position `p` (counted from 1) toggled. */
  function Flip(row: seq<int>, p: nat): (r: seq<int>)
    requires 1 <= p <= |row|
    ensures |r| == |row|
  {
    row[p - 1 := if row[p - 1] == 0 then 1 else 0]
  }

  function Corrected(row: seq<int>): (r: seq<int>)
    ensures |r| == |row|
  {
    var bin := Syndrome(row);
    if bin <= |row| && bin != 0 then Flip(row, bin) else row
  }

  function DecodeRow(row: seq<int>): seq<int> {
    Strip(Corrected(row), 1)
  }

  // ----- removing the markers undoes inserting them -----

  lemma {:induction false} StripLength(row: seq<int>, k: nat)
    requires k >= 1
    ensures |Strip(row, k)| + Markers(k - 1 + |row|) == |row| + Markers(k - 1)
    decreases |row|
  {
    if row != [] {
      StripLength(row[1..], k + 1);
    }
  }

  lemma {:induction false} StripAgrees(row: seq<int>, row': seq<int>, k: nat)
    requires |row| == |row'|
    requires forall i: nat :: i < |row| && !IsMarker(k + i) ==> row[i] == row'[i]
    ensures Strip(row, k) == Strip(row', k)
    decreases |row|
  {
    if row != [] {
      forall i: nat | i < |row[1..]| && !IsMarker(k + 1 + i)
        ensures row[1..][i] == row'[1..][i]
      {
        assert !IsMarker(k + (i + 1));
      }
      StripAgrees(row[1..], row'[1..], k + 1);
      assert !IsMarker(k + 0) ==> row[0] == row'[0];
    }
  }

  lemma {:induction false} StripNothing(row: seq<int>, k: nat)
    requires forall i :: k <= i < k + |row| ==> !IsMarker(i)
    ensures Strip(row, k) == row
    decreases |row|
  {
    if row != [] {
      StripNothing(row[1..], k + 1);
    }
  }

  lemma {:induction false} SpreadLength(data: seq<int>, k: nat, limit: nat)
    requires 1 <= k <= limit + 1 && |data| + k > limit
    ensures |Spread(data, k, limit)| == |data| + Markers(limit) - Markers(k - 1)
    decreases limit + 1 - k
  {
    if k <= limit {
      SpreadLength(if IsMarker(k) then data else data[1..], k + 1, limit);
    }
  }

  /** What may stand at position `p` of a row whose blanks up to `limit` are still open. */
  predicate OpenAt(x: int, p: nat, limit: nat) {
    if p <= limit && IsMarker(p) then x == BLANK else x == 0 || x == 1
  }

  /** Blanks stand exactly at the check-bit positions up to `limit`. */
  lemma {:induction false} SpreadBlanks(data: seq<int>, k: nat, limit: nat)
    requires 1 <= k <= limit + 1 && |data| + k > limit && AreBits(data)
    ensures var row := Spread(data, k, limit); forall i :: 0 <= i < |row| ==> OpenAt(row[i], k + i, limit)
    decreases limit + 1 - k
  {
    if k <= limit {
      var rest := if IsMarker(k) then data else data[1..];
      SpreadBlanks(rest, k + 1, limit);
      var row := Spread(data, k, limit);
      forall i | 0 <= i < |row|
        ensures OpenAt(row[i], k + i, limit)
      {
        if i > 0 {
          assert OpenAt(Spread(rest, k + 1, limit)[i - 1], k + 1 + (i - 1), limit);
        }
      }
    }
  }

  lemma {:induction false} StripSpread(data: seq<int>, k: nat, limit: nat)
    requires 1 <= k <= limit + 1 && |data| + k > limit
    requires Markers(k - 1 + |Spread(data, k, limit)|) == Markers(limit)
    ensures Strip(Spread(data, k, limit), k) == data
    decreases limit + 1 - k
  {
    if k > limit {
      MarkersGrow(limit, limit + |data|);
      StripNothing(data, k);
    } else {
      StripSpread(if IsMarker(k) then data else data[1..], k + 1, limit);
    }
  }

  // ----- parities -----

  lemma {:induction false} CountUpdate(row: seq<int>, idx: nat, p: nat, x: int, n: nat)
    requires 1 <= p <= |row| && n <= |row|
    ensures var row' := row[p - 1 := x];
      Count(row', idx, n) == Count(row, idx, n) +
        if p <= n && And(p, idx) != 0 then (if x == 1 then 1 else 0) - (if row[p - 1] == 1 then 1 else 0) else 0
  {
    if n > 0 {
      CountUpdate(row, idx, p, x, n - 1);
    }
  }

  lemma ParityOfFlip(row: seq<int>, p: nat, a: nat)
    requires 1 <= p <= |row| && AreBits(row)
    ensures Parity(Flip(row, p), Pow2(a)) == if HasBit(p, a) then 1 - Parity(row, Pow2(a)) else Parity(row, Pow2(a))
  {
    var x := if row[p - 1] == 0 then 1 else 0;
    CountUpdate(row, Pow2(a), p, x, |row|);
    AndPow2(p, a);
    var c, c' := Count(row, Pow2(a), |row|), Count(Flip(row, p), Pow2(a), |row|);
    if c' == c + 1 {
      NextParity(c);
    } else if c == c' + 1 {
      NextParity(c');
    }
  }

  lemma NextParity(c: nat)
    ensures (c + 1) % 2 == 1 - c % 2
  {
  }

  /** All parity checks up to `n` hold. */
  ghost predicate Balanced(row: seq<int>, n: nat) {
    forall a: nat :: Pow2(a) <= n ==> Parity(row, Pow2(a)) == 0
  }

  /** A row whose blanks before `j` have been filled. */
  ghost predicate PartlyFilled(row: seq<int>, j: nat, limit: nat) {
    && (forall i :: 0 <= i < j <= |row| ==> row[i] == 0 || row[i] == 1)
    && (forall i :: j <= i < |row| ==> OpenAt(row[i], i + 1, limit))
    && Balanced(row, if j < limit then j else limit)
  }

  /** Filling the blank at 2^b makes its own check hold and leaves the other checks alone. */
  lemma FillingSetsOneParity(row: seq<int>, b: nat, a: nat)
    requires Pow2(b) <= |row| && row[Pow2(b) - 1] == BLANK
    ensures var row' := row[Pow2(b) - 1 := Parity(row, Pow2(b))];
      Parity(row', Pow2(a)) == if a == b then 0 else Parity(row, Pow2(a))
  {
    CountUpdate(row, Pow2(a), Pow2(b), Parity(row, Pow2(b)), |row|);
    AndPow2(Pow2(b), a);
    BitsOfPow2(b, a);
    if a == b {
      var c := Count(row, Pow2(b), |row|);
      assert Count(row[Pow2(b) - 1 := Parity(row, Pow2(b))], Pow2(b), |row|) == c + c % 2;
    }
  }

  lemma Pow2Injective(a: nat, b: nat)
    requires Pow2(a) == Pow2(b)
    ensures a == b
  {
    BitsOfPow2(a, a);
    BitsOfPow2(b, a);
  }

  lemma FillOne(row: seq<int>, j: nat, limit: nat)
    requires j < |row| && PartlyFilled(row, j, limit)
    ensures PartlyFilled(if row[j] == BLANK then row[j := Parity(row, j + 1)] else row, j + 1, limit)
  {
    assert OpenAt(row[j], j + 1, limit);
    var row' := if row[j] == BLANK then row[j := Parity(row, j + 1)] else row;
    forall a: nat | Pow2(a) <= (if j + 1 < limit then j + 1 else limit)
      ensures Parity(row', Pow2(a)) == 0
    {
      if row[j] == BLANK {
        var b := MarkerIsPow2(j + 1);
        FillingSetsOneParity(row, b, a);
        if Pow2(a) == j + 1 {
          Pow2Injective(a, b);
        }
      } else {
        Pow2IsMarker(a);
      }
    }
  }

  lemma {:induction false} FilledIs(row: seq<int>, j: nat, limit: nat)
    requires j <= |row| && limit <= |row| && PartlyFilled(row, j, limit)
    ensures var r := Filled(row, j);
      && |r| == |row| && AreBits(r) && Balanced(r, limit)
      && forall i :: 0 <= i < |row| && row[i] != BLANK ==> r[i] == row[i]
    decreases |row| - j
  {
    if j < |row| {
      FillOne(row, j, limit);
      FilledIs(if row[j] == BLANK then row[j := Parity(row, j + 1)] else row, j + 1, limit);
    }
  }

  /** The data bits of an encoded row are in place and every check holds. */
  lemma EncodedRow(data: seq<int>)
    requires AreBits(data)
    ensures var row := EncodeRow(data); var n := |data|;
      && |row| == n + Markers(n) && AreBits(row) && Balanced(row, n)
      && (Markers(|row|) == Markers(n) ==> Strip(row, 1) == data)
  {
    var n := |data|;
    var spread := Spread(data, 1, n);
    SpreadLength(data, 1, n);
    SpreadBlanks(data, 1, n);
    assert Balanced(spread, 0);
    FilledIs(spread, 0, n);
    if Markers(|spread|) == Markers(n) {
      StripSpread(data, 1, n);
      StripAgrees(spread, EncodeRow(data), 1);
    }
  }

  // ----- correction -----

  lemma {:induction false} SyndromeOfFlip(row: seq<int>, p: nat, l: nat)
    requires 1 <= p <= |row| && AreBits(row)
    requires forall a: nat :: a < l ==> Parity(row, Pow2(a)) == 0
    ensures SyndromeUpTo(row, l) == 0
    ensures SyndromeUpTo(Flip(row, p), l) == LowBits(p, l)
  {
    if l > 0 {
      SyndromeOfFlip(row, p, l - 1);
      ParityOfFlip(row, p, l - 1);
    }
  }

  lemma ChecksCoverMarkers(row: seq<int>, n: nat, l: nat)
    requires Balanced(row, n) && l <= Markers(n)
    ensures forall a: nat :: a < l ==> Parity(row, Pow2(a)) == 0
  {
    MarkersIsBitLength(n);
    forall a: nat | a < l
      ensures Parity(row, Pow2(a)) == 0
    {
      if a < Markers(n) - 1 {
        Pow2Grows(a, Markers(n) - 1);
      }
    }
  }

  /** An encoded row short enough for its check bits has syndrome 0, and after one flip the syndrome is the flipped
      position. */
  lemma SyndromeFindsFlip(data: seq<int>, p: nat)
    requires AreBits(data) && |data| + Markers(|data|) < Pow2(Markers(|data|))
    requires 1 <= p <= |EncodeRow(data)|
    ensures Syndrome(EncodeRow(data)) == 0
    ensures Syndrome(Flip(EncodeRow(data), p)) == p
  {
    var n, row := |data|, EncodeRow(data);
    EncodedRow(data);
    MarkersStay(n, |row|);
    ChecksCoverMarkers(row, n, Markers(n));
    SyndromeOfFlip(row, p, Markers(n));
    LowBitsAreAll(p, Markers(n));
  }

  /** `received` differs from the row in at most one position. */
  ghost predicate AtMostOneFlip(row: seq<int>, received: seq<int>) {
    received == row || exists p: nat :: 1 <= p <= |row| && received == Flip(row, p)
  }

  /** Decoding returns the data whenever at most one bit, data or check, was flipped. */
  lemma DecodeCorrects(data: seq<int>, received: seq<int>)
    requires AreBits(data) && |data| + Markers(|data|) < Pow2(Markers(|data|))
    requires AtMostOneFlip(EncodeRow(data), received)
    ensures DecodeRow(received) == data
  {
    var row := EncodeRow(data);
    EncodedRow(data);
    MarkersStay(|data|, |row|);
    if received == row {
      if |row| > 0 {
        SyndromeFindsFlip(data, 1);
      }
    } else {
      var p: nat :| 1 <= p <= |row| && received == Flip(row, p);
      SyndromeFindsFlip(data, p);
      assert Flip(Flip(row, p), p) == row;
    }
  }

  /** The bound is exact: a decoded row has the length of its data just when the check bits are enough for the row,
      whatever was received. */
  lemma DecodedLength(data: seq<int>, received: seq<int>)
    requires AreBits(data) && |received| == |EncodeRow(data)|
    ensures |DecodeRow(received)| == |data| <==> |data| + Markers(|data|) < Pow2(Markers(|data|))
  {
    EncodedRow(data);
    MarkersStay(|data|, |received|);
    StripLength(Corrected(received), 1);
  }

  // ----- rows that more than one flip has hit -----

  /** The syndrome has exactly the bits of the failing checks. */
  lemma {:induction false} SyndromeBits(row: seq<int>, l: nat, a: nat)
    ensures SyndromeUpTo(row, l) < Pow2(l)
    ensures HasBit(SyndromeUpTo(row, l), a) <==> a < l && Parity(row, Pow2(a)) == 1
  {
    if l == 0 {
      NoBits(a);
    } else {
      SyndromeBits(row, l - 1, a);
      BitsOfSum(SyndromeUpTo(row, l - 1), l - 1, a);
    }
  }

  lemma {:induction false} CleanSyndrome(row: seq<int>, l: nat)
    requires forall a: nat :: a < l ==> Parity(row, Pow2(a)) == 0
    ensures SyndromeUpTo(row, l) == 0
  {
    if l > 0 {
      CleanSyndrome(row, l - 1);
    }
  }

  /** Whatever was received: if the syndrome is a position of the row, toggling that one makes every check hold;
      otherwise the row is left as it is. */
  lemma CorrectedIsClean(row: seq<int>)
    requires AreBits(row)
    ensures Syndrome(row) > |row| || Syndrome(row) == 0 ==> Corrected(row) == row
    ensures Syndrome(row) <= |row| ==> Syndrome(Corrected(row)) == 0
    ensures 0 < Syndrome(row) <= |row| ==>
      forall i :: 0 <= i < |row| ==> (Corrected(row)[i] != row[i] <==> i == Syndrome(row) - 1)
  {
    var bin, l := Syndrome(row), Markers(|row|);
    if 0 < bin <= |row| {
      forall a: nat | a < l
        ensures Parity(Corrected(row), Pow2(a)) == 0
      {
        SyndromeBits(row, l, a);
        ParityOfFlip(row, bin, a);
      }
      CleanSyndrome(Corrected(row), l);
    }
  }

  // ----- parities by counting -----

  /** The positions of ones whose number has bit `a`. */
  function Ones(row: seq<int>, a: nat, n: nat): set<nat>
    requires n <= |row|
  {
    set p: nat | 1 <= p <= n && HasBit(p, a) && row[p - 1] == 1
  }

  lemma {:induction false} CountIs(row: seq<int>, a: nat, n: nat)
    requires n <= |row|
    ensures Count(row, Pow2(a), n) == |Ones(row, a, n)|
  {
    if n > 0 {
      CountIs(row, a, n - 1);
      AndPow2(n, a);
      var last := if HasBit(n, a) && row[n - 1] == 1 then {n} else {};
      assert Ones(row, a, n) == Ones(row, a, n - 1) + last;
    } else {
      assert Ones(row, a, 0) == {};
    }
  }

  /** In an encoded row the ones at positions that share a bit are even in number. */
  lemma EncodedRowIsEven(data: seq<int>, a: nat)
    requires AreBits(data) && Pow2(a) <= |data|
    ensures |Ones(EncodeRow(data), a, |EncodeRow(data)|)| % 2 == 0
  {
    EncodedRow(data);
    CountIs(EncodeRow(data), a, |EncodeRow(data)|);
  }
}
