/** The loops of the C++ coding pipeline, proved against the functions of `Hamming`, `Crc` and `Pipeline`. */
module PipelineCode {
  import opened Binary
  import opened Crc
  import opened Hamming
  import opened Pipeline

  // ----- preparing the data -----

  lemma DivUnique(x: int, q: int, m: int)
    requires m > 0 && x == q * m
    ensures x / m == q
  {
    var q', r' := x / m, x % m;
    assert x == q' * m + r';
    assert q' < q ==> (q' + 1) * m <= q * m;
    assert q < q' ==> (q + 1) * m <= q' * m;
  }

  /** Short of the last row end a length is no multiple of the row length; at the row end it is. */
  lemma WholeRows(n: nat, x: nat, m: nat)
    requires m > 0 && n <= x <= Times(RowCount(n, m), m)
    ensures x % m == 0 <==> x == Times(RowCount(n, m), m)
  {
    var c := RowCount(n, m);
    TimesIsProduct(c, m);
    if n > 0 {
      RowCountBounds(n, m);
      TimesIsProduct(c - 1, m);
      if x < c * m {
        ModUnique(x, c - 1, x - (c - 1) * m, m);
      } else {
        ModUnique(x, c, 0, m);
      }
    }
  }

  method PadData(data: seq<int>, m: nat) returns (padded: seq<int>)
    requires m > 0
    ensures padded == Padded(data, m) && FilledUp(data, m, padded)
  {
    PaddedIs(data, m);
    padded := data;
    ghost var goal := Padded(data, m);
    WholeRows(|data|, |data|, m);
    while |padded| % m != 0
      invariant |data| <= |padded| <= |goal| && padded == goal[..|padded|]
      invariant |padded| % m == 0 <==> |padded| == |goal|
      decreases |goal| - |padded|
    {
      padded := padded + [PAD];
      WholeRows(|data|, |padded|, m);
    }
  }

  /** `n` halved `i` times. */
  function Half(n: nat, i: nat): nat {
    if i == 0 then n else Half(n, i - 1) / 2
  }

  lemma {:induction false} HalfHalves(n: nat, i: nat)
    ensures Half(n, i + 1) == Half(n / 2, i)
  {
    if i > 0 {
      HalfHalves(n, i - 1);
    }
  }

  lemma {:induction false} BitOfHalf(n: nat, i: nat)
    ensures HasBit(n, i) <==> Half(n, i) % 2 == 1
    decreases i
  {
    if i > 0 {
      BitOfHalf(n / 2, i - 1);
      HalfHalves(n, i - 1);
    }
  }

  lemma {:induction false} HalvesToZero(n: nat, i: nat, t: nat)
    requires i <= t && Half(n, i) == 0
    ensures Half(n, t) == 0
  {
    if i < t {
      HalvesToZero(n, i, t - 1);
    }
  }

  lemma HalfIsSmall(n: nat)
    requires n < 128
    ensures Half(n, 7) == 0
  {
    assert Half(n, 1) < 64 && Half(n, 2) < 32 && Half(n, 3) < 16 && Half(n, 4) < 8 && Half(n, 5) < 4 && Half(n, 6) < 2;
  }

  /** The remainders by 2, lowest bit first, in an array of zeros. */
  method Remainders(n: int, binaryNum: array<int>) returns (i: nat)
    requires -128 <= n < 128 && binaryNum.Length == 1000
    requires forall t :: 0 <= t < 1000 ==> binaryNum[t] == 0
    modifies binaryNum
    ensures i <= 7
    ensures n >= 0 ==> forall t: nat :: t < 1000 ==> binaryNum[t] == if HasBit(n, t) then 1 else 0
    ensures n < 0 ==> forall t :: 0 <= t < 1000 ==> binaryNum[t] == 0
  {
    i := 0;
    var rest := n;
    while rest > 0
      invariant n >= 0 ==> i <= 7 && rest == Half(n, i)
      invariant n < 0 ==> i == 0 && rest == n
      invariant n >= 0 ==> forall t: nat :: t < i ==> binaryNum[t] == if HasBit(n, t) then 1 else 0
      invariant forall t :: i <= t < 1000 ==> binaryNum[t] == 0
      decreases rest
    {
      HalfIsSmall(n);
      BitOfHalf(n, i);
      binaryNum[i] := rest % 2;
      rest := rest / 2;
      i := i + 1;
    }
    if n >= 0 {
      forall t: nat | i <= t
        ensures !HasBit(n, t)
      {
        HalvesToZero(n, i, t);
        BitOfHalf(n, t);
      }
    }
  }

  /** The bits of one character, highest first; a negative code gives zeros. */
  method BinaryConvert(n: int) returns (bits: seq<int>)
    requires -128 <= n < 128
    ensures bits == Byte(n)
  {
    var binaryNum := new int[1000](_ => 0);
    var i := Remainders(n, binaryNum);
    while i < 8
      invariant i <= 8
    {
      i := i + 1;
    }
    bits := [];
    var j := i - 1;
    while j >= 0
      invariant -1 <= j <= 7 && |bits| == 7 - j
      invariant forall t :: 0 <= t < |bits| ==> bits[t] == binaryNum[7 - t]
    {
      bits := bits + [binaryNum[j]];
      j := j - 1;
    }
    if n < 0 {
      NegativeIsZeros(n);
    } else {
      assert Shown(n) == n;
    }
  }

  lemma NegativeIsZeros(n: int)
    requires n < 0
    ensures Byte(n) == seq(8, _ => 0)
  {
    assert Shown(n) == 0;
    forall i | 0 <= i < 8
      ensures Byte(n)[i] == 0
    {
      var a: nat := 7 - i;
      NoBits(a);
      assert Byte(n)[i] == if HasBit(0, a) then 1 else 0;
    }
  }

  /** One row of `m` characters from index `first` on; the index stops at the last of them. */
  method BuildRow(data: seq<int>, m: nat, first: nat) returns (row: seq<int>, i: nat)
    requires m > 0 && Chars(data) && first + m <= |data|
    ensures row == TextBits(data[first..first + m]) && i == first + m - 1
  {
    row := [];
    i := first;
    for j := 0 to m
      invariant i == first + (if j < m then j else m - 1)
      invariant row == TextBits(data[first..first + j])
    {
      assert data[first..first + (j + 1)][..j] == data[first..first + j];
      var bits := BinaryConvert(data[i]);
      row := row + bits;
      if j != m - 1 {
        i := i + 1;
      }
    }
  }

  /** Lays the characters out in rows. */
  method BuildRows(data: seq<int>, m: nat, ghost c: nat) returns (rows: seq<seq<int>>)
    requires m > 0 && Chars(data) && |data| == Times(c, m)
    ensures rows == DataRows(data, m, c)
  {
    rows := [];
    var i := 0;
    ghost var k := 0;
    while i < |data|
      invariant i == Times(k, m) <= |data| && k <= c
      invariant rows == DataRows(data[..i], m, k)
    {
      TimesBelow(k, c, m);
      TimesGrows(k, c, m);
      NextDataRow(data, m, k);
      var row, last := BuildRow(data, m, i);
      rows := rows + [row];
      k := k + 1;
      i := last + 1;
    }
    TimesBelow(k, c, m);
    assert data[..i] == data;
  }

  lemma NextDataRow(data: seq<int>, m: nat, k: nat)
    requires Times(k, m) + m <= |data|
    ensures Times(k + 1, m) == Times(k, m) + m
    ensures DataRows(data[..Times(k + 1, m)], m, k + 1)
      == DataRows(data[..Times(k, m)], m, k) + [TextBits(data[Times(k, m)..Times(k, m) + m])]
  {
    var i := Times(k, m);
    assert data[..i + m][..i] == data[..i] && data[..i + m][i..] == data[i..i + m];
  }

  lemma TimesBelow(k: nat, c: nat, m: nat)
    requires m > 0 && k <= c
    ensures Times(k, m) <= Times(c, m) && (Times(k, m) == Times(c, m) ==> k == c)
  {
    if k < c {
      TimesGrows(k, c, m);
    }
  }

  // ----- check bits -----

  /** One position of the walk: what is behind it, and the spread form of what is ahead. */
  lemma SpreadStep(row: seq<int>, i: nat, limit: nat)
    requires i < limit && i <= |row| && |row| >= limit
    ensures var next := if IsMarker(i + 1) then row[..i] + [BLANK] + row[i..] else row;
      row[..i] + Spread(row[i..], i + 1, limit) == next[..i + 1] + Spread(next[i + 1..], i + 2, limit)
  {
    if IsMarker(i + 1) {
      var next := row[..i] + [BLANK] + row[i..];
      assert next[i + 1..] == row[i..] && next[..i + 1] == row[..i] + [BLANK];
    } else {
      assert row[i..][1..] == row[i + 1..] && row[..i + 1] == row[..i] + [row[i]];
    }
  }

  /** Inserts a blank before every check-bit position met while walking over the original row length. */
  method InsertMarkers(data: seq<int>) returns (row: seq<int>)
    ensures row == Spread(data, 1, |data|)
  {
    row := data;
    var i, k := 0, 1;
    WalkEnds(row, data);
    while i < |data|
      invariant k == i + 1 && Walked(row, data, i)
    {
      WalkOn(row, data, i);
      if IsMarker(k) {
        row := row[..i] + [BLANK] + row[i..];
      }
      i := i + 1;
      k := k + 1;
    }
    WalkEnds(row, data);
  }

  /** The walk has come to position `i`. */
  ghost predicate Walked(row: seq<int>, data: seq<int>, i: nat) {
    i <= |data| <= |row| && row[..i] + Spread(row[i..], i + 1, |data|) == Spread(data, 1, |data|)
  }

  lemma WalkOn(row: seq<int>, data: seq<int>, i: nat)
    requires Walked(row, data, i) && i < |data|
    ensures Walked(if IsMarker(i + 1) then row[..i] + [BLANK] + row[i..] else row, data, i + 1)
  {
    SpreadStep(row, i, |data|);
  }

  lemma WalkEnds(row: seq<int>, data: seq<int>)
    ensures Walked(data, data, 0)
    ensures Walked(row, data, |data|) ==> row == Spread(data, 1, |data|)
  {
    assert data[..0] + Spread(data[0..], 1, |data|) == Spread(data, 1, |data|);
    if |data| <= |row| {
      assert row[..|data|] + row[|data|..] == row;
    }
  }

  method GetParity(row: seq<int>, idx: nat) returns (odd: bool)
    ensures odd <==> Parity(row, idx) == 1
  {
    var count := 0;
    for i := 0 to |row|
      invariant count == Count(row, idx, i)
    {
      if And(i + 1, idx) != 0 && row[i] == 1 {
        count := count + 1;
      }
    }
    odd := count % 2 != 0;
  }

  method FillMarkers(spread: seq<int>) returns (row: seq<int>)
    ensures row == Filled(spread, 0)
  {
    row := spread;
    for j := 0 to |spread|
      invariant |row| == |spread| && Filled(row, j) == Filled(spread, 0)
    {
      if row[j] == BLANK {
        var odd := GetParity(row, j + 1);
        row := row[j := if odd then 1 else 0];
      }
    }
  }

  method EncodeBlock(rows: seq<seq<int>>) returns (encoded: seq<seq<int>>)
    ensures encoded == EncodeRows(rows)
  {
    encoded := [];
    for j := 0 to |rows|
      invariant |encoded| == j && forall t :: 0 <= t < j ==> encoded[t] == EncodeRow(rows[t])
    {
      var spread := InsertMarkers(rows[j]);
      var row := FillMarkers(spread);
      encoded := encoded + [row];
    }
  }

  lemma NextMarker(n: nat)
    requires IsMarker(n + 1)
    ensures n + 1 == Pow2(Markers(n))
  {
    var a := MarkerIsPow2(n + 1);
    MarkersIsBitLength(n);
    MarkersIsBitLength(n + 1);
    if a < Markers(n) {
      SmallPow2(a, Markers(n) - 1);
    } else if Markers(n) < a {
      SmallPow2(Markers(n) + 1, a);
    }
  }

  lemma {:induction false} StripAppend(a: seq<int>, b: seq<int>, k: nat)
    ensures Strip(a + b, k) == Strip(a, k) + Strip(b, k + |a|)
    decreases |a|
  {
    if a == [] {
      assert a + b == b;
    } else {
      assert (a + b)[1..] == a[1..] + b;
      StripAppend(a[1..], b, k + 1);
    }
  }

  /** The end of the part before check bit `l`. */
  function Before(l: nat): nat {
    if l == 0 then 0 else Pow2(l - 1)
  }

  lemma MarkersIs(n: nat, l: nat)
    requires Before(l) <= n < Pow2(l)
    ensures Markers(n) == l
  {
    MarkersIsBitLength(n);
    var r := Markers(n);
    if r < l {
      SmallPow2(r, l - 1);
    } else if l < r {
      SmallPow2(l, r - 1);
    }
  }

  lemma NoMarkerBetween(l: nat, n: nat)
    requires Before(l) <= n < Pow2(l)
    ensures Clear(Before(l), n)
  {
    MarkersIs(Before(l), l);
    MarkersIs(n, l);
    MarkersGrow(Before(l), n);
  }

  lemma BeforeIsBelow(l: nat)
    ensures Before(l) < Pow2(l) && Before(l) >= l
  {
    if l > 0 {
      BeforeIsBelow(l - 1);
    }
  }

  lemma StrippedPrefixLength(row: seq<int>, l: nat)
    requires Before(l) <= |row|
    ensures |Strip(row[..Before(l)], 1)| + l == Before(l)
  {
    BeforeIsBelow(l);
    MarkersIs(Before(l), l);
    StripLength(row[..Before(l)], 1);
  }

  /** No check-bit position lies above `low`, up to `high`. */
  predicate Clear(low: nat, high: nat) {
    forall k :: low < k <= high ==> !IsMarker(k)
  }

  /** A stretch without check bits is kept whole. */
  lemma StripKeeps(row: seq<int>, head: seq<int>, gap: seq<int>)
    requires row == head + gap && Clear(|head|, |row|)
    ensures Strip(row, 1) == Strip(head, 1) + gap
  {
    StripAppend(head, gap, 1);
    StripNothing(gap, 1 + |head|);
  }

  lemma StripMark(mark: int, k: nat)
    requires IsMarker(k)
    ensures Strip([mark], k) == []
  {
    assert [mark][1..] == [];
  }

  lemma StripDrops(head: seq<int>, mark: int)
    requires IsMarker(|head| + 1)
    ensures Strip(head + [mark], 1) == Strip(head, 1)
  {
    StripAppend(head, [mark], 1);
    StripMark(mark, 1 + |head|);
  }

  lemma StripStretch(row: seq<int>, from: nat, to: nat)
    requires from < to <= |row| && IsMarker(to) && Clear(from, to - 1)
    ensures Strip(row[..to], 1) == Strip(row[..from], 1) + row[from..to - 1]
  {
    assert row[..from] + row[from..to - 1] == row[..to - 1];
    assert row[..to - 1] + [row[to - 1]] == row[..to];
    StripKeeps(row[..to - 1], row[..from], row[from..to - 1]);
    StripDrops(row[..to - 1], row[to - 1]);
  }

  /** Erasing check bit `l` after the earlier ones. */
  lemma StripOneMore(row: seq<int>, l: nat)
    requires Pow2(l) <= |row|
    ensures Before(l) < Pow2(l)
    ensures Strip(row[..Pow2(l)], 1) == Strip(row[..Before(l)], 1) + row[Before(l)..Pow2(l) - 1]
  {
    BeforeIsBelow(l);
    Pow2IsMarker(l);
    NoMarkerBetween(l, Pow2(l) - 1);
    StripStretch(row, Before(l), Pow2(l));
  }

  lemma StripTail(row: seq<int>, l: nat)
    requires Before(l) <= |row| < Pow2(l)
    ensures Strip(row, 1) == Strip(row[..Before(l)], 1) + row[Before(l)..]
  {
    NoMarkerBetween(l, |row|);
    StripRest(row, Before(l));
  }

  lemma StripRest(row: seq<int>, from: nat)
    requires from <= |row| && Clear(from, |row|)
    ensures Strip(row, 1) == Strip(row[..from], 1) + row[from..]
  {
    StripKeeps(row, row[..from], row[from..]);
  }

  lemma BeforeWithin(l: nat, n: nat)
    requires l <= Markers(n)
    ensures Before(l) <= n && (l < Markers(n) ==> Pow2(l) <= n) && (l == Markers(n) ==> n < Pow2(l))
  {
    MarkersIsBitLength(n);
    WithinBitLength(l, Markers(n), n);
  }

  lemma WithinBitLength(l: nat, r: nat, n: nat)
    requires l <= r && n < Pow2(r) && (n > 0 ==> r > 0 && Pow2(r - 1) <= n) && (n == 0 ==> r == 0)
    ensures Before(l) <= n && (l < r ==> Pow2(l) <= n)
  {
    BeforeIsBelow(l);
    if l < r {
      SmallPow2(l, r - 1);
    }
  }

  /** The check-bit positions among 1 .. n, in order. */
  function MarkerList(n: nat): seq<nat> {
    if n == 0 then [] else MarkerList(n - 1) + if IsMarker(n) then [n] else []
  }

  lemma {:induction false} MarkerListIs(n: nat)
    ensures |MarkerList(n)| == Markers(n)
    ensures forall l :: 0 <= l < Markers(n) ==> MarkerList(n)[l] == Pow2(l)
  {
    if n > 0 {
      MarkerListIs(n - 1);
      if IsMarker(n) {
        NextMarker(n - 1);
      }
    }
  }

  /** The parities of the check-bit positions met, and those positions. */
  method CheckRow(row: seq<int>) returns (parity: seq<int>, indexes: seq<int>)
    ensures |parity| == |indexes| == Markers(|row|)
    ensures forall l :: 0 <= l < |parity| ==> parity[l] == Parity(row, Pow2(l))
    ensures forall l :: 0 <= l < |indexes| ==> indexes[l] == Pow2(l) - 1
  {
    parity, indexes := [], [];
    var k := 1;
    for j := 0 to |row|
      invariant k == j + 1 && |parity| == |indexes| == |MarkerList(j)|
      invariant forall l :: 0 <= l < |parity| ==> parity[l] == Parity(row, MarkerList(j)[l])
      invariant forall l :: 0 <= l < |indexes| ==> indexes[l] + 1 == MarkerList(j)[l]
    {
      if IsMarker(k) {
        var odd := GetParity(row, j + 1);
        parity := parity + [if odd then 1 else 0];
        indexes := indexes + [j];
      }
      k := k + 1;
    }
    MarkerListIs(|row|);
  }

  /** Removes the check bits at the listed positions. */
  method EraseMarkers(full: seq<int>, indexes: seq<int>) returns (row: seq<int>)
    requires |indexes| == Markers(|full|) && forall l :: 0 <= l < |indexes| ==> indexes[l] == Pow2(l) - 1
    ensures row == Strip(full, 1)
  {
    row := full;
    EraseEnds(full, row);
    for l := 0 to |indexes|
      invariant Erased(full, row, l)
    {
      BeforeWithin(l, |full|);
      EraseNext(full, row, l);
      row := row[..indexes[l] - l] + row[indexes[l] - l + 1..];
    }
    BeforeWithin(|indexes|, |full|);
    EraseEnds(full, row);
  }

  /** The first `l` check bits are gone. */
  ghost predicate Erased(full: seq<int>, row: seq<int>, l: nat) {
    Before(l) <= |full| && row == Strip(full[..Before(l)], 1) + full[Before(l)..]
  }

  /** With `l` check bits gone, the next one stands `l` places before where it stood. */
  lemma EraseNext(full: seq<int>, row: seq<int>, l: nat)
    requires Erased(full, row, l) && Pow2(l) <= |full|
    ensures l <= Pow2(l) - 1 < |row| + l
    ensures var at := Pow2(l) - 1 - l; Erased(full, row[..at] + row[at + 1..], l + 1)
  {
    var head, at := Strip(full[..Before(l)], 1), Pow2(l) - 1 - l;
    BeforeIsBelow(l);
    StrippedPrefixLength(full, l);
    CutAfter(head, full, Before(l), Pow2(l), row, at);
    StripOneMore(full, l);
  }

  lemma CutAfter(head: seq<int>, full: seq<int>, low: nat, high: nat, row: seq<int>, at: nat)
    requires low < high <= |full| && row == head + full[low..] && at == |head| + high - 1 - low
    ensures at < |row| && row[..at] == head + full[low..high - 1] && row[at + 1..] == full[high..]
  {
  }

  lemma EraseEnds(full: seq<int>, row: seq<int>)
    ensures Erased(full, full, 0)
    ensures Erased(full, row, Markers(|full|)) && |full| < Pow2(Markers(|full|)) ==> row == Strip(full, 1)
  {
    assert full[..0] == [];
    if Erased(full, row, Markers(|full|)) && |full| < Pow2(Markers(|full|)) {
      StripTail(full, Markers(|full|));
    }
  }

  /** The parities as the digits of a number. */
  method WeightedSum(ghost row: seq<int>, parity: seq<int>) returns (bin: nat)
    requires forall l :: 0 <= l < |parity| ==> parity[l] == Parity(row, Pow2(l))
    ensures bin == SyndromeUpTo(row, |parity|)
  {
    bin := 0;
    for l := 0 to |parity|
      invariant bin == SyndromeUpTo(row, l)
    {
      bin := bin + Pow2(l) * parity[l];
    }
  }

  /** Corrects one received row and removes its check bits. */
  method CorrectRow(received: seq<int>) returns (row: seq<int>)
    ensures row == DecodeRow(received)
  {
    row := received;
    var parity, indexes := CheckRow(row);
    var bin := WeightedSum(received, parity);
    if bin <= |row| && bin != 0 {
      row := if row[bin - 1] == 0 then row[bin - 1 := 1] else row[bin - 1 := 0];
    }
    row := EraseMarkers(row, indexes);
  }

  method CorrectBlock(block: seq<seq<int>>) returns (rows: seq<seq<int>>)
    ensures rows == DecodeRows(block)
  {
    rows := [];
    for i := 0 to |block|
      invariant |rows| == i && forall t :: 0 <= t < i ==> rows[t] == DecodeRow(block[t])
    {
      var row := CorrectRow(block[i]);
      rows := rows + [row];
    }
  }

  // ----- interleaving -----

  method SerializeBlock(rows: seq<seq<int>>, width: nat) returns (bits: seq<Bit>)
    requires Block(rows, width)
    ensures bits == Serialize(rows, width, width)
  {
    bits := [];
    for i := 0 to width
      invariant bits == Serialize(rows, width, i)
    {
      ghost var col := Column(rows, width, i);
      for j := 0 to |rows|
        invariant bits == Serialize(rows, width, i) + col[..j]
      {
        bits := bits + [rows[j][i]];
      }
      assert col[..|rows|] == col;
    }
  }

  /** Row `j` has got its first `n` bits. */
  ghost predicate RowDealt(row: seq<int>, bits: seq<Bit>, j: nat, n: nat, c: nat) {
    |row| == n && forall i: nat :: i < n ==> BitDealt(row, bits, j, i, c)
  }

  predicate BitDealt(row: seq<int>, bits: seq<Bit>, j: nat, i: nat, c: nat) {
    i < |row| && Times(i, c) + j < |bits| && row[i] == bits[Times(i, c) + j]
  }

  lemma RowGetsBit(row: seq<int>, bits: seq<Bit>, j: nat, n: nat, c: nat)
    requires RowDealt(row, bits, j, n, c) && Times(n, c) + j < |bits|
    ensures RowDealt(row + [bits[Times(n, c) + j]], bits, j, n + 1, c)
  {
    var next := row + [bits[Times(n, c) + j]];
    forall i: nat | i < n + 1
      ensures BitDealt(next, bits, j, i, c)
    {
      assert i < n ==> BitDealt(row, bits, j, i, c);
    }
  }

  /** `full` columns have been dealt out, and `r` bits of the next one. */
  ghost predicate Dealt(rows: seq<seq<int>>, bits: seq<Bit>, full: nat, r: nat, c: nat) {
    |rows| == c && forall j: nat :: j < c ==> RowDealt(rows[j], bits, j, if j < r then full + 1 else full, c)
  }

  lemma DealtNext(rows: seq<seq<int>>, bits: seq<Bit>, full: nat, r: nat, c: nat)
    requires Dealt(rows, bits, full, r, c) && r < c && Times(full, c) + r < |bits|
    ensures var next := rows[r := rows[r] + [bits[Times(full, c) + r]]];
      if r + 1 < c then Dealt(next, bits, full, r + 1, c) else Dealt(next, bits, full + 1, 0, c)
  {
    RowGetsBit(rows[r], bits, r, full, c);
  }

  /** Before the first bit, and after the last. */
  lemma DealtEnds(rows: seq<seq<int>>, bits: seq<Bit>, n: nat, c: nat)
    requires |bits| == Times(n, c)
    ensures Dealt(seq(c, _ => []), bits, 0, 0, c)
    ensures Dealt(rows, bits, n, 0, c) ==> rows == Deserialize(bits, n, c)
  {
    if Dealt(rows, bits, n, 0, c) {
      var all := Deserialize(bits, n, c);
      forall j | 0 <= j < c
        ensures rows[j] == all[j]
      {
        WholeRow(rows[j], bits, j, n, c);
      }
    }
  }

  lemma WholeRow(row: seq<int>, bits: seq<Bit>, j: nat, n: nat, c: nat)
    requires |bits| == Times(n, c) && j < c && RowDealt(row, bits, j, n, c)
    ensures row == Deserialize(bits, n, c)[j]
  {
    var all := Deserialize(bits, n, c)[j];
    forall i | 0 <= i < n
      ensures row[i] == all[i]
    {
      assert BitDealt(row, bits, j, i, c);
      DeserializeAt(bits, n, c, i, j);
    }
  }

  /** Deals the bits out to the rows in turn. */
  method DeserializeBits(bits: seq<Bit>, ghost n: nat, c: nat) returns (rows: seq<seq<int>>)
    requires c > 0 && |bits| == Times(n, c)
    ensures rows == Deserialize(bits, n, c)
  {
    rows := seq(c, _ => []);
    var r := 0;
    ghost var full := 0;
    DealtEnds(rows, bits, n, c);
    for i := 0 to |bits|
      invariant 0 <= r < c && full <= n && i == Times(full, c) + r
      invariant Dealt(rows, bits, full, r, c)
    {
      TimesBelow(full, n, c);
      DealtNext(rows, bits, full, r, c);
      rows := rows[r := rows[r] + [bits[i]]];
      NextRow(r, c);
      full := if r + 1 == c then full + 1 else full;
      r := (r + 1) % c;
    }
    TimesRemainder(full, n, r, c);
    DealtEnds(rows, bits, n, c);
  }

  lemma NextRow(r: nat, c: nat)
    requires r < c
    ensures (r + 1) % c == if r + 1 == c then 0 else r + 1
  {
    if r + 1 == c {
      ModUnique(r + 1, 1, 0, c);
    } else {
      ModUnique(r + 1, 0, r + 1, c);
    }
  }

  lemma TimesRemainder(k: nat, n: nat, r: nat, c: nat)
    requires Times(n, c) == Times(k, c) + r && r < c && k <= n
    ensures k == n && r == 0
  {
    if k < n {
      TimesGrows(k, n, c);
    }
  }

  // ----- reading the text back -----

  method ReadByte(bits: seq<int>) returns (bin: nat)
    requires AreBits(bits)
    ensures bin == Value(bits)
  {
    bin := 0;
    var idx := 0;
    var l := |bits| - 1;
    assert Value(bits) == 0 + Pow2(0) * Value(bits[..|bits|]) by {
      assert bits[..|bits|] == bits;
    }
    while l >= 0
      invariant -1 <= l < |bits| && idx == |bits| - 1 - l
      invariant Value(bits) == bin + Pow2(idx) * Value(bits[..l + 1])
    {
      ghost var high := bits[..l + 1];
      assert high[..l] == bits[..l];
      Distribute(Pow2(idx), Value(bits[..l]), bits[l]);
      bin := bin + Pow2(idx) * bits[l];
      idx := idx + 1;
      l := l - 1;
    }
  }

  lemma Distribute(p: int, v: int, b: int)
    ensures p * (2 * v + b) == 2 * p * v + p * b
  {
  }

  method ReadText(rows: seq<seq<int>>, m: nat) returns (text: seq<int>)
    requires Block(rows, 8 * m)
    ensures text == Text(rows, m)
  {
    text := [];
    for i := 0 to |rows|
      invariant text == Text(rows[..i], m)
    {
      ghost var rowText := RowText(rows[i], m);
      for j := 0 to m
        invariant text == Text(rows[..i], m) + rowText[..j]
      {
        var bin := ReadByte(rows[i][8 * j..8 * j + 8]);
        text := text + [bin];
      }
      assert rowText[..m] == rowText;
      assert rows[..i + 1][..i] == rows[..i];
    }
    assert rows[..|rows|] == rows;
  }

  // ----- the whole program -----

  method ReadKey(polynom: string) returns (key: seq<Bit>)
    ensures |key| == |polynom| && forall i :: 0 <= i < |key| ==> (key[i] == 1 <==> polynom[i] == '1')
  {
    key := [];
    for i := 0 to |polynom|
      invariant |key| == i && forall t :: 0 <= t < i ==> (key[t] == 1 <==> polynom[t] == '1')
    {
      if polynom[i] == '1' {
        key := key + [1];
      } else {
        key := key + [0];
      }
    }
  }

  /** The frame with every flip applied. */
  method FlipBits(frame: seq<Bit>, flips: seq<Bit>) returns (received: seq<Bit>)
    requires |flips| == |frame|
    ensures received == XorAll(frame, flips)
  {
    received := [];
    for i := 0 to |frame|
      invariant |received| == i && forall t :: 0 <= t < i ==> received[t] == Xor(frame[t], flips[t])
    {
      if flips[i] == 1 {
        received := received + [if frame[i] == 1 then 0 else 1];
      } else {
        received := received + [frame[i]];
      }
    }
  }

  /** Encodes the text into the frame to send. */
  method Encode(data: seq<int>, m: nat, key: seq<Bit>) returns (frame: seq<Bit>, c: nat)
    requires m > 0 && Chars(data) && data != [] && |key| >= 1 && key[0] == 1
    ensures frame == Sent(data, m, key) && c == RowCount(|data|, m)
  {
    var padded := PadData(data, m);
    PaddedIsAscii(data, m);
    TimesIsProduct(RowCount(|data|, m), m);
    DivUnique(|padded|, RowCount(|data|, m), m);
    c := |padded| / m;
    var rows := BuildRows(padded, m, c);
    EncodedBlock(rows, m);
    var encoded := EncodeBlock(rows);
    var serialized := SerializeBlock(encoded, |encoded[0]|);
    TimesGrows(0, Width(m), c);
    var remainder := Division(serialized + Zeros(|key| - 1), key);
    frame := serialized + remainder;
  }

  /** Checks, strips, restores, corrects and reads a received frame of `c` rows. */
  method Decode(received: seq<Bit>, m: nat, key: seq<Bit>, c: nat) returns (detected: bool, text: seq<int>)
    requires m > 0 && c > 0 && |key| >= 1 && key[0] == 1
    requires |received| == Times(Width(m), c) + |key| - 1
    requires Block(Received(received, m, |key|, c), 8 * m)
    ensures detected <==> !AllZero(Remainder(received, key))
    ensures text == Text(Received(received, m, |key|, c), m)
  {
    TimesGrows(0, Width(m), c);
    var count := ErrorDetection(received, key);
    detected := count != 0;
    var bits := received[..|received| - (|key| - 1)];
    var block := DeserializeBits(bits, Width(m), c);
    var rows := CorrectBlock(block);
    text := ReadText(rows, m);
  }

  /** The program from input to output. With each row touched at most once the output is the padded input, negative
      character codes shown as 0, and the error report is right for every set of flips. */
  method Run(data: seq<int>, m: nat, polynom: string, flips: seq<Bit>, ghost start: nat)
    returns (detected: bool, text: seq<int>)
    requires m > 0 && Chars(data) && data != [] && polynom != [] && polynom[0] == '1'
    requires |flips| == |SentBits(data, m)| + |polynom| - 1
    requires Width(m) < Pow2(Markers(8 * m)) && RowsTouchedOnce(flips, Width(m), RowCount(|data|, m))
    ensures FilledUp(ShownAll(data), m, text) && (FilledUp(data, m, text) <==> Ascii(data))
    ensures AllZero(flips) ==> !detected
    ensures polynom[|polynom| - 1] == '1' && !AllZero(flips) && Burst(flips, start, |polynom| - 1) ==> detected
  {
    var key := ReadKey(polynom);
    PipelineReturnsText(data, m, key, flips);
    PaddedIs(data, m);
    ShownExactly(data);
    var frame, c := Encode(data, m, key);
    var received := FlipBits(frame, flips);
    detected, text := Decode(received, m, key, c);
    ReportIsRight(SentBits(data, m), key, flips, start);
  }

  lemma ReportIsRight(bits: seq<Bit>, key: seq<Bit>, flips: seq<Bit>, start: nat)
    requires |key| >= 1 && |flips| == |bits| + |key| - 1
    ensures |SentFrame(bits, key)| == |flips|
    ensures AllZero(flips) ==> AllZero(Remainder(XorAll(SentFrame(bits, key), flips), key))
    ensures key[|key| - 1] == 1 && !AllZero(flips) && Burst(flips, start, |key| - 1) ==>
      !AllZero(Remainder(XorAll(SentFrame(bits, key), flips), key))
  {
    SentFrameIsClean(bits, key);
    if AllZero(flips) {
      assert XorAll(SentFrame(bits, key), flips) == SentFrame(bits, key);
    } else if key[|key| - 1] == 1 && Burst(flips, start, |key| - 1) {
      BurstIsDetected(bits, key, flips, start, |key| - 1);
    }
  }
}
