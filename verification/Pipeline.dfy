/** The whole coding pipeline: pad, lay out in rows, add check bits, interleave, append the checksum; and back. */
module Pipeline {
  import opened Binary
  import opened Crc
  import opened Hamming

  const PAD: int := 126

  /** The codes of eight-bit characters, which are signed. */
  predicate Chars(data: seq<int>) {
    forall i :: 0 <= i < |data| ==> -128 <= data[i] < 128
  }

  predicate Ascii(data: seq<int>) {
    forall i :: 0 <= i < |data| ==> 0 <= data[i] < 128
  }

  /** What the bits of a character stand for: a negative code has no remainders by 2 and is laid out as zeros. */
  function Shown(c: int): nat {
    if c < 0 then 0 else c
  }

  function ShownAll(data: seq<int>): (r: seq<int>)
    ensures |r| == |data|
  {
    seq(|data|, i requires 0 <= i < |data| => Shown(data[i]))
  }

  /** Only ASCII text is shown as it is. */
  lemma ShownExactly(data: seq<int>)
    requires Chars(data)
    ensures ShownAll(data) == data <==> Ascii(data)
  {
    if !Ascii(data) {
      var i :| 0 <= i < |data| && !(0 <= data[i] < 128);
      assert ShownAll(data)[i] != data[i];
    }
  }

  // ----- positions in a block of rows -----

  /** n * c, by repeated addition. */
  function Times(n: nat, c: nat): nat {
    if n == 0 then 0 else Times(n - 1, c) + c
  }

  lemma {:induction false} TimesIsProduct(n: nat, c: nat)
    ensures Times(n, c) == n * c
  {
    if n > 0 {
      TimesIsProduct(n - 1, c);
      assert n * c == (n - 1) * c + c;
    }
  }

  lemma {:induction false} TimesGrows(i: nat, n: nat, c: nat)
    requires i < n
    ensures Times(i, c) + c <= Times(n, c)
    decreases n
  {
    if i < n - 1 {
      TimesGrows(i, n - 1, c);
    }
  }

  // ----- padding and rows -----

  /** How many rows of `m` characters `n` characters fill. */
  function RowCount(n: nat, m: nat): (c: nat)
    requires m > 0
    ensures Times(c, m) >= n && (n > 0 ==> c > 0)
  {
    if n == 0 then 0 else if n <= m then assert Times(1, m) == Times(0, m) + m; 1 else 1 + RowCount(n - m, m)
  }

  /** The data filled up with '~' to whole rows. */
  function Padded(data: seq<int>, m: nat): (r: seq<int>)
    requires m > 0
    ensures |r| == Times(RowCount(|data|, m), m)
  {
    data + seq(Times(RowCount(|data|, m), m) - |data|, _ => PAD)
  }

  lemma ModUnique(x: int, q: int, r: int, m: int)
    requires 0 <= r < m && x == q * m + r
    ensures x % m == r
  {
    var q', r' := x / m, x % m;
    assert x == q' * m + r';
    assert q' < q ==> (q' + 1) * m <= q * m;
    assert q < q' ==> (q + 1) * m <= q' * m;
  }

  lemma {:induction false} RowCountBounds(n: nat, m: nat)
    requires m > 0 && n > 0
    ensures Times(RowCount(n, m) - 1, m) < n
    decreases n
  {
    if n > m {
      RowCountBounds(n - m, m);
    }
  }

  /** `text` is `shown` and then fewer than `m` characters '~', whole rows in all. */
  predicate FilledUp(shown: seq<int>, m: nat, text: seq<int>)
    requires m > 0
  {
    && shown <= text && |text| < |shown| + m && |text| % m == 0
    && forall i :: |shown| <= i < |text| ==> text[i] == 126
  }

  lemma PaddedIs(data: seq<int>, m: nat)
    requires m > 0
    ensures FilledUp(data, m, Padded(data, m))
    ensures FilledUp(ShownAll(data), m, ShownAll(Padded(data, m)))
  {
    var c := RowCount(|data|, m);
    assert Times(c, m) < |data| + m by {
      if data != [] {
        RowCountBounds(|data|, m);
        assert Times(c, m) == Times(c - 1, m) + m;
      }
    }
    assert Times(c, m) % m == 0 by {
      TimesIsProduct(c, m);
      ModUnique(Times(c, m), c, 0, m);
    }
  }

  /** The eight bits of a character code, highest first. */
  function Byte(c: int): (r: seq<int>)
    ensures |r| == 8 && AreBits(r)
  {
    seq(8, i requires 0 <= i < 8 => if HasBit(Shown(c), 7 - i) then 1 else 0)
  }

  function TextBits(chars: seq<int>): (r: seq<int>)
    ensures |r| == 8 * |chars| && AreBits(r)
  {
    if chars == [] then [] else TextBits(chars[..|chars| - 1]) + Byte(chars[|chars| - 1])
  }

  /** The data block: `c` rows of `m` characters, as bits. */
  function DataRows(data: seq<int>, m: nat, c: nat): (rows: seq<seq<int>>)
    requires |data| == Times(c, m)
    ensures |rows| == c && Block(rows, 8 * m)
    decreases c
  {
    if c == 0 then [] else DataRows(data[..Times(c - 1, m)], m, c - 1) + [TextBits(data[Times(c - 1, m)..])]
  }

  function Width(m: nat): nat {
    8 * m + Markers(8 * m)
  }

  /** Rows of equal width, all bits. */
  predicate Block(rows: seq<seq<int>>, width: nat) {
    forall j :: 0 <= j < |rows| ==> |rows[j]| == width && AreBits(rows[j])
  }

  function EncodeRows(rows: seq<seq<int>>): (r: seq<seq<int>>)
    ensures |r| == |rows|
  {
    seq(|rows|, j requires 0 <= j < |rows| => EncodeRow(rows[j]))
  }

  lemma EncodedBlock(rows: seq<seq<int>>, m: nat)
    requires Block(rows, 8 * m)
    ensures Block(EncodeRows(rows), Width(m))
  {
    forall j | 0 <= j < |rows|
      ensures |EncodeRows(rows)[j]| == Width(m) && AreBits(EncodeRows(rows)[j])
    {
      EncodedRow(rows[j]);
    }
  }

  // ----- interleaving -----

  function Column(rows: seq<seq<int>>, width: nat, i: nat): (col: seq<Bit>)
    requires Block(rows, width) && i < width
    ensures |col| == |rows|
  {
    seq(|rows|, j requires 0 <= j < |rows| => rows[j][i])
  }

  /** The first `n` columns, one after the other. */
  function Serialize(rows: seq<seq<int>>, width: nat, n: nat): (bits: seq<Bit>)
    requires Block(rows, width) && n <= width
    ensures |bits| == Times(n, |rows|)
  {
    if n == 0 then [] else Serialize(rows, width, n - 1) + Column(rows, width, n - 1)
  }

  /** The `c` rows, `n` wide, whose columns one after the other are `bits`. */
  function Deserialize(bits: seq<Bit>, n: nat, c: nat): (rows: seq<seq<int>>)
    requires |bits| == Times(n, c)
    ensures |rows| == c && Block(rows, n)
    decreases n
  {
    if n == 0 then seq(c, _ => [])
    else
      var before := Deserialize(bits[..Times(n - 1, c)], n - 1, c);
      seq(c, j requires 0 <= j < c => before[j] + [bits[Times(n - 1, c) + j]])
  }

  /** Bit `i` of row `j` stands at position i * c + j. */
  lemma {:induction false} SerializeAt(rows: seq<seq<int>>, width: nat, n: nat, i: nat, j: nat)
    requires Block(rows, width) && i < n <= width && j < |rows|
    ensures Times(i, |rows|) + j < Times(n, |rows|)
    ensures Serialize(rows, width, n)[Times(i, |rows|) + j] == rows[j][i]
  {
    TimesGrows(i, n, |rows|);
    if i < n - 1 {
      SerializeAt(rows, width, n - 1, i, j);
    }
  }

  lemma {:induction false} DeserializeAt(bits: seq<Bit>, n: nat, c: nat, i: nat, j: nat)
    requires |bits| == Times(n, c) && i < n && j < c
    ensures Times(i, c) + j < Times(n, c)
    ensures Deserialize(bits, n, c)[j][i] == bits[Times(i, c) + j]
  {
    TimesGrows(i, n, c);
    LastOfRow(bits, n, c, j);
    if i < n - 1 {
      TimesGrows(i, n - 1, c);
      DeserializeAt(bits[..Times(n - 1, c)], n - 1, c, i, j);
    }
  }

  lemma LastOfRow(bits: seq<Bit>, n: nat, c: nat, j: nat)
    requires |bits| == Times(n, c) && n > 0 && j < c
    ensures var before := Deserialize(bits[..Times(n - 1, c)], n - 1, c);
      |before[j]| == n - 1 && Deserialize(bits, n, c)[j] == before[j] + [bits[Times(n - 1, c) + j]]
  {
  }

  // ----- sending and receiving -----

  /** The frame put on the line. */
  function Sent(data: seq<int>, m: nat, key: seq<Bit>): seq<Bit>
    requires m > 0 && |key| >= 1
  {
    SentFrame(SentBits(data, m), key)
  }

  lemma PaddedIsAscii(data: seq<int>, m: nat)
    requires m > 0
    ensures Chars(data) ==> Chars(Padded(data, m))
    ensures Ascii(Padded(data, m)) <==> Ascii(data)
  {
    assert data == Padded(data, m)[..|data|];
  }

  function SentRows(data: seq<int>, m: nat): (rows: seq<seq<int>>)
    requires m > 0
    ensures |rows| == RowCount(|data|, m) && Block(rows, 8 * m)
  {
    DataRows(Padded(data, m), m, RowCount(|data|, m))
  }

  function SentBits(data: seq<int>, m: nat): (bits: seq<Bit>)
    requires m > 0
    ensures |bits| == Times(Width(m), RowCount(|data|, m))
  {
    EncodedBlock(SentRows(data, m), m);
    Serialize(EncodeRows(SentRows(data, m)), Width(m), Width(m))
  }

  function DecodeRows(rows: seq<seq<int>>): (r: seq<seq<int>>)
    ensures |r| == |rows|
  {
    seq(|rows|, j requires 0 <= j < |rows| => DecodeRow(rows[j]))
  }

  /** The data block recovered from a received frame: checksum removed, rows restored, corrected and stripped. */
  function Received(frame: seq<Bit>, m: nat, keyLength: nat, c: nat): seq<seq<int>>
    requires keyLength >= 1 && |frame| == Times(Width(m), c) + keyLength - 1
  {
    DecodeRows(Deserialize(frame[..|frame| - (keyLength - 1)], Width(m), c))
  }

  // ----- reading the text back -----

  function Value(bits: seq<int>): nat
    requires AreBits(bits)
  {
    if bits == [] then 0 else 2 * Value(bits[..|bits| - 1]) + bits[|bits| - 1]
  }

  /** The first `m` characters of a row of bits. */
  function RowText(row: seq<int>, m: nat): (r: seq<int>)
    requires |row| == 8 * m && AreBits(row)
    ensures |r| == m
  {
    seq(m, j requires 0 <= j < m => Value(row[8 * j..8 * j + 8]))
  }

  function Text(rows: seq<seq<int>>, m: nat): seq<int>
    requires Block(rows, 8 * m)
  {
    if rows == [] then [] else Text(rows[..|rows| - 1], m) + RowText(rows[|rows| - 1], m)
  }

  lemma {:induction false} ValueOfBits(c: nat, n: nat, bits: seq<int>)
    requires |bits| == n && c < Pow2(n)
    requires forall i :: 0 <= i < n ==> bits[i] == if HasBit(c, n - 1 - i) then 1 else 0
    ensures Value(bits) == c
    decreases n
  {
    if n > 0 {
      var high := bits[..n - 1];
      forall i | 0 <= i < n - 1
        ensures high[i] == if HasBit(c / 2, n - 1 - 1 - i) then 1 else 0
      {
        assert bits[i] == if HasBit(c, n - 1 - i) then 1 else 0;
      }
      ValueOfBits(c / 2, n - 1, high);
      assert bits[n - 1] == c % 2;
    }
  }

  lemma ValueOfByte(c: int)
    requires c < 256
    ensures Value(Byte(c)) == Shown(c)
  {
    assert Pow2(8) == 256;
    ValueOfBits(Shown(c), 8, Byte(c));
  }

  /** The bits of a character weigh what it is shown as, the first of them most. */
  lemma ByteWeighs(c: int)
    requires c < 256
    ensures Weight(Byte(c)) == if c < 0 then 0 else c
  {
    ValueOfByte(c);
    EightBits(Byte(c));
  }

  function Weight(b: seq<int>): int
    requires |b| == 8
  {
    128 * b[0] + 64 * b[1] + 32 * b[2] + 16 * b[3] + 8 * b[4] + 4 * b[5] + 2 * b[6] + b[7]
  }

  lemma EightBits(b: seq<int>)
    requires AreBits(b) && |b| == 8
    ensures Weight(b) == Value(b)
  {
    assert Value(b[..4]) == 8 * b[0] + 4 * b[1] + 2 * b[2] + b[3] by {
      FourMore(b, 0);
    }
    assert Value(b[..8]) == 16 * Value(b[..4]) + 8 * b[4] + 4 * b[5] + 2 * b[6] + b[7] by {
      FourMore(b, 4);
    }
    assert b[..8] == b;
  }

  lemma FourMore(b: seq<int>, n: nat)
    requires AreBits(b) && n + 4 <= |b|
    ensures Value(b[..n + 4]) == 16 * Value(b[..n]) + 8 * b[n] + 4 * b[n + 1] + 2 * b[n + 2] + b[n + 3]
  {
    ValueUnfolds(b, n + 4);
    ValueUnfolds(b, n + 3);
    ValueUnfolds(b, n + 2);
    ValueUnfolds(b, n + 1);
  }

  lemma ValueUnfolds(bits: seq<int>, n: nat)
    requires AreBits(bits) && 0 < n <= |bits|
    ensures Value(bits[..n]) == 2 * Value(bits[..n - 1]) + bits[n - 1]
  {
    assert bits[..n][..n - 1] == bits[..n - 1];
  }

  lemma {:induction false} TextBitsAt(chars: seq<int>, j: nat)
    requires j < |chars|
    ensures TextBits(chars)[8 * j..8 * j + 8] == Byte(chars[j])
  {
    var n := |chars| - 1;
    if j < n {
      TextBitsAt(chars[..n], j);
      assert TextBits(chars)[8 * j..8 * j + 8] == TextBits(chars[..n])[8 * j..8 * j + 8];
    }
  }

  lemma RowTextOfBits(chars: seq<int>)
    requires Chars(chars)
    ensures RowText(TextBits(chars), |chars|) == ShownAll(chars)
  {
    forall j | 0 <= j < |chars|
      ensures RowText(TextBits(chars), |chars|)[j] == Shown(chars[j])
    {
      TextBitsAt(chars, j);
      ValueOfByte(chars[j]);
    }
  }

  lemma {:induction false} TextOfRows(data: seq<int>, m: nat, c: nat)
    requires Chars(data) && |data| == Times(c, m)
    ensures Text(DataRows(data, m, c), m) == ShownAll(data)
    decreases c
  {
    if c > 0 {
      var rows, before := DataRows(data, m, c), Times(c - 1, m);
      TextOfRows(data[..before], m, c - 1);
      RowTextOfBits(data[before..]);
      assert rows[..c - 1] == DataRows(data[..before], m, c - 1);
      assert ShownAll(data) == ShownAll(data[..before]) + ShownAll(data[before..]);
    }
  }

  // ----- errors -----

  /** No row of the block sees more than one flip. */
  ghost predicate RowsTouchedOnce(flips: seq<Bit>, width: nat, c: nat)
    requires |flips| >= Times(width, c)
  {
    forall j: nat, i: nat, i': nat :: j < c && i < i' < width ==> !(FlipAt(flips, c, i, j) && FlipAt(flips, c, i', j))
  }

  /** Bit `i` of row `j` is flipped. */
  predicate FlipAt(flips: seq<Bit>, c: nat, i: nat, j: nat) {
    Times(i, c) + j < |flips| && flips[Times(i, c) + j] == 1
  }

  /** A burst over at most as many serialised bits as there are rows touches each row at most once. */
  lemma BurstTouchesRowsOnce(flips: seq<Bit>, width: nat, c: nat, start: nat)
    requires |flips| >= Times(width, c)
    requires Burst(flips[..Times(width, c)], start, c)
    ensures RowsTouchedOnce(flips, width, c)
  {
    var data := flips[..Times(width, c)];
    forall j: nat, i: nat, i': nat | j < c && i < i' < width
      ensures !(FlipAt(flips, c, i, j) && FlipAt(flips, c, i', j))
    {
      TimesGrows(i, width, c);
      TimesGrows(i', width, c);
      TimesGrows(i, i', c);
      assert data[Times(i, c) + j] == 1 ==> data[Times(i', c) + j] != 1;
    }
  }

  /** The block received when the serialised rows suffer `flips`. */
  function Damaged(rows: seq<seq<int>>, width: nat, flips: seq<Bit>): (got: seq<seq<int>>)
    requires Block(rows, width) && |flips| == Times(width, |rows|)
    ensures |got| == |rows| && Block(got, width)
  {
    Scrambled(Serialize(rows, width, width), flips, width, |rows|)
  }

  /** The block dealt out from bits that suffer `flips`. */
  function Scrambled(bits: seq<Bit>, flips: seq<Bit>, width: nat, c: nat): (got: seq<seq<int>>)
    requires |bits| == |flips| == Times(width, c)
    ensures |got| == c && Block(got, width)
  {
    Deserialize(XorAll(bits, flips), width, c)
  }

  lemma FlippedBit(bits: seq<Bit>, flips: seq<Bit>, width: nat, c: nat, i: nat, j: nat)
    requires |bits| == |flips| == Times(width, c) && i < width && j < c
    ensures Times(i, c) + j < |bits|
    ensures Scrambled(bits, flips, width, c)[j][i] ==
      if FlipAt(flips, c, i, j) then 1 - bits[Times(i, c) + j] else bits[Times(i, c) + j]
  {
    TimesGrows(i, width, c);
    DeserializeAt(XorAll(bits, flips), width, c, i, j);
  }

  lemma DamagedBit(rows: seq<seq<int>>, width: nat, flips: seq<Bit>, i: nat, j: nat)
    requires Block(rows, width) && |flips| == Times(width, |rows|) && i < width && j < |rows|
    ensures Damaged(rows, width, flips)[j][i] == if FlipAt(flips, |rows|, i, j) then 1 - rows[j][i] else rows[j][i]
  {
    SerializeAt(rows, width, width, i, j);
    FlippedBit(Serialize(rows, width, width), flips, width, |rows|, i, j);
  }

  lemma DamagedRow(rows: seq<seq<int>>, width: nat, flips: seq<Bit>, j: nat)
    requires Block(rows, width) && |flips| == Times(width, |rows|) && j < |rows|
    requires RowsTouchedOnce(flips, width, |rows|)
    ensures AtMostOneFlip(rows[j], Damaged(rows, width, flips)[j])
  {
    var got := Damaged(rows, width, flips)[j];
    forall i: nat | i < width
      ensures got[i] == if FlipAt(flips, |rows|, i, j) then 1 - rows[j][i] else rows[j][i]
    {
      DamagedBit(rows, width, flips, i, j);
    }
    if i: nat :| i < width && FlipAt(flips, |rows|, i, j) {
      assert got == Flip(rows[j], i + 1);
    } else {
      assert got == rows[j];
    }
  }

  // ----- the pipeline as a whole -----

  /** What the checksum bits of a frame suffer does not matter to the data part. */
  lemma DataPart(bits: seq<Bit>, key: seq<Bit>, flips: seq<Bit>)
    requires |key| >= 1 && |flips| == |bits| + |key| - 1
    ensures |SentFrame(bits, key)| == |flips|
    ensures XorAll(SentFrame(bits, key), flips)[..|bits|] == XorAll(bits, flips[..|bits|])
  {
    SentFrameIsClean(bits, key);
  }

  /** The recovered block depends only on the flips of the data part. */
  lemma ReceivedIsDamaged(data: seq<int>, m: nat, key: seq<Bit>, flips: seq<Bit>)
    requires m > 0 && |key| >= 1
    requires |flips| == |SentBits(data, m)| + |key| - 1
    ensures |Sent(data, m, key)| == |flips| && Block(EncodeRows(SentRows(data, m)), Width(m))
    ensures Received(XorAll(Sent(data, m, key), flips), m, |key|, RowCount(|data|, m)) ==
      DecodeRows(Damaged(EncodeRows(SentRows(data, m)), Width(m), flips[..|SentBits(data, m)|]))
  {
    EncodedBlock(SentRows(data, m), m);
    var bits := SentBits(data, m);
    DataPart(bits, key, flips);
    var frame := XorAll(Sent(data, m, key), flips);
    assert frame[..|frame| - (|key| - 1)] == XorAll(bits, flips[..|bits|]);
  }

  lemma DecodedLengths(rows: seq<seq<int>>, m: nat, got: seq<seq<int>>, j: nat)
    requires Block(rows, 8 * m) && Block(got, Width(m)) && |got| == |rows| && j < |rows|
    ensures |DecodeRows(got)[j]| == 8 * m <==> Width(m) < Pow2(Markers(8 * m))
  {
    EncodedRow(rows[j]);
    DecodedLength(rows[j], got[j]);
  }

  /** Whatever was flipped, every recovered row has its 8 m data bits exactly when the check bits suffice. */
  lemma RowLengthsExact(data: seq<int>, m: nat, key: seq<Bit>, flips: seq<Bit>, j: nat)
    requires m > 0 && |key| >= 1 && j < RowCount(|data|, m)
    requires |flips| == |SentBits(data, m)| + |key| - 1
    ensures |Sent(data, m, key)| == |flips|
    ensures |Received(XorAll(Sent(data, m, key), flips), m, |key|, RowCount(|data|, m))[j]| == 8 * m
      <==> Width(m) < Pow2(Markers(8 * m))
  {
    ReceivedIsDamaged(data, m, key, flips);
    var rows := SentRows(data, m);
    DecodedLengths(rows, m, Damaged(EncodeRows(rows), Width(m), flips[..|SentBits(data, m)|]), j);
  }

  lemma DecodedRows(rows: seq<seq<int>>, m: nat, flips: seq<Bit>)
    requires Block(rows, 8 * m) && Width(m) < Pow2(Markers(8 * m)) && |flips| == Times(Width(m), |rows|)
    requires RowsTouchedOnce(flips, Width(m), |rows|)
    ensures Block(EncodeRows(rows), Width(m))
    ensures DecodeRows(Damaged(EncodeRows(rows), Width(m), flips)) == rows
  {
    EncodedBlock(rows, m);
    var got := Damaged(EncodeRows(rows), Width(m), flips);
    forall j | 0 <= j < |rows|
      ensures DecodeRow(got[j]) == rows[j]
    {
      DamagedRow(EncodeRows(rows), Width(m), flips, j);
      DecodeCorrects(rows[j], got[j]);
    }
  }

  lemma TouchedOncePrefix(flips: seq<Bit>, width: nat, c: nat)
    requires |flips| >= Times(width, c) && RowsTouchedOnce(flips, width, c)
    ensures RowsTouchedOnce(flips[..Times(width, c)], width, c)
  {
    var f := flips[..Times(width, c)];
    forall j: nat, i: nat | j < c && i < width && FlipAt(f, c, i, j)
      ensures FlipAt(flips, c, i, j)
    {
    }
  }

  /** With at most one flip in each row, and any flips in the checksum, the sent block comes back exactly when the
      check bits suffice for the row width. */
  lemma PipelineCorrectsExactly(data: seq<int>, m: nat, key: seq<Bit>, flips: seq<Bit>)
    requires m > 0 && data != [] && |key| >= 1
    requires |flips| == |SentBits(data, m)| + |key| - 1
    requires RowsTouchedOnce(flips, Width(m), RowCount(|data|, m))
    ensures |Sent(data, m, key)| == |flips|
    ensures Received(XorAll(Sent(data, m, key), flips), m, |key|, RowCount(|data|, m)) == SentRows(data, m)
      <==> Width(m) < Pow2(Markers(8 * m))
  {
    RowLengthsExact(data, m, key, flips, 0);
    ReceivedIsDamaged(data, m, key, flips);
    if Width(m) < Pow2(Markers(8 * m)) {
      TouchedOncePrefix(flips, Width(m), RowCount(|data|, m));
      DecodedRows(SentRows(data, m), m, flips[..|SentBits(data, m)|]);
    }
  }

  /** The text read from the recovered block is the padded input as shown, so the padded input itself exactly for ASCII
      text. */
  lemma PipelineReturnsText(data: seq<int>, m: nat, key: seq<Bit>, flips: seq<Bit>)
    requires m > 0 && Chars(data) && data != [] && |key| >= 1
    requires |flips| == |SentBits(data, m)| + |key| - 1
    requires RowsTouchedOnce(flips, Width(m), RowCount(|data|, m))
    requires Width(m) < Pow2(Markers(8 * m))
    ensures |Sent(data, m, key)| == |flips|
    ensures var rows := Received(XorAll(Sent(data, m, key), flips), m, |key|, RowCount(|data|, m));
      && Block(rows, 8 * m)
      && Text(rows, m) == ShownAll(Padded(data, m))
      && (Text(rows, m) == Padded(data, m) <==> Ascii(data))
  {
    PipelineCorrectsExactly(data, m, key, flips);
    PaddedIsAscii(data, m);
    TextOfRows(Padded(data, m), m, RowCount(|data|, m));
    ShownExactly(Padded(data, m));
  }

  /** A burst over at most one serialised column length, plus anything in the checksum, is always repaired. */
  lemma BurstIsRepaired(data: seq<int>, m: nat, key: seq<Bit>, flips: seq<Bit>, start: nat)
    requires m > 0 && Chars(data) && data != [] && |key| >= 1
    requires |flips| == |SentBits(data, m)| + |key| - 1
    requires Burst(flips[..|SentBits(data, m)|], start, RowCount(|data|, m))
    requires Width(m) < Pow2(Markers(8 * m))
    ensures |Sent(data, m, key)| == |flips|
    ensures var rows := Received(XorAll(Sent(data, m, key), flips), m, |key|, RowCount(|data|, m));
      && Block(rows, 8 * m)
      && Text(rows, m) == ShownAll(Padded(data, m))
      && (Text(rows, m) == Padded(data, m) <==> Ascii(data))
  {
    BurstTouchesRowsOnce(flips, Width(m), RowCount(|data|, m), start);
    PipelineReturnsText(data, m, key, flips);
  }

  /** 31 characters a row is the first width the check bits do not cover. */
  lemma FirstUncoveredWidth(m: nat)
    requires 1 <= m <= 31
    ensures Width(m) < Pow2(Markers(8 * m)) <==> m < 31
  {
    MarkersIsBitLength(8 * m);
    CoverOfBitLength(m, Markers(8 * m));
  }

  lemma CoverOfBitLength(m: nat, r: nat)
    requires 1 <= m <= 31 && r > 0 && Pow2(r - 1) <= 8 * m < Pow2(r)
    ensures 8 * m + r < Pow2(r) <==> m < 31
  {
    assert Pow2(3) == 8 && Pow2(8) == 256;
    if r < 4 {
      SmallPow2(r, 3);
    } else if r > 8 {
      SmallPow2(8, r - 1);
    } else {
      assert r in {4, 5, 6, 7, 8};
      assert Pow2(4) == 16 && Pow2(5) == 32 && Pow2(6) == 64 && Pow2(7) == 128;
    }
  }

  lemma SmallPow2(a: nat, b: nat)
    requires a <= b
    ensures Pow2(a) <= Pow2(b)
  {
    if a < b {
      Pow2Grows(a, b);
    }
  }
}
