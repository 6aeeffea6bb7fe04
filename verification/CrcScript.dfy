/** The Python CRC script: the same division on strings of digits, skipping the leading position outright. */
module CrcScript {
  import opened Crc

  predicate Binary(s: string) {
    forall c :: c in s ==> c in {'0', '1'}
  }

  function Bits(s: string): (r: seq<Bit>)
    ensures |r| == |s|
  {
    seq(|s|, i requires 0 <= i < |s| => if s[i] == '1' then 1 else 0)
  }

  /** Compares positions 1 .. of two strings; the result is one shorter than `b`. */
  method XorTail(a: string, b: string) returns (result: string)
    requires 1 <= |b| <= |a|
    ensures Binary(result) && |result| == |b| - 1
    ensures forall i :: 0 <= i < |result| ==> result[i] == if a[i + 1] == b[i + 1] then '0' else '1'
  {
    result := "";
    for i := 1 to |b|
      invariant Binary(result) && |result| == i - 1
      invariant forall j :: 0 <= j < |result| ==> result[j] == if a[j + 1] == b[j + 1] then '0' else '1'
    {
      if a[i] == b[i] {
        result := result + "0";
      } else {
        result := result + "1";
      }
    }
  }

  /** One step of the script's division: XOR with the divisor or with zeros, first position dropped. */
  method Reduce(tmp: string, divisor: string, pick: nat) returns (r: string)
    requires Binary(tmp) && Binary(divisor) && 1 <= |tmp| <= |divisor| <= pick
    ensures Binary(r) && |r| == |tmp| - 1
    ensures Bits(r) == Cut(Bits(tmp), Bits(divisor)[..|tmp|])
  {
    if tmp[0] == '1' {
      r := XorTail(divisor, tmp);
    } else {
      r := XorTail(seq(pick, _ => '0'), tmp);
    }
    forall i | 0 <= i < |r|
      ensures Bits(r)[i] == Cut(Bits(tmp), Bits(divisor)[..|tmp|])[i]
    {
      assert tmp[i + 1] in tmp && divisor[i + 1] in divisor;
    }
  }

  /** Pulling one digit down behind the reduced register. */
  lemma PullDown(tmp: string, low: string, divident: string, divisor: string, pick: nat)
    requires 1 <= |tmp| == |divisor| && pick < |divident| && Bits(low) == Cut(Bits(tmp), Bits(divisor))
    ensures Remainder(Bits(low + [divident[pick]]) + Bits(divident)[pick + 1..], Bits(divisor))
      == Remainder(Bits(tmp) + Bits(divident)[pick..], Bits(divisor))
  {
    var f := Bits(divident);
    CutRegister(Bits(tmp), f[pick..], Bits(divisor));
    assert Bits(low + [divident[pick]]) == Bits(low) + [f[pick]];
    assert [f[pick]] + f[pick + 1..] == f[pick..];
    assert Bits(low + [divident[pick]]) + f[pick + 1..] == Bits(low) + f[pick..];
  }

  /** For a dividend at least as long as the divisor this is the remainder `Crc.Division` computes, whatever the
      divisor starts with; a shorter dividend is reduced once by as much of the divisor as it is long. */
  method Mod2Div(divident: string, divisor: string) returns (checkword: string)
    requires Binary(divident) && Binary(divisor) && divident != [] && divisor != []
    ensures Binary(checkword)
    ensures |divident| >= |divisor| ==> Bits(checkword) == Remainder(Bits(divident), Bits(divisor))
    ensures |divident| < |divisor| ==> Bits(checkword) == Cut(Bits(divident), Bits(divisor)[..|divident|])
  {
    var key, f := Bits(divisor), Bits(divident);
    var pick := |divisor|;
    var tmp := if pick < |divident| then divident[..pick] else divident;
    assert Binary(tmp) by {
      assert forall c :: c in tmp ==> c in divident;
    }
    if |divident| >= |divisor| {
      assert Bits(tmp) + f[pick..] == f;
    }
    while pick < |divident|
      invariant |divisor| <= pick
      invariant |divident| >= |divisor| ==> pick <= |divident| && |tmp| == |divisor|
      invariant |divident| < |divisor| ==> tmp == divident
      invariant Binary(tmp)
      invariant |divident| >= |divisor| ==> Remainder(Bits(tmp) + f[pick..], key) == Remainder(f, key)
    {
      var low := Reduce(tmp, divisor, pick);
      assert key[..|divisor|] == key;
      assert divident[pick] in divident;
      PullDown(tmp, low, divident, divisor, pick);
      tmp := low + [divident[pick]];
      pick := pick + 1;
    }
    if |divident| >= |divisor| {
      assert Bits(tmp) + f[pick..] == Bits(tmp);
    }
    checkword := Reduce(tmp, divisor, pick);
    assert key[..|divisor|] == key;
  }

  /** Zeros reduced once by part of the key are zeros. */
  lemma ShortZeros(zeros: string, key: string, reduced: string)
    requires Binary(key) && Binary(reduced) && |key| > 1 && zeros == seq(|key| - 1, _ => '0')
    requires Bits(reduced) == Cut(Bits(zeros), Bits(key)[..|zeros|])
    ensures reduced == seq(|key| - 2, _ => '0')
  {
    assert Bits(zeros)[0] == 0;
    forall i | 0 <= i < |reduced|
      ensures reduced[i] == '0'
    {
      assert Bits(reduced)[i] == Bits(zeros)[i + 1] == 0;
      assert reduced[i] in reduced;
    }
  }

  /** Data with its checksum appended divides without remainder; empty data gets a checksum one digit too short. */
  method EncodeData(data: string, key: string) returns (codeword: string)
    requires Binary(data) && Binary(key) && key != [] && |data| + |key| > 1
    ensures data <= codeword && Binary(codeword)
    ensures data == [] ==> codeword == seq(|key| - 2, _ => '0')
    ensures data != [] ==> Bits(codeword) == SentFrame(Bits(data), Bits(key))
    ensures data != [] ==> AllZero(Remainder(Bits(codeword), Bits(key)))
  {
    var appended := data + seq(|key| - 1, _ => '0');
    var remainder := Mod2Div(appended, key);
    codeword := data + remainder;
    if data == [] {
      ShortZeros(appended, key, remainder);
    }
    if data != [] {
      assert Bits(appended) == Bits(data) + Zeros(|key| - 1);
      assert Bits(codeword) == Bits(data) + Bits(remainder);
      SentFrameIsClean(Bits(data), Bits(key));
    }
  }

  /** Both programs divide alike: on a key starting with 1 and a frame at least as long they agree digit for digit. */
  method DivideBothWays(frame: string, key: string) returns (cpp: seq<Bit>, python: string)
    requires Binary(frame) && Binary(key) && 1 <= |key| <= |frame| && key[0] == '1'
    ensures cpp == Bits(python) && |cpp| == |key| - 1
    ensures forall q: seq<Bit>, r: seq<Bit> ::
      |r| + 1 == |key| && Bits(frame) == Composite(q, r, Bits(key)) ==> r == cpp
  {
    cpp := Division(Bits(frame), Bits(key));
    python := Mod2Div(frame, key);
    forall q: seq<Bit>, r: seq<Bit> | |r| + 1 == |key| && Bits(frame) == Composite(q, r, Bits(key))
      ensures r == cpp
    {
      DivisionIsUnique(Bits(frame), Bits(key), q, r);
    }
  }
}
