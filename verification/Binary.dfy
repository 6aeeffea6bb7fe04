/** Bits of natural numbers: the bitwise `and` of the C++ code, powers of two, and binary expansion. */
module Binary {

  function And(x: nat, y: nat): nat
    decreases x
  {
    if x == 0 || y == 0 then 0
    else (if x % 2 == 1 && y % 2 == 1 then 1 else 0) + 2 * And(x / 2, y / 2)
  }

  function Pow2(a: nat): (p: nat)
    ensures p > 0
  {
    if a == 0 then 1 else 2 * Pow2(a - 1)
  }

  predicate HasBit(n: nat, a: nat)
    decreases a
  {
    if a == 0 then n % 2 == 1 else HasBit(n / 2, a - 1)
  }

  /** The test of the encoder and decoder for a check-bit position: `k && !(k & (k - 1))`. */
  predicate IsMarker(k: nat) {
    k != 0 && And(k, k - 1) == 0
  }

  /** Number of check-bit positions among 1 .. n. */
  function Markers(n: nat): nat {
    if n == 0 then 0 else Markers(n - 1) + if IsMarker(n) then 1 else 0
  }

  lemma {:induction false} AndSelf(x: nat)
    ensures And(x, x) == x
  {
    if x > 0 {
      AndSelf(x / 2);
    }
  }

  lemma {:induction false} AndPow2(n: nat, a: nat)
    ensures And(n, Pow2(a)) != 0 <==> HasBit(n, a)
    decreases a
  {
    if n == 0 {
      NoBits(a);
    } else if a == 0 {
      assert And(n / 2, 0) == 0;
    } else {
      AndPow2(n / 2, a - 1);
      assert Pow2(a) % 2 == 0 && Pow2(a) / 2 == Pow2(a - 1);
    }
  }

  lemma {:induction false} NoBits(a: nat)
    ensures !HasBit(0, a)
  {
    if a > 0 {
      NoBits(a - 1);
    }
  }

  lemma {:induction false} BitsOfPow2(b: nat, a: nat)
    ensures HasBit(Pow2(b), a) <==> a == b
    decreases b
  {
    if b > 0 {
      assert Pow2(b) % 2 == 0 && Pow2(b) / 2 == Pow2(b - 1);
      if a > 0 {
        BitsOfPow2(b - 1, a - 1);
      }
    } else if a > 0 {
      NoBits(a - 1);
    }
  }

  lemma {:induction false} Pow2IsMarker(a: nat)
    ensures IsMarker(Pow2(a))
  {
    if a > 0 {
      Pow2IsMarker(a - 1);
      var h := Pow2(a - 1);
      assert Pow2(a) == 2 * h && (2 * h - 1) / 2 == h - 1;
    }
  }

  /** The exponent of a check-bit position. */
  lemma {:induction false} MarkerIsPow2(k: nat) returns (a: nat)
    requires IsMarker(k)
    ensures k == Pow2(a)
  {
    if k == 1 {
      a := 0;
    } else if k % 2 == 1 {
      AndSelf(k / 2);
      assert false;
    } else {
      assert (k - 1) / 2 == k / 2 - 1;
      var b := MarkerIsPow2(k / 2);
      a := b + 1;
    }
  }

  lemma {:induction false} Pow2Grows(a: nat, b: nat)
    requires a < b
    ensures Pow2(a) < Pow2(b)
    decreases b
  {
    if a < b - 1 {
      Pow2Grows(a, b - 1);
    }
  }

  /** The number of check bits is the bit length. */
  lemma {:induction false} MarkersIsBitLength(n: nat)
    ensures n < Pow2(Markers(n))
    ensures n > 0 ==> Markers(n) > 0 && Pow2(Markers(n) - 1) <= n
  {
    if n > 0 {
      var r := Markers(n - 1);
      MarkersIsBitLength(n - 1);
      if IsMarker(n) {
        var a := MarkerIsPow2(n);
        if a < r {
          if a < r - 1 {
            Pow2Grows(a, r - 1);
          }
        } else if a > r {
          Pow2Grows(r, a);
        }
      } else {
        Pow2IsMarker(r);
      }
    }
  }

  lemma {:induction false} MarkersGrow(n: nat, n': nat)
    requires n <= n'
    ensures Markers(n) <= Markers(n') <= Markers(n) + n' - n
    ensures Markers(n') == Markers(n) <==> forall k :: n < k <= n' ==> !IsMarker(k)
    decreases n'
  {
    if n < n' {
      MarkersGrow(n, n' - 1);
    }
  }

  /** No further check-bit position appears up to `n'` exactly while `n'` stays below the next power of two. */
  lemma MarkersStay(n: nat, n': nat)
    requires n <= n'
    ensures Markers(n') == Markers(n) <==> n' < Pow2(Markers(n))
  {
    MarkersIsBitLength(n);
    MarkersIsBitLength(n');
    MarkersGrow(n, n');
    if Markers(n) < Markers(n') - 1 {
      Pow2Grows(Markers(n), Markers(n') - 1);
    }
  }

  /** The number whose bits below position `l` are those of `p`. */
  function LowBits(p: nat, l: nat): nat {
    if l == 0 then 0 else LowBits(p, l - 1) + if HasBit(p, l - 1) then Pow2(l - 1) else 0
  }

  lemma {:induction false} LowBitsHalve(p: nat, l: nat)
    requires l > 0
    ensures LowBits(p, l) == p % 2 + 2 * LowBits(p / 2, l - 1)
  {
    if l > 1 {
      LowBitsHalve(p, l - 1);
    }
  }

  /** A number below 2^l is the sum of its bits. */
  lemma {:induction false} LowBitsAreAll(p: nat, l: nat)
    requires p < Pow2(l)
    ensures LowBits(p, l) == p
    decreases l
  {
    if l > 0 {
      LowBitsHalve(p, l);
      LowBitsAreAll(p / 2, l - 1);
    }
  }

  /** Adding 2^l to a number below it sets exactly that bit. */
  lemma {:induction false} BitsOfSum(x: nat, l: nat, a: nat)
    requires x < Pow2(l)
    ensures HasBit(x + Pow2(l), a) <==> HasBit(x, a) || a == l
    decreases l
  {
    if l == 0 {
      if a > 0 {
        NoBits(a - 1);
      }
    } else {
      assert (x + Pow2(l)) / 2 == x / 2 + Pow2(l - 1) && (x + Pow2(l)) % 2 == x % 2;
      if a > 0 {
        BitsOfSum(x / 2, l - 1, a - 1);
      }
    }
  }
}
