/**
  * src/math/alignment.hpp. The arithmetic is done on machine words of `w` bits: subtraction
  * wraps modulo 2^w and the bitwise conjunction works bit by bit.
  */
module Alignment {
  import opened Basics
  import opened Arithmetic

  datatype AlignmentError = NegativeValue | NotPowerOfTwo

  function Pow2(k: nat): (r: nat)
    ensures r > 0
  {
    if k == 0 then 1 else 2 * Pow2(k - 1)
  }

  /** Bitwise conjunction of two non-negative words. */
  function And(a: nat, b: nat): nat {
    if a == 0 || b == 0 then 0
    else 2 * And(a / 2, b / 2) + (if a % 2 == 1 && b % 2 == 1 then 1 else 0)
  }

  /** a - b on words of `w` bits. */
  function Sub(a: int, b: int, w: nat): nat {
    (a - b) % Pow2(w)
  }

  predicate IsPowerOfTwo(number: nat, w: nat) {
    And(number, Sub(number, 1, w)) == 0
  }

  function Padding(value: int, alignment: nat, w: nat): Result<nat, AlignmentError> {
    if value < 0 then Err(NegativeValue)
    else if !IsPowerOfTwo(alignment, w) then Err(NotPowerOfTwo)
    else Ok(And(Sub(0, value, w), Sub(alignment, 1, w)))
  }

  function Aligned(value: int, alignment: nat, w: nat): Result<nat, AlignmentError> {
    if value < 0 then Err(NegativeValue)
    else if !IsPowerOfTwo(alignment, w) then Err(NotPowerOfTwo)
    else Ok(And((value + Sub(alignment, 1, w)) % Pow2(w), Sub(0, alignment, w)))
  }

  // ---------------------------------------------------------------------------
  // Bit-level facts
  // ---------------------------------------------------------------------------

  lemma {:induction false} AndSelf(a: nat)
    ensures And(a, a) == a
  {
    if a > 0 {
      AndSelf(a / 2);
    }
  }

  /** A mask of `k` low ones keeps the remainder modulo 2^k. */
  lemma {:induction false} AndLowMask(a: nat, k: nat)
    ensures And(a, Pow2(k) - 1) == a % Pow2(k)
  {
    if k > 0 {
      AndLowMask(a / 2, k - 1);
      ModDouble(a, Pow2(k - 1));
    }
  }

  /** A mask of the bits from `k` up to `w` drops the remainder modulo 2^k. */
  lemma {:induction false} AndHighMask(a: nat, k: nat, w: nat)
    requires k <= w && a < Pow2(w)
    ensures Pow2(k) <= Pow2(w)
    ensures And(a, Pow2(w) - Pow2(k)) == a - a % Pow2(k)
  {
    Pow2Monotone(k, w);
    if k == 0 {
      AndLowMask(a, w);
      ModSmall(a, Pow2(w));
      assert a % Pow2(k) == 0;
    } else {
      AndHighMask(a / 2, k - 1, w - 1);
      ModDouble(a, Pow2(k - 1));
      AndEvenMask(a, Pow2(w - 1) - Pow2(k - 1));
    }
  }

  lemma AndEvenMask(a: nat, half: nat)
    ensures And(a, 2 * half) == 2 * And(a / 2, half)
  {
    if a > 0 && half > 0 {
      assert (2 * half) / 2 == half && (2 * half) % 2 == 0;
    }
  }

  lemma {:induction false} Pow2Monotone(k: nat, w: nat)
    requires k <= w
    ensures Pow2(k) <= Pow2(w)
    decreases w
  {
    if k < w {
      Pow2Monotone(k, w - 1);
    }
  }

  lemma {:induction false} Pow2Factor(k: nat, w: nat)
    requires k <= w
    ensures Pow2(w) == Pow2(k) * Pow2(w - k)
    decreases w
  {
    if k < w {
      Pow2Factor(k, w - 1);
      Associate(2, Pow2(k), Pow2(w - 1 - k));
      Associate(Pow2(k), 2, Pow2(w - 1 - k));
    }
  }

  // ---------------------------------------------------------------------------
  // What the three functions mean
  // ---------------------------------------------------------------------------

  /** Among positive numbers n & (n - 1) == 0 holds exactly of the powers of two. */
  lemma {:induction false} PowerOfTwoIff(n: nat)
    requires n > 0
    ensures And(n, n - 1) == 0 <==> exists k: nat :: n == Pow2(k)
  {
    if n == 1 {
      assert n == Pow2(0);
    } else if n % 2 == 1 {
      assert (n - 1) / 2 == n / 2;
      AndSelf(n / 2);
      forall k: nat ensures n != Pow2(k) {
        if k > 0 {
          assert Pow2(k) == 2 * Pow2(k - 1);
        }
      }
    } else {
      assert (n - 1) / 2 == n / 2 - 1;
      PowerOfTwoIff(n / 2);
      if And(n, n - 1) == 0 {
        var k: nat :| n / 2 == Pow2(k);
        assert n == Pow2(k + 1);
      } else {
        forall k: nat ensures n != Pow2(k) {
          if k > 0 {
            assert n / 2 != Pow2(k - 1);
          }
        }
      }
    }
  }

  /**
    * The guard as written accepts the powers of two and also zero, which is none of them:
    * the name and the documentation hold exactly for non-zero arguments.
    */
  lemma GuardAcceptsPowersAndZero(n: nat, w: nat)
    requires n < Pow2(w)
    ensures IsPowerOfTwo(n, w) <==> n == 0 || exists k: nat :: n == Pow2(k)
    ensures (IsPowerOfTwo(n, w) <==> exists k: nat :: n == Pow2(k)) <==> n != 0
  {
    if n > 0 {
      ModSmall(n - 1, Pow2(w));
      PowerOfTwoIff(n);
    }
  }

  predicate Fits(value: int, fill: nat, alignment: nat)
    requires alignment > 0
  {
    (value + fill) % alignment == 0
  }

  /** The mask form of `padding` is the remainder of the negated value. */
  lemma PaddingIsRemainder(value: int, k: nat, w: nat)
    requires k < w && 0 <= value
    ensures Pow2(k) < Pow2(w)
    ensures Padding(value, Pow2(k), w) == Ok(Mod(-value, Pow2(k)))
  {
    Pow2Monotone(k + 1, w);
    GuardAcceptsPowersAndZero(Pow2(k), w);
    ModSmall(Pow2(k) - 1, Pow2(w));
    MaskOfNegated(value, k, w);
  }

  lemma MaskOfNegated(value: int, k: nat, w: nat)
    requires k <= w
    ensures And(Sub(0, value, w), Pow2(k) - 1) == (-value) % Pow2(k)
  {
    AndLowMask(Sub(0, value, w), k);
    Pow2Factor(k, w);
    ModOfMod(-value, Pow2(k), Pow2(w - k));
  }

  /** `padding` succeeds on every word and power of two, with the least amount that fits. */
  lemma PaddingIsLeast(value: int, k: nat, w: nat)
    requires k < w && 0 <= value < Pow2(w)
    ensures Padding(value, Pow2(k), w).Ok?
    ensures var p := Padding(value, Pow2(k), w).value;
            p < Pow2(k) && Fits(value, p, Pow2(k))
            && forall q: nat :: Fits(value, q, Pow2(k)) ==> p <= q
  {
    PaddingIsRemainder(value, k, w);
    forall q: nat | Fits(value, q, Pow2(k)) ensures Mod(-value, Pow2(k)) <= q {
      LeastFill(value, Pow2(k), q);
    }
    LeastFill(value, Pow2(k), 0);
  }

  /** `aligned` is value + padding modulo the word: equal to it exactly when the sum fits. */
  lemma AlignedIsValuePlusPadding(value: int, k: nat, w: nat)
    requires k < w && 0 <= value < Pow2(w)
    ensures Padding(value, Pow2(k), w).Ok? && Aligned(value, Pow2(k), w).Ok?
    ensures var sum := value + Padding(value, Pow2(k), w).value;
            Aligned(value, Pow2(k), w).value == sum % Pow2(w)
            && (Aligned(value, Pow2(k), w).value == sum <==> sum < Pow2(w))
  {
    PaddingIsRemainder(value, k, w);
    AlignedForm(value, k, w);
    AlignedValue(value, Mod(-value, Pow2(k)), k, w);
  }

  lemma AlignedValue(value: int, p: nat, k: nat, w: nat)
    requires k < w && 0 <= value < Pow2(w) && p == Mod(-value, Pow2(k))
    ensures Pow2(k) < Pow2(w)
    ensures And((value + (Pow2(k) - 1)) % Pow2(w), Pow2(w) - Pow2(k)) == (value + p) % Pow2(w)
    ensures (value + p) % Pow2(w) == value + p <==> value + p < Pow2(w)
  {
    var a, m, n := Pow2(k), Pow2(w - k), Pow2(w);
    assert (value + p) % a == 0 by { LeastFill(value, a, 0); }
    assert n == a * m by { Pow2Factor(k, w); }
    assert a < n by { Pow2Monotone(k + 1, w); }
    AlignedBits(value, k, w, value + p, a - 1 - p);
    RoundedUp(value, p, a, m, n);
  }

  /** The guards passed and the words `alignment - 1` and `-alignment` evaluated. */
  lemma AlignedForm(value: int, k: nat, w: nat)
    requires k < w && 0 <= value
    ensures Pow2(k) < Pow2(w)
    ensures Aligned(value, Pow2(k), w)
         == Ok(And((value + (Pow2(k) - 1)) % Pow2(w), Pow2(w) - Pow2(k)))
  {
    Pow2Monotone(k + 1, w);
    GuardAcceptsPowersAndZero(Pow2(k), w);
    ModSmall(Pow2(k) - 1, Pow2(w));
    ModIs(0 - Pow2(k), Pow2(w), -1, Pow2(w) - Pow2(k));
  }

  /** Clearing the low bits takes away what the sum exceeds the next multiple by. */
  lemma AlignedBits(value: nat, k: nat, w: nat, sum: nat, excess: nat)
    requires k < w && value < Pow2(w)
    requires sum % Pow2(k) == 0 && excess < Pow2(k) && value + (Pow2(k) - 1) == sum + excess
    ensures Pow2(k) <= Pow2(w)
    ensures And((value + (Pow2(k) - 1)) % Pow2(w), Pow2(w) - Pow2(k))
         == (value + (Pow2(k) - 1)) % Pow2(w) - excess
  {
    var a, n := Pow2(k), Pow2(w);
    Pow2Monotone(k, w);
    Pow2Factor(k, w);
    var y := value + (a - 1);
    DivMod(y, n);
    AndHighMask(y % n, k, w);
    ModOfMod(y, a, Pow2(w - k));
    DivMod(sum, a);
    ModIs(y, a, sum / a, excess);
  }

  // ---------------------------------------------------------------------------
  // The instance the stream buffers use: padding to 8 on 64-bit sizes
  // ---------------------------------------------------------------------------

  const SIZE_BITS: nat := 64

  function Padding8(n: int): (p: nat)
    ensures p < 8 && (n + p) % 8 == 0
  {
    Mod(-n, 8)
  }

  lemma PaddingTo8(n: int)
    requires 0 <= n
    ensures Padding(n, 8, SIZE_BITS) == Ok(Padding8(n))
  {
    PaddingIsRemainder(n, 3, SIZE_BITS);
    assert Pow2(3) == 8;
  }

  method PaddingFor8(n: nat) returns (p: nat)
    ensures p == Padding8(n)
  {
    PaddingTo8(n);
    p := Padding(n, 8, SIZE_BITS).value;
  }

  predicate IsLargestMultipleOf8(usable: int, size: int) {
    usable % 8 == 0 && size - 8 < usable <= size
  }

  /** The size arithmetic of setbuf: the largest multiple of 8 that is not above `size`. */
  lemma RoundDownTo8(size: nat)
    ensures IsLargestMultipleOf8(size - (8 - Padding8(size)) % 8, size)
  {
    assert (size + Padding8(size)) % 8 == 0;
  }
}
