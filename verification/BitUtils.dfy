/** Unsigned bit arithmetic of kernel/bit_utils.cpp, on natural numbers.
    Values of C type `unsigned int` are natural numbers below U32; every truncation is written out. */
module BitUtils {
  import opened Common

  function Pow2(k: nat): (r: nat)
    ensures r > 0
  {
    if k == 0 then 1 else 2 * Pow2(k - 1)
  }

  /** x with its k low bits cleared: the largest multiple of 2^k not above x. */
  function RoundDown(x: nat, k: nat): (r: nat)
    ensures r <= x < r + Pow2(k)
  {
    if k == 0 then x else 2 * RoundDown(x / 2, k - 1)
  }

  // ----- bitwise operators, bit by bit

  function And(x: nat, y: nat): nat
  {
    if x == 0 || y == 0 then 0
    else 2 * And(x / 2, y / 2) + (if x % 2 == 1 && y % 2 == 1 then 1 else 0)
  }

  /** x & ~y */
  function AndNot(x: nat, y: nat): nat
  {
    if x == 0 then 0
    else 2 * AndNot(x / 2, y / 2) + (if x % 2 == 1 && y % 2 == 0 then 1 else 0)
  }

  function Xor(x: nat, y: nat): nat
    decreases x + y
  {
    if x == 0 then y
    else if y == 0 then x
    else 2 * Xor(x / 2, y / 2) + (if x % 2 == y % 2 then 0 else 1)
  }

  // ----- the three library functions

  /** Number of significant bits of x; the source counts leading zeros of a 32-bit word. */
  function BitWidth(x: nat): (r: nat)
    ensures x == 0 ==> r == 0
    ensures x > 0 ==> r > 0 && Pow2(r - 1) <= x < Pow2(r)
  {
    if x == 0 then 0 else 1 + BitWidth(x / 2)
  }

  lemma PowZero()
    ensures Pow2(0) == 1
  {
  }

  function BitWidthCeil(x: nat): nat
  {
    if x == 0 then 0
    else if And(x, x - 1) == 0 then BitWidth(x) - 1
    else BitWidth(x)
  }

  /** align_up takes and returns 32-bit words: arguments, sum and result are truncated. */
  function AlignUp(value: nat, alignment: nat): nat
    requires alignment < U32
  {
    if alignment == 0 then AndNot((value % U32 + U32 - 1) % U32, U32 - 1)
    else AndNot((value % U32 + alignment - 1) % U32, alignment - 1)
  }

  /** An alignment of 0 wraps to a mask of all ones. */
  lemma AlignUpZero(value: nat)
    ensures AlignUp(value, 0) == 0
  {
    U32IsPow2();
    var x := (value % U32 + U32 - 1) % U32;
    AndNotMask(x, 32);
    RoundDownUnique(x, 32, 0);
    RoundDownNone(32);
  }

  lemma {:induction false} RoundDownNone(k: nat)
    ensures RoundDown(0, k) == 0
  {
    if k > 0 {
      RoundDownNone(k - 1);
    }
  }

  // ----- powers of two

  lemma Pow2Succ(k: nat)
    ensures Pow2(k + 1) == 2 * Pow2(k)
  {
  }

  lemma {:induction false} Pow2Add(a: nat, b: nat)
    ensures Pow2(a + b) == Pow2(a) * Pow2(b)
  {
    if a == 0 {
    } else {
      Pow2Add(a - 1, b);
    }
  }

  lemma {:induction false} Pow2Monotone(a: nat, b: nat)
    requires a <= b
    ensures Pow2(a) <= Pow2(b)
    ensures a < b ==> 2 * Pow2(a) <= Pow2(b)
  {
    if a < b {
      Pow2Monotone(a, b - 1);
    }
  }

  lemma U32IsPow2()
    ensures Pow2(32) == U32
  {
    assert Pow2(8) == 256;
    Pow2Add(8, 8);
    Pow2Add(16, 16);
  }

  // ----- rounding down: multiples of 2^k

  lemma {:induction false} RoundDownUnique(x: nat, k: nat, p: nat)
    requires RoundDown(p, k) == p && p <= x < p + Pow2(k)
    ensures RoundDown(x, k) == p
  {
    if k > 0 {
      RoundDownUnique(x / 2, k - 1, p / 2);
    }
  }

  lemma {:induction false} RoundDownIdempotent(x: nat, k: nat)
    ensures RoundDown(RoundDown(x, k), k) == RoundDown(x, k)
  {
    if k > 0 {
      RoundDownIdempotent(x / 2, k - 1);
    }
  }

  /** One more bit cleared: the same multiple, or the one 2^k below. */
  lemma {:induction false} RoundDownHalves(x: nat, k: nat)
    ensures RoundDown(x, k) == RoundDown(x, k + 1) || RoundDown(x, k) == RoundDown(x, k + 1) + Pow2(k)
    ensures RoundDown(x, k) == RoundDown(x, k + 1) <==> x < RoundDown(x, k + 1) + Pow2(k)
  {
    if k == 0 {
      assert RoundDown(x / 2, 0) == x / 2;
    } else {
      RoundDownHalves(x / 2, k - 1);
    }
  }

  lemma {:induction false} RoundDownShift(x: nat, j: nat, k: nat)
    requires j <= k
    ensures RoundDown(x + Pow2(k), j) == RoundDown(x, j) + Pow2(k)
  {
    if j > 0 {
      RoundDownShift(x / 2, j - 1, k - 1);
      assert (x + Pow2(k)) / 2 == x / 2 + Pow2(k - 1);
    }
  }

  lemma {:induction false} RoundDownMonotone(x: nat, y: nat, k: nat)
    requires x <= y
    ensures RoundDown(x, k) <= RoundDown(y, k)
  {
    if k > 0 {
      RoundDownMonotone(x / 2, y / 2, k - 1);
    }
  }

  lemma {:induction false} RoundDownPow2(j: nat, k: nat)
    requires j <= k
    ensures RoundDown(Pow2(k), j) == Pow2(k)
  {
    if j > 0 {
      RoundDownPow2(j - 1, k - 1);
    }
  }

  lemma {:induction false} RoundDownIsMod(x: nat, k: nat)
    ensures RoundDown(x, k) == x - x % Pow2(k)
  {
    if k > 0 {
      RoundDownIsMod(x / 2, k - 1);
      ModHalf(x, Pow2(k - 1));
    }
  }

  /** A multiple of 2^k below another multiple of 2^k is at least 2^k below it. */
  lemma {:induction false} MultiplesApart(p: nat, q: nat, k: nat)
    requires RoundDown(p, k) == p && RoundDown(q, k) == q && p < q
    ensures p + Pow2(k) <= q
  {
    if k > 0 {
      MultiplesApart(p / 2, q / 2, k - 1);
    }
  }

  // ----- division facts the solver needs spelled out

  lemma MulSpread(m: int, d: int)
    requires m >= 0
    ensures d >= 1 ==> m * d >= m
    ensures d <= -1 ==> m * d <= -m
  {
  }

  lemma DivModUnique(i: int, m: int, q: int, r: int)
    requires i == m * q + r && 0 <= r < m
    ensures i / m == q && i % m == r
  {
    var d := i / m - q;
    assert m * d == r - i % m;
    MulSpread(m, d);
  }

  lemma ModHalf(x: nat, m: nat)
    requires m > 0
    ensures x % (2 * m) == 2 * ((x / 2) % m) + x % 2
  {
    var h := x / 2;
    var q, r := h / m, h % m;
    assert h == m * q + r;
    assert x == (2 * m) * q + (2 * r + x % 2);
    DivModUnique(x, 2 * m, q, 2 * r + x % 2);
  }

  // ----- what the bitwise operators compute

  lemma {:induction false} AndSelf(x: nat)
    ensures And(x, x) == x
  {
    if x > 0 {
      AndSelf(x / 2);
    }
  }

  /** The classic test: clearing the lowest set bit leaves zero exactly for powers of two. */
  lemma {:induction false} PowerOfTwoTest(x: nat)
    requires x > 0
    ensures And(x, x - 1) == 0 <==> x == Pow2(BitWidth(x) - 1)
  {
    if x == 1 {
    } else if x % 2 == 0 {
      PowerOfTwoTest(x / 2);
      assert (x - 1) / 2 == x / 2 - 1;
    } else {
      AndSelf(x / 2);
      assert (x - 1) / 2 == x / 2;
      assert Pow2(BitWidth(x) - 1) == 2 * Pow2(BitWidth(x) - 2);
    }
  }

  /** bit_width_ceil is the ceiling of the base-two logarithm. */
  lemma BitWidthCeilIsCeilLog(x: nat)
    requires x > 0
    ensures x <= Pow2(BitWidthCeil(x))
    ensures BitWidthCeil(x) > 0 ==> Pow2(BitWidthCeil(x) - 1) < x
  {
    PowerOfTwoTest(x);
    var w := BitWidth(x);
    if And(x, x - 1) == 0 && w >= 2 {
      assert Pow2(w - 1) == 2 * Pow2(w - 2);
    }
  }

  /** Masking off k low bits rounds down to a multiple of 2^k. */
  lemma {:induction false} AndNotMask(x: nat, k: nat)
    ensures AndNot(x, Pow2(k) - 1) == RoundDown(x, k)
  {
    if x == 0 {
      RoundDownUnique(0, k, 0);
    } else if k == 0 {
      AndNotZero(x);
    } else {
      AndNotMask(x / 2, k - 1);
    }
  }

  lemma {:induction false} AndNotZero(x: nat)
    ensures AndNot(x, 0) == x
  {
    if x > 0 {
      AndNotZero(x / 2);
    }
  }

  /** Exclusive-or with a power of two flips that bit and nothing else. */
  lemma {:induction false} XorPow2(x: nat, k: nat)
    ensures Xor(x, Pow2(k)) ==
            if RoundDown(x, k) == RoundDown(x, k + 1) then x + Pow2(k) else x - Pow2(k)
  {
    if x == 0 {
      RoundDownHalves(0, k);
    } else if k == 0 {
      assert RoundDown(x / 2, 0) == x / 2;
    } else {
      XorPow2(x / 2, k - 1);
    }
  }

  /** A multiple of 2^k below 2^32 leaves room for another 2^k. */
  lemma RoomBelowU32(up: nat, k: nat)
    requires k < 32 && RoundDown(up, k) == up && up < U32
    ensures up + Pow2(k) <= U32
  {
    var w := 32;
    U32IsPow2();
    RoundDownPow2(k, w);
    MultiplesApart(up, Pow2(w), k);
  }

  lemma Pow2BelowU32(k: nat)
    requires k < 32
    ensures Pow2(k) < U32
  {
    var w := 32;
    U32IsPow2();
    Pow2Monotone(k, w);
  }

  /** align_up yields the least multiple of 2^k not below value exactly when that multiple fits 32 bits. */
  lemma AlignUpExact(value: nat, k: nat, up: nat)
    requires k < 32
    requires RoundDown(up, k) == up && value <= up < value + Pow2(k)
    ensures 0 < Pow2(k) < U32
    ensures AlignUp(value, Pow2(k)) == up <==> up < U32
  {
    hide RoundDown, Pow2, AndNot;
    var a := Pow2(k);
    Pow2BelowU32(k);
    var sum := (value % U32 + a - 1) % U32;
    AndNotMask(sum, k);
    if up < U32 {
      RoomBelowU32(up, k);
      assert sum == value + a - 1;
      RoundDownUnique(sum, k, up);
    }
  }
}
