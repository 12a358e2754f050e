/** A machine word as the set of its bits, the way pending_notifications and wait_notify_mask are used. */
module Words {
  import opened Common
  import opened BitUtils

  predicate Bit(x: nat, i: nat)
  {
    if i == 0 then x % 2 == 1 else Bit(x / 2, i - 1)
  }

  function Or(x: nat, y: nat): nat
    decreases x + y
  {
    if x == 0 && y == 0 then 0
    else 2 * Or(x / 2, y / 2) + if x % 2 == 1 || y % 2 == 1 then 1 else 0
  }

  /** The bits of a 32-bit word. */
  function Bits(x: nat): set<nat>
  {
    set i: nat | i < 32 && Bit(x, i)
  }

  /** The number of trailing zero bits. */
  function Ctz(x: nat): nat
    requires x > 0
  {
    if x % 2 == 1 then 0 else 1 + Ctz(x / 2)
  }

  /** The word with the given bits below n. */
  function Word(bits: set<nat>, n: nat): nat
  {
    if n == 0 then 0 else Word(bits, n - 1) + if n - 1 in bits then Pow2(n - 1) else 0
  }

  lemma {:induction false} BitZero(i: nat)
    ensures !Bit(0, i)
  {
    if i > 0 {
      BitZero(i - 1);
    }
  }

  lemma {:induction false} BitOr(x: nat, y: nat, i: nat)
    ensures Bit(Or(x, y), i) <==> Bit(x, i) || Bit(y, i)
  {
    if x == 0 && y == 0 {
      BitZero(i);
    } else if i > 0 {
      assert Or(x, y) / 2 == Or(x / 2, y / 2);
      BitOr(x / 2, y / 2, i - 1);
    }
  }

  lemma {:induction false} BitAnd(x: nat, y: nat, i: nat)
    ensures Bit(And(x, y), i) <==> Bit(x, i) && Bit(y, i)
  {
    if x == 0 || y == 0 {
      BitZero(i);
    } else if i > 0 {
      assert And(x, y) / 2 == And(x / 2, y / 2);
      BitAnd(x / 2, y / 2, i - 1);
    }
  }

  lemma {:induction false} BitAndNot(x: nat, y: nat, i: nat)
    ensures Bit(AndNot(x, y), i) <==> Bit(x, i) && !Bit(y, i)
  {
    if x == 0 {
      BitZero(i);
    } else if i > 0 {
      assert AndNot(x, y) / 2 == AndNot(x / 2, y / 2);
      BitAndNot(x / 2, y / 2, i - 1);
    }
  }

  lemma {:induction false} BitPow2(k: nat, i: nat)
    ensures Bit(Pow2(k), i) <==> i == k
  {
    if k == 0 {
      if i > 0 {
        BitZero(i - 1);
      }
    } else if i > 0 {
      BitPow2(k - 1, i - 1);
    }
  }

  /** x & (x - 1) clears the lowest bit, the one __builtin_ctz finds, and no other. */
  lemma {:induction false} ClearsLowest(x: nat, i: nat)
    requires x > 0
    ensures Bit(x, Ctz(x)) && (i < Ctz(x) ==> !Bit(x, i))
    ensures Bit(And(x, x - 1), i) <==> Bit(x, i) && i != Ctz(x)
  {
    BitAnd(x, x - 1, i);
    if x % 2 == 1 {
      assert (x - 1) / 2 == x / 2;
    } else {
      assert (x - 1) / 2 == x / 2 - 1 && (x - 1) % 2 == 1;
      if i > 0 {
        ClearsLowest(x / 2, i - 1);
        BitAnd(x / 2, x / 2 - 1, i - 1);
      } else {
        ClearsLowest(x / 2, 0);
      }
    }
  }

  lemma {:induction false} CtzBelow(x: nat, k: nat)
    requires 0 < x < Pow2(k)
    ensures Ctz(x) < k
  {
    if x % 2 == 0 {
      CtzBelow(x / 2, k - 1);
    }
  }

  lemma {:induction false} BitsBelow(x: nat, k: nat, i: nat)
    requires x < Pow2(k) && i >= k
    ensures !Bit(x, i)
  {
    if k == 0 {
      BitZero(i);
    } else {
      BitsBelow(x / 2, k - 1, i - 1);
    }
  }

  // ----- what the word operations do to the sets

  lemma NoBits(x: nat)
    requires x < U32
    ensures Bits(x) == {} <==> x == 0
  {
    U32IsPow2();
    if x == 0 {
      forall i: nat
        ensures !Bit(0, i)
      {
        BitZero(i);
      }
    } else {
      ClearsLowest(x, 0);
      CtzBelow(x, 32);
      assert Ctz(x) in Bits(x);
    }
  }

  lemma OrBits(x: nat, k: nat)
    requires k < 32
    ensures Bits(Or(x, Pow2(k))) == Bits(x) + {k}
  {
    forall i: nat | i < 32
      ensures i in Bits(Or(x, Pow2(k))) <==> i in Bits(x) + {k}
    {
      BitOr(x, Pow2(k), i);
      BitPow2(k, i);
    }
  }

  lemma AndBits(x: nat, y: nat)
    ensures Bits(And(x, y)) == Bits(x) * Bits(y)
  {
    forall i: nat
      ensures Bit(And(x, y), i) <==> Bit(x, i) && Bit(y, i)
    {
      BitAnd(x, y, i);
    }
  }

  lemma AndNotBits(x: nat, y: nat)
    ensures Bits(AndNot(x, y)) == Bits(x) - Bits(y)
  {
    forall i: nat
      ensures Bit(AndNot(x, y), i) <==> Bit(x, i) && !Bit(y, i)
    {
      BitAndNot(x, y, i);
    }
  }

  lemma PopBits(x: nat)
    requires 0 < x < U32
    ensures Ctz(x) in Bits(x) && (forall i :: i in Bits(x) ==> Ctz(x) <= i) && Bits(And(x, x - 1)) == Bits(x) - {Ctz(x)}
  {
    U32IsPow2();
    CtzBelow(x, 32);
    forall i: nat
      ensures Bit(And(x, x - 1), i) <==> Bit(x, i) && i != Ctz(x)
      ensures Bit(x, Ctz(x)) && (i < Ctz(x) ==> !Bit(x, i))
    {
      ClearsLowest(x, i);
    }
  }

  lemma {:induction false} WordBits(bits: set<nat>, n: nat, i: nat)
    ensures Word(bits, n) < Pow2(n) && (Bit(Word(bits, n), i) <==> i < n && i in bits)
  {
    if n == 0 {
      BitZero(i);
    } else {
      WordBits(bits, n - 1, i);
      if n - 1 in bits {
        AddTop(Word(bits, n - 1), n - 1, i);
      }
    }
  }

  lemma {:induction false} AddTop(x: nat, k: nat, i: nat)
    requires x < Pow2(k)
    ensures Bit(x + Pow2(k), i) <==> Bit(x, i) || i == k
  {
    if k == 0 {
      if i > 0 {
        BitZero(i - 1);
      }
    } else if i > 0 {
      assert (x + Pow2(k)) / 2 == x / 2 + Pow2(k - 1);
      AddTop(x / 2, k - 1, i - 1);
    }
  }

  lemma BitsOfWord(bits: set<nat>)
    requires forall b :: b in bits ==> b < 32
    ensures Bits(Word(bits, 32)) == bits && Word(bits, 32) < U32
  {
    U32IsPow2();
    forall i: nat
      ensures Word(bits, 32) < Pow2(32) && (Bit(Word(bits, 32), i) <==> i < 32 && i in bits)
    {
      WordBits(bits, 32, i);
    }
  }

  lemma {:induction false} AndShrinks(x: nat, y: nat)
    ensures And(x, y) <= x
  {
    if x != 0 && y != 0 {
      AndShrinks(x / 2, y / 2);
    }
  }

  lemma {:induction false} AndNotShrinks(x: nat, y: nat)
    ensures AndNot(x, y) <= x
  {
    if x != 0 {
      AndNotShrinks(x / 2, y / 2);
    }
  }

  lemma {:induction false} OrBelow(x: nat, y: nat, k: nat)
    requires x < Pow2(k) && y < Pow2(k)
    ensures Or(x, y) < Pow2(k)
  {
    if k > 0 {
      OrBelow(x / 2, y / 2, k - 1);
    }
  }
}
