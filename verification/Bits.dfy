/** Bits of numbers: of flag words, identifiers and nonces. */
module Bits {
  import opened Bytes

  /** `word & (1 << i)` is not zero. */
  predicate Bit(word: nat, i: nat) {
    if i == 0 then word % 2 == 1 else Bit(word / 2, i - 1)
  }

  /** `word | (1 << i)`. */
  function SetBit(word: nat, i: nat): nat {
    if i == 0 then word - word % 2 + 1 else word % 2 + 2 * SetBit(word / 2, i - 1)
  }

  lemma {:induction false} BitOfSetBit(word: nat, i: nat, j: nat)
    ensures Bit(SetBit(word, i), j) <==> i == j || Bit(word, j)
  {
    if i > 0 && j > 0 {
      BitOfSetBit(word / 2, i - 1, j - 1);
    }
  }

  lemma {:induction false} SetBitAgain(word: nat, i: nat)
    requires Bit(word, i)
    ensures SetBit(word, i) == word
  {
    if i > 0 {
      SetBitAgain(word / 2, i - 1);
    }
  }

  lemma {:induction false} SetBitStaysSmall(word: nat, i: nat, n: nat)
    requires word < Pow2(n) && i < n
    ensures SetBit(word, i) < Pow2(n)
  {
    if i > 0 {
      SetBitStaysSmall(word / 2, i - 1, n - 1);
    }
  }

  /** A number is determined by its bits. */
  lemma {:induction false} SameBits(a: nat, b: nat)
    requires forall i: nat :: Bit(a, i) <==> Bit(b, i)
    ensures a == b
  {
    assert Bit(a, 0) <==> Bit(b, 0);
    if a > 1 || b > 1 {
      forall i: nat ensures Bit(a / 2, i) <==> Bit(b / 2, i) {
        assert Bit(a, i + 1) <==> Bit(b, i + 1);
      }
      SameBits(a / 2, b / 2);
    }
  }

  /** `Xor` is the exclusive or, bit by bit. */
  lemma {:induction false} XorBits(a: nat, b: nat, n: nat, i: nat)
    ensures Bit(Xor(a, b, n), i) <==> i < n && (Bit(a, i) <==> !Bit(b, i))
  {
    if n == 0 {
      NoBits(i);
    } else if i > 0 {
      XorBits(a / 2, b / 2, n - 1, i - 1);
    }
  }

  lemma {:induction false} NoBits(i: nat)
    ensures !Bit(0, i)
  {
    if i > 0 {
      NoBits(i - 1);
    }
  }

  /** A number put together from its high part and its `n` lowest bits. */
  lemma {:induction false} JoinBits(high: nat, low: nat, n: nat, i: nat)
    requires low < Pow2(n)
    ensures Bit(high * Pow2(n) + low, i) <==> if i < n then Bit(low, i) else Bit(high, i - n)
  {
    if n > 0 {
      var word := high * Pow2(n) + low;
      assert word == 2 * (high * Pow2(n - 1)) + low;
      assert word / 2 == high * Pow2(n - 1) + low / 2 && word % 2 == low % 2;
      if i > 0 {
        JoinBits(high, low / 2, n - 1, i - 1);
      }
    }
  }
}
