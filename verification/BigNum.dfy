/** Big numbers as the key exchange uses them: big-endian strings and modular powers. */
module BigNum {
  import opened Bytes

  /** `from_binary`. */
  function FromBinary(s: seq<byte>): nat {
    if s == [] then 0 else 256 * FromBinary(s[..|s| - 1]) + s[|s| - 1]
  }

  /** `to_binary()`: as many bytes as the number needs, none for zero. */
  function ToBinary(n: nat): seq<byte> {
    if n == 0 then [] else ToBinary(n / 256) + [n % 256]
  }

  /** `to_binary(exact_size)`, whose check fails on a longer number. */
  function ToBinaryExact(n: nat, size: nat): (s: seq<byte>)
    requires |ToBinary(n)| <= size
    ensures |s| == size
  {
    Zeros(size - |ToBinary(n)|) + ToBinary(n)
  }

  lemma {:induction false} BinaryRoundTrip(n: nat)
    ensures FromBinary(ToBinary(n)) == n
    ensures n > 0 ==> ToBinary(n) != [] && ToBinary(n)[0] != 0
  {
    if n > 0 {
      BinaryRoundTrip(n / 256);
      var s := ToBinary(n);
      assert s[..|s| - 1] == ToBinary(n / 256);
    }
  }

  /** Leading zeros do not change the number. */
  lemma {:induction false} LeadingZeros(k: nat, s: seq<byte>)
    ensures FromBinary(Zeros(k) + s) == FromBinary(s)
    decreases k + |s|
  {
    var all := Zeros(k) + s;
    if s != [] {
      LeadingZeros(k, s[..|s| - 1]);
      assert all[..|all| - 1] == Zeros(k) + s[..|s| - 1];
    } else if k > 0 {
      LeadingZeros(k - 1, s);
      assert all[..|all| - 1] == Zeros(k - 1) + s;
    }
  }

  /** The padded form is read back as the same number. */
  lemma ExactRoundTrip(n: nat, size: nat)
    requires |ToBinary(n)| <= size
    ensures FromBinary(ToBinaryExact(n, size)) == n
  {
    LeadingZeros(size - |ToBinary(n)|, ToBinary(n));
    BinaryRoundTrip(n);
  }

  lemma {:induction false} PositiveIff(s: seq<byte>)
    requires s != [] && s[0] != 0
    ensures FromBinary(s) > 0
  {
    if |s| > 1 {
      PositiveIff(s[..|s| - 1]);
    }
  }

  /** Reading and writing a string gives it back exactly when it has no leading zero byte. */
  lemma {:induction false} StringRoundTripIff(s: seq<byte>)
    ensures ToBinary(FromBinary(s)) == s <==> s == [] || s[0] != 0
  {
    if s != [] {
      BinaryRoundTrip(FromBinary(s));
      if s[0] != 0 {
        PositiveIff(s);
        var n := |s| - 1;
        StringRoundTripIff(s[..n]);
        assert FromBinary(s) / 256 == FromBinary(s[..n]) && FromBinary(s) % 256 == s[n];
      }
    }
  }

  lemma {:induction false} LengthMonotone(m: nat, n: nat)
    requires m <= n
    ensures |ToBinary(m)| <= |ToBinary(n)|
  {
    if m > 0 {
      assert m / 256 <= n / 256;
      LengthMonotone(m / 256, n / 256);
    }
  }

  function NumBits(n: nat): nat {
    if n == 0 then 0 else 1 + NumBits(n / 2)
  }

  /** A number has `k` bits exactly when it lies between the powers of two. */
  lemma {:induction false} BitsOfSize(n: nat, k: nat)
    requires k > 0
    ensures NumBits(n) == k <==> Pow2(k - 1) <= n < Pow2(k)
    decreases k
  {
    if k > 1 {
      BitsOfSize(n / 2, k - 1);
    }
  }

  lemma EightBits(n: nat)
    requires n >= 256
    ensures NumBits(n) == 8 + NumBits(n / 256)
  {
    var a, b, c, d := n / 2, n / 4, n / 8, n / 16;
    var e, f, g, h := n / 32, n / 64, n / 128, n / 256;
    assert a / 2 == b && b / 2 == c && c / 2 == d && d / 2 == e && e / 2 == f && f / 2 == g && g / 2 == h;
    assert NumBits(n) == 2 + NumBits(b);
    assert NumBits(b) == 2 + NumBits(d);
    assert NumBits(d) == 2 + NumBits(f);
    assert NumBits(f) == 2 + NumBits(h);
  }

  lemma SmallBits(n: nat)
    requires 0 < n < 256
    ensures 1 <= NumBits(n) <= 8
  {
    assert NumBits(n) == 1 + NumBits(n / 2);
    BitsBelow(n, 8);
  }

  lemma {:induction false} BitsBelow(n: nat, k: nat)
    requires n < Pow2(k)
    ensures NumBits(n) <= k
  {
    if n > 0 {
      BitsBelow(n / 2, k - 1);
    }
  }

  /** Eight bits to a byte, the last byte perhaps not full. */
  lemma {:induction false} BytesOfBits(n: nat)
    ensures |ToBinary(n)| == (NumBits(n) + 7) / 8
  {
    if n >= 256 {
      EightBits(n);
      BytesOfBits(n / 256);
    } else if n > 0 {
      SmallBits(n);
      assert ToBinary(n / 256) == [];
    }
  }

  /** A positive number has its leading bit set. */
  lemma {:induction false} LeadingBit(n: nat)
    requires n > 0
    ensures Pow2(NumBits(n) - 1) <= n < Pow2(NumBits(n))
  {
    if n > 1 {
      LeadingBit(n / 2);
    } else {
      assert NumBits(1) == 1 + NumBits(0);
      assert Pow2(0) == 1 && Pow2(1) == 2 * Pow2(0);
    }
  }

  // ---------------------------------------------------------------- powers

  function Pow(b: nat, e: nat): nat {
    if e == 0 then 1 else b * Pow(b, e - 1)
  }

  /** `mod_exp`. */
  function ModExp(b: nat, e: nat, m: nat): (r: nat)
    requires m > 0
    ensures r < m
  {
    Pow(b, e) % m
  }

  lemma {:induction false} PowAdd(b: nat, e: nat, f: nat)
    ensures Pow(b, e + f) == Pow(b, e) * Pow(b, f)
  {
    if e > 0 {
      PowAdd(b, e - 1, f);
      Associate(b, Pow(b, e - 1), Pow(b, f));
    }
  }

  lemma Associate(a: nat, b: nat, c: nat)
    ensures a * (b * c) == (a * b) * c
  {
  }

  lemma {:induction false} PowMul(b: nat, e: nat, f: nat)
    ensures Pow(Pow(b, e), f) == Pow(b, e * f)
  {
    if f == 0 {
      assert e * f == 0;
    } else {
      PowMul(b, e, f - 1);
      PowAdd(b, e, e * (f - 1));
      assert e + e * (f - 1) == e * f;
    }
  }

  lemma MulMod(x: nat, y: nat, m: nat)
    requires m > 0
    ensures (x % m) * (y % m) % m == x * y % m
  {
    MulModParts(x, y, m, x / m, x % m, y / m, y % m);
  }

  lemma MulModParts(x: nat, y: nat, m: nat, q: nat, r: nat, s: nat, t: nat)
    requires m > 0 && x == q * m + r && y == s * m + t
    ensures r * t % m == x * y % m
  {
    Expand(q, r, s, t, m);
    SameMod(x * y, r * t, q * s * m + q * t + r * s, m);
  }

  lemma Expand(q: nat, r: nat, s: nat, t: nat, m: nat)
    ensures (q * m + r) * (s * m + t) == (q * s * m + q * t + r * s) * m + r * t
  {
    calc {
      (q * m + r) * (s * m + t);
      q * m * (s * m) + q * m * t + r * (s * m) + r * t;
      { assert q * m * (s * m) == q * s * m * m; assert q * m * t == q * t * m; assert r * (s * m) == r * s * m; }
      q * s * m * m + q * t * m + r * s * m + r * t;
      (q * s * m + q * t + r * s) * m + r * t;
    }
  }

  lemma SameMod(x: nat, y: nat, k: nat, m: nat)
    requires m > 0 && x == k * m + y
    ensures x % m == y % m
  {
    var q, r := y / m, y % m;
    assert y == q * m + r;
    assert x == (k + q) * m + r by {
      assert (k + q) * m == k * m + q * m;
    }
    ModUnique(x, m, k + q, r);
  }

  /** Reducing the base first does not change the result. */
  lemma {:induction false} ReduceBase(b: nat, e: nat, m: nat)
    requires m > 0
    ensures Pow(b % m, e) % m == Pow(b, e) % m
  {
    if e > 0 {
      ReduceBase(b, e - 1, m);
      var x, y := Pow(b % m, e - 1), Pow(b, e - 1);
      MulMod(b % m, x, m);
      MulMod(b, y, m);
      ModIdempotent(b, m);
    }
  }

  lemma ModIdempotent(b: nat, m: nat)
    requires m > 0
    ensures b % m % m == b % m
  {
    ModUnique(b % m, m, 0, b % m);
  }

  /** The heart of the exchange: the order of the two exponents does not matter. */
  lemma ExponentsCommute(g: nat, a: nat, b: nat, m: nat)
    requires m > 0
    ensures ModExp(ModExp(g, b, m), a, m) == ModExp(ModExp(g, a, m), b, m)
  {
    ReduceBase(Pow(g, b), a, m);
    ReduceBase(Pow(g, a), b, m);
    PowMul(g, b, a);
    PowMul(g, a, b);
    assert a * b == b * a;
  }
}
