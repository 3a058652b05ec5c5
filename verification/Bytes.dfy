/** Machine numbers: 32-bit integers, bits, and little-endian byte strings. */
module Bytes {
  import opened Options

  const UINT32: nat := 0x1_0000_0000
  const WORD: nat := 0x1_0000_0000_0000_0000

  type byte = x: int | 0 <= x < 256

  /** The conversion to `std::int32_t`. */
  function ToInt32(x: int): int {
    var low := x % 0x1_0000_0000;
    if low < 0x8000_0000 then low else low - 0x1_0000_0000
  }

  function Pow2(n: nat): (p: nat)
    ensures p > 0
  {
    if n == 0 then 1 else 2 * Pow2(n - 1)
  }

  /** Bitwise exclusive or of the lowest `n` bits. */
  function Xor(a: nat, b: nat, n: nat): (c: nat)
    ensures c < Pow2(n)
  {
    if n == 0 then 0 else (a + b) % 2 + 2 * Xor(a / 2, b / 2, n - 1)
  }

  function Zeros(k: nat): (s: seq<byte>)
    ensures |s| == k
  {
    seq(k, _ => 0)
  }

  function Pow256(n: nat): (p: nat)
    ensures p > 0
  {
    if n == 0 then 1 else 256 * Pow256(n - 1)
  }

  function Le(v: nat, width: nat): (s: seq<byte>)
    ensures |s| == width
  {
    if width == 0 then [] else [v % 256] + Le(v / 256, width - 1)
  }

  function FromLe(s: seq<byte>): nat {
    if s == [] then 0 else s[0] + 256 * FromLe(s[1..])
  }

  /** Reading back a number gives its value modulo what the width can hold. */
  lemma {:induction false} LeRoundTrip(v: nat, width: nat)
    ensures FromLe(Le(v, width)) == v % Pow256(width)
  {
    if width > 0 {
      LeRoundTrip(v / 256, width - 1);
      SplitMod(v, Pow256(width - 1));
      assert Le(v, width)[1..] == Le(v / 256, width - 1);
    }
  }

  lemma SplitMod(v: nat, p: nat)
    requires p > 0
    ensures v % 256 + 256 * (v / 256 % p) == v % (256 * p)
  {
    var q, r := v / 256 / p, v / 256 % p;
    assert v / 256 == q * p + r;
    var low := v % 256 + 256 * r;
    assert v == q * (256 * p) + low;
    assert 0 <= low < 256 * p by {
      assert r <= p - 1;
    }
    ModUnique(v, 256 * p, q, low);
  }

  lemma ModUnique(v: nat, d: nat, q: nat, r: nat)
    requires d > 0 && v == q * d + r && r < d
    ensures v % d == r
  {
    var q', r' := v / d, v % d;
    Gap(d, q, r, q', r');
  }

  lemma Gap(d: nat, q: int, r: nat, q': int, r': nat)
    requires r < d && r' < d && q * d + r == q' * d + r'
    ensures r == r'
  {
    Steps(q - q', d);
    assert (q - q') * d == q * d - q' * d;
  }

  /** A multiple of `d` that is not zero is at least `d` away from it. */
  lemma Steps(k: int, d: nat)
    ensures k == 0 || k * d >= d || k * d + d <= 0
  {
    if k > 0 {
      assert (k - 1) * d >= 0;
    } else if k < 0 {
      assert (-k - 1) * d >= 0;
    }
  }

  lemma Widths()
    ensures Pow256(3) == 0x100_0000 && Pow256(4) == 0x1_0000_0000 && Pow256(8) == 0x1_0000_0000_0000_0000
  {
    assert Pow256(1) == 256;
    assert Pow256(2) == 0x1_0000;
    assert Pow256(3) == 0x100_0000;
    assert Pow256(4) == 0x1_0000_0000;
    assert Pow256(5) == 0x100_0000_0000;
    assert Pow256(6) == 0x1_0000_0000_0000;
    assert Pow256(7) == 0x100_0000_0000_0000;
  }

  /** A number that fits its field is read back unchanged. */
  lemma ReadsBack(v: nat, width: nat)
    requires v < Pow256(width)
    ensures FromLe(Le(v, width)) == v
  {
    LeRoundTrip(v, width);
    ModUnique(v, Pow256(width), 0, v);
  }

  lemma Reads4(v: nat)
    requires v < 0x1_0000_0000
    ensures FromLe(Le(v, 4)) == v
  {
    Widths();
    ReadsBack(v, 4);
  }

  lemma Reads8(v: nat)
    requires v < 0x1_0000_0000_0000_0000
    ensures FromLe(Le(v, 8)) == v
  {
    Widths();
    ReadsBack(v, 8);
  }

  /** Reading a little-endian number of the given width: the number and what follows it. */
  function Take(s: seq<byte>, width: nat): Option<(nat, seq<byte>)> {
    if |s| < width then None else Some((FromLe(s[..width]), s[width..]))
  }

  lemma TakeBack(n: nat, width: nat, rest: seq<byte>)
    requires n < Pow256(width)
    ensures Take(Le(n, width) + rest, width) == Some((n, rest))
  {
    ReadsBack(n, width);
    var s := Le(n, width) + rest;
    assert s[..width] == Le(n, width) && s[width..] == rest;
  }

  lemma TakeWord(n: nat, rest: seq<byte>)
    requires n < 0x1_0000_0000
    ensures Take(Le(n, 4) + rest, 4) == Some((n, rest))
  {
    hide Le;
    hide FromLe;
    hide Take;
    Widths();
    TakeBack(n, 4, rest);
  }

  lemma FourBytes(n: nat)
    requires n < UINT32
    ensures Le(n, 4) == [n % 256, n / 256 % 256, n / 0x1_0000 % 256, n / 0x100_0000]
  {
    var a, b, c := n / 256, n / 0x1_0000, n / 0x100_0000;
    assert a / 256 == b && b / 256 == c && c < 256 && c / 256 == 0;
    assert Le(c, 1) == [c];
    assert Le(b, 2) == [b % 256, c];
    assert Le(a, 3) == [a % 256, b % 256, c];
  }

  /** Writing a number that was read gives the bytes back. */
  lemma {:induction false} WritesBack(s: seq<byte>)
    ensures Le(FromLe(s), |s|) == s && FromLe(s) < Pow256(|s|)
  {
    if s != [] {
      WritesBack(s[1..]);
      var rest := FromLe(s[1..]);
      assert FromLe(s) % 256 == s[0] && FromLe(s) / 256 == rest;
      assert s == [s[0]] + s[1..];
    }
  }
}
