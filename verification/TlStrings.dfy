/** Strings on the wire: a length of one, four or eight bytes, the text, zeros up to a multiple of four. */
module TlStrings {
  import opened Options
  import opened Bytes

  function Pad(n: nat): (s: seq<byte>)
    ensures |s| == (4 - n % 4) % 4
  {
    if n % 4 == 1 then [0, 0, 0] else if n % 4 == 2 then [0, 0] else if n % 4 == 3 then [0] else []
  }

  /** The length field of a text of `n` bytes. */
  function LengthField(n: nat): (s: seq<byte>)
    ensures |s| == if n < 254 then 1 else if n < 0x100_0000 then 4 else 8
  {
    if n < 254 then [n]
    else if n < 0x100_0000 then [254] + Le(n, 3)
    else [255] + Le(n, 4) + [0, 0, 0]
  }

  /** `store_string`; a text of 2^32 bytes or more stops the program. */
  function StoreString(text: seq<byte>): Option<seq<byte>> {
    var n := |text|;
    if n >= 0x1_0000_0000 then None
    else Some(LengthField(n) + text + Pad(if n < 254 then n + 1 else n))
  }

  /** `fetch_string`: the text and what follows it. */
  function FetchString(s: seq<byte>): Option<(seq<byte>, seq<byte>)> {
    if |s| < 4 then None
    else if s[0] < 254 then
      var n: nat := s[0];
      Cut(s, 1, n, 4 + n / 4 * 4)
    else if s[0] == 254 then
      var n := FromLe(s[1..4]);
      Cut(s, 4, n, 4 + (n + 3) / 4 * 4)
    else if |s| < 8 then None
    else
      var n := FromLe(s[1..8]);
      Cut(s, 8, n, 8 + (n + 3) / 4 * 4)
  }

  function Cut(s: seq<byte>, start: nat, n: nat, end: nat): Option<(seq<byte>, seq<byte>)>
    requires start + n <= end
  {
    if |s| < end then None else Some((s[start..start + n], s[end..]))
  }

  lemma CutLayout(head: seq<byte>, text: seq<byte>, pad: seq<byte>, rest: seq<byte>)
    ensures Cut(head + text + pad + rest, |head|, |text|, |head| + |text| + |pad|) == Some((text, rest))
  {
    var s := head + text + pad + rest;
    assert s[|head|..|head| + |text|] == text;
    assert s[|head| + |text| + |pad|..] == rest;
  }

  lemma ReadsBackLong(n: nat)
    requires n < 0x1_0000_0000
    ensures FromLe(Le(n, 4) + [0, 0, 0]) == n
  {
    Reads4(n);
    LeadingZeros(Le(n, 4), 3);
    assert Zeros(3) == [0, 0, 0];
  }

  lemma {:induction false} LeadingZeros(s: seq<byte>, k: nat)
    ensures FromLe(s + Zeros(k)) == FromLe(s)
    decreases |s| + k
  {
    if s != [] {
      LeadingZeros(s[1..], k);
      assert (s + Zeros(k))[1..] == s[1..] + Zeros(k);
    } else if k > 0 {
      LeadingZeros([], k - 1);
      assert (s + Zeros(k))[1..] == [] + Zeros(k - 1);
    }
  }

  lemma ShortRoundTrip(text: seq<byte>, rest: seq<byte>)
    requires |text| < 254
    ensures FetchString(LengthField(|text|) + text + Pad(|text| + 1) + rest) == Some((text, rest))
  {
    hide Le;
    hide FromLe;
    var head, pad := LengthField(|text|), Pad(|text| + 1);
    CutLayout(head, text, pad, rest);
    assert (head + text + pad + rest)[0] == |text|;
  }

  /** A length field of one marker byte and a number is read back whatever follows. */
  lemma MarkedLength(marker: byte, number: seq<byte>, rest: seq<byte>)
    ensures var s := [marker] + number + rest;
      |s| >= 1 + |number| && s[0] == marker && s[1..1 + |number|] == number
  {
  }

  lemma Regroup(head: seq<byte>, text: seq<byte>, pad: seq<byte>, rest: seq<byte>)
    ensures head + text + pad + rest == head + (text + pad + rest)
  {
  }

  lemma MediumRoundTrip(text: seq<byte>, rest: seq<byte>)
    requires 254 <= |text| < 0x100_0000
    ensures FetchString(LengthField(|text|) + text + Pad(|text|) + rest) == Some((text, rest))
  {
    hide Le;
    hide FromLe;
    hide Cut;
    var n := |text|;
    var pad := Pad(n);
    CutLayout([254] + Le(n, 3), text, pad, rest);
    Regroup([254] + Le(n, 3), text, pad, rest);
    MarkedLength(254, Le(n, 3), text + pad + rest);
    Widths();
    ReadsBack(n, 3);
  }

  lemma LongRoundTrip(text: seq<byte>, rest: seq<byte>)
    requires 0x100_0000 <= |text| < 0x1_0000_0000
    ensures FetchString(LengthField(|text|) + text + Pad(|text|) + rest) == Some((text, rest))
  {
    hide Le;
    hide FromLe;
    hide Cut;
    var n := |text|;
    var pad, length := Pad(n), Le(n, 4) + [0, 0, 0];
    assert LengthField(n) == [255] + length;
    CutLayout([255] + length, text, pad, rest);
    Regroup([255] + length, text, pad, rest);
    MarkedLength(255, length, text + pad + rest);
    ReadsBackLong(n);
  }

  /** Every text the program can store is fetched back, in each of the three forms, and takes a
      whole number of words. */
  lemma StringRoundTrip(text: seq<byte>, rest: seq<byte>)
    requires |text| < 0x1_0000_0000
    ensures FetchString(StoreString(text).value + rest) == Some((text, rest))
    ensures |StoreString(text).value| % 4 == 0 && |StoreString(text).value| > |text|
  {
    hide FetchString;
    if |text| < 254 {
      ShortRoundTrip(text, rest);
    } else if |text| < 0x100_0000 {
      MediumRoundTrip(text, rest);
    } else {
      LongRoundTrip(text, rest);
    }
  }

  /** What follows the text is zeros, fewer than four, up to a whole word. */
  lemma PaddedWithZeros(text: seq<byte>)
    requires |text| < 0x1_0000_0000
    ensures var s, head := StoreString(text).value, if |text| < 254 then 1 else if |text| < 0x100_0000 then 4 else 8;
      && |s| % 4 == 0 && head + |text| <= |s| < head + |text| + 4
      && s[head..head + |text|] == text
      && forall i :: head + |text| <= i < |s| ==> s[i] == 0
  {
    hide Le;
  }

  /** The length computed beforehand: the length field and the text, rounded up to words. */
  function StoredSize(n: nat): nat {
    var add := n + if n < 254 then 1 else if n < 0x100_0000 then 4 else 8;
    (add + 3) / 4 * 4
  }

  /** ... is that of the bytes written. */
  lemma StoredSizeExact(text: seq<byte>)
    requires |text| < 0x1_0000_0000
    ensures StoreString(text).Some? && |StoreString(text).value| == StoredSize(|text|)
  {
    hide Le;
  }

  lemma FetchedSize(s: seq<byte>)
    requires FetchString(s).Some?
    ensures var (text, rest) := FetchString(s).value;
      |rest| <= |s| && (|s| - |rest|) % 4 == 0 && StoredSize(|text|) <= |s| - |rest|
  {
    hide FromLe;
    Widths();
    WritesBack(s[1..4]);
  }

  /** Every text fetched, from whatever bytes, is a part of them; storing it again takes no more
      room, and what follows is untouched. */
  lemma FetchedText(s: seq<byte>) returns (start: nat)
    requires FetchString(s).Some? && |s| < 0x1_0000_0000
    ensures var (text, rest) := FetchString(s).value;
      && |rest| <= |s| && s[|s| - |rest|..] == rest && (|s| - |rest|) % 4 == 0
      && start in {1, 4, 8} && start + |text| <= |s| - |rest| && s[start..start + |text|] == text
      && StoreString(text).Some? && |StoreString(text).value| + |rest| <= |s|
  {
    hide FromLe;
    hide StoreString;
    hide StoredSize;
    start := if s[0] < 254 then 1 else if s[0] == 254 then 4 else 8;
    FetchedSize(s);
    StoredSizeExact(FetchString(s).value.0);
  }
}
