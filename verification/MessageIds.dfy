/** Outgoing message identifiers: server time in units of 2^-32 s, randomized below 2^22. */
module MessageIds {
  import opened Bits
  import opened Bytes

  const UNIT: real := 4294967296.0
  const LOW_BITS: nat := 22
  const LOW: int := 0x40_0000

  /** Replaces the low 22 bits and clears the two lowest, as `& -4` does. */
  function WithLowBits(t: int, low: int): int {
    var v := t - t % LOW + low;
    v - v % 4
  }

  /** `(t ^ (rx & (2^22 - 1))) & -4`. */
  function Randomized(t: int, rx: int): int
    requires t >= 0
  {
    WithLowBits(t, Xor(t % LOW, rx % LOW, LOW_BITS))
  }

  /** `((rx >> 22) & 1023) + 1`. */
  function Stride(rx: int): (n: int)
    ensures 1 <= n <= 1024
  {
    rx / LOW % 1024 + 1
  }

  function Ticks(serverTime: real): int { (serverTime * UNIT).Floor }

  /** `next_message_id`, given the server time of the call and its random 32 bits. */
  function NextId(last: int, serverTime: real, rx: int): (id: int)
    requires serverTime >= 0.0
    ensures last >= 0 ==> id >= 0
  {
    RandomizedNear(Ticks(serverTime), rx);
    var result := Randomized(Ticks(serverTime), rx);
    if last >= result then (last + 8 * Stride(rx)) % WORD else result
  }

  lemma LowIsPower()
    ensures Pow2(LOW_BITS) == LOW
  {
    assert Pow2(2) == 4;
    assert Pow2(4) == 16;
    assert Pow2(6) == 64;
    assert Pow2(8) == 256;
    assert Pow2(10) == 1024;
    assert Pow2(12) == 4096;
    assert Pow2(14) == 16384;
    assert Pow2(16) == 65536;
    assert Pow2(18) == 262144;
    assert Pow2(20) == 1048576;
  }

  lemma LowBitsNear(t: int, low: int)
    requires t >= 0 && 0 <= low < LOW
    ensures t - LOW < WithLowBits(t, low) < t + LOW
    ensures WithLowBits(t, low) % 4 == 0 && WithLowBits(t, low) >= 0
  {
    var q := t / LOW;
    var v := q * LOW + low;
    assert t - t % LOW == q * LOW;
    assert WithLowBits(t, low) == v - v % 4;
  }

  lemma RandomizedNear(t: int, rx: int)
    requires t >= 0
    ensures t - LOW < Randomized(t, rx) < t + LOW
    ensures Randomized(t, rx) % 4 == 0 && Randomized(t, rx) >= 0
  {
    LowIsPower();
    LowBitsNear(t, Xor(t % LOW, rx % LOW, LOW_BITS));
  }

  /** One call: larger than the last identifier, a multiple of four, near the clock reading or
      at most 8192 beyond the last one. */
  lemma NextIdBounds(last: int, serverTime: real, rx: int)
    requires serverTime >= 0.0 && 0 <= last < WORD - 8192 && last % 4 == 0
    ensures var id := NextId(last, serverTime, rx);
      && id > last && id % 4 == 0
      && (id < Ticks(serverTime) + LOW || id <= last + 8192)
      && id > Ticks(serverTime) - LOW
  {
    assert Ticks(serverTime) >= 0;
    hide WithLowBits;
    hide Randomized;
    hide Ticks;
    hide Stride;
    RandomizedNear(Ticks(serverTime), rx);
    if last >= Randomized(Ticks(serverTime), rx) {
      NoWrap(last + 8 * Stride(rx));
    }
  }

  lemma NoWrap(sum: int)
    requires 0 <= sum < WORD
    ensures sum % WORD == sum
  {
  }

  /** The new identifier exceeds the last one unless the 64-bit sum wraps. */
  lemma IncreasesIff(last: int, serverTime: real, rx: int)
    requires serverTime >= 0.0 && 0 <= last < WORD
    ensures NextId(last, serverTime, rx) > last
      <==> last < Randomized(Ticks(serverTime), rx) || last + 8 * Stride(rx) < WORD
  {
    if last + 8 * Stride(rx) >= WORD {
      assert (last + 8 * Stride(rx)) % WORD == last + 8 * Stride(rx) - WORD;
    }
  }

  // ---------------------------------------------------------------- the random bits

  /** The reading with its bits 2 to 21 flipped where the random number has a one, and its two
      lowest bits cleared. */
  lemma RandomizedBits(t: int, rx: int, i: nat)
    requires t >= 0
    ensures Randomized(t, rx) >= 0
    ensures Bit(Randomized(t, rx), i)
      <==> (i >= 2 && if i < LOW_BITS then (Bit(t, i) <==> !Bit(rx % UINT32, i)) else Bit(t, i))
  {
    var x, v := Xor(t % LOW, rx % LOW, LOW_BITS), t - t % LOW + Xor(t % LOW, rx % LOW, LOW_BITS);
    RandomizedNear(t, rx);
    LowIsPower();
    assert Randomized(t, rx) == v - v % 4;
    hide Bit;
    hide Pow2;
    hide Xor;
    ClearedBits(v, i);
    XorBits(t % LOW, rx % LOW, LOW_BITS, i);
    ReplacedLow(t, x);
    PartBits(v, i);
    PartBits(t, i);
    Low32(rx);
    PartBits(rx % UINT32, i);
  }

  lemma ReplacedLow(t: nat, x: nat)
    requires x < LOW
    ensures (t - t % LOW + x) / LOW == t / LOW && (t - t % LOW + x) % LOW == x
  {
  }

  lemma Low32(rx: int)
    ensures rx % UINT32 % LOW == rx % LOW
  {
  }

  lemma ClearedBits(v: nat, i: nat)
    ensures Bit(v - v % 4, i) <==> i >= 2 && Bit(v, i)
  {
    assert Pow2(2) == 4;
    JoinBits(v / 4, v % 4, 2, i);
    JoinBits(v / 4, 0, 2, i);
    NoBits(i);
  }

  lemma PartBits(t: nat, i: nat)
    ensures Bit(t, i) <==> if i < LOW_BITS then Bit(t % LOW, i) else Bit(t / LOW, i - LOW_BITS)
  {
    LowIsPower();
    hide Bit;
    JoinBits(t / LOW, t % LOW, LOW_BITS, i);
    assert t == t / LOW * LOW + t % LOW;
  }

  /** `c` is the reading `t` with bits 2 to 21 flipped where `u` has a one, and bits 0 and 1 cleared. */
  ghost predicate Flipped(c: nat, t: nat, u: nat) {
    forall i: nat :: Bit(c, i) <==> (i >= 2 && if i < LOW_BITS then (Bit(t, i) <==> !Bit(u, i)) else Bit(t, i))
  }

  /** `k` is what bits 22 and up of `u` make. */
  ghost predicate TopBits(k: nat, u: nat) {
    forall i: nat :: Bit(k, i) <==> Bit(u, LOW_BITS + i)
  }

  lemma RandomizedFlips(t: int, rx: int)
    requires t >= 0
    ensures Randomized(t, rx) >= 0 && Flipped(Randomized(t, rx), t, rx % UINT32)
  {
    RandomizedNear(t, rx);
    forall i: nat ensures Bit(Randomized(t, rx), i)
      <==> (i >= 2 && if i < LOW_BITS then (Bit(t, i) <==> !Bit(rx % UINT32, i)) else Bit(t, i))
    {
      RandomizedBits(t, rx, i);
    }
  }

  lemma StrideIsTop(rx: int)
    ensures Stride(rx) == rx % UINT32 / LOW + 1
  {
    var u, q := rx % UINT32, rx / UINT32;
    assert rx == q * 1024 * LOW + u;
    assert rx / LOW == q * 1024 + u / LOW;
    assert u / LOW < 1024;
  }

  lemma StrideBits(rx: int)
    ensures TopBits(Stride(rx) - 1, rx % UINT32)
  {
    StrideIsTop(rx);
    var u := rx % UINT32;
    hide Stride;
    hide Bit;
    hide Pow2;
    forall i: nat ensures Bit(u / LOW, i) <==> Bit(u, LOW_BITS + i) {
      PartBits(u, LOW_BITS + i);
    }
  }

  /** The whole identifier, bit by bit: the clock reading randomized in bits 2 to 21, if that is
      greater than the last identifier; otherwise one to 1024 times eight beyond it, as the ten
      highest random bits say. */
  lemma NextIdBits(last: int, serverTime: real, rx: int) returns (c: nat)
    requires serverTime >= 0.0 && 0 <= last < WORD - 8192
    ensures Ticks(serverTime) >= 0 && Flipped(c, Ticks(serverTime), rx % UINT32)
    ensures c > last ==> NextId(last, serverTime, rx) == c
    ensures c <= last ==>
      var step := NextId(last, serverTime, rx) - last;
      8 <= step <= 8192 && step % 8 == 0 && TopBits(step / 8 - 1, rx % UINT32)
  {
    RandomizedFlips(Ticks(serverTime), rx);
    StrideBits(rx);
    c := Randomized(Ticks(serverTime), rx);
    hide Randomized;
    hide Flipped;
    hide TopBits;
    hide Stride;
    if c <= last {
      NoWrap(last + 8 * Stride(rx));
    }
  }

  // ---------------------------------------------------------------- runs

  datatype Call = Call(serverTime: real, rx: int)

  /** The identifier after the calls, none issued before them. */
  ghost function LastId(calls: seq<Call>): int
    requires forall c :: c in calls ==> c.serverTime >= 0.0
  {
    if calls == [] then 0
    else
      var n := |calls| - 1;
      assert calls[n] in calls;
      NextId(LastId(calls[..n]), calls[n].serverTime, calls[n].rx)
  }

  /** Every reading of the clock lies in [0, top], and the identifiers stay inside the word. */
  ghost predicate Readings(calls: seq<Call>, top: real) {
    && (forall c :: c in calls ==> 0.0 <= c.serverTime <= top)
    && Ticks(top) + LOW + 8192 * |calls| < WORD
  }

  lemma TicksMonotone(a: real, b: real)
    requires 0.0 <= a <= b
    ensures 0 <= Ticks(a) <= Ticks(b)
  {
    assert a * UNIT <= b * UNIT;
  }

  /** Whatever the clock does, each identifier is a multiple of four, greater than the one
      before, and ahead of the largest reading by less than 2^22 + 8192 per call. */
  lemma {:induction false} EveryRunIncreases(calls: seq<Call>, top: real)
    requires Readings(calls, top) && top >= 0.0
    ensures LastId(calls) % 4 == 0
    ensures 0 <= LastId(calls) < Ticks(top) + LOW + 8192 * |calls|
    ensures calls != [] ==> LastId(calls[..|calls| - 1]) < LastId(calls)
    ensures calls != [] ==> LastId(calls) > Ticks(calls[|calls| - 1].serverTime) - LOW
  {
    hide NextId;
    if calls != [] {
      var n := |calls| - 1;
      var c := calls[n];
      assert c in calls;
      EveryRunIncreases(calls[..n], top);
      TicksMonotone(c.serverTime, top);
      NextIdBounds(LastId(calls[..n]), c.serverTime, c.rx);
    } else {
      TicksMonotone(0.0, top);
    }
  }

  /** Any two identifiers of one run differ, and in the order of the calls. */
  lemma {:induction false} EveryRunDistinct(calls: seq<Call>, top: real, i: nat, j: nat)
    requires Readings(calls, top) && top >= 0.0 && i < j <= |calls|
    ensures LastId(calls[..i]) < LastId(calls[..j])
  {
    hide NextId;
    hide Ticks;
    var prior := calls[..j];
    forall c | c in prior ensures c in calls {}
    EveryRunIncreases(prior, top);
    if i < j - 1 {
      assert prior[..j - 1] == calls[..j - 1];
      EveryRunDistinct(calls, top, i, j - 1);
    } else {
      assert prior[..i] == calls[..i];
    }
  }

  // ---------------------------------------------------------------- validity at creation

  /** `is_valid_outbound_msg_id` and `is_valid_inbound_msg_id`. */
  predicate ValidOutbound(id: int, serverTime: real) {
    serverTime - 150.0 < id as real / UNIT && id as real / UNIT < serverTime + 30.0
  }

  predicate ValidInbound(id: int, serverTime: real) {
    serverTime - 300.0 < id as real / UNIT && id as real / UNIT < serverTime + 30.0
  }

  /** The two tests in units of 2^-32 s. */
  lemma ValidInTicks(id: int, serverTime: real)
    ensures ValidOutbound(id, serverTime)
      <==> (serverTime - 150.0) * UNIT < id as real && id as real < (serverTime + 30.0) * UNIT
    ensures ValidInbound(id, serverTime)
      <==> (serverTime - 300.0) * UNIT < id as real && id as real < (serverTime + 30.0) * UNIT
  {
    Scale(id as real, serverTime - 150.0);
    Scale(id as real, serverTime - 300.0);
    Scale(id as real, serverTime + 30.0);
  }

  lemma Scale(x: real, bound: real)
    ensures x / UNIT < bound <==> x < bound * UNIT
    ensures x / UNIT > bound <==> x > bound * UNIT
  {
    assert x == x / UNIT * UNIT;
  }

  /** How long an identifier taken from the clock can be sent: for 149.99 seconds it passes the
      outbound test, and from 150.01 seconds on it does not. */
  lemma UsableFor150Seconds(last: int, serverTime: real, rx: int, later: real)
    requires 0.0 <= serverTime <= later && 0 <= last < WORD - 8192 && last % 4 == 0
    requires NextId(last, serverTime, rx) < Ticks(serverTime) + LOW
    ensures later <= serverTime + 149.99 ==> ValidOutbound(NextId(last, serverTime, rx), later)
    ensures later >= serverTime + 150.01 ==> !ValidOutbound(NextId(last, serverTime, rx), later)
  {
    NextIdBounds(last, serverTime, rx);
    var id, ticks := NextId(last, serverTime, rx), serverTime * UNIT;
    hide NextId;
    ValidInTicks(id, later);
    hide ValidOutbound;
    assert ticks - 1.0 < Ticks(serverTime) as real <= ticks;
    hide Ticks;
    assert LOW as real + 1.0 < 0.01 * UNIT;
    assert later * UNIT >= ticks;
    if later <= serverTime + 149.99 {
      assert (later - 150.0) * UNIT <= ticks - 0.01 * UNIT by { assert later - 150.0 <= serverTime - 0.01; }
      assert (later + 30.0) * UNIT >= ticks + 30.0 * UNIT;
    }
    if later >= serverTime + 150.01 {
      assert (later - 150.0) * UNIT >= ticks + 0.01 * UNIT by { assert later - 150.0 >= serverTime + 0.01; }
    }
  }

  ghost predicate NonDecreasing(calls: seq<Call>) {
    forall i, j :: 0 <= i < j < |calls| ==> calls[i].serverTime <= calls[j].serverTime
  }

  const SAFE_CALLS: nat := 15_728_128

  /** With a clock that never goes back, each of the first 15,728,128 identifiers satisfies the
      outbound time check when it is created. */
  lemma CreatedValid(calls: seq<Call>)
    requires calls != [] && |calls| <= SAFE_CALLS && NonDecreasing(calls)
    requires Readings(calls, calls[|calls| - 1].serverTime)
    ensures ValidOutbound(LastId(calls), calls[|calls| - 1].serverTime)
  {
    var now := calls[|calls| - 1].serverTime;
    assert calls[|calls| - 1] in calls;
    EveryRunIncreases(calls, now);
    var id := LastId(calls);
    var ticks := now * UNIT;
    assert ticks - 1.0 < Ticks(now) as real <= ticks;
    assert LOW + 8192 * |calls| <= 30 * 0x1_0000_0000;
    assert id as real < ticks + 30.0 * UNIT;
    assert id as real > ticks - 150.0 * UNIT;
    DivideByUnit(id as real, ticks, now);
  }

  lemma DivideByUnit(id: real, ticks: real, now: real)
    requires ticks == now * UNIT && ticks - 150.0 * UNIT < id < ticks + 30.0 * UNIT
    ensures now - 150.0 < id / UNIT < now + 30.0
  {
    assert (now - 150.0) * UNIT == ticks - 150.0 * UNIT;
    assert (now + 30.0) * UNIT == ticks + 30.0 * UNIT;
  }
}
