/** One side of the Diffie-Hellman exchange; the random exponent and the hashes are inputs. */
module DhHandshake {
  import opened Options
  import opened Bytes
  import opened BigNum
  import opened TlStrings

  const KEY_SIZE: nat := 256
  const PRIME_BITS: nat := 2048
  const HAS_CONFIG: nat := 1
  const HAS_G_A: nat := 2

  type Digest = s: seq<byte> | |s| == 20 witness seq(20, _ => 0)

  /** The fields of a `DhHandshake`. */
  datatype Dh = Dh(
    hasConfig: bool, primeStr: seq<byte>, prime: nat, g: nat, b: nat, gB: nat,
    hasGA: bool, gA: nat,
    hasHash: bool, okHash: bool, hash: seq<byte>)

  /** `Aborted` is the failed size check of `dh_check`, which ends the program. */
  datatype Status = Ok | HashMismatch | BadConfig | OutOfRange | Aborted

  function New(): Dh {
    Dh(false, [], 0, 0, 0, 0, false, 0, false, false, [])
  }

  // ---------------------------------------------------------------- the operations as functions

  /** `set_config` with its random exponent. */
  function Configure(d: Dh, g: nat, primeStr: seq<byte>, b: nat): Dh
    requires FromBinary(primeStr) > 0
  {
    var prime := FromBinary(primeStr);
    d.(hasConfig := true, primeStr := primeStr, prime := prime, g := g, b := b, gB := ModExp(g, b, prime))
  }

  function WithHash(d: Dh, hash: seq<byte>): Dh {
    d.(hasHash := true, okHash := false, hash := hash)
  }

  function WithGA(d: Dh, gA: seq<byte>, sha256: seq<byte> -> seq<byte>): Dh {
    var d1 := d.(hasGA := true, gA := FromBinary(gA));
    if d.hasHash then d1.(okHash := sha256(gA) == d.hash) else d1
  }

  function GB(d: Dh): seq<byte> { ToBinary(d.gB) }

  /** `dh_check`: both public numbers at least 2^(2048-64) away from 0 and from the prime. */
  predicate InRange(prime: nat, gA: nat, gB: nat)
    requires NumBits(prime) == PRIME_BITS
  {
    var left := Pow2(NumBits(prime) - 64);
    var right := prime - left;
    left <= gA <= right && left <= gB <= right
  }

  /** `check_config`: the size of the modulus, then the verdict `primesOk` of the residue table
      and the primality tests. */
  predicate ConfigOk(prime: nat, primesOk: bool) { NumBits(prime) == PRIME_BITS && primesOk }

  /** `run_checks`. */
  function Checks(d: Dh, skipConfig: bool, primesOk: bool): Status {
    if d.hasHash && !d.okHash then HashMismatch
    else if !skipConfig && !ConfigOk(d.prime, primesOk) then BadConfig
    else if NumBits(d.prime) != PRIME_BITS then Aborted
    else if InRange(d.prime, d.gA, d.gB) then Ok
    else OutOfRange
  }

  function GAB(d: Dh): (r: nat)
    requires d.prime > 0
    ensures r < d.prime
  {
    ModExp(d.gA, d.b, d.prime)
  }

  lemma KeyFits(d: Dh)
    requires d.prime > 0 && NumBits(d.prime) <= PRIME_BITS
    ensures |ToBinary(GAB(d))| <= KEY_SIZE
  {
    LengthMonotone(GAB(d), d.prime);
    BytesOfBits(d.prime);
  }

  /** The 64-bit number at byte 12 of the digest. */
  function KeyId(key: seq<byte>, sha1: seq<byte> -> Digest): nat {
    FromLe(sha1(key)[12..20])
  }

  /** `gen_key`: the key in exactly 256 bytes, and its identifier. */
  function Key(d: Dh, sha1: seq<byte> -> Digest): (r: (nat, seq<byte>))
    requires d.prime > 0 && NumBits(d.prime) <= PRIME_BITS
    ensures |r.1| == KEY_SIZE
    ensures FromBinary(r.1) == GAB(d)
  {
    KeyFits(d);
    ExactRoundTrip(GAB(d), KEY_SIZE);
    var key := ToBinaryExact(GAB(d), KEY_SIZE);
    (KeyId(key, sha1), key)
  }

  // ---------------------------------------------------------------- agreement

  /** A side that has exchanged numbers with another. */
  function Exchanged(g: nat, primeStr: seq<byte>, mine: nat, theirs: seq<byte>, sha256: seq<byte> -> seq<byte>): Dh
    requires FromBinary(primeStr) > 0
  {
    WithGA(Configure(New(), g, primeStr, mine), theirs, sha256)
  }

  /** Two parties with the same generator and modulus that send each other `get_g_b` compute the
      same 256 bytes and the same identifier, for all secret exponents. */
  lemma KeysAgree(g: nat, primeStr: seq<byte>, a: nat, b: nat, sha1: seq<byte> -> Digest, sha256: seq<byte> -> seq<byte>)
    requires FromBinary(primeStr) > 0 && NumBits(FromBinary(primeStr)) <= PRIME_BITS
    ensures var sentA := GB(Configure(New(), g, primeStr, a));
      var sentB := GB(Configure(New(), g, primeStr, b));
      Key(Exchanged(g, primeStr, a, sentB, sha256), sha1) == Key(Exchanged(g, primeStr, b, sentA, sha256), sha1)
  {
    var p := FromBinary(primeStr);
    BinaryRoundTrip(ModExp(g, a, p));
    BinaryRoundTrip(ModExp(g, b, p));
    ExponentsCommute(g, a, b, p);
  }

  /** What the key is: g^(ab) mod p, written with leading zeros. */
  lemma KeyIsPower(g: nat, primeStr: seq<byte>, a: nat, b: nat, sha1: seq<byte> -> Digest, sha256: seq<byte> -> seq<byte>)
    requires FromBinary(primeStr) > 0 && NumBits(FromBinary(primeStr)) <= PRIME_BITS
    ensures var sentB := GB(Configure(New(), g, primeStr, b));
      FromBinary(Key(Exchanged(g, primeStr, a, sentB, sha256), sha1).1) == Pow(g, b * a) % FromBinary(primeStr)
  {
    var p := FromBinary(primeStr);
    BinaryRoundTrip(ModExp(g, b, p));
    ReduceBase(Pow(g, b), a, p);
    PowMul(g, b, a);
  }

  /** The identifier in bytes: 12 to 19 of the key's digest. */
  lemma KeyIdBytes(d: Dh, sha1: seq<byte> -> Digest)
    requires d.prime > 0 && NumBits(d.prime) <= PRIME_BITS
    ensures var (id, key) := Key(d, sha1);
      Le(id, 8) == sha1(key)[12..20]
  {
    hide ToBinaryExact;
    WritesBack(sha1(Key(d, sha1).1)[12..20]);
  }

  /** When the checks pass, in numbers: a modulus of 2048 bits, accepted unless that check is
      skipped, and both public numbers at least 2^1984 away from 0 and from the modulus. */
  lemma ChecksPassIff(d: Dh, skipConfig: bool, primesOk: bool)
    ensures Checks(d, skipConfig, primesOk) == Ok <==>
      && (d.hasHash ==> d.okHash) && Pow2(2047) <= d.prime < Pow2(2048) && (skipConfig || primesOk)
      && Pow2(1984) <= d.gA && d.gA + Pow2(1984) <= d.prime
      && Pow2(1984) <= d.gB && d.gB + Pow2(1984) <= d.prime
    ensures Checks(d, skipConfig, primesOk) == BadConfig <==>
      && (d.hasHash ==> d.okHash) && !skipConfig && !(Pow2(2047) <= d.prime < Pow2(2048) && primesOk)
  {
    hide Pow2;
    hide NumBits;
    BitsOfSize(d.prime, PRIME_BITS);
    assert PRIME_BITS - 1 == 2047 && PRIME_BITS - 64 == 1984;
  }

  /** The announced hash decides: until a number arrives the checks refuse for it, then exactly when
      the number's digest is another one, and never when none was announced. */
  lemma HashDecides(d: Dh, hash: seq<byte>, gA: seq<byte>, sha256: seq<byte> -> seq<byte>, skipConfig: bool, primesOk: bool)
    ensures Checks(WithGA(WithHash(d, hash), gA, sha256), skipConfig, primesOk) == HashMismatch <==> sha256(gA) != hash
    ensures Checks(WithHash(d, hash), skipConfig, primesOk) == HashMismatch
    ensures !d.hasHash ==> Checks(WithGA(d, gA, sha256), skipConfig, primesOk) != HashMismatch
  {
    hide InRange;
    hide ConfigOk;
  }

  /** With the configuration check on, whatever the size of the modulus, the program goes on;
      with it skipped, it ends exactly for a modulus of another size and no hash mismatch. */
  lemma AbortsIff(d: Dh, skipConfig: bool, primesOk: bool)
    ensures Checks(d, skipConfig, primesOk) == Aborted <==>
      skipConfig && NumBits(d.prime) != PRIME_BITS && (d.hasHash ==> d.okHash)
  {
    hide InRange;
  }

  /** Numbers that pass the checks are not degenerate: greater than 1, less than p - 1. */
  lemma CheckedNumbersAreProper(d: Dh, skipConfig: bool, primesOk: bool)
    requires Checks(d, skipConfig, primesOk) == Ok
    ensures 1 < d.gA < d.prime - 1 && 1 < d.gB < d.prime - 1
    ensures d.hasHash ==> d.okHash
  {
    var k: nat := NumBits(d.prime) - 64;
    assert Pow2(k) == 2 * Pow2(k - 1);
  }

  // ---------------------------------------------------------------- saving and restoring

  function Flags(d: Dh): nat {
    (if d.hasConfig then HAS_CONFIG else 0) + (if d.hasGA then HAS_G_A else 0)
  }

  function SavedString(s: seq<byte>): seq<byte>
    requires |s| < 0x1_0000_0000
  {
    StoreString(s).value
  }

  /** The fields fit their places in the saved form. */
  predicate Storable(d: Dh) {
    && |d.primeStr| < 0x1_0000_0000 && |ToBinary(d.b)| < 0x1_0000_0000 && |ToBinary(d.gB)| < 0x1_0000_0000
    && |ToBinary(d.gA)| < 0x1_0000_0000 && d.g < 0x1_0000_0000
  }

  function SaveConfig(d: Dh): seq<byte>
    requires Storable(d)
  {
    if d.hasConfig then
      SavedString(d.primeStr) + (SavedString(ToBinary(d.b)) + (Le(d.g, 4) + SavedString(ToBinary(d.gB))))
    else []
  }

  function SaveGA(d: Dh): seq<byte>
    requires Storable(d)
  {
    if d.hasGA then SavedString(ToBinary(d.gA)) else []
  }

  function Save(d: Dh): seq<byte>
    requires Storable(d)
  {
    Le(Flags(d), 4) + (SaveConfig(d) + SaveGA(d))
  }

  function LoadConfig(d: Dh, s: seq<byte>): Option<(Dh, seq<byte>)> {
    match FetchString(s)
    case None => None
    case Some((primeStr, s1)) =>
      match FetchString(s1)
      case None => None
      case Some((b, s2)) =>
        match Take(s2, 4)
        case None => None
        case Some((g, s3)) =>
          match FetchString(s3)
          case None => None
          case Some((gB, s4)) =>
            var prime := FromBinary(primeStr);
            Some((d.(primeStr := primeStr, prime := prime, b := FromBinary(b), g := g, gB := FromBinary(gB)), s4))
  }

  function LoadGA(d: Dh, s: seq<byte>): Option<(Dh, seq<byte>)> {
    if !d.hasGA then Some((d, s))
    else
      match FetchString(s)
      case None => None
      case Some((gA, s1)) => Some((d.(gA := FromBinary(gA)), s1))
  }

  /** `parse` into a fresh object. */
  function Load(s: seq<byte>): Option<(Dh, seq<byte>)> {
    match Take(s, 4)
    case None => None
    case Some((flags, s1)) =>
      var d := New().(hasConfig := flags % 2 == 1, hasGA := flags / 2 % 2 == 1);
      var withConfig := if d.hasConfig then LoadConfig(d, s1) else Some((d, s1));
      match withConfig
      case None => None
      case Some((d2, s2)) =>
        LoadGA(d2, s2)
  }

  /** What every object built by the operations satisfies. */
  predicate Consistent(d: Dh) {
    && (if d.hasConfig then d.prime > 0 && d.prime == FromBinary(d.primeStr) && d.gB == ModExp(d.g, d.b, d.prime)
        else d.primeStr == [] && d.prime == 0 && d.g == 0 && d.b == 0 && d.gB == 0)
    && (!d.hasGA ==> d.gA == 0)
    && (!d.hasHash ==> !d.okHash && d.hash == [])
  }

  lemma StringBack(s: seq<byte>, rest: seq<byte>)
    requires |s| < 0x1_0000_0000
    ensures FetchString(SavedString(s) + rest) == Some((s, rest))
  {
    hide FetchString;
    hide StoreString;
    StringRoundTrip(s, rest);
  }

  lemma ConfigBack(d: Dh, d0: Dh, rest: seq<byte>)
    requires Storable(d) && d.hasConfig && Consistent(d)
    ensures LoadConfig(d0, SaveConfig(d) + rest)
      == Some((d0.(primeStr := d.primeStr, prime := d.prime, b := d.b, g := d.g, gB := d.gB), rest))
  {
    hide FetchString;
    hide Take;
    hide SavedString;
    hide Le;
    var last := SavedString(ToBinary(d.gB));
    var third := Le(d.g, 4) + last;
    var second := SavedString(ToBinary(d.b)) + third;
    var first := SavedString(d.primeStr);
    BinaryRoundTrip(d.b);
    BinaryRoundTrip(d.gB);
    assert SaveConfig(d) + rest == first + (second + rest);
    assert second + rest == SavedString(ToBinary(d.b)) + (third + rest);
    assert third + rest == Le(d.g, 4) + (last + rest);
    StringBack(d.primeStr, second + rest);
    StringBack(ToBinary(d.b), third + rest);
    TakeWord(d.g, last + rest);
    StringBack(ToBinary(d.gB), rest);
  }

  lemma GABack(d: Dh, d0: Dh, rest: seq<byte>)
    requires Storable(d) && Consistent(d) && d0.hasGA == d.hasGA && (!d.hasGA ==> d0.gA == 0)
    ensures LoadGA(d0, SaveGA(d) + rest) == Some((d0.(gA := d.gA), rest))
  {
    hide FetchString;
    hide SavedString;
    if d.hasGA {
      BinaryRoundTrip(d.gA);
      StringBack(ToBinary(d.gA), rest);
    } else {
      assert SaveGA(d) + rest == rest;
    }
  }

  /** What a saved exchange comes back as. */
  function Restored(d: Dh): Dh {
    d.(hasHash := false, okHash := false, hash := [])
  }

  /** A saved exchange is restored in full, except that an announced hash of `g_a` is forgotten. */
  lemma RestoreUndoesSave(d: Dh, rest: seq<byte>)
    requires Storable(d) && Consistent(d)
    ensures Load(Save(d) + rest) == Some((Restored(d), rest))
  {
    hide Take;
    hide LoadConfig;
    hide LoadGA;
    hide SaveConfig;
    hide SaveGA;
    hide Le;
    var tail := SaveGA(d) + rest;
    assert Save(d) + rest == Le(Flags(d), 4) + (SaveConfig(d) + tail);
    TakeWord(Flags(d), SaveConfig(d) + tail);
    var d0 := New().(hasConfig := d.hasConfig, hasGA := d.hasGA);
    if d.hasConfig {
      ConfigBack(d, d0, tail);
    } else {
      NoConfig(d);
      assert SaveConfig(d) + tail == tail;
    }
    GABack(d, d0.(primeStr := d.primeStr, prime := d.prime, b := d.b, g := d.g, gB := d.gB), rest);
  }

  lemma NoConfig(d: Dh)
    requires Storable(d) && !d.hasConfig
    ensures SaveConfig(d) == []
  {
  }

  /** So the restored object is the saved one exactly when no hash had been announced; when one
      had been and `g_a` did not match it, the restored object no longer notices. */
  lemma RestoredIsSameIff(d: Dh, skipConfig: bool, primesOk: bool)
    requires Consistent(d)
    ensures Restored(d) == d <==> !d.hasHash
    ensures Checks(Restored(d), skipConfig, primesOk) != HashMismatch
    ensures Checks(d, skipConfig, primesOk) == HashMismatch <==> d.hasHash && !d.okHash
  {
    hide InRange;
  }

  /** Such an exchange, for any digest function: a hash is announced, a `g_a` with another one
      arrives, the exchange is saved and loaded; the checks refused it before and do not after. */
  lemma MismatchIsForgotten(sha256: seq<byte> -> seq<byte>) returns (d: Dh, loaded: Dh)
    ensures exists hash ::
      d == WithGA(WithHash(Configure(New(), 3, [23], 5), hash), [8], sha256)
    ensures Storable(d) && Load(Save(d)) == Some((loaded, [])) && loaded != d
    ensures forall skipConfig, primesOk :: Checks(d, skipConfig, primesOk) == HashMismatch
    ensures forall skipConfig, primesOk :: Checks(loaded, skipConfig, primesOk) != HashMismatch
  {
    var hash := sha256([8]) + [0];
    assert FromBinary([23]) == 23;
    d := WithGA(WithHash(Configure(New(), 3, [23], 5), hash), [8], sha256);
    assert |hash| != |sha256([8])|;
    RestoreUndoesSave(d, []);
    assert Save(d) + [] == Save(d);
    loaded := Restored(d);
  }

  // ---------------------------------------------------------------- the class

  class DhHandshake {
    var hasConfig: bool
    var primeStr: seq<byte>
    var prime: nat
    var g: nat
    var b: nat
    var gB: nat
    var hasGA: bool
    var gA: nat
    var hasHash: bool
    var okHash: bool
    var hash: seq<byte>

    ghost function State(): Dh
      reads this
    {
      Dh(hasConfig, primeStr, prime, g, b, gB, hasGA, gA, hasHash, okHash, hash)
    }

    constructor ()
      ensures State() == New() && Consistent(State())
    {
      hasConfig, primeStr, prime, g, b, gB := false, [], 0, 0, 0, 0;
      hasGA, gA, hasHash, okHash, hash := false, 0, false, false, [];
    }

    method SetConfig(generator: nat, primeString: seq<byte>, exponent: nat)
      requires FromBinary(primeString) > 0 && Consistent(State())
      modifies this
      ensures State() == Configure(old(State()), generator, primeString, exponent) && Consistent(State())
    {
      hasConfig := true;
      prime := FromBinary(primeString);
      primeStr := primeString;
      b := exponent;
      g := generator;
      gB := ModExp(g, b, prime);
    }

    method SetGAHash(digest: seq<byte>)
      requires !hasGA && Consistent(State())
      modifies this
      ensures State() == WithHash(old(State()), digest) && Consistent(State())
    {
      hasHash := true;
      okHash := false;
      hash := digest;
    }

    method SetGA(number: seq<byte>, sha256: seq<byte> -> seq<byte>)
      requires Consistent(State())
      modifies this
      ensures State() == WithGA(old(State()), number, sha256) && Consistent(State())
    {
      hasGA := true;
      if hasHash {
        okHash := sha256(number) == hash;
      }
      gA := FromBinary(number);
    }

    method RunChecks(skipConfig: bool, primesOk: bool) returns (status: Status)
      requires hasGA && hasConfig
      ensures status == Checks(State(), skipConfig, primesOk)
    {
      if hasHash && !okHash {
        return HashMismatch;
      }
      if !skipConfig && !ConfigOk(prime, primesOk) {
        return BadConfig;
      }
      if NumBits(prime) != PRIME_BITS {
        return Aborted;
      }
      return if InRange(prime, gA, gB) then Ok else OutOfRange;
    }

    method GenKey(sha1: seq<byte> -> Digest) returns (id: nat, key: seq<byte>)
      requires hasGA && hasConfig && Consistent(State()) && NumBits(prime) <= PRIME_BITS
      ensures (id, key) == Key(State(), sha1)
    {
      KeyFits(State());
      key := ToBinaryExact(ModExp(gA, b, prime), KEY_SIZE);
      id := KeyId(key, sha1);
    }
  }
}
