/**
  The allocation profiler's hash table: insert-only linear probing by several threads.

  `Step` advances one thread by one atomic access (load a slot's hash, load `ht_size`,
  compare-and-swap, increment `ht_size`). An interleaving is the sequence of the threads
  that move, so a theorem about `Run` speaks of every interleaving of every sequence of calls.
 */
module ProbeTable {
  import opened Bytes
  import opened Counting

  const HT_MAX_SIZE: nat := 10_000_000
  const MULTIPLIER: nat := 0x4372897893428797
  const BACKTRACE_LENGTH: nat := 10
  const BACKTRACE_HASHED_LENGTH: nat := 6

  // ---------------------------------------------------------------- the hash of a backtrace

  function HashPrefix(bt: seq<nat>, n: nat): (h: nat)
    requires n <= |bt|
    ensures h < WORD
  {
    if n == 0 then 7 else (HashPrefix(bt, n - 1) * MULTIPLIER + bt[n - 1]) % WORD
  }

  function HashedLength(bt: seq<nat>): nat {
    if |bt| < BACKTRACE_HASHED_LENGTH then |bt| else BACKTRACE_HASHED_LENGTH
  }

  method GetHash(bt: seq<nat>) returns (h: nat)
    ensures h == HashPrefix(bt, HashedLength(bt))
  {
    h := 7;
    var i := 0;
    while i < |bt| && i < BACKTRACE_HASHED_LENGTH
      invariant i <= HashedLength(bt)
      invariant h == HashPrefix(bt, i)
    {
      h := (h * MULTIPLIER + bt[i]) % WORD;
      i := i + 1;
    }
  }

  /** The backtrace charged once the table is half full. */
  const UNKNOWN_BACKTRACE: seq<nat> := [1, 0, 0, 0, 0, 0, 0, 0, 0, 0]

  /** Its hash, as computed by `GetHash`. */
  const UNKNOWN_HASH: nat := 3600631632233801934

  lemma UnknownHash()
    ensures HashPrefix(UNKNOWN_BACKTRACE, HashedLength(UNKNOWN_BACKTRACE)) == UNKNOWN_HASH != 0
  {
    var bt := UNKNOWN_BACKTRACE;
    assert HashPrefix(bt, 0) == 7;
    assert HashPrefix(bt, 1) == 15573942618211595554;
    assert HashPrefix(bt, 2) == 307363475481085198;
    assert HashPrefix(bt, 3) == 11748199282458533186;
    assert HashPrefix(bt, 4) == 12683285947700121582;
    assert HashPrefix(bt, 5) == 15296700614487664482;
    assert HashPrefix(bt, 6) == 3600631632233801934;
  }

  /** Every 64-bit number is the hash of some backtrace: every five return addresses extend to one
      by a suitable sixth. */
  lemma EveryHashExists(prefix: seq<nat>, hash: nat) returns (bt: seq<nat>)
    requires |prefix| == 5 && hash < WORD
    ensures |bt| == BACKTRACE_LENGTH && prefix <= bt && (forall i :: 5 <= i < |bt| ==> bt[i] < WORD)
    ensures HashPrefix(bt, HashedLength(bt)) == hash
  {
    var partial := HashPrefix(prefix, 5) * MULTIPLIER;
    var last := Missing(partial, hash);
    bt := prefix + [last, 0, 0, 0, 0];
    HashPrefixAgrees(prefix, bt, 5);
    assert HashPrefix(bt, 6) == (partial + last) % WORD;
  }

  function Missing(x: nat, sum: nat): (c: nat)
    requires sum < WORD
    ensures c < WORD && (x + c) % WORD == sum
  {
    if x % WORD <= sum then sum - x % WORD else WORD + sum - x % WORD
  }

  lemma {:induction false} HashPrefixAgrees(a: seq<nat>, b: seq<nat>, n: nat)
    requires n <= |a| <= |b| && a <= b
    ensures HashPrefix(a, n) == HashPrefix(b, n)
  {
    if n > 0 {
      HashPrefixAgrees(a, b, n - 1);
    }
  }

  // ---------------------------------------------------------------- the state machine

  /** The locals of one call of `get_ht_pos`; the call that was redirected to unknown callers
      goes on with their hash, and `requested` keeps the one its caller gave. */
  datatype Probe = Probe(requested: nat, hash: nat, force: bool, pos: nat, wrapped: bool)

  /** Where a thread stands, named after the atomic access it performs next. */
  datatype Pc =
    | Idle
    | LoadSlot(p: Probe)
    | LoadSize(p: Probe)
    | LoadSizeForced(p: Probe)
    | CompareExchange(p: Probe)
    | Increment(p: Probe)
    | Aborted

  datatype Settled = Settled(requested: nat, hash: nat, pos: nat)

  /** `settled` records, in order, every call that has returned: the hash its caller gave, the
      hash it settled on, and the slot it returned. */
  datatype State = State(slots: seq<nat>, size: nat, threads: seq<Pc>, settled: seq<Settled>)

  function Begin(requested: nat, hash: nat, force: bool): Probe {
    Probe(requested, hash, force, hash % HT_MAX_SIZE, false)
  }

  function Return(s: State, t: nat, p: Probe): State
    requires t < |s.threads|
  {
    s.(threads := s.threads[t := Idle], settled := s.settled + [Settled(p.requested, p.hash, p.pos)])
  }

  function Advance(p: Probe): Pc {
    if p.pos + 1 != HT_MAX_SIZE then LoadSlot(p.(pos := p.pos + 1))
    else if p.wrapped then Aborted
    else LoadSlot(p.(pos := 0, wrapped := true))
  }

  function Step(s: State, t: nat, request: nat): State
    requires t < |s.threads| && ValidPositions(s)
  {
    match s.threads[t]
    case Idle =>
      s.(threads := s.threads[t := LoadSlot(Begin(request, request, false))])
    case LoadSlot(p) =>
      if s.slots[p.pos] == 0 then s.(threads := s.threads[t := LoadSize(p)])
      else if s.slots[p.pos] == p.hash then Return(s, t, p)
      else s.(threads := s.threads[t := Advance(p)])
    case LoadSize(p) =>
      if s.size <= HT_MAX_SIZE / 2 then s.(threads := s.threads[t := CompareExchange(p)])
      else if p.force then s.(threads := s.threads[t := LoadSizeForced(p)])
      else s.(threads := s.threads[t := LoadSlot(Begin(p.requested, UNKNOWN_HASH, true))])
    case LoadSizeForced(p) =>
      if s.size * 10 < HT_MAX_SIZE * 7 then s.(threads := s.threads[t := CompareExchange(p)])
      else s.(threads := s.threads[t := Aborted])
    case CompareExchange(p) =>
      if s.slots[p.pos] == 0 then
        s.(slots := s.slots[p.pos := p.hash], threads := s.threads[t := Increment(p)])
      else s.(threads := s.threads[t := LoadSlot(p)])
    case Increment(p) => Return(s.(size := s.size + 1), t, p)
    case Aborted => s
  }

  predicate InCall(pc: Pc) { !pc.Idle? && !pc.Aborted? }

  predicate ValidPositions(s: State) {
    |s.slots| == HT_MAX_SIZE && forall pc :: pc in s.threads && InCall(pc) ==> pc.p.pos < HT_MAX_SIZE
  }

  // ---------------------------------------------------------------- the probe-path invariant

  /** Slot `k` lies on the cyclic path from `home` up to, not including, `pos`. */
  predicate Between(home: int, pos: int, k: int) {
    if home <= pos then home <= k < pos else k < pos || home <= k < HT_MAX_SIZE
  }

  /** Every slot a probe for `hash` passes before `pos` is taken by another hash. */
  ghost predicate PathTaken(slots: seq<nat>, hash: nat, pos: nat)
    requires |slots| == HT_MAX_SIZE
  {
    forall k :: 0 <= k < HT_MAX_SIZE && Between(hash % HT_MAX_SIZE, pos, k) ==> slots[k] != 0 && slots[k] != hash
  }

  ghost predicate ProbeOk(slots: seq<nat>, p: Probe)
    requires |slots| == HT_MAX_SIZE
  {
    && p.pos < HT_MAX_SIZE
    && (p.wrapped <==> p.pos < p.hash % HT_MAX_SIZE)
    && p.hash == (if p.force then UNKNOWN_HASH else p.requested)
    && PathTaken(slots, p.hash, p.pos)
  }

  ghost predicate ThreadOk(slots: seq<nat>, pc: Pc)
    requires |slots| == HT_MAX_SIZE
  {
    && !pc.Aborted?
    && (InCall(pc) ==> ProbeOk(slots, pc.p))
    && (pc.LoadSizeForced? ==> pc.p.force)
    && (pc.Increment? ==> slots[pc.p.pos] == pc.p.hash || pc.p.hash == 0)
  }

  ghost predicate PathsOk(s: State)
    requires |s.slots| == HT_MAX_SIZE
  {
    && (forall t :: 0 <= t < |s.threads| ==> ThreadOk(s.slots, s.threads[t]))
    && (forall i :: 0 <= i < HT_MAX_SIZE && s.slots[i] != 0 ==> PathTaken(s.slots, s.slots[i], i))
    && (forall j :: 0 <= j < |s.settled| ==> SettledOk(s.slots, s.settled[j]))
  }

  ghost predicate SettledOk(slots: seq<nat>, e: Settled)
    requires |slots| == HT_MAX_SIZE
  {
    e.pos < HT_MAX_SIZE && (e.hash != 0 ==> slots[e.pos] == e.hash) && e.hash in {e.requested, UNKNOWN_HASH}
  }

  // ---------------------------------------------------------------- the occupancy invariant

  predicate Taken(hash: nat) { hash != 0 }

  /** The compare-and-swap is done, `ht_size` lags. */
  predicate Lagging(pc: Pc) { pc.Increment? }

  /** Will still raise `ht_size`, or may: past the half-full check for an ordinary hash. */
  predicate Pending(pc: Pc) {
    pc.Increment? || (pc.CompareExchange? && pc.p.hash != UNKNOWN_HASH)
  }

  ghost function Occupied(s: State): nat { Count(s.slots, Taken) }

  ghost predicate CountsOk(s: State) {
    && Occupied(s) <= s.size + Count(s.threads, Lagging)
    && s.size + Count(s.threads, Pending) <=
         HT_MAX_SIZE / 2 + |s.threads| + (if UNKNOWN_HASH in s.slots then 1 else 0)
  }

  /** Few enough threads: their number plus one stays below a fifth of the table. */
  predicate FewThreads(n: nat) { 5 * (n + 1) < HT_MAX_SIZE }

  ghost predicate Inv(s: State) {
    |s.slots| == HT_MAX_SIZE && FewThreads(|s.threads|) && PathsOk(s) && CountsOk(s)
  }

  lemma InvPositions(s: State)
    requires Inv(s)
    ensures ValidPositions(s)
  {
    forall pc | pc in s.threads && InCall(pc) ensures pc.p.pos < HT_MAX_SIZE {
      var t :| 0 <= t < |s.threads| && s.threads[t] == pc;
      assert ThreadOk(s.slots, s.threads[t]);
    }
  }

  /** Each nonzero hash sits in one slot at most. */
  lemma HashUnique(s: State, i: nat, j: nat)
    requires Inv(s) && i < HT_MAX_SIZE && j < HT_MAX_SIZE
    requires s.slots[i] == s.slots[j] != 0
    ensures i == j
  {
    assert PathTaken(s.slots, s.slots[i], i) && PathTaken(s.slots, s.slots[j], j);
    var home := s.slots[i] % HT_MAX_SIZE;
    assert i != j ==> Between(home, i, j) || Between(home, j, i);
  }

  lemma {:induction false} CountLe<T(!new)>(s: seq<T>, p: T -> bool, q: T -> bool)
    requires forall x :: p(x) ==> q(x)
    ensures Count(s, p) <= Count(s, q)
  {
    if s != [] {
      CountLe(s[..|s| - 1], p, q);
    }
  }

  /** The table is never more than half full by more than the threads and one slot. */
  lemma OccupancyBound(s: State)
    requires Inv(s)
    ensures Occupied(s) <= HT_MAX_SIZE / 2 + |s.threads| + 1 < HT_MAX_SIZE
    ensures s.size <= HT_MAX_SIZE / 2 + |s.threads| + 1
    ensures s.size * 10 < HT_MAX_SIZE * 7
  {
    CountLe(s.threads, Lagging, Pending);
  }

  lemma FreeSlot(s: State) returns (i: nat)
    requires Inv(s)
    ensures i < HT_MAX_SIZE && s.slots[i] == 0
  {
    OccupancyBound(s);
    if forall k :: 0 <= k < |s.slots| ==> Taken(s.slots[k]) {
      CountFull(s.slots, Taken);
      assert false;
    }
    i :| 0 <= i < |s.slots| && !Taken(s.slots[i]);
  }

  // ---------------------------------------------------------------- preservation

  /** A swapped-in hash leaves every probe path as it was: paths hold no empty slot. */
  lemma PathsSurviveInsert(slots: seq<nat>, at: nat, inserted: nat, hash: nat, pos: nat)
    requires |slots| == HT_MAX_SIZE && at < HT_MAX_SIZE && slots[at] == 0
    requires PathTaken(slots, hash, pos)
    ensures PathTaken(slots[at := inserted], hash, pos)
  {
  }

  /** A probe that meets a foreign hash moves on, and cannot come back to where it began. */
  lemma AdvanceOk(s: State, p: Probe)
    requires Inv(s) && ProbeOk(s.slots, p) && s.slots[p.pos] != 0 && s.slots[p.pos] != p.hash
    ensures Advance(p).LoadSlot? && ProbeOk(s.slots, Advance(p).p)
    ensures Ahead(Advance(p).p) == Ahead(p) - 1
  {
    var free := FreeSlot(s);
    var home := p.hash % HT_MAX_SIZE;
    assert !Between(home, p.pos, free);
    assert free != p.pos;
  }

  /** How many slots a probe has not passed yet, its own included. */
  function Ahead(p: Probe): int {
    var home := p.hash % HT_MAX_SIZE;
    if p.pos < home then home - p.pos else HT_MAX_SIZE - (p.pos - home)
  }

  lemma BeginOk(slots: seq<nat>, requested: nat, hash: nat, force: bool)
    requires |slots| == HT_MAX_SIZE && hash == if force then UNKNOWN_HASH else requested
    ensures ProbeOk(slots, Begin(requested, hash, force))
  {
  }

  lemma StepKeepsPaths(s: State, t: nat, request: nat)
    requires Inv(s) && t < |s.threads| && ValidPositions(s)
    ensures |Step(s, t, request).slots| == HT_MAX_SIZE && PathsOk(Step(s, t, request))
  {
    var s' := Step(s, t, request);
    assert ThreadOk(s.slots, s.threads[t]);
    match s.threads[t] {
      case Idle => BeginOk(s.slots, request, request, false);
      case LoadSlot(p) =>
        if s.slots[p.pos] != 0 && s.slots[p.pos] != p.hash {
          AdvanceOk(s, p);
        }
      case LoadSize(p) => BeginOk(s.slots, p.requested, UNKNOWN_HASH, true);
      case LoadSizeForced(p) => OccupancyBound(s);
      case CompareExchange(p) =>
        if s.slots[p.pos] == 0 {
          InsertKeepsPaths(s, t, p);
        }
      case Increment(p) =>
    }
  }

  lemma InsertKeepsPaths(s: State, t: nat, p: Probe)
    requires Inv(s) && t < |s.threads| && ValidPositions(s)
    requires s.threads[t] == CompareExchange(p) && s.slots[p.pos] == 0
    ensures PathsOk(Step(s, t, 0))
  {
    var s' := Step(s, t, 0);
    assert ThreadOk(s.slots, s.threads[t]);
    forall u | 0 <= u < |s'.threads| ensures ThreadOk(s'.slots, s'.threads[u]) {
      assert ThreadOk(s.slots, s.threads[u]);
      if InCall(s.threads[u]) {
        PathsSurviveInsert(s.slots, p.pos, p.hash, s.threads[u].p.hash, s.threads[u].p.pos);
      }
    }
    forall i | 0 <= i < HT_MAX_SIZE && s'.slots[i] != 0 ensures PathTaken(s'.slots, s'.slots[i], i) {
      PathsSurviveInsert(s.slots, p.pos, p.hash, s'.slots[i], i);
    }
    forall j | 0 <= j < |s'.settled| ensures SettledOk(s'.slots, s'.settled[j]) {
      assert SettledOk(s.slots, s.settled[j]);
    }
  }

  lemma StepKeepsCounts(s: State, t: nat, request: nat)
    requires Inv(s) && t < |s.threads| && ValidPositions(s)
    ensures CountsOk(Step(s, t, request))
  {
    var s' := Step(s, t, request);
    var pc := s.threads[t];
    var pc' := s'.threads[t];
    assert ThreadOk(s.slots, pc);
    CountUpdate(s.threads, Lagging, t, pc');
    CountUpdate(s.threads, Pending, t, pc');
    if pc.CompareExchange? && s.slots[pc.p.pos] == 0 {
      CountUpdate(s.slots, Taken, pc.p.pos, pc.p.hash);
      InsertedUnknown(s, t, pc.p);
    } else if pc.LoadSize? && pc'.CompareExchange? {
      CountMissing(s.threads, Pending, t);
    }
  }

  /** A hash not met before an empty slot is nowhere in the table. */
  lemma NotStored(s: State, p: Probe)
    requires Inv(s) && ProbeOk(s.slots, p) && s.slots[p.pos] == 0
    ensures p.hash != 0 ==> p.hash !in s.slots
  {
    var home := p.hash % HT_MAX_SIZE;
    forall j | 0 <= j < |s.slots| && p.hash != 0 ensures s.slots[j] != p.hash {
      assert s.slots[j] != 0 ==> PathTaken(s.slots, s.slots[j], j);
      assert j != p.pos ==> Between(home, j, p.pos) || Between(home, p.pos, j);
    }
  }

  /** The hash swapped into an empty slot was nowhere in the table. */
  lemma InsertedUnknown(s: State, t: nat, p: Probe)
    requires Inv(s) && t < |s.threads| && ValidPositions(s)
    requires s.threads[t] == CompareExchange(p) && s.slots[p.pos] == 0
    ensures p.hash != 0 ==> p.hash !in s.slots
    ensures UNKNOWN_HASH in s.slots ==> UNKNOWN_HASH in s.slots[p.pos := p.hash]
    ensures p.hash == UNKNOWN_HASH ==> UNKNOWN_HASH in s.slots[p.pos := p.hash]
  {
    assert ThreadOk(s.slots, s.threads[t]);
    var slots' := s.slots[p.pos := p.hash];
    assert slots'[p.pos] == p.hash;
    NotStored(s, p);
    if UNKNOWN_HASH in s.slots {
      var j :| 0 <= j < |s.slots| && s.slots[j] == UNKNOWN_HASH;
      assert slots'[j] == UNKNOWN_HASH;
    }
  }

  lemma StepKeepsInv(s: State, t: nat, request: nat)
    requires Inv(s) && t < |s.threads|
    ensures ValidPositions(s) && Inv(Step(s, t, request))
  {
    InvPositions(s);
    StepKeepsPaths(s, t, request);
    StepKeepsCounts(s, t, request);
  }

  /** What a call does, step by step: it begins with the hash given and keeps it; it ends only by
      returning, which adds one entry for it: a slot that holds the hash given or that of unknown
      callers. No step touches another thread. */
  lemma StepsOfACall(s: State, t: nat, request: nat)
    requires Inv(s) && t < |s.threads|
    ensures ValidPositions(s)
    ensures var s' := Step(s, t, request);
      var pc, pc' := s.threads[t], s'.threads[t];
      && |s'.threads| == |s.threads| && (forall u :: 0 <= u < |s.threads| && u != t ==> s'.threads[u] == s.threads[u])
      && (pc.Idle? ==> InCall(pc') && pc'.p.requested == request && s'.settled == s.settled)
      && (InCall(pc) && InCall(pc') ==> pc'.p.requested == pc.p.requested && s'.settled == s.settled)
      && (InCall(pc) && !InCall(pc') ==>
            && pc'.Idle? && |s'.settled| == |s.settled| + 1 && s'.settled[..|s.settled|] == s.settled
            && var e := s'.settled[|s.settled|];
               && e.requested == pc.p.requested && e.pos < HT_MAX_SIZE
               && (s'.slots[e.pos] == e.requested || s'.slots[e.pos] == UNKNOWN_HASH || e.hash == 0))
  {
    InvPositions(s);
    assert ThreadOk(s.slots, s.threads[t]);
    StepKeepsInv(s, t, request);
    var s' := Step(s, t, request);
    assert ThreadOk(s'.slots, s'.threads[t]);
    assert |s'.settled| > |s.settled| ==> SettledOk(s'.slots, s'.settled[|s.settled|]);
    hide Inv;
    hide PathTaken;
  }

  // ---------------------------------------------------------------- runs

  datatype Event = Event(thread: nat, request: nat)

  ghost predicate EventsFor(threads: nat, events: seq<Event>) {
    forall e :: e in events ==> e.thread < threads && e.request < WORD
  }

  function Initial(threads: nat): State {
    State(seq(HT_MAX_SIZE, _ => 0), 0, seq(threads, _ => Idle), [])
  }

  lemma InitialOk(threads: nat)
    requires FewThreads(threads)
    ensures Inv(Initial(threads))
  {
    var s := Initial(threads);
    CountNone(s.slots, Taken);
    CountNone(s.threads, Pending);
  }

  /** The state after the threads have moved in the order given. */
  ghost function Run(threads: nat, events: seq<Event>): (s: State)
    requires FewThreads(threads) && EventsFor(threads, events)
    ensures Inv(s) && |s.threads| == threads
  {
    if events == [] then InitialOk(threads); Initial(threads)
    else
      var n := |events| - 1;
      var e := events[n];
      var before := Run(threads, events[..n]);
      StepKeepsInv(before, e.thread, e.request);
      Step(before, e.thread, e.request)
  }

  /** In every interleaving: no abort, every hash in at most one slot, occupancy and `ht_size`
      below the bound that makes the 70% assertion true. */
  lemma EveryRunIsSafe(threads: nat, events: seq<Event>)
    requires FewThreads(threads) && EventsFor(threads, events)
    ensures var s := Run(threads, events);
      && Aborted !in s.threads
      && (forall i, j :: 0 <= i < HT_MAX_SIZE && 0 <= j < HT_MAX_SIZE && s.slots[i] == s.slots[j] != 0 ==> i == j)
      && Occupied(s) <= HT_MAX_SIZE / 2 + threads + 1
      && s.size * 10 < HT_MAX_SIZE * 7
  {
    var s := Run(threads, events);
    OccupancyBound(s);
    forall i, j | 0 <= i < HT_MAX_SIZE && 0 <= j < HT_MAX_SIZE && s.slots[i] == s.slots[j] != 0 ensures i == j {
      HashUnique(s, i, j);
    }
    forall t | 0 <= t < |s.threads| ensures s.threads[t] != Aborted {
      assert ThreadOk(s.slots, s.threads[t]);
    }
  }

  // ---------------------------------------------------------------- do calls agree?

  /** All calls that settle on one hash settle on one slot. */
  ghost predicate SettlementsAgree(hash: nat) {
    forall threads: nat, events: seq<Event>, i: nat, j: nat ::
      FewThreads(threads) && EventsFor(threads, events) ==>
        var settled := Run(threads, events).settled;
        i < |settled| && j < |settled| && settled[i].hash == hash == settled[j].hash ==>
          settled[i].pos == settled[j].pos
  }

  /** ... and that holds exactly for the hashes that are not the empty-slot mark. */
  lemma SettlementsAgreeIffNonzero(hash: nat)
    ensures SettlementsAgree(hash) <==> hash != 0
  {
    if hash == 0 {
      ZeroHashMoves();
    } else {
      forall threads: nat, events: seq<Event>, i: nat, j: nat
        | FewThreads(threads) && EventsFor(threads, events)
        ensures var settled := Run(threads, events).settled;
          i < |settled| && j < |settled| && settled[i].hash == hash == settled[j].hash ==>
            settled[i].pos == settled[j].pos
      {
        var s := Run(threads, events);
        if i < |s.settled| && j < |s.settled| && s.settled[i].hash == hash == s.settled[j].hash {
          SameSlotIff(s, i, j);
        }
      }
    }
  }

  /** Two returned calls that settled on nonzero hashes returned one slot exactly when these are
      the same. */
  lemma SameSlotIff(s: State, i: nat, j: nat)
    requires Inv(s) && i < |s.settled| && j < |s.settled| && s.settled[i].hash != 0 && s.settled[j].hash != 0
    ensures s.settled[i].pos == s.settled[j].pos <==> s.settled[i].hash == s.settled[j].hash
  {
    var a, b := s.settled[i], s.settled[j];
    assert SettledOk(s.slots, a) && SettledOk(s.slots, b);
    if a.hash == b.hash {
      HashUnique(s, a.pos, b.pos);
    }
  }

  /** So two calls with one nonzero hash return different slots exactly when one of them, and not
      the other, was redirected to unknown callers. */
  lemma DifferIffOneRedirected(threads: nat, events: seq<Event>, i: nat, j: nat)
    requires FewThreads(threads) && EventsFor(threads, events)
    requires i < |Run(threads, events).settled| && j < |Run(threads, events).settled|
    requires Run(threads, events).settled[i].requested == Run(threads, events).settled[j].requested != 0
    ensures var a, b := Run(threads, events).settled[i], Run(threads, events).settled[j];
      a.pos != b.pos <==> (a.hash != a.requested) != (b.hash != b.requested)
  {
    var s := Run(threads, events);
    assert SettledOk(s.slots, s.settled[i]) && SettledOk(s.slots, s.settled[j]);
    SameSlotIff(s, i, j);
  }

  /** In every run of so many threads, all calls with one hash return one slot. */
  ghost predicate CallsAgree(threads: nat, hash: nat)
    requires FewThreads(threads)
  {
    forall events: seq<Event>, i: nat, j: nat :: EventsFor(threads, events) ==>
      var settled := Run(threads, events).settled;
      i < |settled| && j < |settled| && settled[i].requested == hash == settled[j].requested ==>
        settled[i].pos == settled[j].pos
  }

  /** That holds for the hash of unknown callers, and for every hash but 0 when there is only one
      thread; in all other cases two calls with the same hash can return different slots. */
  lemma CallsAgreeIff(threads: nat, hash: nat)
    requires 1 <= threads && FewThreads(threads) && hash < WORD
    ensures CallsAgree(threads, hash) <==> hash == UNKNOWN_HASH || (threads == 1 && hash != 0)
  {
    if hash == UNKNOWN_HASH || (threads == 1 && hash != 0) {
      forall events: seq<Event>, i: nat, j: nat | EventsFor(threads, events)
        ensures var settled := Run(threads, events).settled;
          i < |settled| && j < |settled| && settled[i].requested == hash == settled[j].requested ==>
            settled[i].pos == settled[j].pos
      {
        var settled := Run(threads, events).settled;
        if i < |settled| && j < |settled| && settled[i].requested == hash == settled[j].requested {
          DifferIffOneRedirected(threads, events, i, j);
          if hash == UNKNOWN_HASH {
            assert SettledOk(Run(threads, events).slots, settled[i]) && SettledOk(Run(threads, events).slots, settled[j]);
          } else {
            LoneCallsAgree(events, i, j);
          }
        }
      }
    } else if threads == 1 {
      ZeroHashMoves();
    } else {
      var events, i, j := TwoThreadsDisagree(threads, hash);
    }
  }

  // ---------------------------------------------------------------- one thread

  /** The table is past half full and does not hold the hash, which calls are then redirected for. */
  ghost predicate Shut(s: State, hash: nat) {
    hash != UNKNOWN_HASH && s.size > HT_MAX_SIZE / 2 && (hash != 0 ==> hash !in s.slots)
  }

  /** What a lone thread keeps besides `Inv`: a redirected hash stays shut out, and nobody fills
      the empty slot it has seen. */
  ghost predicate LoneOk(s: State)
    requires |s.threads| == 1 && ValidPositions(s)
  {
    var pc := s.threads[0];
    && (forall e :: e in s.settled && e.hash != e.requested ==> Shut(s, e.requested))
    && (InCall(pc) ==>
          assert pc in s.threads;
          && (pc.p.hash != pc.p.requested ==> Shut(s, pc.p.requested))
          && (pc.LoadSize? || pc.LoadSizeForced? || pc.CompareExchange? ==> s.slots[pc.p.pos] == 0)
          && (pc.CompareExchange? && pc.p.hash != UNKNOWN_HASH ==> s.size <= HT_MAX_SIZE / 2))
  }

  lemma LoneStep(s: State, request: nat)
    requires Inv(s) && |s.threads| == 1 && ValidPositions(s) && LoneOk(s)
    requires ValidPositions(Step(s, 0, request))
    ensures LoneOk(Step(s, 0, request))
  {
    assert ThreadOk(s.slots, s.threads[0]);
    if s.threads[0].LoadSize? {
      NotStored(s, s.threads[0].p);
    }
    hide Inv;
    hide PathTaken;
  }

  lemma {:induction false} LoneRun(events: seq<Event>)
    requires EventsFor(1, events)
    ensures ValidPositions(Run(1, events)) && LoneOk(Run(1, events))
  {
    InvPositions(Run(1, events));
    if events != [] {
      var n := |events| - 1;
      LoneRun(events[..n]);
      LoneStep(Run(1, events[..n]), events[n].request);
    }
  }

  /** A lone thread is redirected for a hash either never or on every call. */
  lemma LoneCallsAgree(events: seq<Event>, i: nat, j: nat)
    requires EventsFor(1, events)
    requires i < |Run(1, events).settled| && j < |Run(1, events).settled|
    requires Run(1, events).settled[i].requested == Run(1, events).settled[j].requested != 0
    ensures var a, b := Run(1, events).settled[i], Run(1, events).settled[j];
      a.hash != a.requested <==> b.hash != b.requested
  {
    var s := Run(1, events);
    assert SettledOk(s.slots, s.settled[i]) && SettledOk(s.slots, s.settled[j]);
    assert s.settled[i] in s.settled && s.settled[j] in s.settled;
    LoneRun(events);
  }

  // ---------------------------------------------------------------- pieces of runs

  lemma RunSnoc(threads: nat, events: seq<Event>, e: Event)
    requires FewThreads(threads) && EventsFor(threads, events) && e.thread < threads && e.request < WORD
    ensures EventsFor(threads, events + [e])
    ensures ValidPositions(Run(threads, events))
    ensures Run(threads, events + [e]) == Step(Run(threads, events), e.thread, e.request)
  {
    assert (events + [e])[..|events|] == events;
    InvPositions(Run(threads, events));
  }

  lemma NoEvents(threads: nat)
    requires FewThreads(threads)
    ensures EventsFor(threads, []) && Run(threads, []) == Initial(threads)
  {
  }

  /** The thread begins a call. */
  lemma Call(threads: nat, events: seq<Event>, t: nat, hash: nat) returns (longer: seq<Event>)
    requires FewThreads(threads) && EventsFor(threads, events) && t < threads && hash < WORD
    requires Run(threads, events).threads[t] == Idle
    ensures EventsFor(threads, longer)
    ensures var s := Run(threads, events);
      Run(threads, longer) == s.(threads := s.threads[t := LoadSlot(Begin(hash, hash, false))])
  {
    RunSnoc(threads, events, Event(t, hash));
    longer := events + [Event(t, hash)];
  }

  /** It meets another hash and moves on. */
  lemma Miss(threads: nat, events: seq<Event>, t: nat, p: Probe) returns (longer: seq<Event>)
    requires FewThreads(threads) && EventsFor(threads, events) && t < threads
    requires Run(threads, events).threads[t] == LoadSlot(p)
    requires p.pos < HT_MAX_SIZE - 1 && Run(threads, events).slots[p.pos] !in {0, p.hash}
    ensures EventsFor(threads, longer)
    ensures var s := Run(threads, events);
      Run(threads, longer) == s.(threads := s.threads[t := LoadSlot(p.(pos := p.pos + 1))])
  {
    hide Inv;
    RunSnoc(threads, events, Event(t, 0));
    longer := events + [Event(t, 0)];
  }

  /** It meets its hash and returns. */
  lemma Hit(threads: nat, events: seq<Event>, t: nat, p: Probe) returns (longer: seq<Event>)
    requires FewThreads(threads) && EventsFor(threads, events) && t < threads
    requires Run(threads, events).threads[t] == LoadSlot(p)
    requires p.pos < HT_MAX_SIZE && Run(threads, events).slots[p.pos] == p.hash != 0
    ensures EventsFor(threads, longer)
    ensures Run(threads, longer) == Return(Run(threads, events), t, p)
  {
    hide Inv;
    RunSnoc(threads, events, Event(t, 0));
    longer := events + [Event(t, 0)];
  }

  /** It finds an empty slot and passes the size test. */
  lemma Park(threads: nat, events: seq<Event>, t: nat, p: Probe) returns (longer: seq<Event>)
    requires FewThreads(threads) && EventsFor(threads, events) && t < threads
    requires Run(threads, events).threads[t] == LoadSlot(p) && Run(threads, events).size <= HT_MAX_SIZE / 2
    requires p.pos < HT_MAX_SIZE && Run(threads, events).slots[p.pos] == 0
    ensures EventsFor(threads, longer)
    ensures var s := Run(threads, events);
      Run(threads, longer) == s.(threads := s.threads[t := CompareExchange(p)])
  {
    hide Inv;
    var e := Event(t, 0);
    RunSnoc(threads, events, e);
    RunSnoc(threads, events + [e], e);
    longer := events + [e] + [e];
  }

  /** It finds an empty slot, fails the size test, and starts over for unknown callers. */
  lemma Redirect(threads: nat, events: seq<Event>, t: nat, p: Probe) returns (longer: seq<Event>)
    requires FewThreads(threads) && EventsFor(threads, events) && t < threads
    requires Run(threads, events).threads[t] == LoadSlot(p) && Run(threads, events).size > HT_MAX_SIZE / 2
    requires p.pos < HT_MAX_SIZE && Run(threads, events).slots[p.pos] == 0 && !p.force
    ensures EventsFor(threads, longer)
    ensures var s := Run(threads, events);
      Run(threads, longer) == s.(threads := s.threads[t := LoadSlot(Begin(p.requested, UNKNOWN_HASH, true))])
  {
    hide Inv;
    var e := Event(t, 0);
    RunSnoc(threads, events, e);
    RunSnoc(threads, events + [e], e);
    longer := events + [e] + [e];
  }

  /** It swaps its hash in, raises the size and returns. */
  lemma Swap(threads: nat, events: seq<Event>, t: nat, p: Probe) returns (longer: seq<Event>)
    requires FewThreads(threads) && EventsFor(threads, events) && t < threads
    requires Run(threads, events).threads[t] == CompareExchange(p)
    requires p.pos < HT_MAX_SIZE && Run(threads, events).slots[p.pos] == 0
    ensures EventsFor(threads, longer)
    ensures var s := Run(threads, events);
      Run(threads, longer) == Return(s.(slots := s.slots[p.pos := p.hash], size := s.size + 1), t, p)
  {
    hide Inv;
    var e := Event(t, 0);
    RunSnoc(threads, events, e);
    RunSnoc(threads, events + [e], e);
    longer := events + [e] + [e];
  }

  /** A whole call that takes its empty home slot while the table is sparse. */
  lemma Settle(threads: nat, events: seq<Event>, t: nat, hash: nat) returns (longer: seq<Event>)
    requires FewThreads(threads) && EventsFor(threads, events) && t < threads && hash < WORD
    requires Run(threads, events).threads[t] == Idle && Run(threads, events).size <= HT_MAX_SIZE / 2
    requires Run(threads, events).slots[hash % HT_MAX_SIZE] == 0
    ensures EventsFor(threads, longer)
    ensures var s, home := Run(threads, events), hash % HT_MAX_SIZE;
      Run(threads, longer)
        == State(s.slots[home := hash], s.size + 1, s.threads, s.settled + [Settled(hash, hash, home)])
  {
    hide Run;
    hide Step;
    hide EventsFor;
    hide Inv;
    var p := Begin(hash, hash, false);
    longer := Call(threads, events, t, hash);
    longer := Park(threads, longer, t, p);
    longer := Swap(threads, longer, t, p);
    var s := Run(threads, events);
    assert s.threads[t := CompareExchange(p)][t := Idle] == s.threads;
  }

  // ---------------------------------------------------------------- hash 0

  /** Hash 0 settles on slot 0, then hash 10,000,000 takes that slot, and hash 0 settles on slot 1. */
  lemma ZeroHashTwice() returns (events: seq<Event>)
    ensures EventsFor(1, events)
    ensures var settled := Run(1, events).settled;
      |settled| == 3 && settled[0] == Settled(0, 0, 0) && settled[2] == Settled(0, 0, 1)
  {
    hide Run;
    hide Step;
    hide EventsFor;
    hide Inv;
    NoEvents(1);
    events := Settle(1, [], 0, 0);
    events := Settle(1, events, 0, HT_MAX_SIZE);
    events := Call(1, events, 0, 0);
    events := Miss(1, events, 0, Begin(0, 0, false));
    var p := Probe(0, 0, false, 1, false);
    events := Park(1, events, 0, p);
    events := Swap(1, events, 0, p);
  }

  lemma ZeroHashMoves()
    ensures !SettlementsAgree(0) && !CallsAgree(1, 0)
  {
    var events := ZeroHashTwice();
    var settled := Run(1, events).settled;
    assert settled[0].hash == 0 == settled[2].hash && settled[0].requested == 0 == settled[2].requested;
    assert settled[0].pos != settled[2].pos;
  }

  // ---------------------------------------------------------------- two threads

  const UNKNOWN_HOME: nat := UNKNOWN_HASH % HT_MAX_SIZE

  /** Where a probe for the hash ends when unknown callers have a slot and the table is otherwise empty. */
  function Target(hash: nat): nat {
    if hash % HT_MAX_SIZE == UNKNOWN_HOME then UNKNOWN_HOME + 1 else hash % HT_MAX_SIZE
  }

  /** Thread 0 has passed the size test for the hash and not swapped it in; unknown callers have
      their slot; thread 1 is between calls. */
  ghost predicate Parked(s: State, hash: nat) {
    && 2 <= |s.threads| && |s.slots| == HT_MAX_SIZE
    && s.threads[0] == CompareExchange(Probe(hash, hash, false, Target(hash), false)) && s.threads[1] == Idle
    && s.slots[Target(hash)] == 0 && s.slots[UNKNOWN_HOME] == UNKNOWN_HASH
  }

  /** The thread moves on from its home slot if that belongs to unknown callers. */
  lemma ToTarget(threads: nat, events: seq<Event>, t: nat, hash: nat) returns (longer: seq<Event>)
    requires FewThreads(threads) && EventsFor(threads, events) && t < threads && hash < WORD && hash != UNKNOWN_HASH
    requires Run(threads, events).threads[t] == Idle && Run(threads, events).slots[UNKNOWN_HOME] == UNKNOWN_HASH
    ensures EventsFor(threads, longer)
    ensures var s := Run(threads, events);
      Run(threads, longer) == s.(threads := s.threads[t := LoadSlot(Probe(hash, hash, false, Target(hash), false))])
  {
    hide Run;
    hide Step;
    hide EventsFor;
    hide Inv;
    longer := Call(threads, events, t, hash);
    if hash % HT_MAX_SIZE == UNKNOWN_HOME {
      longer := Miss(threads, longer, t, Begin(hash, hash, false));
    }
  }

  lemma ParkFirst(threads: nat, hash: nat) returns (events: seq<Event>)
    requires 2 <= threads && FewThreads(threads) && hash < WORD && hash != UNKNOWN_HASH
    ensures EventsFor(threads, events) && Parked(Run(threads, events), hash)
    ensures var s := Run(threads, events);
      s.size == 1 && forall k :: 0 <= k < HT_MAX_SIZE && k != UNKNOWN_HOME ==> s.slots[k] == 0
  {
    hide Run;
    hide Step;
    hide EventsFor;
    hide Inv;
    NoEvents(threads);
    events := Settle(threads, [], 1, UNKNOWN_HASH);
    events := ToTarget(threads, events, 0, hash);
    events := Park(threads, events, 0, Probe(hash, hash, false, Target(hash), false));
  }

  /** Thread 1 fills the slots from `k` on with other hashes until the table is past half full. */
  lemma {:induction false} Fill(threads: nat, events: seq<Event>, hash: nat, k: nat) returns (longer: seq<Event>)
    requires FewThreads(threads) && EventsFor(threads, events) && Parked(Run(threads, events), hash)
    requires forall i :: k <= i < HT_MAX_SIZE && i != UNKNOWN_HOME ==> Run(threads, events).slots[i] == 0
    requires Run(threads, events).size >= k + 1 - (if UNKNOWN_HOME < k then 1 else 0) - (if Target(hash) < k then 1 else 0)
    ensures EventsFor(threads, longer) && Parked(Run(threads, longer), hash)
    ensures Run(threads, longer).size > HT_MAX_SIZE / 2
    decreases HT_MAX_SIZE / 2 + 2 - k
  {
    hide Run;
    hide Step;
    hide EventsFor;
    hide Inv;
    longer := events;
    if Run(threads, events).size <= HT_MAX_SIZE / 2 {
      if k != UNKNOWN_HOME && k != Target(hash) {
        longer := Settle(threads, events, 1, HT_MAX_SIZE + k);
      }
      longer := Fill(threads, longer, hash, k + 1);
    }
  }

  /** Thread 1 calls with the hash thread 0 is parked with and is redirected; then thread 0 swaps. */
  lemma TwoThreadsDisagree(threads: nat, hash: nat) returns (events: seq<Event>, i: nat, j: nat)
    requires 2 <= threads && FewThreads(threads) && hash < WORD && hash != UNKNOWN_HASH
    ensures EventsFor(threads, events)
    ensures var settled := Run(threads, events).settled;
      && i < |settled| && j < |settled|
      && settled[i] == Settled(hash, UNKNOWN_HASH, UNKNOWN_HOME) && settled[j] == Settled(hash, hash, Target(hash))
      && settled[i].pos != settled[j].pos
  {
    hide Run;
    hide Step;
    hide EventsFor;
    hide Inv;
    var p := Probe(hash, hash, false, Target(hash), false);
    events := ParkFirst(threads, hash);
    events := Fill(threads, events, hash, 0);
    i := |Run(threads, events).settled|;
    j := i + 1;
    events := ToTarget(threads, events, 1, hash);
    events := Redirect(threads, events, 1, p);
    events := Hit(threads, events, 1, Begin(hash, UNKNOWN_HASH, true));
    events := Swap(threads, events, 0, p);
  }

  // ---------------------------------------------------------------- every call ends

  /** A bound on the steps a thread still needs, whatever the other threads do meanwhile. */
  ghost function Work(s: State, t: nat): int
    requires t < |s.threads| && ValidPositions(s)
  {
    var pc := s.threads[t];
    if !InCall(pc) || pc.Increment? then 0
    else
      assert pc in s.threads;
      5 * Ahead(pc.p)
        + (if pc.p.force then 0 else 5 * HT_MAX_SIZE + 5)
        + (if pc.CompareExchange? then 1
           else if pc.LoadSizeForced? then 2
           else if pc.LoadSize? then 3
           else if s.slots[pc.p.pos] == 0 then 4 else 0)
  }

  const MAX_STEPS: nat := 10 * HT_MAX_SIZE + 9

  lemma WorkBounds(s: State, t: nat)
    requires Inv(s) && t < |s.threads| && InCall(s.threads[t])
    ensures ValidPositions(s) && 0 <= Work(s, t) <= MAX_STEPS
  {
    InvPositions(s);
    assert ThreadOk(s.slots, s.threads[t]);
    hide Inv;
    hide PathTaken;
  }

  lemma OthersKeepWork(s: State, t: nat, u: nat, request: nat)
    requires Inv(s) && t < |s.threads| && u < |s.threads| && InCall(s.threads[t]) && u != t
    requires ValidPositions(s) && ValidPositions(Step(s, u, request))
    ensures Work(Step(s, u, request), t) <= Work(s, t) && InCall(Step(s, u, request).threads[t])
  {
    assert ThreadOk(s.slots, s.threads[t]) && ThreadOk(s.slots, s.threads[u]);
    hide Inv;
    hide PathTaken;
    hide Ahead;
  }

  lemma OwnStepLowersWork(s: State, t: nat, request: nat)
    requires Inv(s) && t < |s.threads| && InCall(s.threads[t])
    requires ValidPositions(s) && ValidPositions(Step(s, t, request))
    ensures InCall(Step(s, t, request).threads[t]) ==> Work(Step(s, t, request), t) < Work(s, t)
  {
    assert ThreadOk(s.slots, s.threads[t]);
    var p := s.threads[t].p;
    if s.threads[t].LoadSlot? && s.slots[p.pos] != 0 && s.slots[p.pos] != p.hash {
      AdvanceOk(s, p);
    }
    hide Inv;
    hide PathTaken;
  }

  /** A thread's own step ends its call or strictly lowers its `Work`; nobody else raises it. */
  lemma StepLowersWork(s: State, t: nat, u: nat, request: nat)
    requires Inv(s) && t < |s.threads| && u < |s.threads| && InCall(s.threads[t])
    ensures ValidPositions(s) && ValidPositions(Step(s, u, request))
    ensures 0 <= Work(s, t) <= MAX_STEPS
    ensures u != t ==> Work(Step(s, u, request), t) <= Work(s, t) && InCall(Step(s, u, request).threads[t])
    ensures u == t && InCall(Step(s, t, request).threads[t]) ==> Work(Step(s, t, request), t) < Work(s, t)
  {
    hide Inv;
    hide Work;
    StepKeepsInv(s, u, request);
    InvPositions(Step(s, u, request));
    WorkBounds(s, t);
    if u == t {
      OwnStepLowersWork(s, t, request);
    } else {
      OthersKeepWork(s, t, u, request);
    }
  }

  ghost function OwnSteps(events: seq<Event>, t: nat): nat {
    if events == [] then 0 else (if events[0].thread == t then 1 else 0) + OwnSteps(events[1..], t)
  }

  /** The thread is inside one call before each of the events; the last may be its return. */
  ghost predicate InOneCall(s: State, t: nat, events: seq<Event>)
    requires Inv(s) && t < |s.threads| && EventsFor(|s.threads|, events)
    decreases |events|
  {
    events != [] ==>
      && InCall(s.threads[t])
      && (assert events[0] in events;
          StepKeepsInv(s, events[0].thread, events[0].request);
          InOneCall(Step(s, events[0].thread, events[0].request), t, events[1..]))
  }

  /** However the other threads interleave, a call takes at most 10 * HT_MAX_SIZE + 10 steps of
      its own, the returning one included. */
  lemma {:induction false} EveryCallEnds(s: State, t: nat, events: seq<Event>)
    requires Inv(s) && t < |s.threads| && EventsFor(|s.threads|, events)
    requires events != [] && InOneCall(s, t, events)
    ensures ValidPositions(s) && OwnSteps(events, t) <= Work(s, t) + 1 <= MAX_STEPS + 1
    decreases |events|
  {
    hide Inv;
    hide Work;
    StepLowersWork(s, t, t, 0);
    var e, rest := events[0], events[1..];
    assert e in events;
    StepLowersWork(s, t, e.thread, e.request);
    StepKeepsInv(s, e.thread, e.request);
    if rest == [] {
      assert OwnSteps(rest, t) == 0;
    } else {
      EveryCallEnds(Step(s, e.thread, e.request), t, rest);
    }
  }
}
