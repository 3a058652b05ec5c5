/**
  Byte accounting of the two allocation profilers: `memprof.cpp` charges every live block to a
  slot of its table, `memprof_stat.cpp` keeps a single counter. Each call touches shared state
  by one atomic addition or subtraction, so a sequence of events is an interleaving of calls;
  `realloc` is its allocation event followed by its release event.
 */
module AllocationLedger {
  import opened Bytes
  import opened Counting
  import opened Options

  /** A live block: its address, the size kept in its header, and the slot it is charged to. */
  datatype Block = Block(ptr: nat, size: nat, pos: nat)

  datatype Event =
    | Malloc(ptr: nat, size: nat, pos: nat)
    | Free(ptr: nat)
    | Realloc(old_: nat, ptr: nat, size: nat, pos: nat)

  function IndexOf(live: seq<Block>, ptr: nat): (k: nat)
    ensures k <= |live|
    ensures k < |live| ==> live[k].ptr == ptr
    ensures k == |live| ==> forall j :: 0 <= j < |live| ==> live[j].ptr != ptr
  {
    if live == [] then 0 else if live[0].ptr == ptr then 0 else 1 + IndexOf(live[1..], ptr)
  }

  function Without(live: seq<Block>, k: nat): seq<Block>
    requires k < |live|
  {
    live[..k] + live[k + 1..]
  }

  // ---------------------------------------------------------------- sums

  function SumAt(live: seq<Block>, pos: nat): nat {
    if live == [] then 0
    else (if live[0].pos == pos then live[0].size else 0) + SumAt(live[1..], pos)
  }

  function SumAll(live: seq<Block>): nat {
    if live == [] then 0 else live[0].size + SumAll(live[1..])
  }

  lemma {:induction false} SumsAppend(live: seq<Block>, b: Block, pos: nat)
    ensures SumAt(live + [b], pos) == SumAt(live, pos) + if b.pos == pos then b.size else 0
    ensures SumAll(live + [b]) == SumAll(live) + b.size
  {
    if live == [] {
      assert [] + [b] == [b];
    } else {
      assert (live + [b])[1..] == live[1..] + [b];
      SumsAppend(live[1..], b, pos);
    }
  }

  lemma {:induction false} SumsWithout(live: seq<Block>, k: nat, pos: nat)
    requires k < |live|
    ensures SumAt(Without(live, k), pos) + (if live[k].pos == pos then live[k].size else 0) == SumAt(live, pos)
    ensures SumAll(Without(live, k)) + live[k].size == SumAll(live)
  {
    if k == 0 {
      assert Without(live, 0) == live[1..];
    } else {
      assert Without(live, k)[1..] == Without(live[1..], k - 1);
      SumsWithout(live[1..], k - 1, pos);
    }
  }

  lemma {:induction false} TotalUpdate(sizes: seq<nat>, i: nat, x: nat)
    requires i < |sizes|
    ensures Total(sizes[i := x]) + sizes[i] == Total(sizes) + x
  {
    var n := |sizes| - 1;
    if i == n {
      assert sizes[i := x][..n] == sizes[..n];
    } else {
      assert sizes[i := x][..n] == sizes[..n][i := x];
      TotalUpdate(sizes[..n], i, x);
    }
  }

  lemma {:induction false} SumAtLeAll(live: seq<Block>, pos: nat)
    ensures SumAt(live, pos) <= SumAll(live)
  {
    if live != [] {
      SumAtLeAll(live[1..], pos);
    }
  }

  lemma {:induction false} SumAtMember(live: seq<Block>, k: nat)
    requires k < |live|
    ensures live[k].size <= SumAt(live, live[k].pos)
  {
    SumsWithout(live, k, live[k].pos);
  }

  // ---------------------------------------------------------------- the table

  datatype Table = Table(sizes: seq<nat>, live: seq<Block>)

  /** `register_xalloc(info, +1)` on a fresh header; none when the size assertion aborts. */
  function Charge(t: Table, ptr: nat, size: nat, pos: nat): Option<Table>
    requires pos < |t.sizes|
  {
    var n := ToInt32(size);
    if n < 0 then None
    else Some(Table(t.sizes[pos := (t.sizes[pos] + n) % WORD], t.live + [Block(ptr, n, pos)]))
  }

  /** `register_xalloc(info, -1)`; none when the underflow assertion aborts. */
  function Discharge(t: Table, ptr: nat): Option<Table>
    requires WellFormed(t) && IndexOf(t.live, ptr) < |t.live|
  {
    var k := IndexOf(t.live, ptr);
    var b := t.live[k];
    if t.sizes[b.pos] < b.size then None
    else Some(Table(t.sizes[b.pos := t.sizes[b.pos] - b.size], Without(t.live, k)))
  }

  predicate WellFormed(t: Table) {
    forall k :: 0 <= k < |t.live| ==> t.live[k].pos < |t.sizes| && t.live[k].ptr != 0
  }

  /** What the callers and the allocator below guarantee: only live addresses are released,
      fresh addresses are new, and `get_ht_pos` answers with a slot. */
  predicate Legal(n: nat, live: seq<Block>, e: Event) {
    match e
    case Malloc(ptr, _, pos) => ptr != 0 && pos < n && IndexOf(live, ptr) == |live|
    case Free(ptr) => ptr == 0 || IndexOf(live, ptr) < |live|
    case Realloc(old_, ptr, _, pos) =>
      ptr != 0 && pos < n && IndexOf(live, ptr) == |live| && (old_ == 0 || IndexOf(live, old_) < |live|)
  }

  lemma {:induction false} IndexOfAppend(live: seq<Block>, b: Block, ptr: nat)
    requires IndexOf(live, ptr) < |live|
    ensures IndexOf(live + [b], ptr) == IndexOf(live, ptr)
  {
    if live[0].ptr != ptr {
      assert (live + [b])[1..] == live[1..] + [b];
      IndexOfAppend(live[1..], b, ptr);
    }
  }

  function TableStep(t: Table, e: Event): (r: Option<Table>)
    requires WellFormed(t) && Legal(|t.sizes|, t.live, e)
    ensures r.Some? ==> WellFormed(r.value) && |r.value.sizes| == |t.sizes|
  {
    match e
    case Malloc(ptr, size, pos) => Charge(t, ptr, size, pos)
    case Free(ptr) => if ptr == 0 then Some(t) else Discharge(t, ptr)
    case Realloc(old_, ptr, size, pos) =>
      var charged := Charge(t, ptr, size, pos);
      if old_ == 0 || charged.None? then charged
      else
        IndexOfAppend(t.live, Block(ptr, ToInt32(size), pos), old_);
        Discharge(charged.value, old_)
  }

  /** Every slot holds, modulo the machine word, the sizes of the live blocks charged to it. */
  ghost predicate Conserved(t: Table) {
    && WellFormed(t)
    && forall pos :: 0 <= pos < |t.sizes| ==> t.sizes[pos] == SumAt(t.live, pos) % WORD
  }

  lemma ChargeConserves(t: Table, ptr: nat, size: nat, pos: nat)
    requires Conserved(t) && pos < |t.sizes| && ptr != 0
    ensures Charge(t, ptr, size, pos).None? <==> ToInt32(size) < 0
    ensures Charge(t, ptr, size, pos).Some? ==> Conserved(Charge(t, ptr, size, pos).value)
  {
    if ToInt32(size) >= 0 {
      var b := Block(ptr, ToInt32(size), pos);
      forall i | 0 <= i < |t.sizes| ensures SumAt(t.live + [b], i) == SumAt(t.live, i) + if pos == i then b.size else 0 {
        SumsAppend(t.live, b, i);
      }
    }
  }

  /** The underflow assertion fires only when a slot's live bytes have overflowed the word. */
  lemma DischargeConserves(t: Table, ptr: nat)
    requires Conserved(t) && IndexOf(t.live, ptr) < |t.live|
    ensures var b := t.live[IndexOf(t.live, ptr)];
      Discharge(t, ptr).None? <==> SumAt(t.live, b.pos) % WORD < b.size
    ensures SumAll(t.live) < WORD ==> Discharge(t, ptr).Some?
    ensures Discharge(t, ptr).Some? ==> Conserved(Discharge(t, ptr).value)
  {
    var k := IndexOf(t.live, ptr);
    var b := t.live[k];
    SumAtMember(t.live, k);
    SumAtLeAll(t.live, b.pos);
    forall i | 0 <= i < |t.sizes|
      ensures SumAt(Without(t.live, k), i) + (if b.pos == i then b.size else 0) == SumAt(t.live, i)
    {
      SumsWithout(t.live, k, i);
    }
  }

  lemma StepConserves(t: Table, e: Event)
    requires Conserved(t) && Legal(|t.sizes|, t.live, e)
    ensures TableStep(t, e).Some? ==> Conserved(TableStep(t, e).value)
  {
    match e
    case Malloc(ptr, size, pos) => ChargeConserves(t, ptr, size, pos);
    case Free(ptr) => if ptr != 0 { DischargeConserves(t, ptr); }
    case Realloc(old_, ptr, size, pos) =>
      ChargeConserves(t, ptr, size, pos);
      var charged := Charge(t, ptr, size, pos);
      if old_ != 0 && charged.Some? {
        IndexOfAppend(t.live, Block(ptr, ToInt32(size), pos), old_);
        DischargeConserves(charged.value, old_);
      }
  }

  // ---------------------------------------------------------------- the single counter

  datatype Counter = Counter(total: nat, live: seq<Block>)

  function CounterAdd(c: Counter, ptr: nat, size: nat, pos: nat): Option<Counter> {
    var n := ToInt32(size);
    if n < 0 then None else Some(Counter((c.total + n) % WORD, c.live + [Block(ptr, n, pos)]))
  }

  function CounterSubtract(c: Counter, ptr: nat): Counter
    requires IndexOf(c.live, ptr) < |c.live|
  {
    var k := IndexOf(c.live, ptr);
    Counter((c.total - c.live[k].size) % WORD, Without(c.live, k))
  }

  function CounterStep(c: Counter, n: nat, e: Event): Option<Counter>
    requires Legal(n, c.live, e)
  {
    match e
    case Malloc(ptr, size, pos) => CounterAdd(c, ptr, size, pos)
    case Free(ptr) => Some(if ptr == 0 then c else CounterSubtract(c, ptr))
    case Realloc(old_, ptr, size, pos) =>
      var added := CounterAdd(c, ptr, size, pos);
      if old_ == 0 || added.None? then added
      else
        IndexOfAppend(c.live, Block(ptr, ToInt32(size), pos), old_);
        Some(CounterSubtract(added.value, old_))
  }

  // ---------------------------------------------------------------- agreement over runs

  /** The table after the events, or none once an assertion has aborted the process. */
  ghost function TableRun(n: nat, events: seq<Event>): (r: Option<Table>)
    ensures r.Some? ==> Conserved(r.value) && |r.value.sizes| == n
  {
    if events == [] then
      Some(Table(seq(n, _ => 0), []))
    else
      var before := TableRun(n, events[..|events| - 1]);
      var e := events[|events| - 1];
      if before.None? || !Legal(n, before.value.live, e) then None
      else
        StepConserves(before.value, e);
        TableStep(before.value, e)
  }

  ghost function CounterRun(n: nat, events: seq<Event>): Option<Counter> {
    if events == [] then Some(Counter(0, []))
    else
      var before := CounterRun(n, events[..|events| - 1]);
      var e := events[|events| - 1];
      if before.None? || !Legal(n, before.value.live, e) then None else CounterStep(before.value, n, e)
  }

  ghost predicate Agree(t: Table, c: Counter) {
    t.live == c.live && Total(t.sizes) % WORD == c.total
  }

  lemma ModShift(a: int, b: int, c: int)
    requires a % WORD == b % WORD
    ensures (a + c) % WORD == (b + c) % WORD
  {
    var q := a / WORD - b / WORD;
    assert a + c == b + c + q * WORD;
  }

  lemma ChargeAgrees(t: Table, c: Counter, ptr: nat, size: nat, pos: nat)
    requires Agree(t, c) && pos < |t.sizes|
    ensures Charge(t, ptr, size, pos).Some? <==> CounterAdd(c, ptr, size, pos).Some?
    ensures Charge(t, ptr, size, pos).Some? ==>
      Agree(Charge(t, ptr, size, pos).value, CounterAdd(c, ptr, size, pos).value)
  {
    var n := ToInt32(size);
    if n >= 0 {
      var x := (t.sizes[pos] + n) % WORD;
      TotalUpdate(t.sizes, pos, x);
      ModShift(x, t.sizes[pos] + n, Total(t.sizes) - t.sizes[pos]);
      ModShift(Total(t.sizes), c.total, n);
    }
  }

  lemma DischargeAgrees(t: Table, c: Counter, ptr: nat)
    requires Agree(t, c) && WellFormed(t) && IndexOf(t.live, ptr) < |t.live|
    ensures Discharge(t, ptr).Some? ==> Agree(Discharge(t, ptr).value, CounterSubtract(c, ptr))
  {
    var b := t.live[IndexOf(t.live, ptr)];
    if t.sizes[b.pos] >= b.size {
      TotalUpdate(t.sizes, b.pos, t.sizes[b.pos] - b.size);
      ModShift(Total(t.sizes), c.total, 0 - b.size);
    }
  }

  lemma {:induction false} ZeroTotal(sizes: seq<nat>)
    requires forall i :: 0 <= i < |sizes| ==> sizes[i] == 0
    ensures Total(sizes) == 0
  {
    if sizes != [] {
      ZeroTotal(sizes[..|sizes| - 1]);
    }
  }

  /** As long as the table profiler lives, both profilers report the same number of bytes. */
  lemma {:induction false} ProfilersAgree(n: nat, events: seq<Event>)
    requires TableRun(n, events).Some?
    ensures CounterRun(n, events).Some?
    ensures Agree(TableRun(n, events).value, CounterRun(n, events).value)
  {
    if events == [] {
      ZeroTotal(TableRun(n, events).value.sizes);
    } else {
      var prior := events[..|events| - 1];
      var e := events[|events| - 1];
      ProfilersAgree(n, prior);
      var t, c := TableRun(n, prior).value, CounterRun(n, prior).value;
      match e
      case Malloc(ptr, size, pos) => ChargeAgrees(t, c, ptr, size, pos);
      case Free(ptr) => if ptr != 0 { DischargeAgrees(t, c, ptr); }
      case Realloc(old_, ptr, size, pos) =>
        ChargeAgrees(t, c, ptr, size, pos);
        var charged := Charge(t, ptr, size, pos);
        if old_ != 0 && charged.Some? {
          IndexOfAppend(t.live, Block(ptr, ToInt32(size), pos), old_);
          DischargeAgrees(charged.value, CounterAdd(c, ptr, size, pos).value, old_);
        }
    }
  }

  /** Bytes requested by an event. */
  function Requested(e: Event): nat {
    if e.Free? then 0 else e.size
  }

  /** While requests are below 2^31 bytes and the live bytes plus the request fit the machine
      word, no assertion of the table profiler aborts. */
  lemma NoAbort(t: Table, e: Event)
    requires Conserved(t) && Legal(|t.sizes|, t.live, e)
    requires Requested(e) < 0x8000_0000 && SumAll(t.live) + Requested(e) < WORD
    ensures TableStep(t, e).Some?
  {
    match e
    case Malloc(ptr, size, pos) =>
    case Free(ptr) => if ptr != 0 { DischargeConserves(t, ptr); }
    case Realloc(old_, ptr, size, pos) =>
      ChargeConserves(t, ptr, size, pos);
      SumsAppend(t.live, Block(ptr, ToInt32(size), pos), pos);
      if old_ != 0 {
        IndexOfAppend(t.live, Block(ptr, ToInt32(size), pos), old_);
        DischargeConserves(Charge(t, ptr, size, pos).value, old_);
      }
  }

  /** The live blocks after an event, whatever the profiler keeps. */
  function LiveAfter(live: seq<Block>, n: nat, e: Event): seq<Block>
    requires Legal(n, live, e)
  {
    match e
    case Malloc(ptr, size, pos) => live + [Block(ptr, size, pos)]
    case Free(ptr) => if ptr == 0 then live else Without(live, IndexOf(live, ptr))
    case Realloc(old_, ptr, size, pos) =>
      var b := Block(ptr, size, pos);
      if old_ == 0 then live + [b]
      else
        IndexOfAppend(live, b, old_);
        Without(live + [b], IndexOf(live + [b], old_))
  }

  /** The live blocks of a run of legal events, each request below 2^31 bytes and the live bytes
      with it within the machine word; none as soon as an event breaks these terms. */
  ghost function ModestRun(n: nat, events: seq<Event>): Option<seq<Block>> {
    if events == [] then Some([])
    else
      var live := ModestRun(n, events[..|events| - 1]);
      var e := events[|events| - 1];
      if live.Some? && Legal(n, live.value, e) && Requested(e) < 0x8000_0000
        && SumAll(live.value) + Requested(e) < WORD
      then Some(LiveAfter(live.value, n, e))
      else None
  }

  /** No run of legal events on these terms ever aborts, and the profiler's blocks are exactly
      the live ones. */
  lemma {:induction false} ModestRunsNeverAbort(n: nat, events: seq<Event>)
    requires ModestRun(n, events).Some?
    ensures TableRun(n, events).Some? && TableRun(n, events).value.live == ModestRun(n, events).value
  {
    if events != [] {
      var prior, e := events[..|events| - 1], events[|events| - 1];
      ModestRunsNeverAbort(n, prior);
      var t := TableRun(n, prior).value;
      NoAbort(t, e);
      StepTracksLive(t, e);
    }
  }

  lemma StepTracksLive(t: Table, e: Event)
    requires WellFormed(t) && Legal(|t.sizes|, t.live, e) && Requested(e) < 0x8000_0000
    ensures TableStep(t, e).Some? ==> TableStep(t, e).value.live == LiveAfter(t.live, |t.sizes|, e)
  {
    assert !e.Free? ==> ToInt32(e.size) == e.size;
    match e
    case Malloc(_, _, _) =>
    case Free(_) =>
    case Realloc(old_, ptr, size, pos) =>
      if old_ != 0 {
        IndexOfAppend(t.live, Block(ptr, size, pos), old_);
      }
  }

  // ---------------------------------------------------------------- the profiler in place

  /** The table profiler's globals, updated in place. */
  class Profiler {
    const sizes: array<nat>
    ghost var live: seq<Block>

    ghost function Snapshot(): Table
      reads this, sizes
    {
      Table(sizes[..], live)
    }

    constructor (n: nat)
      ensures fresh(sizes) && Snapshot() == Table(seq(n, _ => 0), [])
    {
      sizes := new nat[n](_ => 0);
      live := [];
    }

    /** `register_xalloc(info, +1)`. */
    method Register(ptr: nat, size: nat, pos: nat) returns (ok: bool)
      requires pos < sizes.Length
      modifies this, sizes
      ensures ok == Charge(old(Snapshot()), ptr, size, pos).Some?
      ensures Snapshot() == if ok then Charge(old(Snapshot()), ptr, size, pos).value else old(Snapshot())
    {
      var n := ToInt32(size);
      if n < 0 {
        return false;
      }
      sizes[pos] := (sizes[pos] + n) % WORD;
      live := live + [Block(ptr, n, pos)];
      return true;
    }

    /** `register_xalloc(info, -1)` for the block whose header says `size` and `pos`. */
    method Unregister(ptr: nat, size: nat, pos: nat) returns (ok: bool)
      requires Conserved(Snapshot()) && IndexOf(live, ptr) < |live| && live[IndexOf(live, ptr)] == Block(ptr, size, pos)
      modifies this, sizes
      ensures ok == Discharge(old(Snapshot()), ptr).Some?
      ensures ok ==> Snapshot() == Discharge(old(Snapshot()), ptr).value
    {
      var before := sizes[pos];
      sizes[pos] := (before - size) % WORD;
      live := Without(live, IndexOf(live, ptr));
      return before >= size;
    }

    /** `get_used_memory_size`: the loop of `dump_alloc` skips the empty slots. */
    method UsedMemory() returns (res: nat)
      ensures res == Total(sizes[..]) % WORD
    {
      res := 0;
      var i := 0;
      while i < sizes.Length
        invariant 0 <= i <= sizes.Length
        invariant res == Total(sizes[..i]) % WORD
      {
        assert sizes[..i + 1][..i] == sizes[..i];
        if sizes[i] != 0 {
          ModShift(res, Total(sizes[..i]), sizes[i]);
          res := (res + sizes[i]) % WORD;
        }
        i := i + 1;
      }
      assert sizes[..i] == sizes[..];
    }
  }
}
