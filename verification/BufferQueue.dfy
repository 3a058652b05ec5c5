/**
  The single-producer single-consumer ring. `Ring` is what the program stores: 32-bit counters
  that wrap, and each side's cached copy of the other side's counter. `Trace` is the history:
  everything put, everything got, and the unbounded counts behind the counters.

  `Perform` is one atomic access by the writer or by the reader, so a sequence of actions is an
  interleaving of the two threads.
 */
module BufferQueue {
  import opened Bytes

  const QUEUE_BUF_SIZE: nat := 1024

  datatype Ring = Ring(
    q: seq<int>,
    writerI: nat, writerLocalRead: nat, writerLocalWrite: nat,
    readerI: nat, readerLocalRead: nat, readerLocalWrite: nat)

  datatype Trace = Trace(
    written: seq<int>, consumed: seq<int>,
    publishedWrite: nat, publishedRead: nat,
    cachedWrite: nat, cachedRead: nat)

  datatype State = State(ring: Ring, trace: Trace)

  datatype Action = Put(val: int) | FlushWriter | UpdateWriter | Get | FlushReader | UpdateReader

  // ---------------------------------------------------------------- the program

  predicate ReaderEmpty(r: Ring) { r.readerLocalWrite == r.readerLocalRead }

  /** `writer_empty`: the writer's cached view leaves it no free slot. */
  predicate WriterFull(r: Ring) { r.writerLocalWrite == (r.writerLocalRead + QUEUE_BUF_SIZE) % UINT32 }

  function ReaderReady(r: Ring): int { ToInt32(r.readerLocalWrite - r.readerLocalRead) }

  function WriterReady(r: Ring): int { ToInt32(r.writerLocalRead + QUEUE_BUF_SIZE - r.writerLocalWrite) }

  function PutUnsafe(r: Ring, val: int): Ring
    requires |r.q| == QUEUE_BUF_SIZE
  {
    r.(q := r.q[r.writerLocalWrite % QUEUE_BUF_SIZE := val], writerLocalWrite := (r.writerLocalWrite + 1) % UINT32)
  }

  function NextValue(r: Ring): int
    requires |r.q| == QUEUE_BUF_SIZE
  {
    r.q[r.readerLocalRead % QUEUE_BUF_SIZE]
  }

  predicate Enabled(r: Ring, a: Action) {
    (a.Put? ==> !WriterFull(r)) && (a.Get? ==> !ReaderEmpty(r))
  }

  function PerformRing(r: Ring, a: Action): Ring
    requires |r.q| == QUEUE_BUF_SIZE
  {
    match a
    case Put(val) => PutUnsafe(r, val)
    case FlushWriter => r.(writerI := r.writerLocalWrite)
    case UpdateWriter => r.(writerLocalRead := r.readerI)
    case Get => r.(readerLocalRead := (r.readerLocalRead + 1) % UINT32)
    case FlushReader => r.(readerI := r.readerLocalRead)
    case UpdateReader => r.(readerLocalWrite := r.writerI)
  }

  // ---------------------------------------------------------------- the history

  function PerformTrace(h: Trace, a: Action, got: int): Trace {
    match a
    case Put(val) => h.(written := h.written + [val])
    case FlushWriter => h.(publishedWrite := |h.written|)
    case UpdateWriter => h.(cachedRead := h.publishedRead)
    case Get => h.(consumed := h.consumed + [got])
    case FlushReader => h.(publishedRead := |h.consumed|)
    case UpdateReader => h.(cachedWrite := h.publishedWrite)
  }

  /** A guarded action that is not enabled leaves the state alone: its thread waits. */
  function Perform(s: State, a: Action): (s': State)
    requires |s.ring.q| == QUEUE_BUF_SIZE
    ensures |s'.ring.q| == QUEUE_BUF_SIZE
  {
    if Enabled(s.ring, a) then State(PerformRing(s.ring, a), PerformTrace(s.trace, a, NextValue(s.ring))) else s
  }

  // ---------------------------------------------------------------- the invariant

  ghost predicate Ordered(h: Trace) {
    h.cachedRead <= h.publishedRead <= |h.consumed| <= h.cachedWrite <= h.publishedWrite <= |h.written|
      <= h.cachedRead + QUEUE_BUF_SIZE
  }

  ghost predicate Counters(s: State) {
    var r, h := s.ring, s.trace;
    && r.writerI == h.publishedWrite % UINT32 && r.writerLocalRead == h.cachedRead % UINT32
    && r.writerLocalWrite == |h.written| % UINT32
    && r.readerI == h.publishedRead % UINT32 && r.readerLocalRead == |h.consumed| % UINT32
    && r.readerLocalWrite == h.cachedWrite % UINT32
  }

  ghost predicate Inv(s: State) {
    var r, h := s.ring, s.trace;
    && |r.q| == QUEUE_BUF_SIZE && Ordered(h) && Counters(s)
    && h.consumed <= h.written
    && forall k :: |h.consumed| <= k < |h.written| ==> r.q[k % QUEUE_BUF_SIZE] == h.written[k]
  }

  /** The unread items: what an unbounded queue would hold. */
  function Unread(h: Trace): seq<int>
    requires |h.consumed| <= |h.written|
  {
    h.written[|h.consumed|..]
  }

  lemma WrapKeepsSlot(n: nat)
    ensures n % UINT32 % QUEUE_BUF_SIZE == n % QUEUE_BUF_SIZE
  {
    assert n == n / UINT32 * (UINT32 / QUEUE_BUF_SIZE) * QUEUE_BUF_SIZE + n % UINT32;
  }

  lemma WrapAdd(n: nat, k: nat)
    ensures (n % UINT32 + k) % UINT32 == (n + k) % UINT32
  {
    var quotient := n / UINT32;
    assert n + k == quotient * UINT32 + (n % UINT32 + k);
  }

  /** Wrapped counters a short way apart compare and subtract like the unbounded ones. */
  lemma WrapDifference(a: nat, b: nat)
    requires b <= a <= b + QUEUE_BUF_SIZE
    ensures a % UINT32 == b % UINT32 <==> a == b
    ensures ToInt32(a % UINT32 - b % UINT32) == a - b
  {
    var qa, qb, ra, rb := a / UINT32, b / UINT32, a % UINT32, b % UINT32;
    assert a == qa * UINT32 + ra && b == qb * UINT32 + rb;
    assert qa == qb || qa == qb + 1;
  }

  /** Slots of two items less than a ring's length apart are different. */
  lemma DistinctSlots(j: nat, k: nat)
    requires j < k < j + QUEUE_BUF_SIZE
    ensures j % QUEUE_BUF_SIZE != k % QUEUE_BUF_SIZE
  {
  }

  /** The wrapped comparisons and differences the program takes decide the unbounded ones. */
  lemma GuardsExact(s: State)
    requires Ordered(s.trace) && Counters(s)
    ensures WriterFull(s.ring) <==> |s.trace.written| == s.trace.cachedRead + QUEUE_BUF_SIZE
    ensures ReaderEmpty(s.ring) <==> |s.trace.consumed| == s.trace.cachedWrite
    ensures ReaderReady(s.ring) == s.trace.cachedWrite - |s.trace.consumed|
    ensures WriterReady(s.ring) == s.trace.cachedRead + QUEUE_BUF_SIZE - |s.trace.written|
  {
    var h := s.trace;
    WrapDifference(h.cachedWrite, |h.consumed|);
    WrapDifference(h.cachedRead + QUEUE_BUF_SIZE, |h.written|);
    WrapAdd(h.cachedRead, QUEUE_BUF_SIZE);
    ToInt32Wraps(s.ring.writerLocalRead + QUEUE_BUF_SIZE, s.ring.writerLocalWrite);
  }

  lemma ToInt32Wraps(x: nat, y: nat)
    ensures ToInt32(x % UINT32 - y) == ToInt32(x - y)
  {
    var quotient := x / UINT32;
    assert x - y == quotient * UINT32 + (x % UINT32 - y);
  }

  lemma PutKeepsInv(s: State, val: int)
    requires Inv(s) && |s.trace.written| < s.trace.cachedRead + QUEUE_BUF_SIZE
    requires !WriterFull(s.ring)
    ensures Inv(Perform(s, Put(val)))
  {
    var h, s' := s.trace, Perform(s, Put(val));
    WrapKeepsSlot(|h.written|);
    WrapAdd(|h.written|, 1);
    assert Counters(s');
    forall k | |h.consumed| <= k < |s'.trace.written|
      ensures s'.ring.q[k % QUEUE_BUF_SIZE] == s'.trace.written[k]
    {
      if k < |h.written| { DistinctSlots(k, |h.written|); }
    }
  }

  lemma GetKeepsInv(s: State)
    requires Inv(s) && |s.trace.consumed| < s.trace.cachedWrite && !ReaderEmpty(s.ring)
    ensures Inv(Perform(s, Get))
    ensures NextValue(s.ring) == s.trace.written[|s.trace.consumed|]
  {
    WrapKeepsSlot(|s.trace.consumed|);
    WrapAdd(|s.trace.consumed|, 1);
    assert Counters(Perform(s, Get));
  }

  lemma ExchangeKeepsInv(s: State, a: Action)
    requires Inv(s) && !a.Put? && !a.Get?
    ensures Inv(Perform(s, a))
  {
    assert Counters(Perform(s, a));
  }

  /** Each action of either thread is the matching action on an unbounded first-in first-out
      queue: put appends, get takes the oldest item, the index exchanges change nothing. */
  lemma StepRefinesFifo(s: State, a: Action)
    requires Inv(s)
    ensures var s' := Perform(s, a);
      && Inv(s')
      && (a.Put? && Enabled(s.ring, a) ==> Unread(s'.trace) == Unread(s.trace) + [a.val])
      && (a.Get? && Enabled(s.ring, a) ==> [NextValue(s.ring)] + Unread(s'.trace) == Unread(s.trace))
      && (!Enabled(s.ring, a) || (!a.Put? && !a.Get?) ==> Unread(s'.trace) == Unread(s.trace))
  {
    GuardsExact(s);
    if Enabled(s.ring, a) {
      match a
      case Put(val) => PutKeepsInv(s, val);
      case Get => GetKeepsInv(s);
      case _ => ExchangeKeepsInv(s, a);
    }
  }

  /** The slot a put fills holds no unread item. */
  lemma PutSlotIsFree(s: State, k: nat)
    requires Inv(s) && !WriterFull(s.ring) && |s.trace.consumed| <= k < |s.trace.written|
    ensures s.ring.writerLocalWrite % QUEUE_BUF_SIZE != k % QUEUE_BUF_SIZE
  {
    GuardsExact(s);
    WrapKeepsSlot(|s.trace.written|);
    DistinctSlots(k, |s.trace.written|);
  }

  // ---------------------------------------------------------------- runs

  function Initial(q: seq<int>): State {
    State(Ring(q, 0, 0, 0, 0, 0, 0), Trace([], [], 0, 0, 0, 0))
  }

  ghost function Run(q: seq<int>, actions: seq<Action>): (s: State)
    requires |q| == QUEUE_BUF_SIZE
    ensures |s.ring.q| == QUEUE_BUF_SIZE
  {
    if actions == [] then Initial(q)
    else
      var n := |actions| - 1;
      Perform(Run(q, actions[..n]), actions[n])
  }

  lemma {:induction false} EveryRunInv(q: seq<int>, actions: seq<Action>)
    requires |q| == QUEUE_BUF_SIZE
    ensures Inv(Run(q, actions))
  {
    hide Inv;
    hide Perform;
    if actions == [] {
      InitialInv(q);
    } else {
      var n := |actions| - 1;
      EveryRunInv(q, actions[..n]);
      StepRefinesFifo(Run(q, actions[..n]), actions[n]);
    }
  }

  lemma InitialInv(q: seq<int>)
    requires |q| == QUEUE_BUF_SIZE
    ensures Inv(Initial(q))
  {
  }

  /** The values whose put succeeded, in order. */
  ghost function Accepted(q: seq<int>, actions: seq<Action>): seq<int>
    requires |q| == QUEUE_BUF_SIZE
  {
    if actions == [] then []
    else
      var n := |actions| - 1;
      var rest := Accepted(q, actions[..n]);
      if actions[n].Put? && Enabled(Run(q, actions[..n]).ring, actions[n]) then rest + [actions[n].val] else rest
  }

  /** The values the ring handed to the reader, in order. */
  ghost function Delivered(q: seq<int>, actions: seq<Action>): seq<int>
    requires |q| == QUEUE_BUF_SIZE
  {
    if actions == [] then []
    else
      var n := |actions| - 1;
      var s := Run(q, actions[..n]);
      var rest := Delivered(q, actions[..n]);
      if actions[n].Get? && Enabled(s.ring, actions[n]) then rest + [NextValue(s.ring)] else rest
  }

  lemma PerformHistory(s: State, a: Action)
    requires |s.ring.q| == QUEUE_BUF_SIZE
    ensures Perform(s, a).trace.written ==
      if a.Put? && Enabled(s.ring, a) then s.trace.written + [a.val] else s.trace.written
    ensures Perform(s, a).trace.consumed ==
      if a.Get? && Enabled(s.ring, a) then s.trace.consumed + [NextValue(s.ring)] else s.trace.consumed
  {
  }

  lemma {:induction false} RunHistory(q: seq<int>, actions: seq<Action>)
    requires |q| == QUEUE_BUF_SIZE
    ensures Run(q, actions).trace.written == Accepted(q, actions)
    ensures Run(q, actions).trace.consumed == Delivered(q, actions)
  {
    if actions != [] {
      var n := |actions| - 1;
      RunHistory(q, actions[..n]);
      PerformHistory(Run(q, actions[..n]), actions[n]);
    }
  }

  /** In every interleaving of any length, so also after the counters have wrapped: the reader
      gets a prefix of what the writer put, at most 1024 behind. */
  lemma EveryRunIsFifo(q: seq<int>, actions: seq<Action>)
    requires |q| == QUEUE_BUF_SIZE
    ensures Delivered(q, actions) <= Accepted(q, actions)
    ensures |Accepted(q, actions)| - |Delivered(q, actions)| <= QUEUE_BUF_SIZE
  {
    RunHistory(q, actions);
    EveryRunInv(q, actions);
    hide Counters;
  }

  // ---------------------------------------------------------------- when a put cannot fail

  /** After re-reading the reader's published counter a put fails just when 1024 items are
      unread as far as the reader has published. */
  lemma PutFailsIff(s: State)
    requires Inv(s)
    ensures WriterFull(s.ring) && WriterReady(Perform(s, UpdateWriter).ring) == 0
      <==> |s.trace.written| == s.trace.publishedRead + QUEUE_BUF_SIZE
  {
    GuardsExact(s);
    StepRefinesFifo(s, UpdateWriter);
    GuardsExact(Perform(s, UpdateWriter));
  }

  /** The items of several batches in order. */
  function Flat(batches: seq<seq<int>>): seq<int> {
    if batches == [] then [] else Flat(batches[..|batches| - 1]) + batches[|batches| - 1]
  }

  lemma FlatSnoc(batches: seq<seq<int>>, k: nat)
    requires k < |batches|
    ensures Flat(batches[..k + 1]) == Flat(batches[..k]) + batches[k]
    ensures |Flat(batches[..k + 1])| <= |Flat(batches)|
  {
    assert batches[..k + 1][..k] == batches[..k];
    FlatGrows(batches, k + 1);
  }

  lemma {:induction false} FlatGrows(batches: seq<seq<int>>, k: nat)
    requires k <= |batches|
    ensures |Flat(batches[..k])| <= |Flat(batches)|
  {
    if k == |batches| {
      assert batches[..k] == batches;
    } else {
      FlatGrows(batches[..|batches| - 1], k);
      assert batches[..|batches| - 1][..k] == batches[..k];
    }
  }

  lemma GuardsHold(s: State)
    requires Inv(s)
    ensures Ordered(s.trace) && s.trace.consumed <= s.trace.written
    ensures WriterFull(s.ring) <==> |s.trace.written| == s.trace.cachedRead + QUEUE_BUF_SIZE
    ensures ReaderEmpty(s.ring) <==> |s.trace.consumed| == s.trace.cachedWrite
  {
    GuardsExact(s);
  }

  // ---------------------------------------------------------------- the queue in place

  class Queue {
    const q: array<int>
    var writerI: nat
    var writerLocalRead: nat
    var writerLocalWrite: nat
    var readerI: nat
    var readerLocalRead: nat
    var readerLocalWrite: nat
    ghost var trace: Trace

    ghost function Snapshot(): State
      reads this, q
    {
      State(Ring(q[..], writerI, writerLocalRead, writerLocalWrite, readerI, readerLocalRead, readerLocalWrite), trace)
    }

    constructor ()
      ensures fresh(q) && Inv(Snapshot()) && Snapshot() == Initial(q[..])
    {
      q := new int[QUEUE_BUF_SIZE](_ => 0);
      writerI, writerLocalRead, writerLocalWrite := 0, 0, 0;
      readerI, readerLocalRead, readerLocalWrite := 0, 0, 0;
      trace := Trace([], [], 0, 0, 0, 0);
    }

    method DoPutUnsafe(val: int)
      requires Inv(Snapshot()) && !WriterFull(Snapshot().ring)
      modifies this`writerLocalWrite, this`trace, q
      ensures Snapshot() == Perform(old(Snapshot()), Put(val)) && Inv(Snapshot())
      ensures trace == PerformTrace(old(trace), Put(val), 0)
    {
      StepRefinesFifo(Snapshot(), Put(val));
      q[writerLocalWrite % QUEUE_BUF_SIZE] := val;
      writerLocalWrite := (writerLocalWrite + 1) % UINT32;
      trace := PerformTrace(trace, Put(val), 0);
    }

    method DoFlushWriter()
      requires Inv(Snapshot())
      modifies this`writerI, this`trace
      ensures Snapshot() == Perform(old(Snapshot()), FlushWriter) && Inv(Snapshot())
      ensures trace == PerformTrace(old(trace), FlushWriter, 0)
    {
      StepRefinesFifo(Snapshot(), FlushWriter);
      writerI := writerLocalWrite;
      trace := PerformTrace(trace, FlushWriter, 0);
    }

    method DoUpdateWriter() returns (ready: int)
      requires Inv(Snapshot())
      modifies this`writerLocalRead, this`trace
      ensures Snapshot() == Perform(old(Snapshot()), UpdateWriter) && Inv(Snapshot())
      ensures trace == PerformTrace(old(trace), UpdateWriter, 0)
      ensures ready == trace.cachedRead + QUEUE_BUF_SIZE - |trace.written|
    {
      StepRefinesFifo(Snapshot(), UpdateWriter);
      writerLocalRead := readerI;
      trace := PerformTrace(trace, UpdateWriter, 0);
      GuardsExact(Snapshot());
      ready := ToInt32(writerLocalRead + QUEUE_BUF_SIZE - writerLocalWrite);
    }

    method DoGetUnsafe() returns (val: int)
      requires Inv(Snapshot()) && !ReaderEmpty(Snapshot().ring)
      modifies this`readerLocalRead, this`trace
      ensures Snapshot() == Perform(old(Snapshot()), Get) && Inv(Snapshot())
      ensures trace == PerformTrace(old(trace), Get, val)
      ensures [val] + Unread(trace) == old(Unread(trace))
    {
      StepRefinesFifo(Snapshot(), Get);
      val := q[readerLocalRead % QUEUE_BUF_SIZE];
      readerLocalRead := (readerLocalRead + 1) % UINT32;
      trace := PerformTrace(trace, Get, val);
    }

    method DoFlushReader()
      requires Inv(Snapshot())
      modifies this`readerI, this`trace
      ensures Snapshot() == Perform(old(Snapshot()), FlushReader) && Inv(Snapshot())
      ensures trace == PerformTrace(old(trace), FlushReader, 0)
    {
      StepRefinesFifo(Snapshot(), FlushReader);
      readerI := readerLocalRead;
      trace := PerformTrace(trace, FlushReader, 0);
    }

    method DoUpdateReader() returns (ready: int)
      requires Inv(Snapshot())
      modifies this`readerLocalWrite, this`trace
      ensures Snapshot() == Perform(old(Snapshot()), UpdateReader) && Inv(Snapshot())
      ensures trace == PerformTrace(old(trace), UpdateReader, 0)
      ensures ready == trace.publishedWrite - |trace.consumed|
    {
      StepRefinesFifo(Snapshot(), UpdateReader);
      readerLocalWrite := writerI;
      trace := PerformTrace(trace, UpdateReader, 0);
      GuardsExact(Snapshot());
      ready := ToInt32(readerLocalWrite - readerLocalRead);
    }

    /** `put`: fails, where the program aborts, exactly when the ring is full as far as the
        reader has published; otherwise the item is appended and published. */
    method DoPut(val: int) returns (ok: bool)
      requires Inv(Snapshot())
      modifies this`writerLocalWrite, this`writerLocalRead, this`writerI, this`trace, q
      ensures Inv(Snapshot())
      ensures ok <==> old(|trace.written| < trace.publishedRead + QUEUE_BUF_SIZE)
      ensures trace.consumed == old(trace.consumed) && trace.publishedRead == old(trace.publishedRead)
      ensures ok ==> trace.written == old(trace.written) + [val] && trace.publishedWrite == |trace.written|
      ensures ok ==> Unread(trace) == old(Unread(trace)) + [val]
      ensures !ok ==> Unread(trace) == old(Unread(trace))
    {
      hide Perform;
      hide Inv;
      GuardsHold(Snapshot());
      if writerLocalWrite == (writerLocalRead + QUEUE_BUF_SIZE) % UINT32 {
        var ready := DoUpdateWriter();
        if ready == 0 {
          return false;
        }
        GuardsHold(Snapshot());
      }
      DoPutUnsafe(val);
      DoFlushWriter();
      return true;
    }

    /** What the writer puts while the reader is between two polls. */
    method PutAll(batch: seq<int>)
      requires Inv(Snapshot()) && |trace.written| + |batch| <= trace.publishedRead + QUEUE_BUF_SIZE
      modifies this`writerLocalWrite, this`writerLocalRead, this`writerI, this`trace, q
      ensures Inv(Snapshot())
      ensures trace.consumed == old(trace.consumed) && trace.publishedRead == old(trace.publishedRead)
      ensures trace.written == old(trace.written) + batch
      ensures trace.publishedWrite == if batch == [] then old(trace.publishedWrite) else |trace.written|
    {
      hide Inv;
      for i := 0 to |batch|
        invariant Inv(Snapshot())
        invariant trace.consumed == old(trace.consumed) && trace.publishedRead == old(trace.publishedRead)
        invariant trace.written == old(trace.written) + batch[..i]
        invariant trace.publishedWrite == if i == 0 then old(trace.publishedWrite) else |trace.written|
      {
        var ok := DoPut(batch[i]);
        assert ok;
      }
      assert batch[..|batch|] == batch;
    }

    /** One poll, before which the writer puts a batch. */
    method PollAfter(batch: seq<int>) returns (ready: int)
      requires Inv(Snapshot()) && |trace.written| + |batch| <= trace.publishedRead + QUEUE_BUF_SIZE
      modifies this, q
      ensures Inv(Snapshot())
      ensures trace.consumed == old(trace.consumed) && trace.publishedRead == old(trace.publishedRead)
      ensures trace.written == old(trace.written) + batch && trace.cachedWrite == trace.publishedWrite
      ensures ready == trace.publishedWrite - |trace.consumed| >= 0
      ensures trace.publishedWrite == if batch == [] then old(trace.publishedWrite) else |trace.written|
    {
      hide Perform;
      hide Inv;
      PutAll(batch);
      GuardsHold(Snapshot());
      ready := DoUpdateReader();
    }

    /** `wait_reader`, from a ring whose cached view is empty: polls until an item is published.
        `arrivals` are the items the writer puts before each poll; `polls` of them are used. */
    method WaitReader(arrivals: seq<seq<int>>) returns (ready: int, polls: nat)
      requires Inv(Snapshot()) && ReaderEmpty(Snapshot().ring)
      requires |trace.consumed| < trace.publishedWrite || exists i :: 0 <= i < |arrivals| && arrivals[i] != []
      requires |trace.written| + |Flat(arrivals)| <= trace.publishedRead + QUEUE_BUF_SIZE
      modifies this, q
      ensures Inv(Snapshot()) && polls <= |arrivals| && !ReaderEmpty(Snapshot().ring)
      ensures ready == trace.publishedWrite - |trace.consumed| > 0
      ensures trace.consumed == old(trace.consumed) && trace.publishedRead == old(trace.publishedRead)
      ensures trace.written == old(trace.written) + Flat(arrivals[..polls])
    {
      assert Flat(arrivals[..0]) == [];
      GuardsHold(Snapshot());
      hide Inv;
      hide Flat;
      hide ReaderEmpty;
      ready, polls := 0, 0;
      while ready == 0
        invariant Inv(Snapshot()) && polls <= |arrivals|
        invariant trace.consumed == old(trace.consumed) && trace.publishedRead == old(trace.publishedRead)
        invariant trace.written == old(trace.written) + Flat(arrivals[..polls])
        invariant ready != 0 ==> ready == trace.publishedWrite - |trace.consumed| > 0
        invariant ready != 0 ==> trace.cachedWrite == trace.publishedWrite
        invariant |trace.consumed| < trace.publishedWrite || exists i :: polls <= i < |arrivals| && arrivals[i] != []
        decreases |arrivals| - polls, if ready == 0 then 1 else 0
      {
        if polls < |arrivals| {
          FlatSnoc(arrivals, polls);
          ready := PollAfter(arrivals[polls]);
          polls := polls + 1;
        } else {
          ready := PollAfter([]);
        }
      }
      GuardsHold(Snapshot());
    }

    /** `get`: waits for an item if need be, takes the oldest and publishes the position. */
    method DoGet(arrivals: seq<seq<int>>) returns (val: int, polls: nat)
      requires Inv(Snapshot())
      requires |trace.consumed| < trace.publishedWrite || exists i :: 0 <= i < |arrivals| && arrivals[i] != []
      requires |trace.written| + |Flat(arrivals)| <= trace.publishedRead + QUEUE_BUF_SIZE
      modifies this, q
      ensures Inv(Snapshot())
      ensures polls <= |arrivals| && [val] + Unread(trace) == old(Unread(trace)) + Flat(arrivals[..polls])
      ensures trace.publishedRead == |trace.consumed| == old(|trace.consumed|) + 1
    {
      hide Perform;
      hide Inv;
      polls := 0;
      GuardsHold(Snapshot());
      assert Flat(arrivals[..0]) == [];
      if readerLocalWrite == readerLocalRead {
        var ready;
        ready, polls := WaitReader(arrivals);
      }
      GuardsHold(Snapshot());
      assert Unread(trace) == old(Unread(trace)) + Flat(arrivals[..polls]);
      val := DoGetUnsafe();
      DoFlushReader();
    }
  }
}
