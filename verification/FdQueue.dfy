/**
  The ring with a sleeping reader: after polling in vain the reader raises a wait flag and
  blocks on an eventfd; a writer that sees the flag after publishing writes to the eventfd.

  `Move` is one atomic access by one thread. Only the ring accesses change the ring, so the
  first-in first-out property of `BufferQueue` carries over.
 */
module FdQueue {
  import Ring = BufferQueue

  /** The writer inside `put`, named after its next access. */
  datatype WriterPc = WIdle | WPut(val: int) | WFlush | WLoadFlag | WWriteFd | WFailed

  /** The reader inside `get`, named after its next access. */
  datatype ReaderPc = RIdle | RPoll | RSetFlag | RCheck | RReadFd | RClearFlag | RTake | RFlush

  datatype State = State(ring: Ring.State, flag: bool, fd: nat, w: WriterPc, r: ReaderPc)

  /** A writer move carries the value of the put that begins; a reader move says whether the
      backoff allows one more poll. */
  datatype Move = WriterMove(val: int) | ReaderMove(more: bool)

  // ---------------------------------------------------------------- the two threads

  function Act(s: State, a: Ring.Action): (s': State)
    requires |s.ring.ring.q| == Ring.QUEUE_BUF_SIZE
    ensures |s'.ring.ring.q| == Ring.QUEUE_BUF_SIZE
  {
    s.(ring := Ring.Perform(s.ring, a))
  }

  function WriterStep(s: State, val: int): (s': State)
    requires |s.ring.ring.q| == Ring.QUEUE_BUF_SIZE
    ensures |s'.ring.ring.q| == Ring.QUEUE_BUF_SIZE
  {
    match s.w
    case WIdle =>
      if !Ring.WriterFull(s.ring.ring) then s.(w := WPut(val))
      else
        var s' := Act(s, Ring.UpdateWriter);
        s'.(w := if Ring.WriterReady(s'.ring.ring) == 0 then WFailed else WPut(val))
    case WPut(v) => Act(s, Ring.Put(v)).(w := WFlush)
    case WFlush => Act(s, Ring.FlushWriter).(w := WLoadFlag)
    case WLoadFlag => s.(w := if s.flag then WWriteFd else WIdle)
    case WWriteFd => s.(fd := s.fd + 1, w := WIdle)
    case WFailed => s
  }

  function ReaderStep(s: State, more: bool): (s': State)
    requires |s.ring.ring.q| == Ring.QUEUE_BUF_SIZE
    ensures |s'.ring.ring.q| == Ring.QUEUE_BUF_SIZE
  {
    match s.r
    case RIdle => s.(r := if Ring.ReaderEmpty(s.ring.ring) then RPoll else RTake)
    case RPoll =>
      var s' := Act(s, Ring.UpdateReader);
      s'.(r := if Ring.ReaderReady(s'.ring.ring) != 0 then RTake else if more then RPoll else RSetFlag)
    case RSetFlag => s.(flag := true, r := RCheck)
    case RCheck =>
      var s' := Act(s, Ring.UpdateReader);
      s'.(r := if Ring.ReaderReady(s'.ring.ring) != 0 then RClearFlag else RReadFd)
    case RReadFd => if s.fd == 0 then s else s.(fd := 0, r := RCheck)
    case RClearFlag => s.(flag := false, r := RTake)
    case RTake => Act(s, Ring.Get).(r := RFlush)
    case RFlush => Act(s, Ring.FlushReader).(r := RIdle)
  }

  function Step(s: State, m: Move): (s': State)
    requires |s.ring.ring.q| == Ring.QUEUE_BUF_SIZE
    ensures |s'.ring.ring.q| == Ring.QUEUE_BUF_SIZE
  {
    match m
    case WriterMove(val) => WriterStep(s, val)
    case ReaderMove(more) => ReaderStep(s, more)
  }

  // ---------------------------------------------------------------- the invariant

  /** The reader sits in `read` on an eventfd whose counter is zero. */
  predicate Blocked(s: State) { s.r.RReadFd? && s.fd == 0 }

  /** The writer has published and still owes the look at the flag or the eventfd write. */
  predicate WriterOwesWake(s: State) { s.w.WLoadFlag? || s.w.WWriteFd? }

  function PublishedUnread(s: State): int { s.ring.trace.publishedWrite - |s.ring.trace.consumed| }

  ghost predicate Inv(s: State) {
    var h := s.ring.trace;
    && Ring.Inv(s.ring)
    && (s.flag <==> s.r in {RCheck, RReadFd, RClearFlag})
    && (s.w.WFlush? <==> h.publishedWrite < |h.written|)
    && (s.w.WPut? ==> |h.written| < h.cachedRead + Ring.QUEUE_BUF_SIZE)
    && (s.r in {RClearFlag, RTake} ==> |h.consumed| < h.cachedWrite)
    && (s.r in {RPoll, RSetFlag, RCheck, RReadFd} ==> |h.consumed| == h.cachedWrite)
    && (s.r.RReadFd? && PublishedUnread(s) > 0 ==> s.fd > 0 || WriterOwesWake(s))
  }

  lemma WriterKeepsInv(s: State, val: int)
    requires Inv(s)
    ensures Inv(WriterStep(s, val))
  {
    hide Ring.Counters;
    hide Ring.PerformRing;
    Ring.GuardsExact(s.ring);
    match s.w
    case WIdle =>
      Ring.StepRefinesFifo(s.ring, Ring.UpdateWriter);
      Ring.GuardsExact(Ring.Perform(s.ring, Ring.UpdateWriter));
    case WPut(v) => Ring.StepRefinesFifo(s.ring, Ring.Put(v));
    case WFlush => Ring.StepRefinesFifo(s.ring, Ring.FlushWriter);
    case _ =>
  }

  lemma ReaderKeepsInv(s: State, more: bool)
    requires Inv(s)
    ensures Inv(ReaderStep(s, more))
  {
    hide Ring.Counters;
    hide Ring.PerformRing;
    Ring.GuardsExact(s.ring);
    match s.r
    case RPoll => PollKeepsInv(s);
    case RCheck => PollKeepsInv(s);
    case RTake => Ring.StepRefinesFifo(s.ring, Ring.Get);
    case RFlush => Ring.StepRefinesFifo(s.ring, Ring.FlushReader);
    case _ =>
  }

  lemma PollKeepsInv(s: State)
    requires Inv(s)
    ensures var ring' := Ring.Perform(s.ring, Ring.UpdateReader);
      Ring.Inv(ring') && Ring.ReaderReady(ring'.ring) == s.ring.trace.publishedWrite - |s.ring.trace.consumed|
  {
    Ring.StepRefinesFifo(s.ring, Ring.UpdateReader);
    Ring.GuardsExact(Ring.Perform(s.ring, Ring.UpdateReader));
  }

  // ---------------------------------------------------------------- runs

  function Initial(q: seq<int>): State {
    State(Ring.Initial(q), false, 0, WIdle, RIdle)
  }

  ghost function Run(q: seq<int>, moves: seq<Move>): (s: State)
    requires |q| == Ring.QUEUE_BUF_SIZE
    ensures |s.ring.ring.q| == Ring.QUEUE_BUF_SIZE
  {
    if moves == [] then Initial(q) else Step(Run(q, moves[..|moves| - 1]), moves[|moves| - 1])
  }

  lemma {:induction false} EveryRunInv(q: seq<int>, moves: seq<Move>)
    requires |q| == Ring.QUEUE_BUF_SIZE
    ensures Inv(Run(q, moves))
  {
    hide Inv;
    hide WriterStep;
    hide ReaderStep;
    if moves == [] {
      InitialInv(q);
    } else {
      var before := Run(q, moves[..|moves| - 1]);
      EveryRunInv(q, moves[..|moves| - 1]);
      match moves[|moves| - 1]
      case WriterMove(val) => WriterKeepsInv(before, val);
      case ReaderMove(more) => ReaderKeepsInv(before, more);
    }
  }

  lemma InitialInv(q: seq<int>)
    requires |q| == Ring.QUEUE_BUF_SIZE
    ensures Inv(Initial(q))
  {
  }

  /** A reader that never gives up polling is never sent a token. */
  lemma {:induction false} NoSleepNoToken(q: seq<int>, moves: seq<Move>)
    requires |q| == Ring.QUEUE_BUF_SIZE && forall m :: m in moves && m.ReaderMove? ==> m.more
    ensures var s := Run(q, moves);
      s.fd == 0 && !s.flag && !s.w.WWriteFd? && s.r in {RIdle, RPoll, RTake, RFlush}
  {
    hide Ring.Perform;
    if moves != [] {
      var n := |moves| - 1;
      assert moves[n] in moves;
      NoSleepNoToken(q, moves[..n]);
    }
  }

  /** The ring access a move makes, if any. */
  function RingActions(s: State, m: Move): seq<Ring.Action>
    requires |s.ring.ring.q| == Ring.QUEUE_BUF_SIZE
  {
    match m
    case WriterMove(_) =>
      if s.w.WIdle? then (if Ring.WriterFull(s.ring.ring) then [Ring.UpdateWriter] else [])
      else if s.w.WPut? then [Ring.Put(s.w.val)]
      else if s.w.WFlush? then [Ring.FlushWriter] else []
    case ReaderMove(_) =>
      if s.r.RPoll? || s.r.RCheck? then [Ring.UpdateReader]
      else if s.r.RTake? then [Ring.Get]
      else if s.r.RFlush? then [Ring.FlushReader] else []
  }

  ghost function AllRingActions(q: seq<int>, moves: seq<Move>): seq<Ring.Action>
    requires |q| == Ring.QUEUE_BUF_SIZE
  {
    if moves == [] then []
    else
      var n := |moves| - 1;
      AllRingActions(q, moves[..n]) + RingActions(Run(q, moves[..n]), moves[n])
  }

  lemma MoveActsOnRing(s: State, m: Move)
    requires |s.ring.ring.q| == Ring.QUEUE_BUF_SIZE
    ensures var actions := RingActions(s, m);
      |actions| <= 1 && Step(s, m).ring == if actions == [] then s.ring else Ring.Perform(s.ring, actions[0])
  {
  }

  lemma {:induction false} RingIsRingRun(q: seq<int>, moves: seq<Move>)
    requires |q| == Ring.QUEUE_BUF_SIZE
    ensures Run(q, moves).ring == Ring.Run(q, AllRingActions(q, moves))
  {
    hide Ring.Inv;
    hide Ring.Perform;
    hide Step;
    hide WriterStep;
    hide ReaderStep;
    hide RingActions;
    hide Inv;
    if moves != [] {
      var n := |moves| - 1;
      RingIsRingRun(q, moves[..n]);
      var s, m := Run(q, moves[..n]), moves[n];
      MoveActsOnRing(s, m);
      var more, actions := RingActions(s, m), AllRingActions(q, moves[..n]);
      if more == [] {
        assert actions + more == actions;
      } else {
        assert (actions + more)[..|actions|] == actions && (actions + more)[|actions|] == more[0];
      }
    }
  }

  /** The handshake adds nothing to the ring's behaviours, so the sleeping queue delivers a
      prefix of what was put, at most 1024 behind. */
  lemma SleepingQueueIsFifo(q: seq<int>, moves: seq<Move>)
    requires |q| == Ring.QUEUE_BUF_SIZE
    ensures var actions := AllRingActions(q, moves);
      && Run(q, moves).ring == Ring.Run(q, actions)
      && Ring.Delivered(q, actions) <= Ring.Accepted(q, actions)
      && |Ring.Accepted(q, actions)| - |Ring.Delivered(q, actions)| <= Ring.QUEUE_BUF_SIZE
  {
    RingIsRingRun(q, moves);
    Ring.EveryRunIsFifo(q, AllRingActions(q, moves));
  }

  // ---------------------------------------------------------------- no lost wake-up

  /** Whenever the reader is blocked although an item is published, the writer still owes the
      wake-up, and its next one or two steps give the reader its token. */
  lemma NoLostWakeUp(q: seq<int>, moves: seq<Move>, v1: int, v2: int)
    requires |q| == Ring.QUEUE_BUF_SIZE
    requires Blocked(Run(q, moves)) && PublishedUnread(Run(q, moves)) > 0
    ensures var s := Run(q, moves); var s1 := WriterStep(s, v1); var s2 := WriterStep(s1, v2);
      && WriterOwesWake(s)
      && (s.w.WWriteFd? ==> s1.fd > 0)
      && (s.w.WLoadFlag? ==> s1.w.WWriteFd? && s2.fd > 0)
  {
    EveryRunInv(q, moves);
  }

  /** The blocked reader's own moves change nothing, so it cannot disturb the writer. */
  lemma BlockedReaderWaits(s: State, more: bool)
    requires Blocked(s) && |s.ring.ring.q| == Ring.QUEUE_BUF_SIZE
    ensures ReaderStep(s, more) == s
  {
  }

  // ---------------------------------------------------------------- woken and served

  /** What a writer's access does to the history: a put appends, nothing else changes what was
      written or read, and failing means that 1024 items are unread as far as is published. */
  lemma WriterEffect(s: State, val: int)
    requires Inv(s)
    ensures var s' := WriterStep(s, val); var h, h' := s.ring.trace, s'.ring.trace;
      && s'.r == s.r && s'.flag == s.flag && s'.fd >= s.fd
      && h'.consumed == h.consumed && h'.publishedRead == h.publishedRead
      && h'.written == (if s.w.WPut? then h.written + [s.w.val] else h.written)
      && h'.publishedWrite == (if s.w.WFlush? then |h.written| else h.publishedWrite)
      && (s'.w.WFailed? && !s.w.WFailed? ==> |h.written| == h.publishedRead + Ring.QUEUE_BUF_SIZE)
  {
    Ring.GuardsExact(s.ring);
    if s.w.WIdle? {
      Ring.PutFailsIff(s.ring);
    }
    hide Ring.Counters;
    hide Ring.PerformRing;
  }

  /** What a reader's access does to the history: a take removes the oldest unread item. */
  lemma ReaderEffect(s: State, more: bool)
    requires Inv(s)
    ensures var s' := ReaderStep(s, more); var h, h' := s.ring.trace, s'.ring.trace;
      && s'.w == s.w && h'.written == h.written && h'.publishedWrite == h.publishedWrite
      && (s.r.RTake? ==> |h.consumed| < |h.written| && Ring.NextValue(s.ring.ring) == h.written[|h.consumed|])
      && h'.consumed == (if s.r.RTake? then h.consumed + [h.written[|h.consumed|]] else h.consumed)
      && h'.publishedRead == (if s.r.RFlush? then |h.consumed| else h.publishedRead)
  {
    Ring.GuardsExact(s.ring);
    if s.r.RTake? {
      Ring.GetKeepsInv(s.ring);
    }
    hide Ring.Counters;
    hide Ring.PerformRing;
  }

  /** An item is published, and the reader does not sit in `read` without a token. */
  predicate Awake(s: State) { PublishedUnread(s) > 0 && !Blocked(s) }

  /** The reader's own moves up to and including the next take, once an item is published. */
  function Distance(r: ReaderPc): nat {
    match r
    case RTake => 1
    case RClearFlag => 2
    case RPoll => 2
    case RCheck => 3
    case RIdle => 3
    case RReadFd => 4
    case RSetFlag => 4
    case RFlush => 4
  }

  ghost predicate Served(s: State, t: State)
    requires Inv(s)
  {
    && |s.ring.trace.consumed| < |s.ring.trace.written|
    && s.ring.trace.consumed + [s.ring.trace.written[|s.ring.trace.consumed|]] <= t.ring.trace.consumed
  }

  lemma ReaderApproaches(s: State, more: bool)
    requires Inv(s) && Awake(s)
    ensures var s' := ReaderStep(s, more);
      if s.r.RTake? then Served(s, s') && s'.r.RFlush? && !s'.flag
      else Awake(s') && Distance(s'.r) < Distance(s.r)
  {
    ReaderEffect(s, more);
    Ring.GuardsExact(s.ring);
    if s.r.RPoll? || s.r.RCheck? {
      PollKeepsInv(s);
    }
    hide Ring.Counters;
    hide Ring.PerformRing;
  }

  lemma WriterKeepsAwake(s: State, val: int)
    requires Inv(s) && Awake(s)
    ensures Awake(WriterStep(s, val)) && WriterStep(s, val).r == s.r
  {
    WriterEffect(s, val);
    hide WriterStep;
  }

  lemma StepKeepsInv(s: State, m: Move)
    requires Inv(s)
    ensures Inv(Step(s, m))
  {
    hide Inv;
    match m
    case WriterMove(val) => WriterKeepsInv(s, val);
    case ReaderMove(more) => ReaderKeepsInv(s, more);
  }

  /** The state after the moves, from any state. */
  ghost function After(s: State, moves: seq<Move>): (t: State)
    requires Inv(s)
    ensures Inv(t)
    decreases |moves|
  {
    if moves == [] then s
    else
      StepKeepsInv(s, moves[0]);
      After(Step(s, moves[0]), moves[1..])
  }

  function Readers(moves: seq<Move>): nat {
    if moves == [] then 0 else (if moves[0].ReaderMove? then 1 else 0) + Readers(moves[1..])
  }

  function Writers(moves: seq<Move>): nat {
    if moves == [] then 0 else (if moves[0].WriterMove? then 1 else 0) + Writers(moves[1..])
  }

  lemma StepOnlyAdds(s: State, m: Move)
    requires Inv(s)
    ensures s.ring.trace.consumed <= Step(s, m).ring.trace.consumed
    ensures s.ring.trace.written <= Step(s, m).ring.trace.written
  {
    hide Inv;
    hide WriterStep;
    hide ReaderStep;
    match m
    case WriterMove(val) => WriterEffect(s, val);
    case ReaderMove(more) => ReaderEffect(s, more);
  }

  lemma {:induction false} RunOnlyAdds(s: State, moves: seq<Move>)
    requires Inv(s)
    ensures s.ring.trace.consumed <= After(s, moves).ring.trace.consumed
    ensures s.ring.trace.written <= After(s, moves).ring.trace.written
    decreases |moves|
  {
    assert |s.ring.ring.q| == Ring.QUEUE_BUF_SIZE;
    hide Inv;
    hide Step;
    if moves != [] {
      StepKeepsInv(s, moves[0]);
      StepOnlyAdds(s, moves[0]);
      RunOnlyAdds(Step(s, moves[0]), moves[1..]);
    }
  }

  /** Being served carries over to later states and back to earlier ones. */
  lemma ServedLater(s: State, s': State, t: State)
    requires Inv(s) && Inv(s') && s.ring.trace.written <= s'.ring.trace.written
    requires s.ring.trace.consumed <= s'.ring.trace.consumed && s'.ring.trace.consumed <= t.ring.trace.consumed
    ensures Served(s, s') ==> Served(s, t)
    ensures PublishedUnread(s) > 0 && Served(s', t) ==> Served(s, t)
  {
    var h, h', k := s.ring.trace, s'.ring.trace, t.ring.trace;
    if PublishedUnread(s) > 0 && Served(s', t) && |h.consumed| < |h'.consumed| {
      assert h'.consumed <= h'.written;
      assert h'.consumed[|h.consumed|] == h'.written[|h.consumed|] == h.written[|h.consumed|];
    }
    hide Ring.Counters;
  }

  /** However the two threads interleave: an awake reader takes the oldest item within four of
      its own moves. */
  lemma {:induction false} AwakeIsServed(s: State, moves: seq<Move>)
    requires Inv(s) && Awake(s) && Readers(moves) >= Distance(s.r)
    ensures Served(s, After(s, moves))
    decreases |moves|
  {
    var m, rest := moves[0], moves[1..];
    var s' := Step(s, m);
    StepKeepsInv(s, m);
    StepOnlyAdds(s, m);
    RunOnlyAdds(s', rest);
    ServedLater(s, s', After(s, moves));
    hide Inv;
    hide WriterStep;
    hide ReaderStep;
    match m
    case WriterMove(val) =>
      WriterKeepsAwake(s, val);
      AwakeIsServed(s', rest);
    case ReaderMove(more) =>
      ReaderApproaches(s, more);
      if !s.r.RTake? {
        AwakeIsServed(s', rest);
      }
  }

  /** A woken reader that has a published item takes the oldest one, whatever the writer does
      between the reader's four moves. */
  lemma WokenReaderTakes(s: State, moves: seq<Move>)
    requires Inv(s) && s.r.RReadFd? && s.fd > 0 && PublishedUnread(s) > 0 && Readers(moves) >= 4
    ensures Served(s, After(s, moves))
  {
    AwakeIsServed(s, moves);
  }

  /** The writer's own moves up to and including its write of the token. */
  function WakeDistance(w: WriterPc): nat { if w.WWriteFd? then 1 else 2 }

  lemma WriterWakes(s: State, val: int)
    requires Inv(s) && Blocked(s) && PublishedUnread(s) > 0
    ensures var s' := WriterStep(s, val);
      if s.w.WWriteFd? then Awake(s')
      else Blocked(s') && PublishedUnread(s') > 0 && WakeDistance(s'.w) < WakeDistance(s.w)
  {
    WriterEffect(s, val);
  }

  lemma {:induction false} AwakeOrServed(s: State, moves: seq<Move>)
    requires Inv(s) && Awake(s)
    ensures Awake(After(s, moves)) || Served(s, After(s, moves))
    decreases |moves|
  {
    if moves != [] {
      var m, rest := moves[0], moves[1..];
      var s' := Step(s, m);
      StepKeepsInv(s, m);
      StepOnlyAdds(s, m);
      RunOnlyAdds(s', rest);
      ServedLater(s, s', After(s, moves));
      hide Inv;
      hide WriterStep;
      hide ReaderStep;
      if m.WriterMove? {
        WriterKeepsAwake(s, m.val);
        AwakeOrServed(s', rest);
      } else {
        ReaderApproaches(s, m.more);
        if !s.r.RTake? {
          AwakeOrServed(s', rest);
        }
      }
    }
  }

  /** A reader blocked beside a published item is woken by the writer's next two moves. */
  lemma {:induction false} BlockedIsWoken(s: State, moves: seq<Move>)
    requires Inv(s) && Blocked(s) && PublishedUnread(s) > 0 && Writers(moves) >= WakeDistance(s.w)
    ensures Awake(After(s, moves)) || Served(s, After(s, moves))
    decreases |moves|
  {
    var m, rest := moves[0], moves[1..];
    var s' := Step(s, m);
    StepKeepsInv(s, m);
    StepOnlyAdds(s, m);
    RunOnlyAdds(s', rest);
    ServedLater(s, s', After(s, moves));
    if m.WriterMove? {
      WriterWakes(s, m.val);
      hide Inv;
      hide WriterStep;
      if s.w.WWriteFd? {
        AwakeOrServed(s', rest);
      } else {
        BlockedIsWoken(s', rest);
      }
    } else {
      BlockedReaderWaits(s, m.more);
      hide Inv;
      hide ReaderStep;
      BlockedIsWoken(s', rest);
    }
  }

  /** Every published item is read: from any reachable state, after two moves of the writer and
      then four of the reader, in any interleaving, the oldest unread item has been taken. */
  lemma PublishedIsServed(s: State, a: seq<Move>, b: seq<Move>)
    requires Inv(s) && PublishedUnread(s) > 0 && Writers(a) >= 2 && Readers(b) >= 4
    ensures Served(s, After(After(s, a), b))
  {
    hide Inv;
    hide Step;
    var t := After(s, a);
    if Blocked(s) {
      BlockedIsWoken(s, a);
    } else {
      AwakeOrServed(s, a);
    }
    RunOnlyAdds(s, a);
    RunOnlyAdds(t, b);
    ServedLater(s, t, After(t, b));
    if Awake(t) {
      AwakeIsServed(t, b);
    }
  }

  ghost predicate OnlyWriter(moves: seq<Move>) { forall m :: m in moves ==> m.WriterMove? }

  lemma {:induction false} WriterMovesKeepReader(s: State, moves: seq<Move>)
    requires Inv(s) && OnlyWriter(moves)
    ensures var t := After(s, moves);
      t.r == s.r && t.flag == s.flag && t.ring.trace.consumed == s.ring.trace.consumed
    decreases |moves|
  {
    assert |s.ring.ring.q| == Ring.QUEUE_BUF_SIZE;
    hide Inv;
    hide WriterStep;
    if moves != [] {
      assert moves[0] in moves;
      StepKeepsInv(s, moves[0]);
      WriterEffect(s, moves[0].val);
      WriterMovesKeepReader(Step(s, moves[0]), moves[1..]);
    }
  }

  /** A leftover token with nothing published costs the reader one check, whatever the writer
      does between its two moves: the reader then goes on to take an item if one has come, and
      otherwise waits again, for a token written meanwhile; nothing is delivered or lost. */
  lemma LeftoverTokenIsHarmless(s: State, a: bool, between: seq<Move>, b: bool)
    requires Inv(s) && s.r.RReadFd? && s.fd > 0 && PublishedUnread(s) == 0 && OnlyWriter(between)
    ensures Inv(ReaderStep(s, a)) && ReaderStep(s, a).fd == 0
    ensures var u := After(ReaderStep(s, a), between); var s' := ReaderStep(u, b);
      && s'.ring.trace.consumed == s.ring.trace.consumed && s'.ring.trace.written == u.ring.trace.written
      && s'.flag == s.flag && s'.fd == u.fd && s'.w == u.w
      && s'.r == (if PublishedUnread(u) > 0 then RClearFlag else RReadFd)
      && (Blocked(s') <==> PublishedUnread(u) == 0 && u.fd == 0)
  {
    ReaderKeepsInv(s, a);
    var t := ReaderStep(s, a);
    WriterMovesKeepReader(t, between);
    var u := After(t, between);
    PollKeepsInv(u);
    ReaderEffect(u, b);
    hide Ring.Counters;
    hide Ring.PerformRing;
  }

  /** With the reader idle or waiting and everything delivered, only a new put can go on;
      in every other state some thread has a step that changes the state. */
  lemma NeverStuck(s: State)
    requires Inv(s) && !s.w.WFailed?
    ensures (s.w.WIdle? && Blocked(s) && PublishedUnread(s) == 0)
      || (!s.w.WIdle? && forall v :: WriterStep(s, v) != s)
      || ReaderStep(s, false) != s
  {
    Ring.GuardsExact(s.ring);
    PollKeepsInv(s);
    if s.r.RTake? {
      Ring.PerformHistory(s.ring, Ring.Get);
    }
  }
}
