/**
  Incoming packets and the server clock of a session. Doubles are reals; `now` is an input of
  every call, so the theorems hold whatever the local clock does.
 */
module AuthData {
  import opened Bytes
  import opened DuplicateChecker
  import opened MessageIds
  import opened ServerSalts

  const WINDOW: nat := 1000
  const TOLERANCE: real := 0.0001

  datatype Session = Session(id: nat, window: seq<nat>, updated: bool, difference: real)

  datatype Outcome = Accepted | Aborted | WrongSession | InvalidParity | Rejected(status: Status) | BadTime | NoPacket

  function ServerTime(s: Session, now: real): real { s.difference + now }

  // ---------------------------------------------------------------- the clock estimate

  function UpdateDifference(s: Session, diff: real): (Session, bool) {
    if !s.updated then (s.(updated := true, difference := diff), true)
    else if s.difference + TOLERANCE < diff then (s.(difference := diff), true)
    else (s, false)
  }

  function ResetDifference(s: Session, diff: real): Session {
    s.(updated := false, difference := diff)
  }

  ghost function Observe(s: Session, diffs: seq<real>): Session {
    if diffs == [] then s else UpdateDifference(Observe(s, diffs[..|diffs| - 1]), diffs[|diffs| - 1]).0
  }

  /** From a reset on: the estimate is one of the observed differences, never decreases, and
      lies at most the tolerance below the greatest one. */
  lemma {:induction false} EstimateTracksMaximum(s: Session, diffs: seq<real>, k: nat)
    requires !s.updated && diffs != [] && 0 < k <= |diffs|
    ensures Observe(s, diffs).updated && Observe(s, diffs).difference in diffs
    ensures Observe(s, diffs[..k]).difference <= Observe(s, diffs).difference
    ensures forall i :: 0 <= i < |diffs| ==> diffs[i] <= Observe(s, diffs).difference + TOLERANCE
  {
    var n := |diffs| - 1;
    if n == 0 {
      assert Observe(s, diffs[..0]) == s;
      assert diffs[..k] == diffs;
    } else {
      EstimateTracksMaximum(s, diffs[..n], if k <= n then k else n);
      if k <= n {
        assert diffs[..n][..k] == diffs[..k];
      } else {
        assert diffs[..k] == diffs;
      }
    }
  }

  /** The answer tells whether the estimate was set: to the difference observed, on the first call
      since a reset or when that is ahead by more than the tolerance; otherwise nothing changes. */
  lemma ChangeReported(s: Session, diff: real)
    ensures var (s', changed) := UpdateDifference(s, diff);
      && (changed <==> !s.updated || diff - s.difference > TOLERANCE)
      && s' == (if changed then Session(s.id, s.window, true, diff) else s)
  {
  }

  /** A reset puts the given difference in force until the next one observed, which replaces it
      whatever it is. */
  lemma ResetForgets(s: Session, diff: real, next: real, now: real)
    ensures var r := ResetDifference(s, diff);
      && ServerTime(r, now) == diff + now && r.id == s.id && r.window == s.window
      && UpdateDifference(r, next) == (Session(s.id, s.window, true, next), true)
  {
  }

  // ---------------------------------------------------------------- incoming packets

  /** The difference a packet lets the client observe: whole seconds of its identifier. */
  function ObservedDifference(id: nat, now: real): real {
    (id / UINT32 % UINT32) as real - now
  }

  function CheckPacket(s: Session, session: nat, id: nat, now: real): (Outcome, Session) {
    if s.id == 0 then (Aborted, s)
    else if s.id != session then (WrongSession, s)
    else if id % 2 == 0 then (InvalidParity, s)
    else
      var (status, window) := CheckArray(s.window, WINDOW, id);
      var s1 := s.(window := window);
      if !status.Ok? then (Rejected(status), s1)
      else
        var s2 := UpdateDifference(s1, ObservedDifference(id, now)).0;
        if s2.updated && !ValidInbound(id, ServerTime(s2, now)) then (BadTime, s2) else (Accepted, s2)
  }

  /** The packet got as far as the duplicate check. */
  predicate ReachesWindow(s: Session, session: nat, id: nat) {
    s.id != 0 && s.id == session && id % 2 == 1
  }

  /** Of the two halves of the time check only the lower can fail: a packet that passes the
      other checks is rejected exactly when its identifier is 300 seconds old or more. */
  lemma TimeCheckExact(s: Session, session: nat, id: nat, now: real)
    requires id < UINT32 * UINT32
    requires ReachesWindow(s, session, id) && CheckArray(s.window, WINDOW, id).0.Ok?
    ensures var (outcome, s') := CheckPacket(s, session, id, now);
      && s'.updated
      && id as real / UNIT < ServerTime(s', now) + 1.001
      && (outcome == BadTime <==> id as real / UNIT <= ServerTime(s', now) - 300.0)
      && (outcome == Accepted <==> id as real / UNIT > ServerTime(s', now) - 300.0)
  {
    WholeSeconds(id);
  }

  /** What the estimate becomes after such a packet. The first one since a reset is accepted and
      sets the server clock to the whole seconds of its identifier; a later one does so when that
      moves the clock forward by more than the tolerance, and otherwise leaves the estimate alone. */
  lemma ClockAfterPacket(s: Session, session: nat, id: nat, now: real)
    requires id < UINT32 * UINT32
    requires ReachesWindow(s, session, id) && CheckArray(s.window, WINDOW, id).0.Ok?
    ensures var (outcome, s') := CheckPacket(s, session, id, now);
      var stamp := id as real / UNIT;
      && (!s.updated ==> outcome == Accepted && ServerTime(s', now) <= stamp < ServerTime(s', now) + 1.0)
      && (s.updated && ServerTime(s, now) + TOLERANCE < stamp.Floor as real ==>
            ServerTime(s', now) <= stamp < ServerTime(s', now) + 1.0)
      && (s.updated && ServerTime(s, now) + TOLERANCE >= stamp.Floor as real ==> s'.difference == s.difference)
  {
    WholeSeconds(id);
    hide ValidInbound;
    hide CheckArray;
    ValidInTicks(id, ServerTime(CheckPacket(s, session, id, now).1, now));
  }

  lemma WholeSeconds(id: nat)
    requires id < UINT32 * UINT32
    ensures id / UINT32 % UINT32 == id / UINT32
    ensures (id / UINT32) as real <= id as real / UNIT < (id / UINT32) as real + 1.0
    ensures (id as real / UNIT).Floor == id / UINT32
  {
    var q, r := id / UINT32, id % UINT32;
    assert id == q * UINT32 + r;
    assert id as real == q as real * UNIT + r as real;
    assert (q as real + 1.0) * UNIT > id as real >= q as real * UNIT;
  }

  /** The verdict on any packet, in terms of what has reached the window so far: the order of the
      checks shows only in what a refused packet leaves behind. */
  lemma PacketVerdict(s: Session, seen: set<nat>, session: nat, id: nat, now: real)
    requires Window(s.window, WINDOW, seen) && id < UINT32 * UINT32
    ensures var (outcome, s') := CheckPacket(s, session, id, now);
      var kept := Compact(s.window, WINDOW);
      var fresh_ := id !in seen && (|kept| < WINDOW || id > kept[0]);
      && (outcome == Aborted <==> s.id == 0)
      && (outcome == WrongSession <==> s.id != 0 && s.id != session)
      && (outcome == InvalidParity <==> s.id == session != 0 && id % 2 == 0)
      && (outcome.Rejected? <==> s.id == session != 0 && id % 2 == 1 && !fresh_)
      && (outcome == Rejected(AlreadyProcessed) <==> outcome.Rejected? && id in kept)
      && (outcome == BadTime <==>
            s.id == session != 0 && id % 2 == 1 && fresh_ && id as real / UNIT <= ServerTime(s', now) - 300.0)
      && (outcome == Accepted <==>
            s.id == session != 0 && id % 2 == 1 && fresh_ && id as real / UNIT > ServerTime(s', now) - 300.0)
      && s'.id == s.id
      && (if outcome.Accepted? || outcome.BadTime? then s'.updated && id in s'.window
          else s'.updated == s.updated && s'.difference == s.difference)
      && (outcome in {Aborted, WrongSession, InvalidParity} ==> s' == s)
  {
    ArrayVerdict(s.window, WINDOW, seen, id);
    if ReachesWindow(s, session, id) && CheckArray(s.window, WINDOW, id).0.Ok? {
      TimeCheckExact(s, session, id, now);
      OkIsKept(s.window, WINDOW, id);
    }
    hide ValidInbound;
    hide Compact;
    hide CheckArray;
  }

  // ---------------------------------------------------------------- runs

  datatype Event =
    | Packet(session: nat, id: nat, now: real)
    | SetSession(session: nat)
    | UpdateClock(diff: real)
    | ResetClock(diff: real)

  function StepEvent(s: Session, e: Event): (Outcome, Session) {
    match e
    case Packet(session, id, now) => CheckPacket(s, session, id, now)
    case SetSession(session) => (NoPacket, s.(id := session))
    case UpdateClock(diff) => (NoPacket, UpdateDifference(s, diff).0)
    case ResetClock(diff) => (NoPacket, ResetDifference(s, diff))
  }

  ghost function Run(start: Session, events: seq<Event>): Session {
    if events == [] then start
    else StepEvent(Run(start, events[..|events| - 1]), events[|events| - 1]).1
  }

  /** The packet at position `i` was accepted. */
  ghost predicate AcceptedAt(start: Session, events: seq<Event>, i: nat)
    requires i < |events|
  {
    events[i].Packet? && StepEvent(Run(start, events[..i]), events[i]).0 == Accepted
  }

  /** The identifiers that have reached the duplicate check so far. */
  ghost function Seen(start: Session, events: seq<Event>): set<nat> {
    if events == [] then {}
    else
      var n := |events| - 1;
      var e := events[n];
      Seen(start, events[..n])
        + if e.Packet? && ReachesWindow(Run(start, events[..n]), e.session, e.id) then {e.id} else {}
  }

  lemma EventKeepsWindow(s: Session, e: Event, seen: set<nat>)
    requires Window(s.window, WINDOW, seen)
    ensures Window(StepEvent(s, e).1.window, WINDOW,
      seen + if e.Packet? && ReachesWindow(s, e.session, e.id) then {e.id} else {})
  {
    assert seen + {} == seen;
    if e.Packet? && ReachesWindow(s, e.session, e.id) {
      ArrayVerdict(s.window, WINDOW, seen, e.id);
      assert StepEvent(s, e).1.window == CheckArray(s.window, WINDOW, e.id).1;
    } else {
      assert StepEvent(s, e).1.window == s.window;
    }
  }

  lemma {:induction false} WindowOverRun(start: Session, events: seq<Event>)
    requires start.window == []
    ensures Window(Run(start, events).window, WINDOW, Seen(start, events))
  {
    if events != [] {
      var n := |events| - 1;
      WindowOverRun(start, events[..n]);
      EventKeepsWindow(Run(start, events[..n]), events[n], Seen(start, events[..n]));
    }
  }

  lemma {:induction false} SeenGrows(start: Session, events: seq<Event>, i: nat)
    requires i <= |events|
    ensures Seen(start, events[..i]) <= Seen(start, events)
  {
    if i < |events| {
      SeenGrows(start, events[..|events| - 1], i);
      assert events[..|events| - 1][..i] == events[..i];
    } else {
      assert events[..i] == events;
    }
  }

  /** No identifier is ever accepted twice, whatever the clocks and session changes do, and
      also after the window has dropped it. */
  lemma AcceptedAtMostOnce(start: Session, events: seq<Event>, i: nat, j: nat)
    requires start.window == [] && i < j < |events|
    requires AcceptedAt(start, events, i) && AcceptedAt(start, events, j)
    ensures events[i].id != events[j].id
  {
    var s := Run(start, events[..j]);
    WindowOverRun(start, events[..j]);
    ArrayVerdict(s.window, WINDOW, Seen(start, events[..j]), events[j].id);
    assert events[j].id !in Seen(start, events[..j]);
    assert events[..i + 1][..i] == events[..i];
    assert events[i].id in Seen(start, events[..i + 1]);
    SeenGrows(start, events[..j], i + 1);
    assert events[..j][..i + 1] == events[..i + 1];
  }

  // ---------------------------------------------------------------- the class

  class AuthData {
    var sessionId: nat
    const duplicateChecker: MessageIdDuplicateChecker
    var differenceUpdated: bool
    var difference: real
    var serverSalt: ServerSalt
    var futureSalts: seq<ServerSalt>
    var lastMessageId: int
    var seqNo: nat

    ghost predicate Valid()
      reads this, duplicateChecker, duplicateChecker.ids
    {
      && duplicateChecker.Valid() && duplicateChecker.n == WINDOW
      && LatestFirst(futureSalts) && 0 <= lastMessageId < WORD
    }

    ghost function Snapshot(): Session
      requires duplicateChecker.endPos <= duplicateChecker.ids.Length
      reads this, duplicateChecker, duplicateChecker.ids
    {
      Session(sessionId, duplicateChecker.Entries(), differenceUpdated, difference)
    }

    ghost function Schedule(): Salts
      reads this
    {
      Salts(serverSalt, futureSalts)
    }

    /** A fresh session; its first salt is random and already expired. */
    constructor (randomSalt: int)
      ensures Valid() && fresh(duplicateChecker) && fresh(duplicateChecker.ids)
      ensures Snapshot() == Session(0, [], false, 0.0) && lastMessageId == 0 && seqNo == 0
      ensures Schedule() == Salts(ServerSalt(randomSalt, -10000000000.0, -10000000000.0), [])
    {
      sessionId, differenceUpdated, difference := 0, false, 0.0;
      duplicateChecker := new MessageIdDuplicateChecker(WINDOW);
      serverSalt, futureSalts := ServerSalt(randomSalt, -10000000000.0, -10000000000.0), [];
      lastMessageId, seqNo := 0, 0;
    }

    method SetSessionId(session: nat)
      requires Valid()
      modifies this`sessionId
      ensures Valid() && Snapshot() == old(Snapshot()).(id := session)
    {
      sessionId := session;
    }

    method UpdateServerTimeDifference(diff: real) returns (changed: bool)
      requires Valid()
      modifies this`differenceUpdated, this`difference
      ensures Valid() && (Snapshot(), changed) == UpdateDifference(old(Snapshot()), diff)
    {
      if !differenceUpdated {
        differenceUpdated := true;
        difference := diff;
      } else if difference + TOLERANCE < diff {
        difference := diff;
      } else {
        return false;
      }
      return true;
    }

    method ResetServerTimeDifference(diff: real)
      requires Valid()
      modifies this`differenceUpdated, this`difference
      ensures Valid() && Snapshot() == ResetDifference(old(Snapshot()), diff)
    {
      differenceUpdated := false;
      difference := diff;
    }

    /** `check_packet`: the checks in the order of the program. */
    method Check(session: nat, id: nat, now: real) returns (outcome: Outcome)
      requires Valid()
      modifies this`differenceUpdated, this`difference, duplicateChecker`endPos, duplicateChecker.ids
      ensures Valid() && (outcome, Snapshot()) == CheckPacket(old(Snapshot()), session, id, now)
    {
      if sessionId == 0 {
        return Aborted;
      }
      if sessionId != session {
        return WrongSession;
      }
      if id % 2 == 0 {
        return InvalidParity;
      }
      var status := duplicateChecker.Check(id);
      if !status.Ok? {
        return Rejected(status);
      }
      var _ := UpdateServerTimeDifference(ObservedDifference(id, now));
      if differenceUpdated && !ValidInbound(id, difference + now) {
        return BadTime;
      }
      return Accepted;
    }

    /** The server clock reads past 1970 and not at the end of the 64-bit word. */
    ghost predicate ClockInRange(now: real)
      reads this
    {
      difference + now >= 0.0 && Ticks(difference + now) + LOW <= WORD
    }

    /** `next_message_id` with its 32 random bits. */
    method NextMessageId(now: real, rx: int) returns (id: int)
      requires Valid() && ClockInRange(now)
      modifies this`lastMessageId
      ensures Valid() && id == lastMessageId == NextId(old(lastMessageId), difference + now, rx)
    {
      RandomizedNear(Ticks(difference + now), rx);
      id := NextId(lastMessageId, difference + now, rx);
      lastMessageId := id;
    }

    method NextSeqNo(contentRelated: bool) returns (res: nat)
      requires Valid()
      modifies this`seqNo
      ensures Valid()
      ensures res == if contentRelated then old(seqNo) - old(seqNo) % 2 + 1 else old(seqNo)
      ensures seqNo == if contentRelated then old(seqNo) + 2 else old(seqNo)
    {
      res := seqNo;
      if contentRelated {
        res := res - res % 2 + 1;
        seqNo := seqNo + 2;
      }
    }

    method UpdateSalt(now: real)
      requires Valid()
      modifies this`serverSalt, this`futureSalts
      ensures Valid() && Schedule() == Update(old(Schedule()), difference + now)
    {
      var serverTime := difference + now;
      while futureSalts != [] && futureSalts[|futureSalts| - 1].validSince < serverTime
        invariant LatestFirst(futureSalts) && duplicateChecker.Valid()
        invariant Update(Schedule(), serverTime) == Update(old(Schedule()), serverTime)
        decreases |futureSalts|
      {
        serverSalt := futureSalts[|futureSalts| - 1];
        futureSalts := futureSalts[..|futureSalts| - 1];
      }
    }

    /** `set_future_salts`; `sorted` is the supplied list as the library sort leaves it. */
    method SetFutureSalts(salts: seq<ServerSalt>, sorted: seq<ServerSalt>, now: real)
      requires Valid() && multiset(sorted) == multiset(salts) && LatestFirst(sorted)
      modifies this`serverSalt, this`futureSalts
      ensures Valid() && Schedule() == SetFuture(old(Schedule()), sorted, difference + now)
    {
      assert |sorted| == |multiset(sorted)| == |multiset(salts)| == |salts|;
      if salts == [] {
        return;
      }
      futureSalts := sorted;
      UpdateSalt(now);
    }

    method SetServerSalt(salt: int, now: real)
      requires Valid()
      modifies this`serverSalt, this`futureSalts
      ensures Valid() && Schedule() == SetCurrent(salt, difference + now)
    {
      serverSalt := ServerSalt(salt, difference + now, difference + now + 600.0);
      futureSalts := [];
    }

    /** The salt to use: the started one with the latest start, as `UpdateChoosesLatest` says. */
    method GetServerSalt(now: real) returns (salt: int)
      requires Valid()
      modifies this`serverSalt, this`futureSalts
      ensures Valid() && Schedule() == Update(old(Schedule()), difference + now)
      ensures salt == Update(old(Schedule()), difference + now).current.salt
    {
      UpdateSalt(now);
      salt := serverSalt.salt;
    }
  }
}
