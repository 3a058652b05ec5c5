/** The salt schedule: future salts kept latest first, the due ones popped from the back. */
module ServerSalts {
  datatype ServerSalt = ServerSalt(salt: int, validSince: real, validUntil: real)

  datatype Salts = Salts(current: ServerSalt, future: seq<ServerSalt>)

  ghost predicate LatestFirst(future: seq<ServerSalt>) {
    forall i, j :: 0 <= i < j < |future| ==> future[i].validSince >= future[j].validSince
  }

  /** The pop loop of `update_salt`. */
  function Update(s: Salts, serverTime: real): Salts
    decreases |s.future|
  {
    var n := |s.future| - 1;
    if s.future != [] && s.future[n].validSince < serverTime then
      Update(Salts(s.future[n], s.future[..n]), serverTime)
    else s
  }

  /** The salt in force is the supplied one with the greatest start before the server time; the
      old one stays just when no supplied salt has started. */
  lemma {:induction false} UpdateChoosesLatest(s: Salts, serverTime: real)
    requires LatestFirst(s.future)
    ensures var r := Update(s, serverTime);
      && r.future <= s.future
      && (forall i :: 0 <= i < |s.future| ==> (i < |r.future| <==> s.future[i].validSince >= serverTime))
      && r.current == (if r.future == s.future then s.current else s.future[|r.future|])
      && (|r.future| == |s.future| <==> forall x :: x in s.future ==> x.validSince >= serverTime)
      && (|r.future| < |s.future| ==>
            && r.current in s.future && r.current.validSince < serverTime
            && forall x :: x in s.future && x.validSince < serverTime ==> x.validSince <= r.current.validSince)
    decreases |s.future|
  {
    if s.future != [] {
      var n := |s.future| - 1;
      if s.future[n].validSince < serverTime {
        assert s.future[n] in s.future;
        UpdateChoosesLatest(Salts(s.future[n], s.future[..n]), serverTime);
      }
    }
  }

  /** Two updates in a row amount to one at the later of the two times. */
  lemma {:induction false} UpdatesCompose(s: Salts, a: real, b: real)
    requires LatestFirst(s.future)
    ensures Update(Update(s, a), b) == Update(s, if a < b then b else a)
    decreases |s.future|
  {
    if s.future != [] {
      var n := |s.future| - 1;
      if s.future[n].validSince < a {
        UpdatesCompose(Salts(s.future[n], s.future[..n]), a, b);
      }
    }
  }

  ghost function UpdateAll(s: Salts, times: seq<real>): Salts {
    if times == [] then s else Update(UpdateAll(s, times[..|times| - 1]), times[|times| - 1])
  }

  function Latest(times: seq<real>): (t: real)
    requires times != []
    ensures t in times && forall i :: 0 <= i < |times| ==> times[i] <= t
  {
    var n := |times| - 1;
    if n == 0 then times[0]
    else
      var t := Latest(times[..n]);
      if t < times[n] then times[n] else t
  }

  /** Popping step by step, in whatever order the clock is read, equals the one-shot choice at
      the latest time seen. */
  lemma {:induction false} StepwiseIsOneShot(s: Salts, times: seq<real>)
    requires LatestFirst(s.future) && times != []
    ensures UpdateAll(s, times) == Update(s, Latest(times))
  {
    var n := |times| - 1;
    if n == 0 {
      assert UpdateAll(s, times[..0]) == s;
    } else {
      StepwiseIsOneShot(s, times[..n]);
      UpdatesCompose(s, Latest(times[..n]), times[n]);
    }
  }

  /** `set_future_salts`; `sorted` is the outcome of sorting the supplied salts. */
  function SetFuture(s: Salts, sorted: seq<ServerSalt>, serverTime: real): Salts {
    if sorted == [] then s else Update(Salts(s.current, sorted), serverTime)
  }

  /** Supplied salts replace the former schedule: those that start at the server time or later
      are kept, in order; the one with the greatest start before it comes into force, or the old
      one stays just when none has started. An empty supply changes nothing. */
  lemma SetFutureReplaces(s: Salts, sorted: seq<ServerSalt>, serverTime: real)
    requires LatestFirst(sorted)
    ensures sorted == [] ==> SetFuture(s, sorted, serverTime) == s
    ensures sorted != [] ==>
      var r := SetFuture(s, sorted, serverTime);
      && r.future <= sorted
      && (forall i :: 0 <= i < |sorted| ==> (i < |r.future| <==> sorted[i].validSince >= serverTime))
      && r.current == (if r.future == sorted then s.current else sorted[|r.future|])
      && (r.future != sorted ==>
            && r.current in sorted && r.current.validSince < serverTime
            && forall x :: x in sorted && x.validSince < serverTime ==> x.validSince <= r.current.validSince)
  {
    if sorted != [] {
      UpdateChoosesLatest(Salts(s.current, sorted), serverTime);
    }
  }

  /** `set_server_salt`. */
  function SetCurrent(salt: int, serverTime: real): Salts {
    Salts(ServerSalt(salt, serverTime, serverTime + 600.0), [])
  }

  predicate IsValid(s: Salts, serverTime: real) { s.current.validUntil > serverTime + 60.0 }

  /** A salt set by hand stays in force until new future salts arrive, and is reported usable
      for exactly its first 540 seconds. */
  lemma SetCurrentStays(salt: int, set_: real, later: real)
    ensures Update(SetCurrent(salt, set_), later) == Salts(ServerSalt(salt, set_, set_ + 600.0), [])
    ensures IsValid(Update(SetCurrent(salt, set_), later), later) <==> later < set_ + 540.0
  {
  }
}
