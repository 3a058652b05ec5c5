/**
  The client's side of the creation of an authorization key. Parsing, RSA, AES, factorization
  and random numbers are inputs of the steps; each step reads the clock once.
 */
module Handshake {
  import opened Options
  import opened Bits
  import opened Bytes
  import opened TlStrings
  import opened BigNum
  import Dh = DhHandshake

  const REQ_PQ_MULTI: nat := 0xbe7e8ef1
  const REQ_DH_PARAMS: nat := 0xd712e4be
  const SET_CLIENT_DH_PARAMS: nat := 0xf5045f1f

  type Short = s: seq<byte> | |s| < 0x1_0000_0000 witness []

  datatype Phase = Start | ResPQ | ServerDHParams | DHGenResponse | Finish

  datatype Mode = Main | Temp

  datatype AuthKey = AuthKey(id: nat, key: seq<byte>, expiresAt: real, createdAt: real)

  datatype Query =
    | ReqPq(nonce: nat)
    | ReqDhParams(nonce: nat, serverNonce: nat, p: Short, q: Short, fingerprint: nat, data: Short)
    | SetClientDh(nonce: nat, serverNonce: nat, data: Short)

  /** The fields of an `AuthKeyHandshake`. */
  datatype State = State(
    phase: Phase, mode: Mode, expiresIn: real, expiresAt: real, startTime: real, timeoutIn: real,
    authKey: AuthKey, serverTimeDiff: real, serverSalt: nat,
    nonce: nat, serverNonce: nat, newNonce: nat, lastQuery: seq<byte>)

  // ---------------------------------------------------------------- what the server says

  datatype ResPqAnswer = ResPqAnswer(nonce: nat, serverNonce: nat, pq: Short)

  /** A resPQ with the key found for it, the factors of pq, the new nonce and the RSA output. */
  datatype ResPqInput = ResPqInput(
    answer: Option<ResPqAnswer>, fingerprint: Option<nat>, factors: Option<(Short, Short)>, newNonce: nat, data: Short)

  datatype DhAnswer = DhAnswer(nonce: nat, serverNonce: nat, size: nat)

  datatype DhInner = DhInner(nonce: nat, serverNonce: nat, g: nat, prime: seq<byte>, gA: seq<byte>, serverTime: real)

  /** DH parameters with the decrypted part if it parses and its digest matches, the random
      exponent, the verdict on the prime, and the encrypted reply. */
  datatype DhInput = DhInput(answer: Option<DhAnswer>, inner: Option<DhInner>, exponent: nat, primeOk: bool, data: Short)

  datatype GenAnswer = GenOk(nonce: nat, serverNonce: nat, hash: nat) | GenFail | GenRetry

  /** One incoming message as each of the three handlers would read it. */
  datatype Message = Message(now: real, resPq: ResPqInput, dh: DhInput, gen: Option<GenAnswer>)

  datatype Error =
    | Timeout | BadAnswer | NonceMismatch | ServerNonceMismatch | NoRsaKey | NotFactorized | TooBig
    | BadPadding | BadInner | KeyRefused | HashMismatch | GenFailed | GenRetried | AlreadyStarted

  /** `Aborted` is the end of the program: an unreachable case, or a modulus of zero. */
  datatype Verdict = Ok | Refused(error: Error) | Aborted

  /** The verdict, the state after, and what was sent. */
  datatype Step = Step(verdict: Verdict, state: State, sent: seq<seq<byte>>)

  // ---------------------------------------------------------------- queries

  function Text(s: Short): seq<byte> { StoreString(s).value }

  /** Constructor and nonces of a query. */
  function Head(q: Query): (s: seq<byte>)
    ensures s != []
  {
    match q
    case ReqPq(nonce) => Le(REQ_PQ_MULTI, 4) + Le(nonce, 16)
    case ReqDhParams(nonce, serverNonce, _, _, _, _) => Le(REQ_DH_PARAMS, 4) + Le(nonce, 16) + Le(serverNonce, 16)
    case SetClientDh(nonce, serverNonce, _) => Le(SET_CLIENT_DH_PARAMS, 4) + Le(nonce, 16) + Le(serverNonce, 16)
  }

  function Encode(q: Query): seq<byte> {
    match q
    case ReqPq(_) => Head(q)
    case ReqDhParams(_, _, p, qq, fingerprint, data) => Head(q) + (Text(p) + Text(qq) + Le(fingerprint, 8) + Text(data))
    case SetClientDh(_, _, data) => Head(q) + Text(data)
  }

  function Send(s: State, q: Query, phase: Phase): Step {
    Step(Ok, s.(lastQuery := Encode(q), phase := phase), [Encode(q)])
  }

  // ---------------------------------------------------------------- steps

  function Fresh(mode: Mode, expiresIn: real, now: real): State {
    State(Start, mode, expiresIn, 0.0, now, 1000000000.0, AuthKey(0, [], 0.0, 0.0), 0.0, 0, 0, 0, 0, [])
  }

  function Clear(s: State, now: real): State {
    s.(lastQuery := [], phase := Start, startTime := now, timeoutIn := 1000000000.0)
  }

  function Fail(s: State, error: Error): Step { Step(Refused(error), s, []) }

  /** The size of the inner data, which must leave room for random padding. */
  function InnerSize(mode: Mode, pq: Short, p: Short, q: Short): nat {
    4 + |Text(pq)| + |Text(p)| + |Text(q)| + 16 + 16 + 32 + 4 + if mode == Temp then 4 else 0
  }

  const P_Q_INNER_DATA_DC: nat := 0xa9f55f95
  const P_Q_INNER_DATA_TEMP_DC: nat := 0x56fddf88

  /** The serialized inner data, for a data centre and a lifetime. */
  function InnerData(
    mode: Mode, pq: Short, p: Short, q: Short, nonce: nat, serverNonce: nat, newNonce: nat, dc: nat, expiresIn: nat)
    : seq<byte>
  {
    Le(if mode == Temp then P_Q_INNER_DATA_TEMP_DC else P_Q_INNER_DATA_DC, 4) + Text(pq) + Text(p) + Text(q)
      + Le(nonce, 16) + Le(serverNonce, 16) + Le(newNonce, 32) + Le(dc, 4)
      + if mode == Temp then Le(expiresIn, 4) else []
  }

  lemma InnerSizeExact(
    mode: Mode, pq: Short, p: Short, q: Short, nonce: nat, serverNonce: nat, newNonce: nat, dc: nat, expiresIn: nat)
    ensures |InnerData(mode, pq, p, q, nonce, serverNonce, newNonce, dc, expiresIn)| == InnerSize(mode, pq, p, q)
  {
    hide Le;
    hide Text;
  }

  /** `on_res_pq`. */
  function OnResPq(s: State, now: real, m: ResPqInput): Step {
    if now >= s.startTime + s.timeoutIn * 0.6 then Fail(s, Timeout)
    else if m.answer.None? then Fail(s, BadAnswer)
    else if m.answer.value.nonce != s.nonce then Fail(s, NonceMismatch)
    else
      var s1 := s.(serverNonce := m.answer.value.serverNonce);
      if m.fingerprint.None? then Fail(s1, NoRsaKey)
      else if m.factors.None? then Fail(s1, NotFactorized)
      else
        var (p, q) := m.factors.value;
        var s2 := s1.(newNonce := m.newNonce, expiresAt := if s.mode == Temp then now + s.expiresIn else s.expiresAt);
        if InnerSize(s.mode, m.answer.value.pq, p, q) > 144 then Fail(s2, TooBig)
        else Send(s2, ReqDhParams(s2.nonce, s2.serverNonce, p, q, m.fingerprint.value, m.data), ServerDHParams)
  }

  /** The exclusive or of the lowest 64 bits of the two nonces. */
  function Salt(newNonce: nat, serverNonce: nat): nat {
    Xor(newNonce, serverNonce, 64)
  }

  /** The client's side of the exchange that an answer and a random exponent define; no hash of
      `g_a` was announced, so no digest of it is taken. */
  function Exchange(inner: DhInner, exponent: nat, sha1: seq<byte> -> Dh.Digest): Dh.Dh
    requires FromBinary(inner.prime) > 0
  {
    Dh.Exchanged(inner.g, inner.prime, exponent, inner.gA, sha1)
  }

  /** The answer and the random exponent pass `run_checks`. */
  predicate KeyAccepted(m: DhInput, sha1: seq<byte> -> Dh.Digest)
    requires m.inner.Some? && FromBinary(m.inner.value.prime) > 0
  {
    Dh.Checks(Exchange(m.inner.value, m.exponent, sha1), false, m.primeOk) == Dh.Ok
  }

  function NewKey(m: DhInput, sha1: seq<byte> -> Dh.Digest): (nat, seq<byte>)
    requires m.inner.Some? && FromBinary(m.inner.value.prime) > 0 && KeyAccepted(m, sha1)
  {
    Dh.Key(Exchange(m.inner.value, m.exponent, sha1), sha1)
  }

  /** `on_server_dh_params`. */
  function OnServerDhParams(s: State, now: real, m: DhInput, sha1: seq<byte> -> Dh.Digest): Step {
    if now >= s.startTime + s.timeoutIn * 0.8 then Fail(s, Timeout)
    else if m.answer.None? then Fail(s, BadAnswer)
    else if m.answer.value.nonce != s.nonce then Fail(s, NonceMismatch)
    else if m.answer.value.serverNonce != s.serverNonce then Fail(s, ServerNonceMismatch)
    else if m.answer.value.size % 16 != 0 then Fail(s, BadPadding)
    else if m.inner.None? then Fail(s, BadInner)
    else if m.inner.value.nonce != s.nonce then Fail(s, NonceMismatch)
    else if m.inner.value.serverNonce != s.serverNonce then Fail(s, ServerNonceMismatch)
    else
      var s1 := s.(serverTimeDiff := m.inner.value.serverTime - now);
      if FromBinary(m.inner.value.prime) == 0 then Step(Aborted, s1, [])
      else if !KeyAccepted(m, sha1) then Fail(s1, KeyRefused)
      else
        var (id, key) := NewKey(m, sha1);
        var s2 := s1.(authKey := AuthKey(id, key, if s.mode == Temp then s.expiresAt else 0.0, m.inner.value.serverTime),
                      serverSalt := Salt(s.newNonce, s.serverNonce));
        Send(s2, SetClientDh(s.nonce, s.serverNonce, m.data), DHGenResponse)
  }

  /** `new_nonce_hash1`: what a server that holds the key answers. */
  function Confirmation(newNonce: nat, key: seq<byte>, sha1: seq<byte> -> Dh.Digest): nat {
    FromLe(sha1(Le(newNonce, 32) + [1] + sha1(key)[..8])[4..])
  }

  /** `on_dh_gen_response`. */
  function OnDhGenResponse(s: State, answer: Option<GenAnswer>, sha1: seq<byte> -> Dh.Digest): Step {
    match answer
    case None => Fail(s, BadAnswer)
    case Some(GenFail) => Fail(s, GenFailed)
    case Some(GenRetry) => Fail(s, GenRetried)
    case Some(GenOk(nonce, serverNonce, hash)) =>
      if nonce != s.nonce then Fail(s, NonceMismatch)
      else if serverNonce != s.serverNonce then Fail(s, ServerNonceMismatch)
      else if hash != Confirmation(s.newNonce, s.authKey.key, sha1) then Fail(s, HashMismatch)
      else Step(Ok, s.(phase := Finish), [])
  }

  /** The handler of the current phase; the other phases expect no message. */
  function Handle(s: State, m: Message, sha1: seq<byte> -> Dh.Digest): Step {
    match s.phase
    case ResPQ => OnResPq(s, m.now, m.resPq)
    case ServerDHParams => OnServerDhParams(s, m.now, m.dh, sha1)
    case DHGenResponse => OnDhGenResponse(s, m.gen, sha1)
    case _ => Step(Aborted, s, [])
  }

  /** `on_message`: an error clears the handshake. */
  function OnMessage(s: State, m: Message, sha1: seq<byte> -> Dh.Digest): Step {
    var r := Handle(s, m, sha1);
    if r.verdict.Refused? then r.(state := Clear(r.state, m.now)) else r
  }

  /** `on_start` with its random nonce. */
  function OnStart(s: State, now: real, nonce: nat): Step {
    if s.phase != Start then Step(Refused(AlreadyStarted), Clear(s, now), [])
    else Send(s.(nonce := nonce), ReqPq(nonce), ResPQ)
  }

  /** `resume`. */
  function Resume(s: State, now: real, nonce: nat): Step {
    if s.phase == Start then OnStart(s, now, nonce)
    else if s.phase == Finish then Step(Ok, Clear(s, now), [])
    else if s.lastQuery == [] then Step(Ok, Clear(s, now), [])
    else Step(Ok, s, [s.lastQuery])
  }

  // ---------------------------------------------------------------- runs

  /** Calls on the object in any order, including a dropped connection (`Dropped` clears). */
  datatype Event =
    | Received(m: Message)
    | Resumed(now: real, nonce: nat)
    | Dropped(now: real)
    | TimeoutSet(now: real, timeoutIn: real)

  function StepEvent(s: State, e: Event, sha1: seq<byte> -> Dh.Digest): Step {
    match e
    case Received(m) => OnMessage(s, m, sha1)
    case Resumed(now, nonce) => Resume(s, now, nonce)
    case Dropped(now) => Step(Ok, Clear(s, now), [])
    case TimeoutSet(now, timeoutIn) => Step(Ok, s.(startTime := now, timeoutIn := timeoutIn), [])
  }

  /** What happened since the last start: the messages accepted, and when. */
  datatype Entry =
    | Started(nonce: nat)
    | GotResPq(now: real, resPq: ResPqInput)
    | GotDh(now: real, dh: DhInput)
    | GotOk(gen: GenAnswer)

  /** The entry an accepted message makes. */
  function EntryOf(s: State, m: Message, sha1: seq<byte> -> Dh.Digest): Entry
    requires OnMessage(s, m, sha1).verdict == Ok
  {
    match s.phase
    case ResPQ => GotResPq(m.now, m.resPq)
    case ServerDHParams => GotDh(m.now, m.dh)
    case DHGenResponse => GotOk(m.gen.value)
  }

  function LogAfter(s: State, log: seq<Entry>, e: Event, sha1: seq<byte> -> Dh.Digest): seq<Entry> {
    match e
    case Received(m) =>
      var verdict := OnMessage(s, m, sha1).verdict;
      if verdict == Ok then log + [EntryOf(s, m, sha1)] else if verdict == Aborted then log else []
    case Resumed(_, nonce) => if s.phase == Start then [Started(nonce)] else if s.phase == Finish then [] else log
    case Dropped(_) => []
    case TimeoutSet(_, _) => log
  }

  /** The state and the log after the events, if the program is still running. */
  ghost function Run(start: State, events: seq<Event>, sha1: seq<byte> -> Dh.Digest): Option<(State, seq<Entry>)> {
    if events == [] then Some((start, []))
    else
      var n := |events| - 1;
      match Run(start, events[..n], sha1)
      case None => None
      case Some((s, log)) =>
        var r := StepEvent(s, events[n], sha1);
        if r.verdict == Aborted then None else Some((r.state, LogAfter(s, log, events[n], sha1)))
  }

  predicate IsStart(e: Entry, s: State) { e == Started(s.nonce) }

  predicate IsResPq(e: Entry, s: State) {
    && e.GotResPq? && e.resPq.answer.Some? && e.resPq.factors.Some? && e.resPq.fingerprint.Some?
    && e.resPq.answer.value.nonce == s.nonce && e.resPq.answer.value.serverNonce == s.serverNonce
    && e.resPq.newNonce == s.newNonce && (s.mode == Temp ==> s.expiresAt == e.now + s.expiresIn)
  }

  predicate IsDh(e: Entry, s: State, sha1: seq<byte> -> Dh.Digest) {
    && e.GotDh? && e.dh.answer.Some? && e.dh.inner.Some?
    && e.dh.answer.value.nonce == s.nonce && e.dh.answer.value.serverNonce == s.serverNonce
    && var inner := e.dh.inner.value;
       && inner.nonce == s.nonce && inner.serverNonce == s.serverNonce
       && FromBinary(inner.prime) > 0 && KeyAccepted(e.dh, sha1)
       && (s.authKey.id, s.authKey.key) == NewKey(e.dh, sha1)
       && s.authKey.expiresAt == (if s.mode == Temp then s.expiresAt else 0.0)
       && s.authKey.createdAt == inner.serverTime && s.serverTimeDiff == inner.serverTime - e.now
       && s.serverSalt == Salt(s.newNonce, s.serverNonce)
  }

  predicate IsConfirmation(e: Entry, s: State, sha1: seq<byte> -> Dh.Digest) {
    e.GotOk? && e.gen == GenOk(s.nonce, s.serverNonce, Confirmation(s.newNonce, s.authKey.key, sha1))
  }

  /** The request whose answer the phase awaits, with everything in it. */
  function Awaited(s: State, log: seq<Entry>): Query
    requires s.phase == ServerDHParams ==> |log| == 2 && IsResPq(log[1], s)
    requires s.phase == DHGenResponse ==> |log| == 3 && log[2].GotDh?
  {
    match s.phase
    case ServerDHParams =>
      var input := log[1].resPq;
      ReqDhParams(s.nonce, s.serverNonce, input.factors.value.0, input.factors.value.1, input.fingerprint.value, input.data)
    case DHGenResponse => SetClientDh(s.nonce, s.serverNonce, log[2].dh.data)
    case _ => ReqPq(s.nonce)
  }

  /** Since the last start exactly the answers that lead to the phase have been accepted, each
      with the right nonces, and the last query is the one whose answer is awaited. */
  predicate Inv(s: State, log: seq<Entry>, sha1: seq<byte> -> Dh.Digest) {
    match s.phase
    case Start => s.lastQuery == []
    case ResPQ => |log| == 1 && IsStart(log[0], s) && s.lastQuery == Encode(Awaited(s, log))
    case ServerDHParams =>
      |log| == 2 && IsStart(log[0], s) && IsResPq(log[1], s) && s.lastQuery == Encode(Awaited(s, log))
    case DHGenResponse =>
      && |log| == 3 && IsStart(log[0], s) && IsResPq(log[1], s) && IsDh(log[2], s, sha1)
      && s.lastQuery == Encode(Awaited(s, log))
    case Finish =>
      && |log| == 4 && IsStart(log[0], s) && IsResPq(log[1], s) && IsDh(log[2], s, sha1)
      && IsConfirmation(log[3], s, sha1)
  }

  lemma ResPqKeepsInv(s: State, log: seq<Entry>, m: Message, sha1: seq<byte> -> Dh.Digest)
    requires Inv(s, log, sha1) && s.phase == ResPQ && OnMessage(s, m, sha1).verdict == Ok
    ensures Inv(OnMessage(s, m, sha1).state, log + [EntryOf(s, m, sha1)], sha1)
  {
    hide InnerSize;
    hide Encode;
    hide IsDh;
  }

  lemma DhKeepsInv(s: State, log: seq<Entry>, m: Message, sha1: seq<byte> -> Dh.Digest)
    requires Inv(s, log, sha1) && s.phase == ServerDHParams
    ensures OnMessage(s, m, sha1).verdict == Ok ==>
      Inv(OnMessage(s, m, sha1).state, log + [EntryOf(s, m, sha1)], sha1)
  {
    hide Encode;
    hide NewKey;
    hide KeyAccepted;
    hide Salt;
  }

  /** Every event keeps the invariant. */
  lemma StepKeepsInv(s: State, log: seq<Entry>, e: Event, sha1: seq<byte> -> Dh.Digest)
    requires Inv(s, log, sha1) && StepEvent(s, e, sha1).verdict != Aborted
    ensures Inv(StepEvent(s, e, sha1).state, LogAfter(s, log, e, sha1), sha1)
  {
    hide Encode;
    hide NewKey;
    hide KeyAccepted;
    hide Salt;
    if e.Received? && OnMessage(s, e.m, sha1).verdict == Ok {
      hide OnServerDhParams;
      hide OnResPq;
      match s.phase
      case ResPQ => ResPqKeepsInv(s, log, e.m, sha1);
      case ServerDHParams => DhKeepsInv(s, log, e.m, sha1);
      case DHGenResponse =>
    }
  }

  lemma StepKeepsMode(s: State, e: Event, sha1: seq<byte> -> Dh.Digest)
    ensures var s' := StepEvent(s, e, sha1).state; s'.mode == s.mode && s'.expiresIn == s.expiresIn
  {
    hide Encode;
    hide NewKey;
    hide KeyAccepted;
    hide Salt;
    hide InnerSize;
    hide Confirmation;
  }

  /** In every run, whatever errors and reconnects it contains. */
  lemma {:induction false} EveryRun(mode: Mode, expiresIn: real, now: real, events: seq<Event>, sha1: seq<byte> -> Dh.Digest)
    ensures var r := Run(Fresh(mode, expiresIn, now), events, sha1);
      r.Some? ==> Inv(r.value.0, r.value.1, sha1) && r.value.0.mode == mode && r.value.0.expiresIn == expiresIn
  {
    hide Inv;
    hide StepEvent;
    hide LogAfter;
    if events == [] {
      FreshInv(mode, expiresIn, now, sha1);
    } else {
      var n := |events| - 1;
      EveryRun(mode, expiresIn, now, events[..n], sha1);
      var before := Run(Fresh(mode, expiresIn, now), events[..n], sha1);
      if before.Some? && StepEvent(before.value.0, events[n], sha1).verdict != Aborted {
        StepKeepsInv(before.value.0, before.value.1, events[n], sha1);
        StepKeepsMode(before.value.0, events[n], sha1);
      }
    }
  }

  lemma FreshInv(mode: Mode, expiresIn: real, now: real, sha1: seq<byte> -> Dh.Digest)
    ensures Inv(Fresh(mode, expiresIn, now), [], sha1)
  {
  }

  /** In every waiting phase of every run the last query is the complete request for the awaited
      answer, so that `resume` sends exactly it again and changes nothing. */
  lemma ResumeResends(
    mode: Mode, expiresIn: real, start: real, events: seq<Event>, sha1: seq<byte> -> Dh.Digest, now: real, nonce: nat)
    requires var r := Run(Fresh(mode, expiresIn, start), events, sha1);
      r.Some? && r.value.0.phase != Start && r.value.0.phase != Finish
    ensures var (s, log) := Run(Fresh(mode, expiresIn, start), events, sha1).value;
      && Inv(s, log, sha1) && s.lastQuery == Encode(Awaited(s, log)) != []
      && Resume(s, now, nonce) == Step(Ok, s, [s.lastQuery])
      && (FitsQuery(Awaited(s, log)) ==> ReadQuery(s.lastQuery) == Some(Awaited(s, log)))
  {
    hide Run;
    hide ReadQuery;
    hide FitsQuery;
    EveryRun(mode, expiresIn, start, events, sha1);
    var (s, log) := Run(Fresh(mode, expiresIn, start), events, sha1).value;
    if FitsQuery(Awaited(s, log)) {
      QueryRoundTrip(Awaited(s, log));
    }
  }

  /** The key of an accepted DH answer in numbers and bytes. */
  lemma KeyMeans(m: DhInput, sha1: seq<byte> -> Dh.Digest)
    requires m.inner.Some? && FromBinary(m.inner.value.prime) > 0 && KeyAccepted(m, sha1)
    ensures var (id, key) := NewKey(m, sha1);
      && |key| == 256
      && FromBinary(key) == Pow(FromBinary(m.inner.value.gA), m.exponent) % FromBinary(m.inner.value.prime)
      && Le(id, 8) == sha1(key)[12..20]
  {
    Dh.KeyIdBytes(Exchange(m.inner.value, m.exponent, sha1), sha1);
    hide Dh.InRange;
    hide Le;
    hide Pow;
  }

  lemma SaltBits(newNonce: nat, serverNonce: nat)
    ensures forall i: nat :: Bit(Salt(newNonce, serverNonce), i) <==> i < 64 && (Bit(newNonce, i) <==> !Bit(serverNonce, i))
  {
    forall i: nat
      ensures Bit(Salt(newNonce, serverNonce), i) <==> i < 64 && (Bit(newNonce, i) <==> !Bit(serverNonce, i))
    {
      XorBits(newNonce, serverNonce, 64, i);
    }
  }

  /** The last 16 bytes of the digest that confirms a key. */
  function ConfirmationBytes(newNonce: nat, key: seq<byte>, sha1: seq<byte> -> Dh.Digest): seq<byte> {
    sha1(Le(newNonce, 32) + [1] + sha1(key)[..8])[4..]
  }

  lemma ConfirmationIff(newNonce: nat, key: seq<byte>, hash: nat, sha1: seq<byte> -> Dh.Digest)
    ensures Le(Confirmation(newNonce, key, sha1), 16) == ConfirmationBytes(newNonce, key, sha1)
    ensures hash < Pow256(16) ==>
      (hash == Confirmation(newNonce, key, sha1) <==> Le(hash, 16) == ConfirmationBytes(newNonce, key, sha1))
  {
    var bytes := ConfirmationBytes(newNonce, key, sha1);
    assert Confirmation(newNonce, key, sha1) == FromLe(bytes) && |bytes| == 16;
    hide Le;
    hide FromLe;
    hide Pow256;
    WritesBack(bytes);
    if hash < Pow256(16) {
      ReadsBack(hash, 16);
    }
  }

  /** In its phase a confirmation is accepted exactly when it has both nonces and the bytes that
      only a holder of the key can compute. */
  lemma ConfirmedIff(s: State, m: Message, sha1: seq<byte> -> Dh.Digest)
    requires s.phase == DHGenResponse && m.gen.Some? && (m.gen.value.GenOk? ==> m.gen.value.hash < Pow256(16))
    ensures OnMessage(s, m, sha1).verdict == Ok <==>
      && m.gen.value.GenOk? && m.gen.value.nonce == s.nonce && m.gen.value.serverNonce == s.serverNonce
      && Le(m.gen.value.hash, 16) == sha1(Le(s.newNonce, 32) + [1] + sha1(s.authKey.key)[..8])[4..]
    ensures OnMessage(s, m, sha1).verdict == Ok ==> OnMessage(s, m, sha1).state == s.(phase := Finish)
  {
    hide Confirmation;
    hide Le;
    hide Pow256;
    hide OnResPq;
    hide OnServerDhParams;
    if m.gen.value.GenOk? {
      ConfirmationIff(s.newNonce, s.authKey.key, m.gen.value.hash, sha1);
    }
  }

  /** A finished run: since its last start it accepted one resPQ, one DH answer and one
      confirmation, in this order, all with that start's nonce and the latter two with that
      resPQ's server nonce. The key it holds is the shared secret of that DH answer, in 256 bytes,
      with its identifier, and the last message confirms it; the salt is the exclusive or of the
      nonces' first 64 bits; lifetime and clock are those of the two answers. */
  lemma FinishMeans(mode: Mode, expiresIn: real, start: real, events: seq<Event>, sha1: seq<byte> -> Dh.Digest)
    requires var r := Run(Fresh(mode, expiresIn, start), events, sha1); r.Some? && r.value.0.phase == Finish
    ensures var (s, log) := Run(Fresh(mode, expiresIn, start), events, sha1).value;
      && |log| == 4 && log[0].Started? && log[1].GotResPq? && log[2].GotDh? && log[3].GotOk?
      && log[1].resPq.answer.Some? && log[2].dh.answer.Some? && log[2].dh.inner.Some? && log[3].gen.GenOk?
      && var resPq, dh, inner := log[1].resPq.answer.value, log[2].dh.answer.value, log[2].dh.inner.value;
         var newNonce, key := log[1].resPq.newNonce, s.authKey.key;
         && resPq.nonce == dh.nonce == inner.nonce == log[3].gen.nonce == log[0].nonce
         && dh.serverNonce == inner.serverNonce == log[3].gen.serverNonce == resPq.serverNonce
         && FromBinary(inner.prime) > 0 && |key| == 256
         && FromBinary(key) == Pow(FromBinary(inner.gA), log[2].dh.exponent) % FromBinary(inner.prime)
         && Le(s.authKey.id, 8) == sha1(key)[12..20]
         && Le(log[3].gen.hash, 16) == sha1(Le(newNonce, 32) + [1] + sha1(key)[..8])[4..]
         && s.authKey.expiresAt == (if mode == Temp then log[1].now + expiresIn else 0.0)
         && s.authKey.createdAt == inner.serverTime && s.serverTimeDiff == inner.serverTime - log[2].now
         && forall i: nat :: Bit(s.serverSalt, i) <==> i < 64 && (Bit(newNonce, i) <==> !Bit(resPq.serverNonce, i))
  {
    hide Run;
    EveryRun(mode, expiresIn, start, events, sha1);
    var (s, log) := Run(Fresh(mode, expiresIn, start), events, sha1).value;
    KeyMeans(log[2].dh, sha1);
    ConfirmationIff(log[1].resPq.newNonce, s.authKey.key, log[3].gen.hash, sha1);
    SaltBits(s.newNonce, s.serverNonce);
    hide Confirmation;
    hide Salt;
    hide NewKey;
    hide KeyAccepted;
    hide Le;
    hide Pow;
    hide Bit;
    hide FromBinary;
  }

  // ---------------------------------------------------------------- what is accepted, and what it sends

  /** A resPQ is accepted exactly in the first six tenths of the time, with the nonce sent, a known
      key, a product that factors, and inner data of at most 144 bytes, whatever their data
      centre and lifetime; then its request for the DH parameters is sent. */
  lemma ResPqAcceptedIff(s: State, now: real, m: ResPqInput, dc: nat, lifetime: nat)
    ensures var r := OnResPq(s, now, m);
      && (r.verdict == Ok <==>
            && 10.0 * (now - s.startTime) < 6.0 * s.timeoutIn
            && m.answer.Some? && m.answer.value.nonce == s.nonce && m.fingerprint.Some? && m.factors.Some?
            && |InnerData(s.mode, m.answer.value.pq, m.factors.value.0, m.factors.value.1,
                          s.nonce, m.answer.value.serverNonce, m.newNonce, dc, lifetime)| <= 144)
      && r.verdict != Aborted
      && (r.verdict == Ok ==>
            var query := ReqDhParams(s.nonce, m.answer.value.serverNonce, m.factors.value.0, m.factors.value.1,
                                     m.fingerprint.value, m.data);
            && r.state == s.(phase := ServerDHParams, serverNonce := m.answer.value.serverNonce, newNonce := m.newNonce,
                             expiresAt := if s.mode == Temp then now + s.expiresIn else s.expiresAt,
                             lastQuery := Encode(query))
            && r.sent == [Encode(query)] && (FitsQuery(query) ==> ReadQuery(r.sent[0]) == Some(query)))
  {
    if m.answer.Some? && m.factors.Some? {
      InnerSizeExact(s.mode, m.answer.value.pq, m.factors.value.0, m.factors.value.1,
        s.nonce, m.answer.value.serverNonce, m.newNonce, dc, lifetime);
      if m.fingerprint.Some? {
        RereadIfFits(ReqDhParams(s.nonce, m.answer.value.serverNonce, m.factors.value.0, m.factors.value.1,
                                 m.fingerprint.value, m.data));
      }
    }
    hide InnerSize;
    hide InnerData;
    hide Encode;
    hide ReadQuery;
    hide FitsQuery;
  }

  /** The time runs from the call that set it. */
  lemma TimeoutCounts(s: State, setAt: real, timeout: real, m: Message, sha1: seq<byte> -> Dh.Digest)
    ensures var s1 := StepEvent(s, TimeoutSet(setAt, timeout), sha1).state;
      && s1.phase == s.phase && s1.lastQuery == s.lastQuery
      && (s.phase == ResPQ ==>
            (OnMessage(s1, m, sha1).verdict == Refused(Timeout) <==> 10.0 * (m.now - setAt) >= 6.0 * timeout))
      && (s.phase == ServerDHParams ==>
            (OnMessage(s1, m, sha1).verdict == Refused(Timeout) <==> 10.0 * (m.now - setAt) >= 8.0 * timeout))
  {
    hide InnerSize;
    hide Encode;
    hide NewKey;
    hide KeyAccepted;
    hide Salt;
  }

  /** A DH answer is accepted exactly in the first eight tenths of the time, with both nonces inside
      and outside the encrypted part, that part in blocks of 16 bytes, and numbers that pass the
      checks: a modulus of 2048 bits with a good verdict, and `g_a` and the own public number at
      least 2^1984 away from 0 and from it. */
  lemma DhAcceptedIff(s: State, now: real, m: DhInput, sha1: seq<byte> -> Dh.Digest)
    ensures var r := OnServerDhParams(s, now, m, sha1);
      && (r.verdict == Ok <==>
            && 10.0 * (now - s.startTime) < 8.0 * s.timeoutIn
            && m.answer.Some? && m.answer.value.nonce == s.nonce && m.answer.value.serverNonce == s.serverNonce
            && m.answer.value.size % 16 == 0
            && m.inner.Some? && m.inner.value.nonce == s.nonce && m.inner.value.serverNonce == s.serverNonce
            && m.primeOk && NumbersPass(m))
      && (r.verdict == Ok ==>
            var query := SetClientDh(s.nonce, s.serverNonce, m.data);
            && r.state.phase == DHGenResponse && r.state.lastQuery == Encode(query)
            && r.sent == [Encode(query)] && (FitsQuery(query) ==> ReadQuery(r.sent[0]) == Some(query)))
  {
    if m.inner.Some? {
      KeyAcceptedIff(m, sha1);
    }
    RereadIfFits(SetClientDh(s.nonce, s.serverNonce, m.data));
    hide KeyAccepted;
    hide NumbersPass;
    hide NewKey;
    hide Encode;
    hide ReadQuery;
    hide FitsQuery;
    hide Salt;
    hide FromBinary;
  }

  lemma KeyAcceptedIff(m: DhInput, sha1: seq<byte> -> Dh.Digest)
    requires m.inner.Some?
    ensures FromBinary(m.inner.value.prime) == 0 ==> !NumbersPass(m)
    ensures FromBinary(m.inner.value.prime) > 0 ==> (KeyAccepted(m, sha1) <==> m.primeOk && NumbersPass(m))
  {
    PowersPositive(2047);
    hide Pow2;
    hide Pow;
    hide FromBinary;
    if FromBinary(m.inner.value.prime) > 0 {
      Dh.ChecksPassIff(Exchange(m.inner.value, m.exponent, sha1), false, m.primeOk);
    }
    hide Dh.Checks;
  }

  lemma PowersPositive(n: nat)
    ensures Pow2(n) > 0
  {
  }

  predicate NumbersPass(m: DhInput)
    requires m.inner.Some?
  {
    var prime, gA := FromBinary(m.inner.value.prime), FromBinary(m.inner.value.gA);
    && Pow2(2047) <= prime < Pow2(2048)
    && Pow2(1984) <= gA && gA + Pow2(1984) <= prime
    && var gB := Pow(m.inner.value.g, m.exponent) % prime;
       Pow2(1984) <= gB && gB + Pow2(1984) <= prime
  }

  // ---------------------------------------------------------------- reading a request

  /** The numbers fit the fields that carry them. */
  predicate FitsQuery(q: Query) {
    && q.nonce < Pow256(16) && (!q.ReqPq? ==> q.serverNonce < Pow256(16))
    && (q.ReqDhParams? ==> q.fingerprint < Pow256(8))
  }

  /** The server's reading of a request. */
  function ReadQuery(s: seq<byte>): Option<Query> {
    if |s| < 20 then None
    else
      var id, nonce := FromLe(s[..4]), FromLe(s[4..20]);
      if id == REQ_PQ_MULTI then if |s| == 20 then Some(ReqPq(nonce)) else None
      else if |s| < 36 then None
      else
        var serverNonce, tail := FromLe(s[20..36]), s[36..];
        if id == REQ_DH_PARAMS then
          match ReadTwoTexts(tail)
          case None => None
          case Some((p, q, s1)) =>
            if |s1| < 8 then None
            else
              match ReadLastText(s1[8..])
              case None => None
              case Some(data) => Some(ReqDhParams(nonce, serverNonce, p, q, FromLe(s1[..8]), data))
        else if id == SET_CLIENT_DH_PARAMS then
          match ReadLastText(tail)
          case None => None
          case Some(data) => Some(SetClientDh(nonce, serverNonce, data))
        else None
  }

  function ReadLastText(s: seq<byte>): Option<Short> {
    match FetchString(s)
    case Some((text, rest)) => if rest == [] && |text| < 0x1_0000_0000 then Some(text) else None
    case None => None
  }

  function ReadTwoTexts(s: seq<byte>): Option<(Short, Short, seq<byte>)> {
    match FetchString(s)
    case None => None
    case Some((p, s1)) =>
      match FetchString(s1)
      case None => None
      case Some((q, s2)) => if |p| < 0x1_0000_0000 && |q| < 0x1_0000_0000 then Some((p, q, s2)) else None
  }

  lemma TextReads(text: Short, rest: seq<byte>)
    ensures FetchString(Text(text) + rest) == Some((text, rest))
    ensures ReadLastText(Text(text)) == Some(text)
  {
    hide FetchString;
    hide StoreString;
    StringRoundTrip(text, rest);
    StringRoundTrip(text, []);
    assert Text(text) + [] == Text(text);
  }

  lemma TwoTextsRead(p: Short, q: Short, rest: seq<byte>)
    ensures ReadTwoTexts(Text(p) + Text(q) + rest) == Some((p, q, rest))
  {
    hide FetchString;
    hide Text;
    assert Text(p) + Text(q) + rest == Text(p) + (Text(q) + rest);
    TextReads(p, Text(q) + rest);
    TextReads(q, rest);
  }

  lemma HeadReads(id: nat, nonce: nat, serverNonce: nat, tail: seq<byte>)
    requires id < 0x1_0000_0000 && nonce < Pow256(16) && serverNonce < Pow256(16)
    ensures var s := Le(id, 4) + Le(nonce, 16) + Le(serverNonce, 16) + tail;
      && |s| == 36 + |tail| && FromLe(s[..4]) == id && FromLe(s[4..20]) == nonce && FromLe(s[20..36]) == serverNonce
      && s[36..] == tail
  {
    Reads4(id);
    ReadsBack(nonce, 16);
    ReadsBack(serverNonce, 16);
    hide Le;
    hide FromLe;
    var s := Le(id, 4) + Le(nonce, 16) + Le(serverNonce, 16) + tail;
    assert s[..4] == Le(id, 4) && s[4..20] == Le(nonce, 16) && s[20..36] == Le(serverNonce, 16);
  }

  /** Every request is read back in full: nonces, both factors, fingerprint and encrypted data. */
  lemma QueryRoundTrip(q: Query)
    requires FitsQuery(q)
    ensures ReadQuery(Encode(q)) == Some(q)
  {
    hide Le;
    hide FromLe;
    hide FetchString;
    hide Text;
    match q
    case ReqPq(nonce) =>
      Reads4(REQ_PQ_MULTI);
      ReadsBack(nonce, 16);
      var s := Encode(q);
      assert s[..4] == Le(REQ_PQ_MULTI, 4) && s[4..20] == Le(nonce, 16);
    case ReqDhParams(nonce, serverNonce, p, qq, fingerprint, data) =>
      var tail := Text(p) + Text(qq) + Le(fingerprint, 8) + Text(data);
      HeadReads(REQ_DH_PARAMS, nonce, serverNonce, tail);
      FactorsRead(p, qq, fingerprint, data);
    case SetClientDh(nonce, serverNonce, data) =>
      HeadReads(SET_CLIENT_DH_PARAMS, nonce, serverNonce, Text(data));
      TextReads(data, []);
  }

  lemma FactorsRead(p: Short, q: Short, fingerprint: nat, data: Short)
    requires fingerprint < Pow256(8)
    ensures var tail := Text(p) + Text(q) + Le(fingerprint, 8) + Text(data);
      var s1 := Le(fingerprint, 8) + Text(data);
      && ReadTwoTexts(tail) == Some((p, q, s1)) && FromLe(s1[..8]) == fingerprint
      && ReadLastText(s1[8..]) == Some(data)
  {
    hide Le;
    hide FromLe;
    hide Text;
    var s1 := Le(fingerprint, 8) + Text(data);
    assert Text(p) + Text(q) + Le(fingerprint, 8) + Text(data) == Text(p) + Text(q) + s1;
    TwoTextsRead(p, q, s1);
    ReadsBack(fingerprint, 8);
    assert s1[..8] == Le(fingerprint, 8) && s1[8..] == Text(data);
    TextReads(data, []);
  }

  lemma RereadIfFits(q: Query)
    ensures FitsQuery(q) ==> ReadQuery(Encode(q)) == Some(q)
  {
    if FitsQuery(q) {
      QueryRoundTrip(q);
    }
  }

  // ---------------------------------------------------------------- endings

  /** A message ends the program exactly when none is expected, or when a well-formed DH answer
      carries a modulus of zero. */
  lemma AbortsIff(s: State, m: Message, sha1: seq<byte> -> Dh.Digest)
    ensures OnMessage(s, m, sha1).verdict == Aborted <==>
      || s.phase == Start || s.phase == Finish
      || (s.phase == ServerDHParams && m.now < s.startTime + s.timeoutIn * 0.8
          && m.dh.answer.Some? && m.dh.answer.value.nonce == s.nonce && m.dh.answer.value.serverNonce == s.serverNonce
          && m.dh.answer.value.size % 16 == 0
          && m.dh.inner.Some? && m.dh.inner.value.nonce == s.nonce && m.dh.inner.value.serverNonce == s.serverNonce
          && FromBinary(m.dh.inner.value.prime) == 0)
  {
    hide NewKey;
    hide KeyAccepted;
    hide Encode;
  }

  lemma RunSnoc(start: State, events: seq<Event>, e: Event, sha1: seq<byte> -> Dh.Digest)
    requires Run(start, events, sha1).Some?
    ensures var (s, log) := Run(start, events, sha1).value;
      var r := StepEvent(s, e, sha1);
      Run(start, events + [e], sha1)
        == if r.verdict == Aborted then None else Some((r.state, LogAfter(s, log, e, sha1)))
  {
    assert (events + [e])[..|events|] == events;
    hide StepEvent;
    hide LogAfter;
  }

  /** An answer to the first request, and one to the second whose modulus is written as no bytes,
      in one message: the handler of the phase reads its own part. */
  function ZeroModulus(now: real): Message {
    Message(now,
      ResPqInput(Some(ResPqAnswer(0, 0, [])), Some(0), Some(([], [])), 0, []),
      DhInput(Some(DhAnswer(0, 0, 0)), Some(DhInner(0, 0, 0, [], [], 0.0)), 0, false, []),
      None)
  }

  /** A run that the second answer ends: started, answered, answered with the modulus zero. */
  lemma ZeroModulusEndsRun(mode: Mode, expiresIn: real, now: real, sha1: seq<byte> -> Dh.Digest)
    ensures var start, m := Fresh(mode, expiresIn, now), ZeroModulus(now);
      var two := Run(start, [Resumed(now, 0), Received(m)], sha1);
      && two.Some? && two.value.0.phase == ServerDHParams
      && Run(start, [Resumed(now, 0), Received(m), Received(m)], sha1).None?
  {
    hide Encode;
    hide NewKey;
    hide KeyAccepted;
    hide Confirmation;
    var start, m := Fresh(mode, expiresIn, now), ZeroModulus(now);
    assert Run(start, [], sha1) == Some((start, []));
    RunSnoc(start, [], Resumed(now, 0), sha1);
    assert [] + [Resumed(now, 0)] == [Resumed(now, 0)];
    RunSnoc(start, [Resumed(now, 0)], Received(m), sha1);
    assert [Resumed(now, 0)] + [Received(m)] == [Resumed(now, 0), Received(m)];
    RunSnoc(start, [Resumed(now, 0), Received(m)], Received(m), sha1);
    assert [Resumed(now, 0), Received(m)] + [Received(m)] == [Resumed(now, 0), Received(m), Received(m)];
    hide Run;
  }

  /** The state is as new: nothing to resend, the full time ahead, and the next `resume` asks anew. */
  ghost predicate StartsOver(s: State, now: real) {
    && s.phase == Start && s.lastQuery == [] && s.startTime == now && s.timeoutIn == 1000000000.0
    && forall later: real, nonce: nat :: Resume(s, later, nonce).sent == [Encode(ReqPq(nonce))]
  }

  /** A refused message sends nothing and starts over. */
  lemma RefusalStartsOver(s: State, m: Message, sha1: seq<byte> -> Dh.Digest)
    requires OnMessage(s, m, sha1).verdict.Refused?
    ensures OnMessage(s, m, sha1).sent == [] && StartsOver(OnMessage(s, m, sha1).state, m.now)
  {
    hide NewKey;
    hide KeyAccepted;
    hide Encode;
    hide InnerSize;
  }

  /** So does a dropped connection, and a `resume` of a finished handshake. */
  lemma DropStartsOver(s: State, e: Event, sha1: seq<byte> -> Dh.Digest)
    requires e.Dropped? || (e.Resumed? && s.phase == Finish)
    ensures StepEvent(s, e, sha1).sent == [] && StartsOver(StepEvent(s, e, sha1).state, e.now)
  {
    hide Encode;
  }

  /** With an honest server both ends hold the same key: whenever the DH answer is accepted and
      its `g_a` is the server's public number, the client's key and identifier are those the
      server computes from the client's public number. */
  lemma HonestServerHasTheKey(s: State, now: real, m: DhInput, sha1: seq<byte> -> Dh.Digest, secret: nat)
    requires m.inner.Some? && FromBinary(m.inner.value.prime) > 0
    ensures var inner := m.inner.value;
      var r := OnServerDhParams(s, now, m, sha1);
      var server := Dh.Configure(Dh.New(), inner.g, inner.prime, secret);
      var client := Dh.Configure(Dh.New(), inner.g, inner.prime, m.exponent);
      r.verdict == Ok && inner.gA == Dh.GB(server) ==>
        && NumBits(FromBinary(inner.prime)) <= Dh.PRIME_BITS
        && (r.state.authKey.id, r.state.authKey.key)
             == Dh.Key(Dh.Exchanged(inner.g, inner.prime, secret, Dh.GB(client), sha1), sha1)
  {
    hide Encode;
    hide Salt;
    hide Dh.Key;
    var inner := m.inner.value;
    if NumBits(FromBinary(inner.prime)) <= Dh.PRIME_BITS {
      Dh.KeysAgree(inner.g, inner.prime, m.exponent, secret, sha1, sha1);
    }
  }

  // ---------------------------------------------------------------- the class

  class Connection {
    var sent: seq<seq<byte>>

    method SendNoCrypto(data: seq<byte>)
      modifies this
      ensures sent == old(sent) + [data]
    {
      sent := sent + [data];
    }
  }

  class AuthKeyHandshake {
    var phase: Phase
    const mode: Mode
    const expiresIn: real
    var expiresAt: real
    var startTime: real
    var timeoutIn: real
    var authKey: AuthKey
    var serverTimeDiff: real
    var serverSalt: nat
    var nonce: nat
    var serverNonce: nat
    var newNonce: nat
    var lastQuery: seq<byte>

    ghost function Snapshot(): State
      reads this
    {
      State(phase, mode, expiresIn, expiresAt, startTime, timeoutIn, authKey, serverTimeDiff, serverSalt,
        nonce, serverNonce, newNonce, lastQuery)
    }

    constructor (lifetime: real, now: real)
      ensures Snapshot() == Fresh(if lifetime == 0.0 then Main else Temp, lifetime, now)
    {
      mode := if lifetime == 0.0 then Main else Temp;
      expiresIn := lifetime;
      phase, expiresAt, startTime, timeoutIn := Start, 0.0, now, 1000000000.0;
      authKey, serverTimeDiff, serverSalt := AuthKey(0, [], 0.0, 0.0), 0.0, 0;
      nonce, serverNonce, newNonce, lastQuery := 0, 0, 0, [];
    }

    method SetTimeoutIn(now: real, timeout: real)
      modifies this
      ensures Snapshot() == old(Snapshot()).(startTime := now, timeoutIn := timeout)
    {
      startTime := now;
      timeoutIn := timeout;
    }

    method ClearAll(now: real)
      modifies this
      ensures Snapshot() == Clear(old(Snapshot()), now)
    {
      lastQuery := [];
      phase := Start;
      startTime := now;
      timeoutIn := 1000000000.0;
    }

    method SendQuery(connection: Connection, query: Query)
      modifies this, connection
      ensures Snapshot() == old(Snapshot()).(lastQuery := Encode(query))
      ensures connection.sent == old(connection.sent) + [Encode(query)]
    {
      lastQuery := Encode(query);
      connection.SendNoCrypto(lastQuery);
    }

    method HandleResPq(now: real, m: ResPqInput, connection: Connection) returns (verdict: Verdict)
      modifies this, connection
      ensures old(connection.sent) <= connection.sent
      ensures Step(verdict, Snapshot(), connection.sent[|old(connection.sent)|..]) == OnResPq(old(Snapshot()), now, m)
    {
      hide Encode;
      hide Text;
      if now >= startTime + timeoutIn * 0.6 {
        return Refused(Timeout);
      }
      if m.answer.None? {
        return Refused(BadAnswer);
      }
      if m.answer.value.nonce != nonce {
        return Refused(NonceMismatch);
      }
      serverNonce := m.answer.value.serverNonce;
      if m.fingerprint.None? {
        return Refused(NoRsaKey);
      }
      if m.factors.None? {
        return Refused(NotFactorized);
      }
      var (p, q) := m.factors.value;
      newNonce := m.newNonce;
      if mode == Temp {
        expiresAt := now + expiresIn;
      }
      if InnerSize(mode, m.answer.value.pq, p, q) > 144 {
        return Refused(TooBig);
      }
      SendQuery(connection, ReqDhParams(nonce, serverNonce, p, q, m.fingerprint.value, m.data));
      phase := ServerDHParams;
      return Ok;
    }

    method HandleServerDhParams(now: real, m: DhInput, sha1: seq<byte> -> Dh.Digest, connection: Connection)
      returns (verdict: Verdict)
      modifies this, connection
      ensures old(connection.sent) <= connection.sent
      ensures Step(verdict, Snapshot(), connection.sent[|old(connection.sent)|..])
        == OnServerDhParams(old(Snapshot()), now, m, sha1)
    {
      hide Encode;
      hide Salt;
      hide NewKey;
      hide KeyAccepted;
      if now >= startTime + timeoutIn * 0.8 {
        return Refused(Timeout);
      }
      if m.answer.None? {
        return Refused(BadAnswer);
      }
      if m.answer.value.nonce != nonce {
        return Refused(NonceMismatch);
      }
      if m.answer.value.serverNonce != serverNonce {
        return Refused(ServerNonceMismatch);
      }
      if m.answer.value.size % 16 != 0 {
        return Refused(BadPadding);
      }
      if m.inner.None? {
        return Refused(BadInner);
      }
      if m.inner.value.nonce != nonce {
        return Refused(NonceMismatch);
      }
      if m.inner.value.serverNonce != serverNonce {
        return Refused(ServerNonceMismatch);
      }
      serverTimeDiff := m.inner.value.serverTime - now;
      if FromBinary(m.inner.value.prime) == 0 {
        return Aborted;
      }
      if !KeyAccepted(m, sha1) {
        return Refused(KeyRefused);
      }
      var (id, key) := NewKey(m, sha1);
      SendQuery(connection, SetClientDh(nonce, serverNonce, m.data));
      authKey := AuthKey(id, key, if mode == Temp then expiresAt else 0.0, m.inner.value.serverTime);
      serverSalt := Salt(newNonce, serverNonce);
      phase := DHGenResponse;
      return Ok;
    }

    method HandleDhGenResponse(answer: Option<GenAnswer>, sha1: seq<byte> -> Dh.Digest) returns (verdict: Verdict)
      modifies this
      ensures Step(verdict, Snapshot(), []) == OnDhGenResponse(old(Snapshot()), answer, sha1)
    {
      hide Confirmation;
      match answer
      case None => return Refused(BadAnswer);
      case Some(GenFail) => return Refused(GenFailed);
      case Some(GenRetry) => return Refused(GenRetried);
      case Some(GenOk(n, sn, hash)) =>
        if n != nonce {
          return Refused(NonceMismatch);
        }
        if sn != serverNonce {
          return Refused(ServerNonceMismatch);
        }
        if hash != Confirmation(newNonce, authKey.key, sha1) {
          return Refused(HashMismatch);
        }
        phase := Finish;
        return Ok;
    }

    method ReceiveMessage(m: Message, sha1: seq<byte> -> Dh.Digest, connection: Connection) returns (verdict: Verdict)
      modifies this, connection
      ensures old(connection.sent) <= connection.sent
      ensures Step(verdict, Snapshot(), connection.sent[|old(connection.sent)|..]) == OnMessage(old(Snapshot()), m, sha1)
    {
      hide OnResPq;
      hide OnServerDhParams;
      hide OnDhGenResponse;
      match phase {
        case ResPQ => verdict := HandleResPq(m.now, m.resPq, connection);
        case ServerDHParams => verdict := HandleServerDhParams(m.now, m.dh, sha1, connection);
        case DHGenResponse => verdict := HandleDhGenResponse(m.gen, sha1);
        case _ => verdict := Aborted;
      }
      if verdict.Refused? {
        ClearAll(m.now);
      }
    }

    method StartHandshake(now: real, random: nat, connection: Connection) returns (verdict: Verdict)
      modifies this, connection
      ensures old(connection.sent) <= connection.sent
      ensures Step(verdict, Snapshot(), connection.sent[|old(connection.sent)|..]) == OnStart(old(Snapshot()), now, random)
    {
      hide Encode;
      if phase != Start {
        ClearAll(now);
        return Refused(AlreadyStarted);
      }
      nonce := random;
      SendQuery(connection, ReqPq(nonce));
      phase := ResPQ;
      return Ok;
    }

    method ResumeHandshake(now: real, random: nat, connection: Connection)
      modifies this, connection
      ensures Snapshot() == Resume(old(Snapshot()), now, random).state
      ensures connection.sent == old(connection.sent) + Resume(old(Snapshot()), now, random).sent
    {
      hide Encode;
      if phase == Start {
        var _ := StartHandshake(now, random, connection);
        return;
      }
      if phase == Finish {
        ClearAll(now);
        return;
      }
      if lastQuery == [] {
        ClearAll(now);
        return;
      }
      connection.SendNoCrypto(lastQuery);
    }
  }
}
