/**
  Packing an outgoing packet: the queued queries and whatever service messages are due, sent
  bare when there is only one and wrapped in a container otherwise.
 */
module CryptoPacket {
  import opened Options
  import opened Bytes
  import opened MessageIds
  import Auth = AuthData

  const CONTAINER_ID: nat := 0x73f1f8dc
  const INVOKE_AFTER_MSG: nat := 0xcb9f372d
  const INVOKE_AFTER_MSGS: nat := 0x3dc4b4f0
  const VECTOR: nat := 0x1cb5c415

  type Body = seq<byte>

  datatype Message = Message(id: nat, seqNo: nat, body: Body)

  /** A queued query: already numbered, with the queries it must wait for. */
  datatype Query = Query(id: nat, seqNo: nat, after: seq<nat>, data: Body)

  /** What to send; each service object is serialized, or none when there is nothing to say. */
  datatype Request = Request(
    header: Body, queries: seq<Query>,
    ack: Option<Body>, httpWait: Option<Body>, futureSalts: Option<Body>, getInfo: Option<Body>,
    resend: Option<Body>, cancels: seq<Body>, destroyKey: Option<Body>, ping: Option<Body>)

  datatype Kind =
    | OnlyQuery | OnlyAck | OnlyPing | OnlyHttpWait | OnlyFutureSalts | OnlyGetInfo | OnlyResend
    | OnlyCancel | OnlyDestroyKey | Mixed | Unreachable

  /** The state of an `AuthData` that numbers messages. */
  datatype Numbers = Numbers(lastId: nat, seqNo: nat)

  /** A packet: its messages in written order, and the number of its container. */
  datatype Packet = Packet(messages: seq<Message>, kind: Kind, container: Numbers)

  // ---------------------------------------------------------------- query bodies

  /** The prefix that makes a query wait for others. */
  function InvokeAfter(ids: seq<nat>): Body {
    if ids == [] then []
    else if |ids| == 1 then Le(INVOKE_AFTER_MSG, 4) + Le(ids[0], 8)
    else Le(INVOKE_AFTER_MSGS, 4) + Le(VECTOR, 4) + Le(|ids|, 4) + Longs(ids)
  }

  function Longs(ids: seq<nat>): (s: Body)
    ensures |s| == 8 * |ids|
  {
    if ids == [] then [] else Le(ids[0], 8) + Longs(ids[1..])
  }

  function ReadLongs(n: nat, s: Body): seq<nat>
    requires |s| >= 8 * n
  {
    if n == 0 then [] else [FromLe(s[..8])] + ReadLongs(n - 1, s[8..])
  }

  predicate StartsWith(s: Body, id: nat) {
    |s| >= 4 && FromLe(s[..4]) == id
  }

  /** Reading the prefix: the identifiers waited for, and the query proper. */
  function ReadAfter(s: Body): Option<(seq<nat>, Body)> {
    if StartsWith(s, INVOKE_AFTER_MSG) then
      if |s| < 12 then None else Some(([FromLe(s[4..12])], s[12..]))
    else if StartsWith(s, INVOKE_AFTER_MSGS) then
      if |s| < 12 || FromLe(s[4..8]) != VECTOR then None
      else
        var n := FromLe(s[8..12]);
        if |s| < 12 + 8 * n then None else Some((ReadLongs(n, s[12..]), s[12 + 8 * n..]))
    else Some(([], s))
  }

  lemma {:induction false} LongsRoundTrip(ids: seq<nat>, rest: Body)
    requires forall i :: 0 <= i < |ids| ==> ids[i] < WORD
    ensures ReadLongs(|ids|, Longs(ids) + rest) == ids
  {
    hide Le;
    hide FromLe;
    if ids != [] {
      Reads8(ids[0]);
      var tail := ids[1..];
      LongsRoundTrip(tail, rest);
      var s := Longs(ids) + rest;
      assert s[..8] == Le(ids[0], 8);
      assert s[8..] == Longs(tail) + rest;
      assert ids == [ids[0]] + tail;
    }
  }

  lemma AfterMany(ids: seq<nat>, data: Body, outer: nat, inner: nat)
    requires 1 < |ids| < 0x8000_0000 && forall i :: 0 <= i < |ids| ==> ids[i] < WORD
    requires outer < 0x1_0000_0000 && inner < 0x1_0000_0000
    ensures var s := Le(outer, 4) + Le(inner, 4) + Le(|ids|, 4) + Longs(ids) + data;
      && StartsWith(s, outer) && FromLe(s[4..8]) == inner && FromLe(s[8..12]) == |ids|
      && ReadLongs(|ids|, s[12..]) == ids && s[12 + 8 * |ids|..] == data
  {
    hide Le;
    hide FromLe;
    hide Longs;
    hide ReadLongs;
    var s := Le(outer, 4) + Le(inner, 4) + Le(|ids|, 4) + Longs(ids) + data;
    LongsRoundTrip(ids, data);
    Reads4(outer);
    Reads4(inner);
    Reads4(|ids|);
    assert s[..4] == Le(outer, 4) && s[4..8] == Le(inner, 4) && s[8..12] == Le(|ids|, 4);
    assert s[12..] == Longs(ids) + data;
  }

  lemma AfterOne(id: nat, data: Body, outer: nat)
    requires id < WORD && outer < 0x1_0000_0000
    ensures var s := Le(outer, 4) + Le(id, 8) + data;
      StartsWith(s, outer) && FromLe(s[4..12]) == id && s[12..] == data
  {
    hide Le;
    hide FromLe;
    Reads4(outer);
    Reads8(id);
    var s := Le(outer, 4) + Le(id, 8) + data;
    assert s[..4] == Le(outer, 4) && s[4..12] == Le(id, 8);
  }

  /** The identifiers a query waits for can be read back, provided its own data starts with
      neither of the two prefixes. */
  lemma InvokeAfterRoundTrip(ids: seq<nat>, data: Body)
    requires |ids| < 0x8000_0000 && forall i :: 0 <= i < |ids| ==> ids[i] < WORD
    requires !StartsWith(data, INVOKE_AFTER_MSG) && !StartsWith(data, INVOKE_AFTER_MSGS)
    ensures ReadAfter(InvokeAfter(ids) + data) == Some((ids, data))
  {
    if ids == [] {
      assert InvokeAfter(ids) + data == data;
    } else if |ids| == 1 {
      AfterOne(ids[0], data, INVOKE_AFTER_MSG);
      assert [ids[0]] == ids;
    } else {
      AfterMany(ids, data, INVOKE_AFTER_MSGS, VECTOR);
    }
  }

  function QueryMessage(header: Body, q: Query): Message {
    Message(q.id, q.seqNo, header + InvokeAfter(q.after) + q.data)
  }

  function QueryMessages(header: Body, qs: seq<Query>): (ms: seq<Message>)
    ensures |ms| == |qs| && forall i :: 0 <= i < |qs| ==> ms[i] == QueryMessage(header, qs[i])
  {
    seq(|qs|, i requires 0 <= i < |qs| => QueryMessage(header, qs[i]))
  }

  // ---------------------------------------------------------------- numbering

  /** One service message: a new identifier, the current sequence number. */
  function Next(g: Numbers, now: real, rx: int): Numbers
    requires now >= 0.0
  {
    Numbers(NextId(g.lastId, now, rx), g.seqNo)
  }

  /** Numbers the bodies in order, one draw of random bits each. */
  function Number(g: Numbers, now: real, rxs: seq<int>, bodies: seq<Body>): (r: (Numbers, seq<Message>))
    requires now >= 0.0 && |rxs| == |bodies|
    ensures |r.1| == |bodies| && r.0.seqNo == g.seqNo
    ensures forall i :: 0 <= i < |bodies| ==> r.1[i].body == bodies[i] && r.1[i].seqNo == g.seqNo
  {
    if bodies == [] then (g, [])
    else
      var n := |bodies| - 1;
      var (before, ms) := Number(g, now, rxs[..n], bodies[..n]);
      var after := Next(before, now, rxs[n]);
      (after, ms + [Message(after.lastId, after.seqNo, bodies[n])])
  }

  /** `k` more identifiers stay inside the 64-bit word. */
  ghost predicate Roomy(g: Numbers, now: real, k: nat) {
    && now >= 0.0 && g.lastId % 4 == 0
    && g.lastId + 8192 * k < WORD - 8192 && Ticks(now) + LOW + 8192 * k < WORD - 8192
  }

  lemma {:induction false} NumbersAscend(g: Numbers, now: real, rxs: seq<int>, bodies: seq<Body>)
    requires |rxs| == |bodies| && Roomy(g, now, |bodies|)
    ensures var (g', ms) := Number(g, now, rxs, bodies);
      && g.lastId <= g'.lastId && g'.lastId % 4 == 0
      && (g'.lastId <= g.lastId + 8192 * |bodies| || g'.lastId < Ticks(now) + LOW + 8192 * |bodies|)
      && (forall i :: 0 <= i < |ms| ==> g.lastId < ms[i].id <= g'.lastId)
      && (forall i, j :: 0 <= i < j < |ms| ==> ms[i].id < ms[j].id)
  {
    hide NextId;
    if bodies != [] {
      var n := |bodies| - 1;
      NumbersAscend(g, now, rxs[..n], bodies[..n]);
      NextIdBounds(Number(g, now, rxs[..n], bodies[..n]).0.lastId, now, rxs[n]);
    }
  }

  /** Drawing the numbers of one message; a content-related one advances the sequence. */
  datatype Draw = Draw(content: bool, now: real, rx: int)

  function DrawNumbers(g: Numbers, d: Draw): (Numbers, Numbers)
    requires d.now >= 0.0
  {
    var id := NextId(g.lastId, d.now, d.rx);
    if d.content then (Numbers(id, g.seqNo - g.seqNo % 2 + 1), Numbers(id, g.seqNo + 2))
    else (Numbers(id, g.seqNo), Numbers(id, g.seqNo))
  }

  // ---------------------------------------------------------------- building a packet

  function Present(part: Option<Body>): seq<Body> {
    if part.Some? then [part.value] else []
  }

  /** The service bodies in the order of their numbering and of their place in the packet. */
  function ServiceBodies(r: Request): (bodies: seq<Body>)
    ensures |bodies| == Flag(r.ack) + Flag(r.httpWait) + Flag(r.futureSalts) + Flag(r.getInfo)
      + Flag(r.resend) + |r.cancels| + Flag(r.destroyKey) + Flag(r.ping)
  {
    Present(r.ack) + Present(r.httpWait) + Present(r.futureSalts) + Present(r.getInfo)
      + Present(r.resend) + r.cancels + Present(r.destroyKey) + Present(r.ping)
  }

  function Flag(part: Option<Body>): nat { if part.Some? then 1 else 0 }

  /** `cnt_`. */
  function MessageCount(r: Request): nat {
    |r.queries| + Flag(r.ack) + Flag(r.ping) + Flag(r.httpWait) + Flag(r.futureSalts) + Flag(r.getInfo)
      + Flag(r.resend) + |r.cancels| + Flag(r.destroyKey)
  }

  function ChooseKind(r: Request, now: real): Kind {
    if MessageCount(r) > 1 || (r.queries != [] && !ValidOutbound(r.queries[0].id, now)) then Mixed
    else if r.queries != [] then OnlyQuery
    else if r.ack.Some? then OnlyAck
    else if r.ping.Some? then OnlyPing
    else if r.httpWait.Some? then OnlyHttpWait
    else if r.futureSalts.Some? then OnlyFutureSalts
    else if r.getInfo.Some? then OnlyGetInfo
    else if r.resend.Some? then OnlyResend
    else if r.cancels != [] then OnlyCancel
    else if r.destroyKey.Some? then OnlyDestroyKey
    else Unreachable
  }

  /** How many draws of random bits the packet needs. */
  function Draws(r: Request, now: real): nat {
    |ServiceBodies(r)| + if ChooseKind(r, now).Mixed? then 1 else 0
  }

  /** Which messages a kind other than the mixed one writes: the first of them and how many. */
  function PartOf(r: Request, kind: Kind): (nat, nat) {
    var q := |r.queries|;
    var wait := q + Flag(r.ack);
    var salts := wait + Flag(r.httpWait);
    var info := salts + Flag(r.futureSalts);
    var resend := info + Flag(r.getInfo);
    var cancel := resend + Flag(r.resend);
    var destroy := cancel + |r.cancels|;
    match kind
    case OnlyQuery => (0, q)
    case OnlyAck => (q, Flag(r.ack))
    case OnlyHttpWait => (wait, Flag(r.httpWait))
    case OnlyFutureSalts => (salts, Flag(r.futureSalts))
    case OnlyGetInfo => (info, Flag(r.getInfo))
    case OnlyResend => (resend, Flag(r.resend))
    case OnlyCancel => (cancel, |r.cancels|)
    case OnlyDestroyKey => (destroy, Flag(r.destroyKey))
    case OnlyPing => (destroy + Flag(r.destroyKey), Flag(r.ping))
    case _ => (0, 0)
  }

  /** The constructor: numbers the service messages, chooses the kind, numbers the container. */
  function Build(g: Numbers, r: Request, now: real, rxs: seq<int>): (res: (Packet, Numbers))
    requires now >= 0.0 && |rxs| == Draws(r, now)
    ensures |res.0.messages| == MessageCount(r)
  {
    var n := |ServiceBodies(r)|;
    var (g1, ms) := Number(g, now, rxs[..n], ServiceBodies(r));
    var kind := ChooseKind(r, now);
    var g2 := if kind.Mixed? then Next(g1, now, rxs[n]) else g1;
    (Packet(QueryMessages(r.header, r.queries) + ms, kind, g2), g2)
  }

  lemma AppendKeepsOrder(qs: seq<Message>, ms: seq<Message>, last: nat)
    requires forall i :: 0 <= i < |qs| ==> qs[i].id <= last
    requires forall i :: 0 <= i < |ms| ==> last < ms[i].id
    requires forall i, j :: 0 <= i < j < |ms| ==> ms[i].id < ms[j].id
    ensures forall i, j :: |qs| <= j < |qs + ms| && 0 <= i < j ==> (qs + ms)[i].id < (qs + ms)[j].id
  {
    var all := qs + ms;
    forall i, j | |qs| <= j < |all| && 0 <= i < j ensures all[i].id < all[j].id {
      if i >= |qs| {
        assert ms[i - |qs|].id < ms[j - |qs|].id;
      }
    }
  }

  /** The messages from the `queries`-th on have greater identifiers than all before them, and the
      container numbers are at least, for its identifier above, those of every message in it. */
  ghost predicate InOrder(p: Packet, queries: nat) {
    var ms := p.messages;
    && (forall i, j :: queries <= j < |ms| && 0 <= i < j ==> ms[i].id < ms[j].id)
    && (forall i :: 0 <= i < |ms| ==> ms[i].seqNo <= p.container.seqNo)
    && (p.kind.Mixed? ==> forall i :: 0 <= i < |ms| ==> ms[i].id < p.container.lastId)
  }

  /** Given queries numbered by the same session data (`NumberedBelow`): identifiers of service
      messages ascend in written order and exceed those of all queries; the container's exceeds
      every nested one, and its sequence number is at least every nested one. */
  lemma PacketOrder(g: Numbers, r: Request, now: real, rxs: seq<int>)
    requires |rxs| == Draws(r, now) && Roomy(g, now, |rxs|)
    requires forall i :: 0 <= i < |r.queries| ==> r.queries[i].id <= g.lastId && r.queries[i].seqNo <= g.seqNo
    ensures var (p, g') := Build(g, r, now, rxs);
      && InOrder(p, |r.queries|) && p.container == g'
      && (forall i :: 0 <= i < |p.messages| ==> p.messages[i].id <= g'.lastId)
  {
    hide NextId;
    hide ServiceBodies;
    hide ChooseKind;
    var bodies := ServiceBodies(r);
    var n := |bodies|;
    NumbersAscend(g, now, rxs[..n], bodies);
    var (g1, ms) := Number(g, now, rxs[..n], bodies);
    var qs := QueryMessages(r.header, r.queries);
    AppendKeepsOrder(qs, ms, g.lastId);
    assert forall i :: 0 <= i < |qs + ms| ==> (qs + ms)[i].seqNo <= g.seqNo && (qs + ms)[i].id <= g1.lastId;
    if ChooseKind(r, now).Mixed? {
      NextIdBounds(g1.lastId, now, rxs[n]);
    }
  }

  // ---------------------------------------------------------------- a session

  /** What draws numbers from the session data: a query to be queued, or a packet. */
  datatype Action = QueryDrawn(d: Draw) | PacketBuilt(r: Request, now: real, rxs: seq<int>)

  ghost predicate Legal(a: Action, top: real) {
    match a
    case QueryDrawn(d) => 0.0 <= d.now <= top
    case PacketBuilt(r, now, rxs) => 0.0 <= now <= top && |rxs| == Draws(r, now)
  }

  /** How many identifiers the action draws. */
  function Used(a: Action): nat { if a.QueryDrawn? then 1 else |a.rxs| }

  function UsedBy(actions: seq<Action>): nat {
    if actions == [] then 0 else UsedBy(actions[..|actions| - 1]) + Used(actions[|actions| - 1])
  }

  /** No clock reading beyond `top`, and all identifiers inside the 64-bit word. */
  ghost predicate Session(g: Numbers, actions: seq<Action>, top: real) {
    (forall a :: a in actions ==> Legal(a, top)) && Roomy(g, top, UsedBy(actions))
  }

  ghost function Act(g: Numbers, a: Action, top: real): Numbers
    requires Legal(a, top)
  {
    match a
    case QueryDrawn(d) => DrawNumbers(g, d).1
    case PacketBuilt(r, now, rxs) => Build(g, r, now, rxs).1
  }

  /** The session data after the actions. */
  ghost function After(g: Numbers, actions: seq<Action>, top: real): Numbers
    requires forall a :: a in actions ==> Legal(a, top)
  {
    if actions == [] then g
    else
      var n := |actions| - 1;
      assert actions[n] in actions;
      Act(After(g, actions[..n], top), actions[n], top)
  }

  /** How far the data may have moved after `k` identifiers. */
  ghost predicate Advanced(g: Numbers, g': Numbers, top: real, k: nat) {
    && g.lastId <= g'.lastId && g'.lastId % 4 == 0 && g.seqNo <= g'.seqNo
    && (g'.lastId <= g.lastId + 8192 * k || g'.lastId < Ticks(top) + LOW + 8192 * k)
  }

  lemma ActAdvances(g: Numbers, a: Action, top: real)
    requires Legal(a, top) && Roomy(g, top, Used(a))
    ensures Advanced(g, Act(g, a, top), top, Used(a))
  {
    hide NextId;
    hide ServiceBodies;
    hide ChooseKind;
    match a
    case QueryDrawn(d) =>
      TicksMonotone(d.now, top);
      NextIdBounds(g.lastId, d.now, d.rx);
    case PacketBuilt(r, now, rxs) =>
      TicksMonotone(now, top);
      var n := |ServiceBodies(r)|;
      NumbersAscend(g, now, rxs[..n], ServiceBodies(r));
      if ChooseKind(r, now).Mixed? {
        NextIdBounds(Number(g, now, rxs[..n], ServiceBodies(r)).0.lastId, now, rxs[n]);
      }
  }

  lemma {:induction false} SessionAdvances(g: Numbers, actions: seq<Action>, top: real)
    requires Session(g, actions, top)
    ensures Advanced(g, After(g, actions, top), top, UsedBy(actions))
  {
    hide Legal;
    hide Act;
    if actions != [] {
      var n := |actions| - 1;
      assert actions[n] in actions;
      SessionAdvances(g, actions[..n], top);
      ActAdvances(After(g, actions[..n], top), actions[n], top);
    }
  }

  /** The numbers the `k`-th action of the session gave to a query. */
  ghost function DrawnAt(g: Numbers, actions: seq<Action>, top: real, k: nat): Numbers
    requires Session(g, actions, top) && k < |actions| && actions[k].QueryDrawn?
  {
    assert actions[k] in actions;
    DrawNumbers(After(g, actions[..k], top), actions[k].d).0
  }

  /** Every query ever numbered, whatever packets were built meanwhile: an identifier at most the
      last one issued, and a sequence number at most the current one, below it for content. */
  lemma {:induction false} NumberedBelow(g: Numbers, actions: seq<Action>, top: real, k: nat)
    requires Session(g, actions, top) && k < |actions| && actions[k].QueryDrawn?
    ensures var m, g' := DrawnAt(g, actions, top, k), After(g, actions, top);
      m.lastId <= g'.lastId && m.seqNo <= g'.seqNo && (actions[k].d.content ==> m.seqNo < g'.seqNo)
    decreases |actions|
  {
    hide Legal;
    hide Act;
    hide DrawNumbers;
    var n := |actions| - 1;
    var before := actions[..n];
    assert actions[n] in actions;
    SessionAdvances(g, before, top);
    if k < n {
      assert before[..k] == actions[..k];
      NumberedBelow(g, before, top, k);
      ActAdvances(After(g, before, top), actions[n], top);
    } else {
      DrawnNow(After(g, before, top), actions[n], top);
    }
  }

  lemma DrawnNow(g: Numbers, a: Action, top: real)
    requires a.QueryDrawn? && Legal(a, top)
    ensures a.d.now >= 0.0
    ensures var m, g' := DrawNumbers(g, a.d).0, Act(g, a, top);
      m.lastId == g'.lastId && m.seqNo <= g'.seqNo && (a.d.content ==> m.seqNo < g'.seqNo)
  {
    hide NextId;
  }

  /** How many content-related messages have been numbered. */
  function ContentCount(actions: seq<Action>): nat {
    if actions == [] then 0
    else
      var last := actions[|actions| - 1];
      ContentCount(actions[..|actions| - 1]) + if last.QueryDrawn? && last.d.content then 1 else 0
  }

  /** Sequence numbers in a session that began at zero: twice the number of content-related
      messages before, plus one for such a message itself. */
  lemma {:induction false} SeqNoCountsContent(g: Numbers, actions: seq<Action>, top: real)
    requires Session(g, actions, top) && g.seqNo == 0
    ensures After(g, actions, top).seqNo == 2 * ContentCount(actions)
    ensures forall k: nat :: k < |actions| && actions[k].QueryDrawn? ==>
      DrawnAt(g, actions, top, k).seqNo == 2 * ContentCount(actions[..k]) + if actions[k].d.content then 1 else 0
  {
    hide Legal;
    hide Act;
    hide DrawNumbers;
    if actions != [] {
      var n := |actions| - 1;
      var before := actions[..n];
      assert actions[n] in actions;
      SeqNoCountsContent(g, before, top);
      ActCounts(After(g, before, top), actions[n], top);
      forall k: nat | k < n && actions[k].QueryDrawn? ensures DrawnAt(g, before, top, k) == DrawnAt(g, actions, top, k) {
        assert before[..k] == actions[..k];
      }
      forall k: nat | k < n ensures before[..k] == actions[..k] {}
    }
  }

  lemma ActCounts(g: Numbers, a: Action, top: real)
    requires Legal(a, top) && g.seqNo % 2 == 0
    ensures Act(g, a, top).seqNo == g.seqNo + if a.QueryDrawn? && a.d.content then 2 else 0
    ensures a.QueryDrawn? ==>
      a.d.now >= 0.0 && DrawNumbers(g, a.d).0.seqNo == g.seqNo + if a.d.content then 1 else 0
  {
    hide NextId;
    hide Number;
    hide ServiceBodies;
    hide ChooseKind;
    hide QueryMessages;
  }

  /** The query was numbered by the session data in one of the actions. */
  ghost predicate Drawn(g: Numbers, actions: seq<Action>, top: real, q: Query)
    requires Session(g, actions, top)
  {
    exists k: nat :: k < |actions| && actions[k].QueryDrawn? && DrawnAt(g, actions, top, k) == Numbers(q.id, q.seqNo)
  }

  /** After any sequence of numbered queries and packets, a packet of queries of that session is
      in order: identifiers of service messages ascend in written order and exceed those of all
      queries; the container's exceeds every nested one, and its sequence number is at least
      every nested one. */
  lemma EveryPacketInOrder(g: Numbers, actions: seq<Action>, top: real, r: Request, now: real, rxs: seq<int>)
    requires Session(g, actions, top) && Session(g, actions + [PacketBuilt(r, now, rxs)], top)
    requires 0.0 <= now <= top && |rxs| == Draws(r, now)
    requires forall q :: q in r.queries ==> Drawn(g, actions, top, q)
    ensures InOrder(Build(After(g, actions, top), r, now, rxs).0, |r.queries|)
  {
    hide Build;
    hide DrawNumbers;
    var g1 := After(g, actions, top);
    assert (actions + [PacketBuilt(r, now, rxs)])[..|actions|] == actions;
    SessionAdvances(g, actions, top);
    TicksMonotone(now, top);
    forall i | 0 <= i < |r.queries| ensures r.queries[i].id <= g1.lastId && r.queries[i].seqNo <= g1.seqNo {
      assert r.queries[i] in r.queries;
      var k: nat :| k < |actions| && actions[k].QueryDrawn?
        && DrawnAt(g, actions, top, k) == Numbers(r.queries[i].id, r.queries[i].seqNo);
      NumberedBelow(g, actions, top, k);
    }
    PacketOrder(g1, r, now, rxs);
  }

  // ---------------------------------------------------------------- the bytes

  function EncodeMessage(m: Message): (s: Body)
    ensures |s| == 16 + |m.body|
  {
    Le(m.id, 8) + Le(m.seqNo, 4) + Le(|m.body|, 4) + m.body
  }

  function EncodeMessages(ms: seq<Message>): Body {
    if ms == [] then [] else EncodeMessage(ms[0]) + EncodeMessages(ms[1..])
  }

  function ContainerBody(ms: seq<Message>): Body {
    Le(CONTAINER_ID, 4) + Le(|ms|, 4) + EncodeMessages(ms)
  }

  /** The container of a mixed packet as a message. */
  function Container(p: Packet): Message {
    Message(p.container.lastId, p.container.seqNo, ContainerBody(p.messages))
  }

  /** `do_store`: the one part the kind names, or everything inside a container. */
  function Store(r: Request, p: Packet): Body
    requires |p.messages| == MessageCount(r)
  {
    if p.kind.Mixed? || p.kind.Unreachable? then EncodeMessage(Container(p))
    else
      var (first, count) := PartOf(r, p.kind);
      EncodeMessages(p.messages[first..first + count])
  }

  /** The kind chosen always names a part; a bare packet is exactly its one message. */
  lemma StoreWritesAll(g: Numbers, r: Request, now: real, rxs: seq<int>)
    requires now >= 0.0 && |rxs| == Draws(r, now) && MessageCount(r) > 0
    ensures var p := Build(g, r, now, rxs).0;
      && !p.kind.Unreachable?
      && (p.kind.Mixed? || (|p.messages| == 1 && Store(r, p) == EncodeMessage(p.messages[0])))
  {
    hide EncodeMessages;
    hide EncodeMessage;
    hide NextId;
    hide Number;
    hide QueryMessages;
    var p := Build(g, r, now, rxs).0;
    if !p.kind.Mixed? {
      var ms := p.messages;
      assert PartOf(r, p.kind) == (0, 1);
      assert ms[0..1] == ms;
      EncodeOne(ms);
    }
  }

  lemma EncodeOne(ms: seq<Message>)
    requires |ms| == 1
    ensures EncodeMessages(ms) == EncodeMessage(ms[0])
  {
    assert ms[1..] == [];
    assert EncodeMessage(ms[0]) + [] == EncodeMessage(ms[0]);
  }

  // ---------------------------------------------------------------- reading a packet

  /** One message, and what follows it. */
  function DecodeMessage(s: Body): Option<(Message, Body)> {
    if |s| < 16 then None
    else
      var size := FromLe(s[12..16]);
      if |s| < 16 + size then None
      else Some((Message(FromLe(s[..8]), FromLe(s[8..12]), s[16..16 + size]), s[16 + size..]))
  }

  /** Exactly `n` messages and nothing after them. */
  function DecodeMessages(n: nat, s: Body): Option<seq<Message>> {
    if n == 0 then if s == [] then Some([]) else None
    else
      match DecodeMessage(s)
      case None => None
      case Some((m, rest)) =>
        match DecodeMessages(n - 1, rest)
        case None => None
        case Some(ms) => Some([m] + ms)
  }

  /** The receiver: one message, opened when it is a container. */
  function DecodePacket(s: Body): Option<seq<Message>> {
    match DecodeMessages(1, s)
    case None => None
    case Some(outer) =>
      var body := outer[0].body;
      if !StartsWith(body, CONTAINER_ID) then Some(outer)
      else if |body| < 8 then None
      else DecodeMessages(FromLe(body[4..8]), body[8..])
  }

  /** The numbers fit the fields that carry them. */
  predicate Fits(m: Message) {
    m.id < WORD && m.seqNo < 0x8000_0000 && |m.body| < 0x1_0000_0000
  }

  lemma MessageRoundTrip(m: Message, rest: Body)
    requires Fits(m)
    ensures DecodeMessage(EncodeMessage(m) + rest) == Some((m, rest))
  {
    Reads8(m.id);
    Reads4(m.seqNo);
    Reads4(|m.body|);
    var s := EncodeMessage(m) + rest;
    assert s[..8] == Le(m.id, 8) && s[8..12] == Le(m.seqNo, 4) && s[12..16] == Le(|m.body|, 4);
    assert s[16..16 + |m.body|] == m.body && s[16 + |m.body|..] == rest;
  }

  lemma {:induction false} MessagesRoundTrip(ms: seq<Message>)
    requires forall m :: m in ms ==> Fits(m)
    ensures DecodeMessages(|ms|, EncodeMessages(ms)) == Some(ms)
  {
    if ms != [] {
      var tail := ms[1..];
      assert ms[0] in ms;
      MessageRoundTrip(ms[0], EncodeMessages(tail));
      MessagesRoundTrip(tail);
      assert [ms[0]] + tail == ms;
    }
  }

  lemma OneRoundTrip(m: Message)
    requires Fits(m)
    ensures DecodeMessages(1, EncodeMessage(m)) == Some([m])
  {
    var ms := [m];
    MessagesRoundTrip(ms);
    EncodeOne(ms);
  }

  lemma CountedList(id: nat, n: nat, rest: Body)
    requires id < 0x1_0000_0000 && n < 0x1_0000_0000
    ensures var s := Le(id, 4) + Le(n, 4) + rest;
      StartsWith(s, id) && FromLe(s[4..8]) == n && s[8..] == rest
  {
    Reads4(id);
    Reads4(n);
    var s := Le(id, 4) + Le(n, 4) + rest;
    assert s[..4] == Le(id, 4) && s[4..8] == Le(n, 4);
  }

  /** A container is opened to exactly the messages put in. */
  lemma ContainerRoundTrip(id: nat, seqNo: nat, ms: seq<Message>)
    requires Fits(Message(id, seqNo, ContainerBody(ms))) && |ms| < 0x8000_0000
    requires forall m :: m in ms ==> Fits(m)
    ensures DecodePacket(EncodeMessage(Message(id, seqNo, ContainerBody(ms)))) == Some(ms)
  {
    OneRoundTrip(Message(id, seqNo, ContainerBody(ms)));
    MessagesRoundTrip(ms);
    CountedList(CONTAINER_ID, |ms|, EncodeMessages(ms));
  }

  lemma {:induction false} DecodedIsShorter(n: nat, s: Body)
    ensures DecodeMessages(n, s).Some? ==> |DecodeMessages(n, s).value| == n
    ensures DecodeMessages(n, s).Some? ==>
      forall i :: 0 <= i < n ==> |DecodeMessages(n, s).value[i].body| < |s|
    decreases n
  {
    if n > 0 && DecodeMessage(s).Some? {
      DecodedIsShorter(n - 1, DecodeMessage(s).value.1);
    }
  }

  /** A message sent bare is received as itself exactly when its body does not start with the
      constructor of containers. */
  lemma BareRoundTripIff(m: Message)
    requires Fits(m)
    ensures DecodePacket(EncodeMessage(m)) == Some([m]) <==> !StartsWith(m.body, CONTAINER_ID)
  {
    OneRoundTrip(m);
    if StartsWith(m.body, CONTAINER_ID) && |m.body| >= 8 {
      DecodedIsShorter(FromLe(m.body[4..8]), m.body[8..]);
    }
  }

  /** A packet of one query whose data reads as an empty container: nothing is received. */
  lemma LookalikeIsLost() returns (r: Request, p: Packet)
    ensures r.queries != [] && Draws(r, 0.0) == 0 && p == Build(Numbers(4, 2), r, 0.0, []).0 && p.kind == OnlyQuery
    ensures |p.messages| == 1 && Fits(p.messages[0]) && DecodePacket(Store(r, p)) == Some([])
  {
    hide NextId;
    hide Le;
    hide FromLe;
    var body := Le(CONTAINER_ID, 4) + Le(0, 4);
    r := Request([], [Query(4, 1, [], body)], None, None, None, None, None, [], None, None);
    var m := Message(4, 1, body);
    assert ServiceBodies(r) == [] && ChooseKind(r, 0.0) == OnlyQuery;
    p := Build(Numbers(4, 2), r, 0.0, []).0;
    assert [] + InvokeAfter([]) + body == body;
    assert p.messages == [m];
    StoreWritesAll(Numbers(4, 2), r, 0.0, []);
    OneRoundTrip(m);
    CountedList(CONTAINER_ID, 0, []);
    assert body + [] == body;
  }

  /** All numbers fit their fields, and a body sent bare does not pass for a container. */
  ghost predicate Sendable(p: Packet) {
    && |p.messages| < 0x8000_0000
    && (forall m :: m in p.messages ==> Fits(m))
    && (if p.kind.Mixed? then Fits(Container(p))
        else forall m :: m in p.messages ==> !StartsWith(m.body, CONTAINER_ID))
  }

  /** Whatever is asked for, the receiver of the written bytes gets the queries and then the
      numbered service messages, in order, no more and no less. */
  lemma PacketRoundTrip(g: Numbers, r: Request, now: real, rxs: seq<int>)
    requires now >= 0.0 && |rxs| == Draws(r, now) && MessageCount(r) > 0
    ensures var p := Build(g, r, now, rxs).0;
      var numbered := Number(g, now, rxs[..|ServiceBodies(r)|], ServiceBodies(r)).1;
      Sendable(p) ==> DecodePacket(Store(r, p)) == Some(QueryMessages(r.header, r.queries) + numbered)
  {
    var p := Build(g, r, now, rxs).0;
    StoreWritesAll(g, r, now, rxs);
    if Sendable(p) {
      SentIsReceived(r, p);
    }
  }

  lemma SentIsReceived(r: Request, p: Packet)
    requires |p.messages| == MessageCount(r) && Sendable(p) && !p.kind.Unreachable?
    requires p.kind.Mixed? || (|p.messages| == 1 && Store(r, p) == EncodeMessage(p.messages[0]))
    ensures DecodePacket(Store(r, p)) == Some(p.messages)
  {
    if p.kind.Mixed? {
      ContainerRoundTrip(p.container.lastId, p.container.seqNo, p.messages);
    } else {
      var m := p.messages[0];
      assert m in p.messages;
      BareRoundTripIff(m);
      assert p.messages == [m];
    }
  }

  /** The message carries the query's number, the header, and behind it the queries it waits for;
      these can be told from its data unless that starts with one of their two prefixes. */
  ghost predicate Carries(m: Message, header: Body, q: Query) {
    && m.id == q.id && m.seqNo == q.seqNo && header <= m.body
    && (Readable(q) ==> ReadAfter(m.body[|header|..]) == Some((q.after, q.data)))
  }

  ghost predicate Readable(q: Query) {
    && |q.after| < 0x8000_0000 && (forall j :: 0 <= j < |q.after| ==> q.after[j] < WORD)
    && !StartsWith(q.data, INVOKE_AFTER_MSG) && !StartsWith(q.data, INVOKE_AFTER_MSGS)
  }

  lemma QueryIsCarried(header: Body, q: Query)
    ensures Carries(QueryMessage(header, q), header, q)
  {
    var prefix := InvokeAfter(q.after);
    assert header + prefix + q.data == header + (prefix + q.data);
    if Readable(q) {
      InvokeAfterRoundTrip(q.after, q.data);
    }
    hide InvokeAfter;
    hide ReadAfter;
    hide StartsWith;
  }

  /** Each query arrives, in its place. */
  lemma QueryArrives(g: Numbers, r: Request, now: real, rxs: seq<int>, i: nat)
    requires now >= 0.0 && |rxs| == Draws(r, now) && i < |r.queries|
    requires Sendable(Build(g, r, now, rxs).0)
    ensures var received := DecodePacket(Store(r, Build(g, r, now, rxs).0));
      received.Some? && |received.value| == MessageCount(r) && Carries(received.value[i], r.header, r.queries[i])
  {
    PacketRoundTrip(g, r, now, rxs);
    QueryIsCarried(r.header, r.queries[i]);
    hide Build;
    hide Store;
    hide DecodePacket;
    hide Number;
    hide Carries;
    hide QueryMessage;
    hide ServiceBodies;
  }

  /** The service bodies of one kind asked for. */
  function Asked(r: Request, kind: Kind): seq<Body> {
    match kind
    case OnlyAck => Present(r.ack)
    case OnlyHttpWait => Present(r.httpWait)
    case OnlyFutureSalts => Present(r.futureSalts)
    case OnlyGetInfo => Present(r.getInfo)
    case OnlyResend => Present(r.resend)
    case OnlyCancel => r.cancels
    case OnlyDestroyKey => Present(r.destroyKey)
    case OnlyPing => Present(r.ping)
    case _ => []
  }

  /** Each service message asked for arrives where the packet's kinds look for it, and no other is
      there; the acknowledgement comes right behind the queries, the ping last. */
  lemma PartsArrive(g: Numbers, r: Request, now: real, rxs: seq<int>, kind: Kind, j: nat)
    requires now >= 0.0 && |rxs| == Draws(r, now) && MessageCount(r) > 0
    requires Sendable(Build(g, r, now, rxs).0) && j < |Asked(r, kind)|
    ensures var received := DecodePacket(Store(r, Build(g, r, now, rxs).0));
      && received.Some? && |received.value| == MessageCount(r) && PartOf(r, kind).1 == |Asked(r, kind)|
      && PartOf(r, kind).0 + j < MessageCount(r)
      && received.value[PartOf(r, kind).0 + j].body == Asked(r, kind)[j]
      && (kind.OnlyAck? ==> PartOf(r, kind).0 + j == |r.queries|)
      && (kind.OnlyPing? ==> PartOf(r, kind).0 + j == MessageCount(r) - 1)
  {
    ReceivedBodies(g, r, now, rxs);
    BodyInPlace(r, kind, j);
    hide Build;
    hide Store;
    hide DecodePacket;
    hide ServiceBodies;
    hide Asked;
    hide PartOf;
    hide Draws;
    hide MessageCount;
    hide Sendable;
  }

  lemma ReceivedBodies(g: Numbers, r: Request, now: real, rxs: seq<int>)
    requires now >= 0.0 && |rxs| == Draws(r, now) && MessageCount(r) > 0
    requires Sendable(Build(g, r, now, rxs).0)
    ensures var received, q := DecodePacket(Store(r, Build(g, r, now, rxs).0)), |r.queries|;
      && received.Some? && |received.value| == MessageCount(r) == q + |ServiceBodies(r)|
      && forall k :: q <= k < MessageCount(r) ==> received.value[k].body == ServiceBodies(r)[k - q]
  {
    PacketRoundTrip(g, r, now, rxs);
    hide Build;
    hide Store;
    hide DecodePacket;
    hide ServiceBodies;
    hide Number;
    hide Sendable;
  }

  lemma PresentLength(part: Option<Body>)
    ensures |Present(part)| == Flag(part) <= 1
  {
  }

  lemma BodyInPlace(r: Request, kind: Kind, j: nat)
    requires j < |Asked(r, kind)|
    ensures var at := PartOf(r, kind).0 + j;
      && PartOf(r, kind).1 == |Asked(r, kind)|
      && |r.queries| <= at < |r.queries| + |ServiceBodies(r)| == MessageCount(r)
      && ServiceBodies(r)[at - |r.queries|] == Asked(r, kind)[j]
      && (kind.OnlyAck? ==> at == |r.queries|) && (kind.OnlyPing? ==> at == MessageCount(r) - 1)
  {
    Layout(r, j);
    hide ServiceBodies;
    hide Present;
    hide Flag;
  }

  lemma Layout(r: Request, j: nat)
    ensures var s := ServiceBodies(r);
      var futureSalts := Flag(r.ack) + Flag(r.httpWait);
      var resend := futureSalts + Flag(r.futureSalts) + Flag(r.getInfo);
      var cancels := resend + Flag(r.resend);
      var ping := cancels + |r.cancels| + Flag(r.destroyKey);
      && |s| == ping + Flag(r.ping)
      && (j < |Present(r.ack)| ==> j == 0 < |s| && s[0] == Present(r.ack)[j])
      && (j < |Present(r.httpWait)| ==> Flag(r.ack) + j < |s| && s[Flag(r.ack) + j] == Present(r.httpWait)[j])
      && (j < |Present(r.futureSalts)| ==> futureSalts + j < |s| && s[futureSalts + j] == Present(r.futureSalts)[j])
      && (j < |Present(r.getInfo)| ==>
            var k := futureSalts + Flag(r.futureSalts) + j; k < |s| && s[k] == Present(r.getInfo)[j])
      && (j < |Present(r.resend)| ==> resend + j < |s| && s[resend + j] == Present(r.resend)[j])
      && (j < |r.cancels| ==> cancels + j < |s| && s[cancels + j] == r.cancels[j])
      && (j < |Present(r.destroyKey)| ==>
            var k := cancels + |r.cancels| + j; k < |s| && s[k] == Present(r.destroyKey)[j])
      && (j < |Present(r.ping)| ==> j == 0 && |s| == ping + 1 && s[ping] == Present(r.ping)[j])
    ensures |Present(r.ack)| == Flag(r.ack) && |Present(r.httpWait)| == Flag(r.httpWait)
    ensures |Present(r.futureSalts)| == Flag(r.futureSalts) && |Present(r.getInfo)| == Flag(r.getInfo)
    ensures |Present(r.resend)| == Flag(r.resend) && |Present(r.destroyKey)| == Flag(r.destroyKey)
    ensures |Present(r.ping)| == Flag(r.ping)
  {
    PresentLength(r.ack);
    PresentLength(r.httpWait);
    PresentLength(r.futureSalts);
    PresentLength(r.getInfo);
    PresentLength(r.resend);
    PresentLength(r.destroyKey);
    PresentLength(r.ping);
    hide Present;
    hide Flag;
    InSequence(Present(r.ack), Present(r.httpWait), Present(r.futureSalts), Present(r.getInfo),
      Present(r.resend), r.cancels, Present(r.destroyKey), Present(r.ping), j);
  }

  /** Where the elements of eight sequences stand when these are put one behind the other. */
  lemma InSequence(a: seq<Body>, b: seq<Body>, c: seq<Body>, d: seq<Body>,
                   e: seq<Body>, f: seq<Body>, g: seq<Body>, h: seq<Body>, j: nat)
    ensures var s := a + b + c + d + e + f + g + h;
      && (j < |a| ==> s[j] == a[j])
      && (j < |b| ==> s[|a| + j] == b[j])
      && (j < |c| ==> s[|a| + |b| + j] == c[j])
      && (j < |d| ==> s[|a| + |b| + |c| + j] == d[j])
      && (j < |e| ==> s[|a| + |b| + |c| + |d| + j] == e[j])
      && (j < |f| ==> s[|a| + |b| + |c| + |d| + |e| + j] == f[j])
      && (j < |g| ==> s[|a| + |b| + |c| + |d| + |e| + |f| + j] == g[j])
      && (j < |h| ==> s[|a| + |b| + |c| + |d| + |e| + |f| + |g| + j] == h[j])
  {
  }

  /** A packet is wrapped exactly when there is more than one message, or when its one message is
      a query whose identifier no longer passes the outbound test; otherwise the kind names the
      one part there is. */
  lemma KindIff(r: Request, now: real)
    requires MessageCount(r) > 0
    ensures ChooseKind(r, now) == Mixed
      <==> MessageCount(r) > 1 || (r.queries != [] && !ValidOutbound(r.queries[0].id, now))
    ensures ChooseKind(r, now) == OnlyQuery
      <==> MessageCount(r) == 1 && r.queries != [] && ValidOutbound(r.queries[0].id, now)
    ensures ChooseKind(r, now) == OnlyAck <==> MessageCount(r) == 1 && r.ack.Some?
    ensures ChooseKind(r, now) == OnlyPing <==> MessageCount(r) == 1 && r.ping.Some?
    ensures ChooseKind(r, now) == OnlyHttpWait <==> MessageCount(r) == 1 && r.httpWait.Some?
    ensures ChooseKind(r, now) == OnlyFutureSalts <==> MessageCount(r) == 1 && r.futureSalts.Some?
    ensures ChooseKind(r, now) == OnlyGetInfo <==> MessageCount(r) == 1 && r.getInfo.Some?
    ensures ChooseKind(r, now) == OnlyResend <==> MessageCount(r) == 1 && r.resend.Some?
    ensures ChooseKind(r, now) == OnlyCancel <==> MessageCount(r) == 1 && r.cancels != []
    ensures ChooseKind(r, now) == OnlyDestroyKey <==> MessageCount(r) == 1 && r.destroyKey.Some?
  {
    hide ValidOutbound;
  }

  /** What is on the wire is one message. A container carries the identifier and sequence number
      drawn last, and the session data go on from there; a bare message carries its own. */
  lemma OuterMessage(g: Numbers, r: Request, now: real, rxs: seq<int>)
    requires now >= 0.0 && |rxs| == Draws(r, now) && MessageCount(r) > 0
    requires Sendable(Build(g, r, now, rxs).0)
    ensures var (p, g') := Build(g, r, now, rxs);
      var outer := DecodeMessages(1, Store(r, p));
      && outer.Some? && |outer.value| == 1
      && (if p.kind.Mixed? then
            && outer.value[0].id == g'.lastId && outer.value[0].seqNo == g'.seqNo
            && StartsWith(outer.value[0].body, CONTAINER_ID)
          else outer.value == p.messages)
  {
    StoreWritesAll(g, r, now, rxs);
    var (p, g') := Build(g, r, now, rxs);
    hide NextId;
    hide Number;
    if p.kind.Mixed? {
      OneRoundTrip(Container(p));
      CountedList(CONTAINER_ID, |p.messages|, EncodeMessages(p.messages));
    } else {
      OneRoundTrip(p.messages[0]);
      assert p.messages == [p.messages[0]];
    }
  }

  /** Conversely, only what messages are encoded as is read as messages. */
  lemma {:induction false} DecodedIsEncoded(n: nat, s: Body)
    requires DecodeMessages(n, s).Some?
    ensures |DecodeMessages(n, s).value| == n && EncodeMessages(DecodeMessages(n, s).value) == s
    decreases n
  {
    if n > 0 {
      var (m, rest) := DecodeMessage(s).value;
      DecodedIsEncoded(n - 1, rest);
      var ms := DecodeMessages(n - 1, rest).value;
      assert ([m] + ms)[1..] == ms;
      FirstIsEncoded(s);
    }
  }

  /** So whatever is received came in one message: itself, or a container of the messages. */
  lemma PacketDecodedIsEncoded(s: Body) returns (outer: Message)
    requires DecodePacket(s).Some?
    ensures s == EncodeMessage(outer)
    ensures if StartsWith(outer.body, CONTAINER_ID) then outer.body == ContainerBody(DecodePacket(s).value)
      else DecodePacket(s).value == [outer]
  {
    DecodedIsEncoded(1, s);
    var one := DecodeMessages(1, s).value;
    outer := one[0];
    assert one == [outer];
    EncodeOne(one);
    hide DecodeMessages;
    hide EncodeMessage;
    if StartsWith(outer.body, CONTAINER_ID) {
      ContainerDecoded(outer.body);
    }
  }

  lemma ContainerDecoded(body: Body)
    requires StartsWith(body, CONTAINER_ID) && |body| >= 8 && DecodeMessages(FromLe(body[4..8]), body[8..]).Some?
    ensures body == ContainerBody(DecodeMessages(FromLe(body[4..8]), body[8..]).value)
  {
    WritesBack(body[..4]);
    WritesBack(body[4..8]);
    hide Le;
    hide FromLe;
    DecodedIsEncoded(FromLe(body[4..8]), body[8..]);
    assert body == body[..4] + body[4..8] + body[8..];
  }

  lemma Pieces(s: Body, size: nat)
    requires |s| >= 16 + size
    ensures s == s[..8] + s[8..12] + s[12..16] + s[16..16 + size] + s[16 + size..]
  {
  }

  lemma FirstIsEncoded(s: Body)
    requires DecodeMessage(s).Some?
    ensures EncodeMessage(DecodeMessage(s).value.0) + DecodeMessage(s).value.1 == s
  {
    WritesBack(s[..8]);
    WritesBack(s[8..12]);
    WritesBack(s[12..16]);
    hide Le;
    hide FromLe;
    var size := FromLe(s[12..16]);
    Pieces(s, size);
  }

  // ---------------------------------------------------------------- in place

  ghost function NumbersOf(auth: Auth.AuthData): Numbers
    requires auth.lastMessageId >= 0
    reads auth
  {
    Numbers(auth.lastMessageId, auth.seqNo)
  }

  lemma {:induction false} NumberSnoc(g: Numbers, now: real, rxs: seq<int>, bodies: seq<Body>, rx: int, body: Body)
    requires now >= 0.0 && |rxs| == |bodies|
    ensures var (g', ms) := Number(g, now, rxs, bodies);
      var g'' := Next(g', now, rx);
      Number(g, now, rxs + [rx], bodies + [body]) == (g'', ms + [Message(g''.lastId, g''.seqNo, body)])
  {
    hide NextId;
    var rxs', bodies' := rxs + [rx], bodies + [body];
    assert rxs'[..|rxs|] == rxs && bodies'[..|bodies|] == bodies;
  }

  /** Draws the numbers of the service messages from the session data. */
  method NumberAll(auth: Auth.AuthData, bodies: seq<Body>, now: real, rxs: seq<int>) returns (ms: seq<Message>)
    requires auth.Valid() && auth.ClockInRange(now) && |rxs| == |bodies|
    modifies auth`lastMessageId, auth`seqNo
    ensures auth.Valid()
    ensures (NumbersOf(auth), ms) == Number(old(NumbersOf(auth)), auth.difference + now, rxs, bodies)
  {
    hide NextId;
    ms := [];
    ghost var start, serverTime := NumbersOf(auth), auth.difference + now;
    for i := 0 to |bodies|
      invariant auth.Valid() && auth.ClockInRange(now)
      invariant (NumbersOf(auth), ms) == Number(start, serverTime, rxs[..i], bodies[..i])
    {
      NumberSnoc(start, serverTime, rxs[..i], bodies[..i], rxs[i], bodies[i]);
      var id := auth.NextMessageId(now, rxs[i]);
      var seqNo := auth.NextSeqNo(false);
      ms := ms + [Message(id, seqNo, bodies[i])];
      assert bodies[..i + 1] == bodies[..i] + [bodies[i]] && rxs[..i + 1] == rxs[..i] + [rxs[i]];
    }
    assert bodies[..|bodies|] == bodies && rxs[..|bodies|] == rxs;
  }

  /** The constructor of a packet. */
  method BuildPacket(auth: Auth.AuthData, r: Request, now: real, rxs: seq<int>) returns (p: Packet)
    requires auth.Valid() && auth.ClockInRange(now) && |rxs| == Draws(r, auth.difference + now)
    requires MessageCount(r) != 0
    modifies auth`lastMessageId, auth`seqNo
    ensures auth.Valid()
    ensures (p, NumbersOf(auth)) == Build(old(NumbersOf(auth)), r, auth.difference + now, rxs)
  {
    hide NextId;
    var kind := ChooseKind(r, auth.difference + now);
    var n := |ServiceBodies(r)|;
    var ms := NumberAll(auth, ServiceBodies(r), now, rxs[..n]);
    if kind.Mixed? {
      var _ := auth.NextMessageId(now, rxs[n]);
      var _ := auth.NextSeqNo(false);
    }
    p := Packet(QueryMessages(r.header, r.queries) + ms, kind, Numbers(auth.lastMessageId, auth.seqNo));
  }
}
