/**
  The queue benchmark as a protocol: a client opens `n` connections by sending query 0 of each,
  the server echoes every message, the client answers an echo with the next query until
  `queries` have been exchanged. Two first-in first-out queues connect the threads; a step is
  one queue operation of one thread together with the local work around it.
 */
module EchoProtocol {
  import opened Bytes
  import opened Counting

  const NO_RANGE: int := 0x100_0000
  const MAX_CONNECTIONS: nat := 128

  // ---------------------------------------------------------------- message values

  /** `value & 0x00FFFFFF` and `value >> 24` of a 32-bit integer. */
  function No(value: int): int { value % NO_RANGE }

  function Co(value: int): int { value / NO_RANGE }

  function Encode(co: nat, no: nat): int { ToInt32(ToInt32(co * NO_RANGE) + no) }

  /** A 32-bit message value holds its connection number exactly up to connection 127. */
  lemma DecodesIff(co: nat, no: nat)
    requires no < NO_RANGE
    ensures Co(Encode(co, no)) == co && No(Encode(co, no)) == no <==> co < MAX_CONNECTIONS
  {
    if co < MAX_CONNECTIONS {
      assert Encode(co, no) == co * NO_RANGE + no;
    } else {
      assert Encode(co, no) < 0x8000_0000;
    }
  }

  // ---------------------------------------------------------------- the two threads

  datatype ServerPc = SGet | SPut(value: int) | SDone | SFailed

  datatype ClientPc = CInit(i: nat) | CGet | CPut(value: int) | CDone | CFailed

  datatype State = State(
    toServer: seq<int>, toClient: seq<int>,
    server: ServerPc, client: ClientPc,
    serverConn: seq<nat>, clientConn: seq<nat>,
    serverActive: int, clientActive: int)

  datatype Thread = Client | Server

  function ServerLoop(active: int): ServerPc { if active > 0 then SGet else SDone }

  function ClientLoop(active: int): ClientPc { if active > 0 then CGet else CDone }

  function Initial(n: nat): State {
    State([], [], ServerLoop(n), CInit(0), seq(n, _ => 0), seq(n, _ => 0), n, n)
  }

  function ServerStep(s: State, queries: int): State {
    match s.server
    case SGet =>
      if s.toServer == [] then s
      else
        var value := s.toServer[0];
        var co, no := Co(value), No(value);
        if 0 <= co < |s.serverConn| && no == s.serverConn[co] then
          s.(toServer := s.toServer[1..], server := SPut(value), serverConn := s.serverConn[co := s.serverConn[co] + 1])
        else s.(toServer := s.toServer[1..], server := SFailed)
    case SPut(value) =>
      var active := if No(value) + 1 >= queries then s.serverActive - 1 else s.serverActive;
      s.(toClient := s.toClient + [value], serverActive := active, server := ServerLoop(active))
    case _ => s
  }

  function ClientStep(s: State, queries: int): State {
    match s.client
    case CInit(i) =>
      if i < |s.clientConn| then s.(toServer := s.toServer + [Encode(i, 0)], client := CInit(i + 1))
      else s.(client := ClientLoop(s.clientActive))
    case CGet =>
      if s.toClient == [] then s
      else
        var value := s.toClient[0];
        var co, no := Co(value), No(value);
        if 0 <= co < |s.clientConn| && no == s.clientConn[co] then
          var s' := s.(toClient := s.toClient[1..], clientConn := s.clientConn[co := s.clientConn[co] + 1]);
          if no + 1 < queries then s'.(client := CPut(ToInt32(value + 1)))
          else s'.(clientActive := s.clientActive - 1, client := ClientLoop(s.clientActive - 1))
        else s.(toClient := s.toClient[1..], client := CFailed)
    case CPut(value) =>
      s.(toServer := s.toServer + [value], client := CGet)
    case _ => s
  }

  function Step(s: State, who: Thread, queries: int): State {
    if who.Server? then ServerStep(s, queries) else ClientStep(s, queries)
  }

  /** Each side, whatever its state, goes on with a message exactly when it is the next one of an
      existing connection, and stops otherwise. */
  lemma OrderChecksExact(s: State, queries: int)
    ensures s.server.SGet? && s.toServer != [] ==>
      var co, no := Co(s.toServer[0]), No(s.toServer[0]);
      var inOrder := 0 <= co < |s.serverConn| && s.serverConn[co] == no;
      ServerStep(s, queries).server == if inOrder then SPut(s.toServer[0]) else SFailed
    ensures s.client.CGet? && s.toClient != [] ==>
      var co, no := Co(s.toClient[0]), No(s.toClient[0]);
      ClientStep(s, queries).client.CFailed? <==> !(0 <= co < |s.clientConn| && s.clientConn[co] == no)
  {
    hide Co;
    hide No;
  }

  // ---------------------------------------------------------------- the invariant

  /** Exchanges per connection: the first query is sent even when none is asked for. */
  function Rounds(queries: int): nat { if queries < 1 then 1 else queries }

  /** Messages on their way to the server, the one in the client's hand included. */
  function Requests(s: State): seq<int> { if s.client.CPut? then s.toServer + [s.client.value] else s.toServer }

  /** Messages on their way back, the one in the server's hand included. */
  function Replies(s: State): seq<int> { if s.server.SPut? then s.toClient + [s.server.value] else s.toClient }

  function Opened(s: State): nat { if s.client.CInit? then s.client.i else |s.clientConn| }

  ghost predicate DistinctConnections(ms: seq<int>) {
    forall i, j :: 0 <= i < j < |ms| ==> Co(ms[i]) != Co(ms[j])
  }

  ghost predicate Carries(ms: seq<int>, co: nat) {
    exists i :: 0 <= i < |ms| && Co(ms[i]) == co
  }

  ghost predicate RequestOk(s: State, value: int, rounds: nat)
    requires |s.serverConn| == |s.clientConn|
  {
    var co := Co(value);
    && 0 <= co < Opened(s) <= |s.clientConn|
    && s.clientConn[co] == s.serverConn[co] == No(value) < rounds
  }

  ghost predicate ReplyOk(s: State, value: int, rounds: nat)
    requires |s.serverConn| == |s.clientConn|
  {
    var co := Co(value);
    && 0 <= co < Opened(s) <= |s.clientConn|
    && s.clientConn[co] == No(value) < rounds && s.serverConn[co] == No(value) + 1
  }

  /** A connection is not opened yet, finished, or has one message in flight. */
  ghost predicate ConnectionOk(s: State, co: nat, rounds: nat)
    requires co < |s.serverConn| == |s.clientConn|
  {
    if co >= Opened(s) then s.clientConn[co] == s.serverConn[co] == 0
    else
      || (s.clientConn[co] == s.serverConn[co] == rounds)
      || (s.clientConn[co] == s.serverConn[co] < rounds && Carries(Requests(s), co))
      || (s.clientConn[co] + 1 == s.serverConn[co] <= rounds && Carries(Replies(s), co))
  }

  function Below(rounds: nat): nat -> bool { x => x < rounds }

  ghost predicate Inv(s: State, n: nat, queries: int) {
    var rounds := Rounds(queries);
    && |s.serverConn| == |s.clientConn| == n <= MAX_CONNECTIONS && Opened(s) <= n
    && queries < NO_RANGE
    && (forall i :: 0 <= i < |Requests(s)| ==> RequestOk(s, Requests(s)[i], rounds))
    && (forall i :: 0 <= i < |Replies(s)| ==> ReplyOk(s, Replies(s)[i], rounds))
    && DistinctConnections(Requests(s)) && DistinctConnections(Replies(s))
    && (forall co :: 0 <= co < n ==> ConnectionOk(s, co, rounds))
    && ActivityOk(s, rounds)
  }

  ghost predicate ActivityOk(s: State, rounds: nat) {
    && !s.server.SFailed? && !s.client.CFailed?
    && s.clientActive == Count(s.clientConn, Below(rounds))
    && s.serverActive == Count(s.serverConn, Below(rounds))
         + (if s.server.SPut? && No(s.server.value) + 1 == rounds then 1 else 0)
    && (s.server.SGet? ==> s.serverActive > 0) && (s.server.SDone? ==> s.serverActive == 0)
    && (s.client.CGet? ==> s.clientActive > 0) && (s.client.CDone? ==> s.clientActive == 0)
    && (s.client.CPut? ==> s.clientActive > 0)
  }

  lemma InitialOk(n: nat, queries: int)
    requires n <= MAX_CONNECTIONS && queries < NO_RANGE
    ensures Inv(Initial(n), n, queries)
  {
    CountFull(Initial(n).clientConn, Below(Rounds(queries)));
  }

  // ---------------------------------------------------------------- preservation

  lemma CarriesAppend(ms: seq<int>, value: int, co: nat)
    ensures Carries(ms + [value], co) <==> Carries(ms, co) || Co(value) == co
  {
    if Carries(ms, co) {
      var i :| 0 <= i < |ms| && Co(ms[i]) == co;
      assert (ms + [value])[i] == ms[i];
    }
    if Co(value) == co {
      assert (ms + [value])[|ms|] == value;
    }
  }

  lemma CarriesTail(ms: seq<int>, co: nat)
    requires ms != []
    ensures Carries(ms, co) <==> Carries(ms[1..], co) || Co(ms[0]) == co
  {
    assert ms == [ms[0]] + ms[1..];
    if Carries(ms[1..], co) {
      var i :| 0 <= i < |ms[1..]| && Co(ms[1..][i]) == co;
      assert ms[i + 1] == ms[1..][i];
    }
  }

  /** Opening the next connection adds one request. */
  lemma OpenKeepsInv(s: State, n: nat, queries: int)
    requires Inv(s, n, queries) && s.client.CInit? && s.client.i < n
    ensures Inv(ClientStep(s, queries), n, queries)
  {
    var i, s' := s.client.i, ClientStep(s, queries);
    DecodesIff(i, 0);
    assert ConnectionOk(s, i, Rounds(queries));
    forall co | 0 <= co < n ensures ConnectionOk(s', co, Rounds(queries)) {
      assert ConnectionOk(s, co, Rounds(queries));
      CarriesAppend(s.toServer, Encode(i, 0), co);
    }
  }

  lemma DistinctTail(ms: seq<int>)
    requires ms != [] && DistinctConnections(ms)
    ensures DistinctConnections(ms[1..])
  {
  }

  lemma DistinctAppend(ms: seq<int>, value: int)
    requires DistinctConnections(ms) && forall i :: 0 <= i < |ms| ==> Co(ms[i]) != Co(value)
    ensures DistinctConnections(ms + [value])
  {
  }

  lemma ServeShape(s: State, queries: int)
    requires s.server.SGet? && s.toServer != [] && 0 <= Co(s.toServer[0]) < |s.serverConn|
    requires s.serverConn[Co(s.toServer[0])] == No(s.toServer[0])
    ensures var value, s' := s.toServer[0], ServerStep(s, queries);
      && Requests(s)[0] == value && Requests(s') == Requests(s)[1..] && Replies(s') == Replies(s) + [value]
      && s'.serverConn == s.serverConn[Co(value) := s.serverConn[Co(value)] + 1] && s'.clientConn == s.clientConn
      && Opened(s') == Opened(s)
  {
    hide Co;
    hide No;
  }

  lemma ServeKeepsMessages(s: State, n: nat, queries: int)
    requires Inv(s, n, queries) && s.server.SGet? && s.toServer != []
    ensures var s', rounds := ServerStep(s, queries), Rounds(queries);
      && (forall i :: 0 <= i < |Requests(s')| ==> RequestOk(s', Requests(s')[i], rounds))
      && (forall i :: 0 <= i < |Replies(s')| ==> ReplyOk(s', Replies(s')[i], rounds))
      && DistinctConnections(Requests(s')) && DistinctConnections(Replies(s'))
  {
    HeadRequest(s, n, queries);
    ServeShape(s, queries);
    hide Co;
    hide No;
    hide ServerStep;
    hide Requests;
    hide Replies;
    var value, s', rounds := s.toServer[0], ServerStep(s, queries), Rounds(queries);
    forall i | 0 <= i < |Requests(s')| ensures RequestOk(s', Requests(s')[i], rounds) {
      assert RequestOk(s, Requests(s)[i + 1], rounds) && Co(Requests(s)[0]) != Co(Requests(s)[i + 1]);
    }
    forall i | 0 <= i < |Replies(s)| ensures ReplyOk(s', Replies(s)[i], rounds) && Co(Replies(s)[i]) != Co(value) {
      assert ReplyOk(s, Replies(s)[i], rounds);
    }
    DistinctTail(Requests(s));
    DistinctAppend(Replies(s), value);
  }

  lemma ServeKeepsConnections(s: State, n: nat, queries: int, co: nat)
    requires Inv(s, n, queries) && s.server.SGet? && s.toServer != [] && co < n
    ensures ConnectionOk(ServerStep(s, queries), co, Rounds(queries))
  {
    HeadRequest(s, n, queries);
    ServeShape(s, queries);
    hide Co;
    hide No;
    hide ServerStep;
    hide Requests;
    hide Replies;
    hide Carries;
    assert ConnectionOk(s, co, Rounds(queries));
    CarriesTail(Requests(s), co);
    CarriesAppend(Replies(s), s.toServer[0], co);
  }

  /** The server turns the oldest request into a reply. */
  lemma ServeKeepsInv(s: State, n: nat, queries: int)
    requires Inv(s, n, queries) && s.server.SGet? && s.toServer != []
    ensures Inv(ServerStep(s, queries), n, queries)
  {
    hide RequestOk;
    hide ReplyOk;
    hide ConnectionOk;
    hide DistinctConnections;
    HeadRequest(s, n, queries);
    ServeShape(s, queries);
    ServeKeepsMessages(s, n, queries);
    forall co | 0 <= co < n ensures ConnectionOk(ServerStep(s, queries), co, Rounds(queries)) {
      ServeKeepsConnections(s, n, queries, co);
    }
    var at := Co(s.toServer[0]);
    CountUpdate(s.serverConn, Below(Rounds(queries)), at, s.serverConn[at] + 1);
  }

  lemma ServerPutKeepsInv(s: State, n: nat, queries: int)
    requires Inv(s, n, queries) && s.server.SPut?
    ensures Inv(ServerStep(s, queries), n, queries)
  {
    var s' := ServerStep(s, queries);
    assert Replies(s)[|s.toClient|] == s.server.value;
    assert ReplyOk(s, s.server.value, Rounds(queries));
    assert Replies(s') == Replies(s) && Requests(s') == Requests(s);
    forall co | 0 <= co < n ensures ConnectionOk(s', co, Rounds(queries)) {
      assert ConnectionOk(s, co, Rounds(queries));
    }
  }

  lemma NextQuery(value: int)
    requires 0 <= Co(value) < MAX_CONNECTIONS && No(value) + 1 < NO_RANGE
    ensures ToInt32(value + 1) == value + 1 && Co(value + 1) == Co(value) && No(value + 1) == No(value) + 1
  {
    assert value == Co(value) * NO_RANGE + No(value);
  }

  lemma HeadReply(s: State, n: nat, queries: int)
    requires Inv(s, n, queries) && s.toClient != []
    ensures ReplyOk(s, s.toClient[0], Rounds(queries))
  {
    assert Replies(s)[0] == s.toClient[0];
  }

  lemma HeadRequest(s: State, n: nat, queries: int)
    requires Inv(s, n, queries) && s.toServer != []
    ensures RequestOk(s, s.toServer[0], Rounds(queries))
  {
    assert Requests(s)[0] == s.toServer[0];
  }

  /** What the client's receive step changes when the order check passes. */
  lemma CollectShape(s: State, queries: int)
    requires s.client.CGet? && s.toClient != [] && queries < NO_RANGE
    requires 0 <= Co(s.toClient[0]) < |s.clientConn| <= MAX_CONNECTIONS
    requires s.clientConn[Co(s.toClient[0])] == No(s.toClient[0])
    ensures var value, s' := s.toClient[0], ClientStep(s, queries);
      && Replies(s)[0] == value && !s'.client.CFailed? && !s'.client.CInit? && s'.server == s.server
      && Replies(s') == Replies(s)[1..] && Opened(s') == Opened(s) && s'.serverConn == s.serverConn
      && s'.clientConn == s.clientConn[Co(value) := s.clientConn[Co(value)] + 1]
      && Requests(s') == (if No(value) + 1 < queries then Requests(s) + [value + 1] else Requests(s))
      && (No(value) + 1 < queries ==> Co(value + 1) == Co(value) && No(value + 1) == No(value) + 1)
  {
    if No(s.toClient[0]) + 1 < queries {
      NextQuery(s.toClient[0]);
    }
    assert s.server.SPut? ==> (s.toClient + [s.server.value])[1..] == s.toClient[1..] + [s.server.value];
  }

  lemma CollectKeepsReplies(s: State, n: nat, queries: int, i: nat)
    requires Inv(s, n, queries) && s.client.CGet? && s.toClient != [] && i + 1 < |Replies(s)|
    ensures ReplyOk(ClientStep(s, queries), Replies(s)[i + 1], Rounds(queries))
  {
    HeadReply(s, n, queries);
    CollectShape(s, queries);
    assert ReplyOk(s, Replies(s)[i + 1], Rounds(queries)) && Co(Replies(s)[0]) != Co(Replies(s)[i + 1]);
  }

  lemma CollectKeepsRequests(s: State, n: nat, queries: int, i: nat)
    requires Inv(s, n, queries) && s.client.CGet? && s.toClient != [] && i < |Requests(s)|
    ensures RequestOk(ClientStep(s, queries), Requests(s)[i], Rounds(queries))
    ensures Co(Requests(s)[i]) != Co(s.toClient[0])
  {
    HeadReply(s, n, queries);
    CollectShape(s, queries);
    assert RequestOk(s, Requests(s)[i], Rounds(queries));
  }

  lemma CollectKeepsDistinct(s: State, n: nat, queries: int)
    requires Inv(s, n, queries) && s.client.CGet? && s.toClient != []
    ensures DistinctConnections(Requests(ClientStep(s, queries))) && DistinctConnections(Replies(ClientStep(s, queries)))
  {
    hide ReplyOk;
    hide RequestOk;
    hide ConnectionOk;
    hide DistinctConnections;
    HeadReply(s, n, queries);
    CollectShape(s, queries);
    DistinctTail(Replies(s));
    var value := s.toClient[0];
    if No(value) + 1 < queries {
      forall i | 0 <= i < |Requests(s)| ensures Co(Requests(s)[i]) != Co(value + 1) {
        CollectKeepsRequests(s, n, queries, i);
      }
      DistinctAppend(Requests(s), value + 1);
    }
  }

  /** The request that answers the reply taken. */
  lemma CollectNewRequest(s: State, n: nat, queries: int)
    requires Inv(s, n, queries) && s.client.CGet? && s.toClient != [] && No(s.toClient[0]) + 1 < queries
    ensures RequestOk(ClientStep(s, queries), s.toClient[0] + 1, Rounds(queries))
  {
    HeadReply(s, n, queries);
    CollectShape(s, queries);
  }

  lemma CollectKeepsMessages(s: State, n: nat, queries: int)
    requires Inv(s, n, queries) && s.client.CGet? && s.toClient != []
    ensures var s', rounds := ClientStep(s, queries), Rounds(queries);
      && (forall i :: 0 <= i < |Requests(s')| ==> RequestOk(s', Requests(s')[i], rounds))
      && (forall i :: 0 <= i < |Replies(s')| ==> ReplyOk(s', Replies(s')[i], rounds))
      && DistinctConnections(Requests(s')) && DistinctConnections(Replies(s'))
  {
    hide ReplyOk;
    hide RequestOk;
    hide ConnectionOk;
    hide DistinctConnections;
    HeadReply(s, n, queries);
    CollectShape(s, queries);
    CollectKeepsDistinct(s, n, queries);
    var s', rounds := ClientStep(s, queries), Rounds(queries);
    forall i | 0 <= i < |Replies(s')| ensures ReplyOk(s', Replies(s')[i], rounds) {
      CollectKeepsReplies(s, n, queries, i);
    }
    forall i | 0 <= i < |Requests(s')| ensures RequestOk(s', Requests(s')[i], rounds) {
      if i < |Requests(s)| {
        CollectKeepsRequests(s, n, queries, i);
      } else {
        CollectNewRequest(s, n, queries);
      }
    }
  }

  lemma CollectKeepsConnections(s: State, n: nat, queries: int, co: nat)
    requires Inv(s, n, queries) && s.client.CGet? && s.toClient != [] && co < n
    ensures ConnectionOk(ClientStep(s, queries), co, Rounds(queries))
  {
    HeadReply(s, n, queries);
    CollectShape(s, queries);
    assert ConnectionOk(s, co, Rounds(queries));
    CarriesTail(Replies(s), co);
    CarriesAppend(Requests(s), s.toClient[0] + 1, co);
  }

  lemma CollectKeepsActivity(s: State, n: nat, queries: int)
    requires Inv(s, n, queries) && s.client.CGet? && s.toClient != []
    ensures ActivityOk(ClientStep(s, queries), Rounds(queries))
  {
    hide RequestOk;
    hide ConnectionOk;
    hide DistinctConnections;
    hide Requests;
    HeadReply(s, n, queries);
    CollectShape(s, queries);
    hide Replies;
    var at := Co(s.toClient[0]);
    CountUpdate(s.clientConn, Below(Rounds(queries)), at, s.clientConn[at] + 1);
  }

  /** The client turns the oldest reply into the next request, or finishes the connection. */
  lemma CollectKeepsInv(s: State, n: nat, queries: int)
    requires Inv(s, n, queries) && s.client.CGet? && s.toClient != []
    ensures Inv(ClientStep(s, queries), n, queries)
  {
    hide RequestOk;
    hide ReplyOk;
    hide ConnectionOk;
    hide DistinctConnections;
    CollectKeepsActivity(s, n, queries);
    CollectKeepsMessages(s, n, queries);
    CollectSizes(s, n, queries);
    hide ClientStep;
    hide Requests;
    hide Replies;
    hide ActivityOk;
    forall co | 0 <= co < n ensures ConnectionOk(ClientStep(s, queries), co, Rounds(queries)) {
      CollectKeepsConnections(s, n, queries, co);
    }
  }

  lemma CollectSizes(s: State, n: nat, queries: int)
    requires Inv(s, n, queries) && s.client.CGet? && s.toClient != []
    ensures var s' := ClientStep(s, queries);
      |s'.serverConn| == |s'.clientConn| == n && Opened(s') <= n
  {
    hide RequestOk;
    hide ConnectionOk;
    hide DistinctConnections;
    HeadReply(s, n, queries);
    CollectShape(s, queries);
    hide Requests;
    hide Replies;
  }

  lemma ClientPutKeepsInv(s: State, n: nat, queries: int)
    requires Inv(s, n, queries) && s.client.CPut?
    ensures Inv(ClientStep(s, queries), n, queries)
  {
    var s' := ClientStep(s, queries);
    assert Replies(s') == Replies(s) && Requests(s') == Requests(s);
    forall co | 0 <= co < n ensures ConnectionOk(s', co, Rounds(queries)) {
      assert ConnectionOk(s, co, Rounds(queries));
    }
  }

  lemma ClientStartKeepsInv(s: State, n: nat, queries: int)
    requires Inv(s, n, queries) && s.client.CInit? && s.client.i == n
    ensures Inv(ClientStep(s, queries), n, queries)
  {
    forall co | 0 <= co < n ensures ConnectionOk(ClientStep(s, queries), co, Rounds(queries)) {
      assert ConnectionOk(s, co, Rounds(queries));
    }
  }

  lemma StepKeepsInv(s: State, who: Thread, n: nat, queries: int)
    requires Inv(s, n, queries)
    ensures Inv(Step(s, who, queries), n, queries)
  {
    if who.Server? {
      match s.server
      case SGet => if s.toServer != [] { ServeKeepsInv(s, n, queries); }
      case SPut(_) => ServerPutKeepsInv(s, n, queries);
      case _ =>
    } else {
      match s.client
      case CInit(i) =>
        if i < n { OpenKeepsInv(s, n, queries); } else { ClientStartKeepsInv(s, n, queries); }
      case CGet => if s.toClient != [] { CollectKeepsInv(s, n, queries); }
      case CPut(_) => ClientPutKeepsInv(s, n, queries);
      case _ =>
    }
  }

  // ---------------------------------------------------------------- safety over runs

  ghost function Run(n: nat, queries: int, schedule: seq<Thread>): State {
    if schedule == [] then Initial(n)
    else Step(Run(n, queries, schedule[..|schedule| - 1]), schedule[|schedule| - 1], queries)
  }

  lemma {:induction false} EveryRunInv(n: nat, queries: int, schedule: seq<Thread>)
    requires n <= MAX_CONNECTIONS && queries < NO_RANGE
    ensures Inv(Run(n, queries, schedule), n, queries)
  {
    hide Inv;
    hide Step;
    if schedule == [] {
      InitialOk(n, queries);
    } else {
      var prior := schedule[..|schedule| - 1];
      EveryRunInv(n, queries, prior);
      StepKeepsInv(Run(n, queries, prior), schedule[|schedule| - 1], n, queries);
    }
  }

  /** Distinct connections below `n` number at most `n`. */
  lemma {:induction false} Pigeonhole(cs: seq<int>, n: nat)
    requires forall i :: 0 <= i < |cs| ==> 0 <= cs[i] < n
    requires forall i, j :: 0 <= i < j < |cs| ==> cs[i] != cs[j]
    ensures |cs| <= n
  {
    if cs != [] {
      assert 0 <= cs[0] < n;
      if k :| 0 <= k < |cs| && cs[k] == n - 1 {
        var rest := cs[..k] + cs[k + 1..];
        Pigeonhole(rest, n - 1);
      } else {
        Pigeonhole(cs[..|cs| - 1], n - 1);
      }
    }
  }

  /** In every interleaving no order check fails and the two queues together hold at most one
      message per connection, so the 1024 slots of a ring are never all taken. */
  lemma EveryRunIsSafe(n: nat, queries: int, schedule: seq<Thread>)
    requires n <= MAX_CONNECTIONS && queries < NO_RANGE
    ensures var s := Run(n, queries, schedule);
      !s.server.SFailed? && !s.client.CFailed? && |s.toServer| + |s.toClient| <= n
  {
    EveryRunInv(n, queries, schedule);
    MessagesAreFew(Run(n, queries, schedule), n, queries);
  }

  lemma MessagesAreFew(s: State, n: nat, queries: int)
    requires Inv(s, n, queries)
    ensures |Requests(s)| + |Replies(s)| <= n
  {
    var ms, rounds := Requests(s) + Replies(s), Rounds(queries);
    forall i | 0 <= i < |ms| ensures 0 <= Co(ms[i]) < n {
      assert if i < |Requests(s)| then RequestOk(s, ms[i], rounds) else ReplyOk(s, ms[i], rounds);
    }
    forall i, j | 0 <= i < j < |ms| ensures Co(ms[i]) != Co(ms[j]) {
      assert i < |Requests(s)| ==> RequestOk(s, ms[i], rounds);
      assert j >= |Requests(s)| ==> ReplyOk(s, ms[j], rounds);
    }
    Pigeonhole(seq(|ms|, i requires 0 <= i < |ms| => Co(ms[i])), n);
  }

  predicate OpenAndUnfinished(s: State, co: nat, queries: int) {
    co < Opened(s) && co < |s.clientConn| && s.clientConn[co] < Rounds(queries)
  }

  /** Each opened, unfinished connection has one message in flight and only one. */
  lemma OneMessageInFlight(n: nat, queries: int, schedule: seq<Thread>, co: nat)
    requires n <= MAX_CONNECTIONS && queries < NO_RANGE
    ensures var s := Run(n, queries, schedule);
      var ms := Requests(s) + Replies(s);
      OpenAndUnfinished(s, co, queries) ==>
        exists i :: 0 <= i < |ms| && Co(ms[i]) == co && forall j :: 0 <= j < |ms| && Co(ms[j]) == co ==> i == j
  {
    EveryRunInv(n, queries, schedule);
    hide Step;
    hide Requests;
    hide Replies;
    var s := Run(n, queries, schedule);
    if OpenAndUnfinished(s, co, queries) {
      var i := InFlight(s, n, queries, co);
      var ms := Requests(s) + Replies(s);
      assert 0 <= i < |ms| && Co(ms[i]) == co;
    }
  }

  lemma InFlight(s: State, n: nat, queries: int, co: nat) returns (i: nat)
    requires Inv(s, n, queries) && co < Opened(s) && s.clientConn[co] < Rounds(queries)
    ensures var ms := Requests(s) + Replies(s);
      i < |ms| && Co(ms[i]) == co && forall j :: 0 <= j < |ms| && Co(ms[j]) == co ==> i == j
  {
    hide Requests;
    hide Replies;
    hide ActivityOk;
    hide Co;
    hide No;
    var rounds, requests, replies := Rounds(queries), Requests(s), Replies(s);
    var ms := requests + replies;
    assert ConnectionOk(s, co, rounds);
    forall k | 0 <= k < |requests| && Co(requests[k]) == co ensures s.clientConn[co] == s.serverConn[co] {
      assert RequestOk(s, requests[k], rounds);
    }
    forall k | 0 <= k < |replies| && Co(replies[k]) == co ensures s.clientConn[co] < s.serverConn[co] {
      assert ReplyOk(s, replies[k], rounds);
    }
    if s.clientConn[co] == s.serverConn[co] {
      i :| 0 <= i < |requests| && Co(requests[i]) == co;
      assert forall j :: |requests| <= j < |ms| ==> ms[j] == replies[j - |requests|];
    } else {
      var k :| 0 <= k < |replies| && Co(replies[k]) == co;
      i := |requests| + k;
      assert forall j :: |requests| <= j < |ms| ==> ms[j] == replies[j - |requests|];
    }
  }

  // ---------------------------------------------------------------- both sides stop

  /** Exchanges the counters still lack. */
  function Lacking(xs: seq<nat>, rounds: nat): int {
    if xs == [] then 0 else Lacking(xs[..|xs| - 1], rounds) + rounds - xs[|xs| - 1]
  }

  lemma {:induction false} LackingIncrement(xs: seq<nat>, rounds: nat, i: nat)
    requires i < |xs|
    ensures Lacking(xs[i := xs[i] + 1], rounds) == Lacking(xs, rounds) - 1
  {
    var n := |xs| - 1;
    if i == n {
      assert xs[i := xs[i] + 1][..n] == xs[..n];
    } else {
      assert xs[i := xs[i] + 1][..n] == xs[..n][i := xs[i] + 1];
      LackingIncrement(xs[..n], rounds, i);
    }
  }

  lemma {:induction false} LackingBounds(xs: seq<nat>, rounds: nat)
    requires forall i :: 0 <= i < |xs| ==> xs[i] <= rounds
    ensures 0 <= Lacking(xs, rounds) <= rounds * |xs|
  {
    if xs != [] {
      LackingBounds(xs[..|xs| - 1], rounds);
    }
  }

  /** Steps still to come: two per half exchange, and the client's opening moves. */
  function Remaining(s: State, queries: int): int {
    2 * Lacking(s.clientConn, Rounds(queries)) + 2 * Lacking(s.serverConn, Rounds(queries))
      + (if s.server.SPut? then 1 else 0) + (if s.client.CPut? then 1 else 0)
      + (if s.client.CInit? then |s.clientConn| - s.client.i + 1 else 0)
  }

  /** At most two steps per half exchange on every connection are left, besides the opening. */
  lemma RemainingBounds(s: State, n: nat, queries: int)
    requires Inv(s, n, queries)
    ensures 0 <= Remaining(s, queries) <= 4 * (Rounds(queries) * n) + n + 3
  {
    var rounds := Rounds(queries);
    forall co | 0 <= co < n ensures s.clientConn[co] <= rounds && s.serverConn[co] <= rounds {
      assert ConnectionOk(s, co, rounds);
    }
    LackingBounds(s.clientConn, rounds);
    LackingBounds(s.serverConn, rounds);
  }

  lemma ServerProgress(s: State, n: nat, queries: int)
    requires Inv(s, n, queries) && ServerStep(s, queries) != s
    ensures Remaining(ServerStep(s, queries), queries) < Remaining(s, queries)
  {
    if s.server.SGet? {
      HeadRequest(s, n, queries);
      LackingIncrement(s.serverConn, Rounds(queries), Co(s.toServer[0]));
    }
  }

  lemma CollectProgress(s: State, n: nat, queries: int)
    requires Inv(s, n, queries) && s.client.CGet? && s.toClient != []
    ensures Remaining(ClientStep(s, queries), queries) < Remaining(s, queries)
  {
    hide ClientStep;
    hide Requests;
    hide Replies;
    hide RequestOk;
    hide ConnectionOk;
    hide DistinctConnections;
    hide Lacking;
    HeadReply(s, n, queries);
    CollectShape(s, queries);
    LackingIncrement(s.clientConn, Rounds(queries), Co(s.toClient[0]));
  }

  lemma ClientProgress(s: State, n: nat, queries: int)
    requires Inv(s, n, queries) && ClientStep(s, queries) != s
    ensures Remaining(ClientStep(s, queries), queries) < Remaining(s, queries)
  {
    if s.client.CGet? {
      CollectProgress(s, n, queries);
    }
  }

  /** The client waits only for a reply, the server only for a request. */
  lemma ReadyThreadsStep(s: State, queries: int)
    ensures s.client.CInit? || s.client.CPut? || (s.client.CGet? && s.toClient != []) ==> ClientStep(s, queries) != s
    ensures s.server.SPut? || (s.server.SGet? && s.toServer != []) ==> ServerStep(s, queries) != s
  {
    if s.client.CGet? && s.toClient != [] {
      assert ClientStep(s, queries).toClient == s.toClient[1..];
    }
    if s.client.CPut? {
      assert |ClientStep(s, queries).toServer| == |s.toServer| + 1;
    }
    if s.server.SPut? {
      assert |ServerStep(s, queries).toClient| == |s.toClient| + 1;
    }
    if s.server.SGet? && s.toServer != [] {
      assert ServerStep(s, queries).toServer == s.toServer[1..];
    }
  }

  /** The moves of a schedule that are not mere waiting. */
  ghost function Moves(n: nat, queries: int, schedule: seq<Thread>): nat
  {
    if schedule == [] then 0
    else
      var prior := schedule[..|schedule| - 1];
      Moves(n, queries, prior) + if Run(n, queries, schedule) != Run(n, queries, prior) then 1 else 0
  }

  /** No schedule contains more than 4·rounds·n + n + 3 moves that are not mere waiting. */
  lemma {:induction false} EveryRunEnds(n: nat, queries: int, schedule: seq<Thread>)
    requires n <= MAX_CONNECTIONS && queries < NO_RANGE
    ensures Moves(n, queries, schedule) + Remaining(Run(n, queries, schedule), queries)
      <= 4 * (Rounds(queries) * n) + n + 3
    ensures 0 <= Remaining(Run(n, queries, schedule), queries)
  {
    EveryRunInv(n, queries, schedule);
    RemainingBounds(Run(n, queries, schedule), n, queries);
    if schedule != [] {
      var prior, who := schedule[..|schedule| - 1], schedule[|schedule| - 1];
      EveryRunEnds(n, queries, prior);
      EveryRunInv(n, queries, prior);
      var s := Run(n, queries, prior);
      if Step(s, who, queries) != s {
        if who.Server? { ServerProgress(s, n, queries); } else { ClientProgress(s, n, queries); }
      }
    }
  }

  /** When neither thread can move, both have left their loops after exactly the asked-for
      number of exchanges on every connection, with nothing left in the queues. */
  lemma QuietMeansDone(s: State, n: nat, queries: int)
    requires Inv(s, n, queries)
    requires ServerStep(s, queries) == s && ClientStep(s, queries) == s
    ensures s.server.SDone? && s.client.CDone? && s.toServer == [] == s.toClient
    ensures forall co :: 0 <= co < n ==> s.clientConn[co] == s.serverConn[co] == Rounds(queries)
  {
    var rounds := Rounds(queries);
    assert !s.client.CInit? && !s.client.CPut? && !s.server.SPut?;
    forall co | 0 <= co < n ensures s.clientConn[co] == s.serverConn[co] == rounds {
      assert ConnectionOk(s, co, rounds);
      QuietQueuesEmpty(s, n, queries);
    }
    CountNone(s.clientConn, Below(rounds));
    CountNone(s.serverConn, Below(rounds));
    QuietQueuesEmpty(s, n, queries);
  }

  lemma QuietQueuesEmpty(s: State, n: nat, queries: int)
    requires Inv(s, n, queries)
    requires ServerStep(s, queries) == s && ClientStep(s, queries) == s
    ensures Requests(s) == [] == Replies(s)
  {
    var rounds := Rounds(queries);
    if s.toServer != [] {
      assert Requests(s)[0] == s.toServer[0] && RequestOk(s, s.toServer[0], rounds);
      CountZero(s.serverConn, Below(rounds), Co(s.toServer[0]));
    }
    if s.toClient != [] {
      assert Replies(s)[0] == s.toClient[0] && ReplyOk(s, s.toClient[0], rounds);
      CountZero(s.clientConn, Below(rounds), Co(s.toClient[0]));
    }
  }

  lemma {:induction false} CountZero(xs: seq<nat>, p: nat -> bool, i: nat)
    requires i < |xs| && p(xs[i])
    ensures Count(xs, p) > 0
  {
    if i < |xs| - 1 {
      CountZero(xs[..|xs| - 1], p, i);
    }
  }

  ghost predicate Quiet(s: State, queries: int) {
    ServerStep(s, queries) == s && ClientStep(s, queries) == s
  }

  /** Where a run comes to rest every connection has made the asked-for number of exchanges if
      and only if at least one is asked for. */
  lemma AskedForIff(n: nat, queries: int, schedule: seq<Thread>)
    requires 0 < n <= MAX_CONNECTIONS && queries < NO_RANGE
    ensures var s := Run(n, queries, schedule);
      Quiet(s, queries) ==>
        && |s.clientConn| == |s.serverConn| == n
        && ((forall co :: 0 <= co < n ==> s.clientConn[co] == s.serverConn[co] == queries) <==> queries >= 1)
  {
    EveryRunInv(n, queries, schedule);
    var s := Run(n, queries, schedule);
    if Quiet(s, queries) {
      QuietMeansDone(s, n, queries);
      hide Inv;
      hide ServerStep;
      hide ClientStep;
      assert s.clientConn[0] == Rounds(queries);
    }
  }

  lemma RunSnoc(n: nat, queries: int, schedule: seq<Thread>, who: Thread)
    ensures Run(n, queries, schedule + [who]) == Step(Run(n, queries, schedule), who, queries)
  {
    assert (schedule + [who])[..|schedule|] == schedule;
  }

  /** The states of one connection that is asked for nothing, move by move. */
  function LoneState(k: nat): State {
    if k == 0 then State([], [], SGet, CInit(0), [0], [0], 1, 1)
    else if k == 1 then State([0], [], SGet, CInit(1), [0], [0], 1, 1)
    else if k == 2 then State([0], [], SGet, CGet, [0], [0], 1, 1)
    else if k == 3 then State([], [], SPut(0), CGet, [1], [0], 1, 1)
    else if k == 4 then State([], [0], SDone, CGet, [1], [0], 0, 1)
    else State([], [], SDone, CDone, [1], [1], 0, 0)
  }

  function LoneMover(k: nat): Thread { if k == 2 || k == 3 then Server else Client }

  lemma LoneStep(k: nat)
    requires k < 5
    ensures Step(LoneState(k), LoneMover(k), 0) == LoneState(k + 1)
  {
    assert Encode(0, 0) == 0 && Co(0) == 0 && No(0) == 0;
    hide Encode;
    hide Co;
    hide No;
  }

  lemma {:induction false} LoneRun(k: nat) returns (schedule: seq<Thread>)
    requires k <= 5
    ensures Run(1, 0, schedule) == LoneState(k)
  {
    hide Step;
    if k == 0 {
      schedule := [];
      assert Initial(1).clientConn == [0] && Initial(1).serverConn == [0];
    } else {
      var prior := LoneRun(k - 1);
      LoneStep(k - 1);
      RunSnoc(1, 0, prior, LoneMover(k - 1));
      schedule := prior + [LoneMover(k - 1)];
    }
  }

  /** With no query asked for one is exchanged all the same, and the run rests there. */
  lemma NoneAskedOneExchanged() returns (schedule: seq<Thread>)
    ensures var s := Run(1, 0, schedule);
      Quiet(s, 0) && s.clientConn == [1] && s.serverConn == [1]
  {
    schedule := LoneRun(5);
    hide Run;
  }

  // ---------------------------------------------------------------- too many connections

  ghost predicate SomeCheckFails(n: nat, queries: int) {
    exists schedule :: Run(n, queries, schedule).server.SFailed? || Run(n, queries, schedule).client.CFailed?
  }

  function Openings(k: nat): seq<int> { seq(k, i requires 0 <= i < k => Encode(i, 0)) }

  function AfterOpening(n: nat, k: nat): State {
    Initial(n).(toServer := Openings(k), client := CInit(k))
  }

  lemma OpenOnce(n: nat, queries: int, k: nat)
    requires k < n
    ensures ClientStep(AfterOpening(n, k), queries) == AfterOpening(n, k + 1)
  {
    hide Encode;
    assert Openings(k) + [Encode(k, 0)] == Openings(k + 1);
  }

  lemma {:induction false} AfterOpenings(n: nat, queries: int, k: nat)
    requires k <= n
    ensures Run(n, queries, seq(k, _ => Client)) == AfterOpening(n, k)
  {
    if k == 0 {
      assert seq(k, _ => Client) == [];
      assert Openings(0) == [];
    } else {
      hide Run;
      hide AfterOpening;
      hide ClientStep;
      AfterOpenings(n, queries, k - 1);
      OpenOnce(n, queries, k - 1);
      RunSnoc(n, queries, seq(k - 1, _ => Client), Client);
      assert seq(k - 1, _ => Client) + [Client] == seq(k, _ => Client);
    }
  }

  /** The state after 129 openings and `j` echoes by the server. */
  function AfterEchoes(n: nat, queries: int, j: nat): State
    requires j <= 128 < n
  {
    var active := if queries <= 1 then n - j else n;
    State(Openings(129)[j..], Openings(129)[..j], SGet, CInit(129),
          seq(n, co => if co < j then 1 else 0), seq(n, _ => 0), active, n)
  }

  lemma EchoOnce(n: nat, queries: int, j: nat)
    requires j < 128 < n
    ensures ServerStep(ServerStep(AfterEchoes(n, queries, j), queries), queries) == AfterEchoes(n, queries, j + 1)
  {
    var s := AfterEchoes(n, queries, j);
    DecodesIff(j, 0);
    assert s.toServer[0] == Encode(j, 0);
    assert Openings(129)[j..][1..] == Openings(129)[j + 1..];
    assert Openings(129)[..j] + [Encode(j, 0)] == Openings(129)[..j + 1];
    var s1 := ServerStep(s, queries);
    assert s1.server == SPut(Encode(j, 0));
    assert s1.serverConn == AfterEchoes(n, queries, j + 1).serverConn;
  }

  lemma {:induction false} ReachesEchoes(n: nat, queries: int, j: nat) returns (schedule: seq<Thread>)
    requires j <= 128 < n
    ensures Run(n, queries, schedule) == AfterEchoes(n, queries, j)
  {
    if j == 0 {
      schedule := seq(129, _ => Client);
      AfterOpenings(n, queries, 129);
    } else {
      schedule := ReachesEchoes(n, queries, j - 1);
      EchoOnce(n, queries, j - 1);
      RunSnoc(n, queries, schedule, Server);
      RunSnoc(n, queries, schedule + [Server], Server);
      schedule := schedule + [Server] + [Server];
    }
  }

  /** Message 128 · 2^24 does not fit its 32 bits. */
  lemma LastEchoFails(n: nat, queries: int)
    requires 128 < n
    ensures ServerStep(AfterEchoes(n, queries, 128), queries).server.SFailed?
  {
    var s := AfterEchoes(n, queries, 128);
    assert s.toServer[0] == Openings(129)[128] == Encode(128, 0) == -0x8000_0000;
    assert Co(-0x8000_0000) == -128;
  }

  /** Some interleaving fails an order check exactly when there are more than 128 connections. */
  lemma ChecksFailIff(n: nat, queries: int)
    requires queries < NO_RANGE
    ensures SomeCheckFails(n, queries) <==> n > MAX_CONNECTIONS
  {
    if n > MAX_CONNECTIONS {
      hide AfterEchoes;
      hide ServerStep;
      hide Run;
      var schedule := ReachesEchoes(n, queries, 128);
      RunSnoc(n, queries, schedule, Server);
      LastEchoFails(n, queries);
      assert Run(n, queries, schedule + [Server]).server.SFailed?;
    } else {
      forall schedule
        ensures !Run(n, queries, schedule).server.SFailed? && !Run(n, queries, schedule).client.CFailed?
      {
        EveryRunIsSafe(n, queries, schedule);
      }
    }
  }
}
