/**
  The echo benchmark as it runs: the client and server of `EchoProtocol`, each taking one atomic
  access at a time, over two real queues. `Polling` queues are the plain ring, whose reader polls
  until an item comes and whose writer looks at no flag; `Sleeping` queues are those of `FdQueue`.
 */
module EchoSystem {
  import Echo = EchoProtocol
  import Fd = FdQueue
  import Ring = BufferQueue

  datatype Kind = Polling | Sleeping

  /** `locals` are the threads' own variables, with no messages in its queues; the messages are
      in the two real queues. */
  datatype System = System(locals: Echo.State, toServer: Fd.State, toClient: Fd.State)

  /** The thread that moves, and whether its backoff allows one more poll. */
  datatype Move = Move(who: Echo.Thread, more: bool)

  // ---------------------------------------------------------------- one access

  function PutStep(kind: Kind, q: Fd.State, val: int): (q': Fd.State)
    requires |q.ring.ring.q| == Ring.QUEUE_BUF_SIZE
    ensures |q'.ring.ring.q| == Ring.QUEUE_BUF_SIZE
  {
    var q' := Fd.WriterStep(q, val);
    if kind.Polling? && q'.w.WLoadFlag? then q'.(w := Fd.WIdle) else q'
  }

  function GetStep(kind: Kind, q: Fd.State, more: bool): (q': Fd.State)
    requires |q.ring.ring.q| == Ring.QUEUE_BUF_SIZE
    ensures |q'.ring.ring.q| == Ring.QUEUE_BUF_SIZE
  {
    Fd.ReaderStep(q, kind.Polling? || more)
  }

  function Emptied(e: Echo.State): Echo.State { e.(toServer := [], toClient := []) }

  /** The client is inside a put, inside a get, or about to begin its next queue operation; its
      variables change where it hands over or receives a message. */
  function ClientMove(kind: Kind, s: System, more: bool, queries: int): (s': System)
    requires |s.toServer.ring.ring.q| == Ring.QUEUE_BUF_SIZE == |s.toClient.ring.ring.q|
    ensures |s'.toServer.ring.ring.q| == Ring.QUEUE_BUF_SIZE == |s'.toClient.ring.ring.q|
  {
    if s.toServer.w != Fd.WIdle then
      var q := PutStep(kind, s.toServer, 0);
      if s.toServer.w.WPut? then s.(toServer := q, locals := Emptied(Echo.ClientStep(s.locals, queries)))
      else s.(toServer := q)
    else if s.toClient.r != Fd.RIdle then
      var q := GetStep(kind, s.toClient, more);
      if s.toClient.r.RTake? then
        var value := Ring.NextValue(s.toClient.ring.ring);
        s.(toClient := q, locals := Emptied(Echo.ClientStep(s.locals.(toClient := [value]), queries)))
      else s.(toClient := q)
    else
      match s.locals.client
      case CInit(i) =>
        if i < |s.locals.clientConn| then s.(toServer := PutStep(kind, s.toServer, Echo.Encode(i, 0)))
        else s.(locals := Echo.ClientStep(s.locals, queries))
      case CGet => s.(toClient := GetStep(kind, s.toClient, more))
      case CPut(value) => s.(toServer := PutStep(kind, s.toServer, value))
      case _ => s
  }

  function ServerMove(kind: Kind, s: System, more: bool, queries: int): (s': System)
    requires |s.toServer.ring.ring.q| == Ring.QUEUE_BUF_SIZE == |s.toClient.ring.ring.q|
    ensures |s'.toServer.ring.ring.q| == Ring.QUEUE_BUF_SIZE == |s'.toClient.ring.ring.q|
  {
    if s.toClient.w != Fd.WIdle then
      var q := PutStep(kind, s.toClient, 0);
      if s.toClient.w.WPut? then s.(toClient := q, locals := Emptied(Echo.ServerStep(s.locals, queries)))
      else s.(toClient := q)
    else if s.toServer.r != Fd.RIdle then
      var q := GetStep(kind, s.toServer, more);
      if s.toServer.r.RTake? then
        var value := Ring.NextValue(s.toServer.ring.ring);
        s.(toServer := q, locals := Emptied(Echo.ServerStep(s.locals.(toServer := [value]), queries)))
      else s.(toServer := q)
    else
      match s.locals.server
      case SGet => s.(toServer := GetStep(kind, s.toServer, more))
      case SPut(value) => s.(toClient := PutStep(kind, s.toClient, value))
      case _ => s
  }

  function Step(kind: Kind, s: System, m: Move, queries: int): (s': System)
    requires |s.toServer.ring.ring.q| == Ring.QUEUE_BUF_SIZE == |s.toClient.ring.ring.q|
    ensures |s'.toServer.ring.ring.q| == Ring.QUEUE_BUF_SIZE == |s'.toClient.ring.ring.q|
  {
    if m.who.Client? then ClientMove(kind, s, m.more, queries) else ServerMove(kind, s, m.more, queries)
  }

  // ---------------------------------------------------------------- one queue

  /** What an unbounded queue would hold. */
  ghost function Held(q: Fd.State): seq<int>
    requires Fd.Inv(q)
  {
    Ring.Unread(q.ring.trace)
  }

  predicate Waiting(r: Fd.ReaderPc) { !r.RIdle? && !r.RFlush? }

  /** The queue's own invariant; the reader publishes its position right after each take; plain
      rings never sleep; no put has failed. */
  ghost predicate QueueOk(kind: Kind, q: Fd.State) {
    && Fd.Inv(q) && !q.w.WFailed?
    && |q.ring.trace.consumed| == q.ring.trace.publishedRead + (if q.r.RFlush? then 1 else 0)
    && (kind.Polling? ==> !q.w.WLoadFlag? && !q.w.WWriteFd?)
    && (kind.Polling? ==> q.r.RIdle? || q.r.RPoll? || q.r.RTake? || q.r.RFlush?)
  }

  /** A thread's accesses to one queue still to come before the next message moves. */
  function WriterRank(w: Fd.WriterPc): nat {
    match w
    case WPut(_) => 0
    case WIdle => 1
    case WWriteFd => 4
    case WLoadFlag => 5
    case WFlush => 6
    case WFailed => 0
  }

  function ReaderRank(r: Fd.ReaderPc): nat {
    match r
    case RTake => 0
    case RClearFlag => 1
    case RReadFd => 2
    case RCheck => 3
    case RSetFlag => 4
    case RPoll => 5
    case RIdle => 6
    case RFlush => 7
  }

  /** A token can make the reader look once more. */
  function QueueRank(q: Fd.State): nat { WriterRank(q.w) + ReaderRank(q.r) + 2 * q.fd }

  /** An access of a put into a queue that holds few items. */
  lemma PutStepOk(kind: Kind, q: Fd.State, val: int)
    requires QueueOk(kind, q) && |Held(q)| <= Echo.MAX_CONNECTIONS
    ensures var q' := PutStep(kind, q, val);
      && QueueOk(kind, q') && q'.r == q.r
      && Held(q') == (if q.w.WPut? then Held(q) + [q.w.val] else Held(q))
      && (q.w.WIdle? ==> q'.w == Fd.WPut(val))
      && (q.w.WPut? ==> q'.w.WFlush?)
      && (!q.w.WIdle? ==> !q'.w.WPut?)
    ensures !q.w.WPut? ==> QueueRank(PutStep(kind, q, val)) < QueueRank(q)
    ensures q.w.WPut? ==> QueueRank(PutStep(kind, q, val)) <= QueueRank(q) + 6
  {
    Fd.WriterKeepsInv(q, val);
    Fd.WriterEffect(q, val);
    hide Ring.Inv;
    hide Ring.Perform;
  }

  /** A poll that finds nothing changes nothing. */
  lemma PollUnchanged(q: Fd.State)
    requires Fd.Inv(q) && q.r.RPoll? && Fd.PublishedUnread(q) == 0
    ensures Ring.Perform(q.ring, Ring.UpdateReader) == q.ring
  {
  }

  lemma TakeStepOk(kind: Kind, q: Fd.State, more: bool)
    requires QueueOk(kind, q) && q.r.RTake?
    ensures var q' := GetStep(kind, q, more);
      && QueueOk(kind, q') && q'.w == q.w && q'.r.RFlush? && q'.fd == q.fd
      && Held(q) != [] && Ring.NextValue(q.ring.ring) == Held(q)[0] && Held(q') == Held(q)[1..]
    ensures QueueRank(GetStep(kind, q, more)) == QueueRank(q) + 7
  {
    Fd.ReaderKeepsInv(q, kind.Polling? || more);
    Fd.ReaderEffect(q, kind.Polling? || more);
    hide Ring.Inv;
    hide Ring.Perform;
  }

  lemma WaitStepOk(kind: Kind, q: Fd.State, more: bool)
    requires QueueOk(kind, q) && !q.r.RTake?
    ensures var q' := GetStep(kind, q, more);
      && QueueOk(kind, q') && q'.w == q.w && Held(q') == Held(q)
      && (if q.r.RFlush? then q'.r.RIdle? else Waiting(q'.r))
      && (q' == q || QueueRank(q') < QueueRank(q))
  {
    Fd.ReaderKeepsInv(q, kind.Polling? || more);
    Fd.ReaderEffect(q, kind.Polling? || more);
    if q.r.RPoll? || q.r.RCheck? {
      Fd.PollKeepsInv(q);
      if q.r.RPoll? && Fd.PublishedUnread(q) == 0 {
        PollUnchanged(q);
      }
    }
    hide Ring.Inv;
    hide Ring.Perform;
  }

  /** An access of a get. */
  lemma GetStepOk(kind: Kind, q: Fd.State, more: bool)
    requires QueueOk(kind, q)
    ensures var q' := GetStep(kind, q, more);
      && QueueOk(kind, q') && q'.w == q.w
      && (q.r.RTake? ==> Held(q) != [] && Ring.NextValue(q.ring.ring) == Held(q)[0])
      && Held(q') == (if q.r.RTake? then Held(q)[1..] else Held(q))
      && (q.r.RTake? ==> q'.r.RFlush?) && (q.r.RFlush? ==> q'.r.RIdle?)
      && (!q.r.RTake? && !q.r.RFlush? ==> Waiting(q'.r))
    ensures !q.r.RTake? ==> GetStep(kind, q, more) == q || QueueRank(GetStep(kind, q, more)) < QueueRank(q)
    ensures q.r.RTake? ==> QueueRank(GetStep(kind, q, more)) == QueueRank(q) + 7
  {
    if q.r.RTake? {
      TakeStepOk(kind, q, more);
    } else {
      WaitStepOk(kind, q, more);
    }
    hide Fd.Inv;
    hide GetStep;
    hide Held;
    hide QueueRank;
  }

  /** A get that does not move: nothing is published, and a sleeping reader has no token. */
  lemma IdleGetMeansEmpty(kind: Kind, q: Fd.State, more: bool)
    requires QueueOk(kind, q) && q.w.WIdle? && GetStep(kind, q, more) == q
    ensures Held(q) == [] && (q.r.RPoll? || q.r.RReadFd?)
  {
    if q.r.RPoll? || q.r.RCheck? {
      Fd.PollKeepsInv(q);
    }
    Fd.ReaderEffect(q, kind.Polling? || more);
    hide Ring.Perform;
  }

  // ---------------------------------------------------------------- the invariant

  /** The protocol state the system stands for. */
  ghost function Abs(s: System): Echo.State
    requires Fd.Inv(s.toServer) && Fd.Inv(s.toClient)
  {
    s.locals.(toServer := Held(s.toServer), toClient := Held(s.toClient))
  }

  /** The message the client hands over next, as its variables say. */
  predicate HandsOver(e: Echo.State, value: int) {
    match e.client
    case CInit(i) => i < |e.clientConn| && value == Echo.Encode(i, 0)
    case CPut(v) => v == value
    case _ => false
  }

  /** The client puts what its variables say, gets only when it is to receive, one at a time. */
  predicate ClientInStep(s: System) {
    && (!s.toServer.w.WIdle? ==> s.toClient.r.RIdle?)
    && (Waiting(s.toClient.r) ==> s.locals.client.CGet?)
    && (s.toServer.w.WPut? ==> HandsOver(s.locals, s.toServer.w.val))
  }

  predicate ServerInStep(s: System) {
    && (!s.toClient.w.WIdle? ==> s.toServer.r.RIdle?)
    && (Waiting(s.toServer.r) ==> s.locals.server.SGet?)
    && (s.toClient.w.WPut? ==> s.locals.server == Echo.SPut(s.toClient.w.val))
  }

  ghost predicate Inv(kind: Kind, s: System, n: nat, queries: int) {
    && QueueOk(kind, s.toServer) && QueueOk(kind, s.toClient)
    && s.locals == Emptied(s.locals)
    && ClientInStep(s) && ServerInStep(s)
    && Echo.Inv(Abs(s), n, queries)
  }

  /** The access at which the protocol's thread takes its step: handing over a message, receiving
      one, or, for the client, leaving its opening loop. */
  predicate ClientActs(s: System) {
    if s.toServer.w != Fd.WIdle then s.toServer.w.WPut?
    else if s.toClient.r != Fd.RIdle then s.toClient.r.RTake?
    else s.locals.client.CInit? && s.locals.client.i >= |s.locals.clientConn|
  }

  predicate ServerActs(s: System) {
    if s.toClient.w != Fd.WIdle then s.toClient.w.WPut? else s.toServer.r.RTake?
  }

  lemma FewHeld(kind: Kind, s: System, n: nat, queries: int)
    requires Inv(kind, s, n, queries)
    ensures |Held(s.toServer)| <= Echo.MAX_CONNECTIONS && |Held(s.toClient)| <= Echo.MAX_CONNECTIONS
  {
    Echo.MessagesAreFew(Abs(s), n, queries);
    hide Fd.Inv;
    hide Echo.Inv;
  }

  /** What a move of the client leaves: both queues and both threads in order, and the
      protocol after the client's step or unchanged. */
  ghost predicate ClientSimulated(kind: Kind, s: System, s': System, n: nat, queries: int)
    requires Inv(kind, s, n, queries)
  {
    && QueueOk(kind, s'.toServer) && QueueOk(kind, s'.toClient)
    && s'.locals == Emptied(s'.locals) && ClientInStep(s') && ServerInStep(s')
    && Abs(s') == (if ClientActs(s) then Echo.ClientStep(Abs(s), queries) else Abs(s))
  }

  /** Handing over a message by its value is the protocol's step on the queue. */
  lemma HandOverByValue(e: Echo.State, value: int, held: seq<int>, others: seq<int>, queries: int)
    requires e == Emptied(e)
    ensures HandsOver(e, value) ==>
      var handed := Emptied(Echo.ClientStep(e, queries));
      && handed.server == e.server && !handed.client.CPut?
      && Echo.ClientStep(e.(toServer := held, toClient := others), queries)
           == handed.(toServer := held + [value], toClient := others)
    ensures e.server == Echo.SPut(value) ==>
      var handed := Emptied(Echo.ServerStep(e, queries));
      && handed.client == e.client && |handed.clientConn| == |e.clientConn|
      && Echo.ServerStep(e.(toServer := others, toClient := held), queries)
           == handed.(toServer := others, toClient := held + [value])
  {
    hide Echo.Co;
    hide Echo.No;
    hide Echo.Encode;
  }

  lemma ClientPuts(kind: Kind, s: System, more: bool, n: nat, queries: int)
    requires Inv(kind, s, n, queries) && s.toServer.w != Fd.WIdle
    ensures ClientSimulated(kind, s, ClientMove(kind, s, more, queries), n, queries)
  {
    FewHeld(kind, s, n, queries);
    PutStepOk(kind, s.toServer, 0);
    if s.toServer.w.WPut? {
      HandOverByValue(s.locals, s.toServer.w.val, Held(s.toServer), Held(s.toClient), queries);
    }
    hide Echo.ClientStep;
    hide Echo.Inv;
    hide Fd.Inv;
    hide QueueOk;
    hide Held;
    hide PutStep;
    hide Echo.Encode;
  }

  /** Receiving the oldest message by its value is the protocol's step on the queue. */
  lemma ReceiveByValue(e: Echo.State, held: seq<int>, others: seq<int>, queries: int)
    requires held != [] && e == Emptied(e)
    ensures e.client.CGet? ==>
      var received := Emptied(Echo.ClientStep(e.(toClient := [held[0]]), queries));
      && received.server == e.server
      && Echo.ClientStep(e.(toServer := others, toClient := held), queries)
           == received.(toServer := others, toClient := held[1..])
    ensures e.server.SGet? ==>
      var received := Emptied(Echo.ServerStep(e.(toServer := [held[0]]), queries));
      && received.client == e.client && |received.clientConn| == |e.clientConn|
      && Echo.ServerStep(e.(toServer := held, toClient := others), queries)
           == received.(toServer := held[1..], toClient := others)
  {
    hide Echo.Co;
    hide Echo.No;
  }

  lemma ClientTakes(kind: Kind, s: System, more: bool, n: nat, queries: int)
    requires Inv(kind, s, n, queries) && s.toServer.w == Fd.WIdle && s.toClient.r.RTake?
    ensures ClientSimulated(kind, s, ClientMove(kind, s, more, queries), n, queries)
  {
    GetStepOk(kind, s.toClient, more);
    ReceiveByValue(s.locals, Held(s.toClient), Held(s.toServer), queries);
    hide Echo.ClientStep;
    hide Echo.Inv;
    hide Fd.Inv;
    hide QueueOk;
    hide Held;
    hide GetStep;
    hide Echo.Encode;
  }

  lemma ClientPolls(kind: Kind, s: System, more: bool, n: nat, queries: int)
    requires Inv(kind, s, n, queries) && s.toServer.w == Fd.WIdle && s.toClient.r != Fd.RIdle && !s.toClient.r.RTake?
    ensures ClientSimulated(kind, s, ClientMove(kind, s, more, queries), n, queries)
  {
    GetStepOk(kind, s.toClient, more);
    hide Echo.Inv;
    hide QueueOk;
    hide Held;
    hide PutStep;
    hide GetStep;
    hide Echo.Co;
    hide Echo.No;
    hide Echo.Encode;
    hide Fd.Inv;
  }

  lemma ClientBegins(kind: Kind, s: System, more: bool, n: nat, queries: int)
    requires Inv(kind, s, n, queries) && s.toServer.w == Fd.WIdle && s.toClient.r == Fd.RIdle
    ensures ClientSimulated(kind, s, ClientMove(kind, s, more, queries), n, queries)
  {
    FewHeld(kind, s, n, queries);
    match s.locals.client
    case CInit(i) => PutStepOk(kind, s.toServer, Echo.Encode(i, 0));
    case CGet => GetStepOk(kind, s.toClient, more);
    case CPut(value) => PutStepOk(kind, s.toServer, value);
    case _ =>
    hide Echo.Inv;
    hide QueueOk;
    hide Held;
    hide PutStep;
    hide GetStep;
    hide Echo.Co;
    hide Echo.No;
    hide Echo.Encode;
    hide Fd.Inv;
  }

  lemma ClientSimulates(kind: Kind, s: System, more: bool, n: nat, queries: int)
    requires Inv(kind, s, n, queries)
    ensures ClientSimulated(kind, s, ClientMove(kind, s, more, queries), n, queries)
  {
    if s.toServer.w != Fd.WIdle {
      ClientPuts(kind, s, more, n, queries);
    } else if s.toClient.r.RTake? {
      ClientTakes(kind, s, more, n, queries);
    } else if s.toClient.r != Fd.RIdle {
      ClientPolls(kind, s, more, n, queries);
    } else {
      ClientBegins(kind, s, more, n, queries);
    }
  }

  /** What a move of the server leaves: both queues and both threads in order, and the
      protocol after the server's step or unchanged. */
  ghost predicate ServerSimulated(kind: Kind, s: System, s': System, n: nat, queries: int)
    requires Inv(kind, s, n, queries)
  {
    && QueueOk(kind, s'.toServer) && QueueOk(kind, s'.toClient)
    && s'.locals == Emptied(s'.locals) && ClientInStep(s') && ServerInStep(s')
    && Abs(s') == (if ServerActs(s) then Echo.ServerStep(Abs(s), queries) else Abs(s))
  }

  lemma ServerPuts(kind: Kind, s: System, more: bool, n: nat, queries: int)
    requires Inv(kind, s, n, queries) && s.toClient.w != Fd.WIdle
    ensures ServerSimulated(kind, s, ServerMove(kind, s, more, queries), n, queries)
  {
    FewHeld(kind, s, n, queries);
    PutStepOk(kind, s.toClient, 0);
    if s.toClient.w.WPut? {
      HandOverByValue(s.locals, s.toClient.w.val, Held(s.toClient), Held(s.toServer), queries);
    }
    hide Echo.ServerStep;
    hide Echo.Inv;
    hide Fd.Inv;
    hide QueueOk;
    hide Held;
    hide PutStep;
    hide Echo.Encode;
  }

  lemma ServerTakes(kind: Kind, s: System, more: bool, n: nat, queries: int)
    requires Inv(kind, s, n, queries) && s.toClient.w == Fd.WIdle && s.toServer.r.RTake?
    ensures ServerSimulated(kind, s, ServerMove(kind, s, more, queries), n, queries)
  {
    GetStepOk(kind, s.toServer, more);
    ReceiveByValue(s.locals, Held(s.toServer), Held(s.toClient), queries);
    hide Echo.ServerStep;
    hide Echo.Inv;
    hide Fd.Inv;
    hide QueueOk;
    hide Held;
    hide GetStep;
    hide Echo.Encode;
  }

  lemma ServerPolls(kind: Kind, s: System, more: bool, n: nat, queries: int)
    requires Inv(kind, s, n, queries) && s.toClient.w == Fd.WIdle && s.toServer.r != Fd.RIdle && !s.toServer.r.RTake?
    ensures ServerSimulated(kind, s, ServerMove(kind, s, more, queries), n, queries)
  {
    GetStepOk(kind, s.toServer, more);
    hide Echo.Inv;
    hide QueueOk;
    hide Held;
    hide PutStep;
    hide GetStep;
    hide Echo.Co;
    hide Echo.No;
    hide Echo.Encode;
    hide Fd.Inv;
  }

  lemma ServerBegins(kind: Kind, s: System, more: bool, n: nat, queries: int)
    requires Inv(kind, s, n, queries) && s.toClient.w == Fd.WIdle && s.toServer.r == Fd.RIdle
    ensures ServerSimulated(kind, s, ServerMove(kind, s, more, queries), n, queries)
  {
    FewHeld(kind, s, n, queries);
    match s.locals.server
    case SGet => GetStepOk(kind, s.toServer, more);
    case SPut(value) => PutStepOk(kind, s.toClient, value);
    case _ =>
    hide Echo.Inv;
    hide QueueOk;
    hide Held;
    hide PutStep;
    hide GetStep;
    hide Echo.Co;
    hide Echo.No;
    hide Echo.Encode;
    hide Fd.Inv;
  }

  lemma ServerSimulates(kind: Kind, s: System, more: bool, n: nat, queries: int)
    requires Inv(kind, s, n, queries)
    ensures ServerSimulated(kind, s, ServerMove(kind, s, more, queries), n, queries)
  {
    if s.toClient.w != Fd.WIdle {
      ServerPuts(kind, s, more, n, queries);
    } else if s.toServer.r.RTake? {
      ServerTakes(kind, s, more, n, queries);
    } else if s.toServer.r != Fd.RIdle {
      ServerPolls(kind, s, more, n, queries);
    } else {
      ServerBegins(kind, s, more, n, queries);
    }
  }

  function Acts(s: System, who: Echo.Thread): bool {
    if who.Client? then ClientActs(s) else ServerActs(s)
  }

  /** Every access keeps the invariant, and is a step of the protocol or none. */
  lemma StepSimulates(kind: Kind, s: System, m: Move, n: nat, queries: int)
    requires Inv(kind, s, n, queries)
    ensures Inv(kind, Step(kind, s, m, queries), n, queries)
    ensures Abs(Step(kind, s, m, queries))
      == if Acts(s, m.who) then Echo.Step(Abs(s), m.who, queries) else Abs(s)
  {
    if m.who.Client? {
      ClientSimulates(kind, s, m.more, n, queries);
    } else {
      ServerSimulates(kind, s, m.more, n, queries);
    }
    Echo.StepKeepsInv(Abs(s), m.who, n, queries);
    hide ClientMove;
    hide ServerMove;
    hide Echo.Inv;
    hide QueueOk;
    hide Held;
    hide Acts;
  }

  // ---------------------------------------------------------------- runs

  function Initial(n: nat, q: seq<int>): System {
    System(Echo.Initial(n), Fd.Initial(q), Fd.Initial(q))
  }

  lemma InitialOk(kind: Kind, n: nat, queries: int, q: seq<int>)
    requires |q| == Ring.QUEUE_BUF_SIZE && n <= Echo.MAX_CONNECTIONS && queries < Echo.NO_RANGE
    ensures Inv(kind, Initial(n, q), n, queries) && Abs(Initial(n, q)) == Echo.Initial(n)
  {
    Fd.InitialInv(q);
    Echo.InitialOk(n, queries);
    assert Held(Fd.Initial(q)) == [];
    hide Fd.Inv;
    hide Echo.Inv;
  }

  /** The system after the moves; the rings start with any contents. */
  ghost function Run(kind: Kind, n: nat, queries: int, q: seq<int>, moves: seq<Move>): (s: System)
    requires |q| == Ring.QUEUE_BUF_SIZE
    ensures |s.toServer.ring.ring.q| == Ring.QUEUE_BUF_SIZE == |s.toClient.ring.ring.q|
  {
    if moves == [] then Initial(n, q)
    else
      var m := |moves| - 1;
      Step(kind, Run(kind, n, queries, q, moves[..m]), moves[m], queries)
  }

  /** Every run over real queues is a run of the protocol over ideal ones. */
  lemma {:induction false} EveryRunSimulates(kind: Kind, n: nat, queries: int, q: seq<int>, moves: seq<Move>)
    returns (schedule: seq<Echo.Thread>)
    requires |q| == Ring.QUEUE_BUF_SIZE && n <= Echo.MAX_CONNECTIONS && queries < Echo.NO_RANGE
    ensures Inv(kind, Run(kind, n, queries, q, moves), n, queries)
    ensures Abs(Run(kind, n, queries, q, moves)) == Echo.Run(n, queries, schedule)
  {
    hide Inv;
    hide Echo.Step;
    hide Step;
    if moves == [] {
      InitialOk(kind, n, queries, q);
      schedule := [];
    } else {
      var k := |moves| - 1;
      schedule := EveryRunSimulates(kind, n, queries, q, moves[..k]);
      var s, m := Run(kind, n, queries, q, moves[..k]), moves[k];
      StepSimulates(kind, s, m, n, queries);
      if Acts(s, m.who) {
        Echo.RunSnoc(n, queries, schedule, m.who);
        schedule := schedule + [m.who];
      }
    }
  }

  /** In every run with at most 128 connections, over plain or sleeping queues: no put finds its
      ring full, no order check fails, and the rings hold at most one message per connection. */
  lemma PutNeverFails(kind: Kind, n: nat, queries: int, q: seq<int>, moves: seq<Move>)
    requires |q| == Ring.QUEUE_BUF_SIZE && n <= Echo.MAX_CONNECTIONS && queries < Echo.NO_RANGE
    ensures var s := Run(kind, n, queries, q, moves);
      && !s.toServer.w.WFailed? && !s.toClient.w.WFailed?
      && !s.locals.server.SFailed? && !s.locals.client.CFailed?
      && Fd.Inv(s.toServer) && Fd.Inv(s.toClient)
      && |Held(s.toServer)| + |Held(s.toClient)| <= n
  {
    var schedule := EveryRunSimulates(kind, n, queries, q, moves);
    Echo.MessagesAreFew(Abs(Run(kind, n, queries, q, moves)), n, queries);
    hide Run;
    hide Fd.Inv;
    hide Held;
  }

  // ---------------------------------------------------------------- every fair run ends

  /** Both threads have left their loops and hold no queue operation. */
  predicate Done(s: System) {
    && s.locals.client.CDone? && s.locals.server.SDone?
    && s.toServer.w.WIdle? && s.toServer.r.RIdle? && s.toClient.w.WIdle? && s.toClient.r.RIdle?
  }

  ghost function Measure(s: System, queries: int): int
    requires Fd.Inv(s.toServer) && Fd.Inv(s.toClient)
  {
    8 * Echo.Remaining(Abs(s), queries) + QueueRank(s.toServer) + QueueRank(s.toClient)
  }

  lemma ActionProgress(s: System, who: Echo.Thread, n: nat, queries: int, kind: Kind)
    requires Inv(kind, s, n, queries) && Acts(s, who)
    ensures Echo.Remaining(Echo.Step(Abs(s), who, queries), queries) < Echo.Remaining(Abs(s), queries)
  {
    if who.Client? && s.toClient.r.RTake? {
      GetStepOk(kind, s.toClient, true);
    }
    if who.Server? && s.toServer.r.RTake? {
      GetStepOk(kind, s.toServer, true);
    }
    hide QueueOk;
    hide Held;
    hide Echo.ClientStep;
    hide Echo.ServerStep;
    hide Echo.Inv;
    hide Echo.Remaining;
    Echo.ReadyThreadsStep(Abs(s), queries);
    if who.Client? {
      Echo.ClientProgress(Abs(s), n, queries);
    } else {
      Echo.ServerProgress(Abs(s), n, queries);
    }
  }

  /** A move changes the ranks of the queues by less than one protocol step is worth, and lowers
      them if it changes the state without being one. */
  predicate RanksOk(s: System, s': System, acts: bool) {
    var before, after := QueueRank(s.toServer) + QueueRank(s.toClient), QueueRank(s'.toServer) + QueueRank(s'.toClient);
    if acts then after <= before + 7 else s' == s || after < before
  }

  lemma ClientRanks(kind: Kind, s: System, more: bool, n: nat, queries: int)
    requires Inv(kind, s, n, queries)
    ensures RanksOk(s, ClientMove(kind, s, more, queries), ClientActs(s))
  {
    FewHeld(kind, s, n, queries);
    if s.toServer.w != Fd.WIdle {
      PutStepOk(kind, s.toServer, 0);
    } else if s.toClient.r != Fd.RIdle {
      GetStepOk(kind, s.toClient, more);
    } else {
      match s.locals.client
      case CInit(i) => PutStepOk(kind, s.toServer, Echo.Encode(i, 0));
      case CGet => GetStepOk(kind, s.toClient, more);
      case CPut(value) => PutStepOk(kind, s.toServer, value);
      case _ =>
    }
    hide Echo.Inv;
    hide Fd.Inv;
    hide QueueOk;
    hide Held;
    hide PutStep;
    hide GetStep;
    hide QueueRank;
    hide Echo.ClientStep;
    hide Echo.ServerStep;
    hide Echo.Encode;
  }

  lemma ServerRanks(kind: Kind, s: System, more: bool, n: nat, queries: int)
    requires Inv(kind, s, n, queries)
    ensures RanksOk(s, ServerMove(kind, s, more, queries), ServerActs(s))
  {
    FewHeld(kind, s, n, queries);
    if s.toClient.w != Fd.WIdle {
      PutStepOk(kind, s.toClient, 0);
    } else if s.toServer.r != Fd.RIdle {
      GetStepOk(kind, s.toServer, more);
    } else {
      match s.locals.server
      case SGet => GetStepOk(kind, s.toServer, more);
      case SPut(value) => PutStepOk(kind, s.toClient, value);
      case _ =>
    }
    hide Echo.Inv;
    hide Fd.Inv;
    hide QueueOk;
    hide Held;
    hide PutStep;
    hide GetStep;
    hide QueueRank;
    hide Echo.ClientStep;
    hide Echo.ServerStep;
    hide Echo.Encode;
  }

  /** Every move that changes the state lowers the measure. */
  lemma MoveLowers(kind: Kind, s: System, m: Move, n: nat, queries: int)
    requires Inv(kind, s, n, queries)
    ensures Inv(kind, Step(kind, s, m, queries), n, queries)
    ensures var s' := Step(kind, s, m, queries);
      s' == s || Measure(s', queries) < Measure(s, queries)
  {
    StepSimulates(kind, s, m, n, queries);
    if m.who.Client? {
      ClientRanks(kind, s, m.more, n, queries);
    } else {
      ServerRanks(kind, s, m.more, n, queries);
    }
    assert RanksOk(s, Step(kind, s, m, queries), Acts(s, m.who));
    if Acts(s, m.who) {
      ActionProgress(s, m.who, n, queries, kind);
    }
    hide Step;
    hide Acts;
    hide Echo.Step;
    hide Echo.Inv;
    hide Echo.Remaining;
    hide QueueRank;
    hide Held;
  }

  /** A client that cannot move owes its own queue nothing; once the other side owes it
      nothing either, the protocol has no step for it. */
  lemma ClientStuck(kind: Kind, s: System, more: bool, n: nat, queries: int)
    requires Inv(kind, s, n, queries) && ClientMove(kind, s, more, queries) == s
    ensures s.toServer.w.WIdle? && (s.toClient.r.RIdle? || s.locals.client.CGet?)
    ensures s.toClient.w.WIdle? ==> Echo.ClientStep(Abs(s), queries) == Abs(s)
  {
    FewHeld(kind, s, n, queries);
    if s.toServer.w != Fd.WIdle {
      PutStepOk(kind, s.toServer, 0);
    } else if s.toClient.r != Fd.RIdle {
      GetStepOk(kind, s.toClient, more);
      if s.toClient.w.WIdle? && GetStep(kind, s.toClient, more) == s.toClient {
        IdleGetMeansEmpty(kind, s.toClient, more);
      }
    } else {
      match s.locals.client
      case CInit(i) => PutStepOk(kind, s.toServer, Echo.Encode(i, 0));
      case CPut(value) => PutStepOk(kind, s.toServer, value);
      case CGet => GetStepOk(kind, s.toClient, more);
      case _ =>
    }
    hide Echo.Inv;
    hide Fd.Inv;
    hide QueueOk;
    hide PutStep;
    hide GetStep;
    hide Held;
    hide Echo.Encode;
    hide Echo.Co;
    hide Echo.No;
  }

  /** A server that cannot move owes its own queue nothing; once the other side owes it
      nothing either, the protocol has no step for it. */
  lemma ServerStuck(kind: Kind, s: System, more: bool, n: nat, queries: int)
    requires Inv(kind, s, n, queries) && ServerMove(kind, s, more, queries) == s
    ensures s.toClient.w.WIdle? && (s.toServer.r.RIdle? || s.locals.server.SGet?)
    ensures s.toServer.w.WIdle? ==> Echo.ServerStep(Abs(s), queries) == Abs(s)
  {
    FewHeld(kind, s, n, queries);
    if s.toClient.w != Fd.WIdle {
      PutStepOk(kind, s.toClient, 0);
    } else if s.toServer.r != Fd.RIdle {
      GetStepOk(kind, s.toServer, more);
      if s.toServer.w.WIdle? && GetStep(kind, s.toServer, more) == s.toServer {
        IdleGetMeansEmpty(kind, s.toServer, more);
      }
    } else {
      match s.locals.server
      case SPut(value) => PutStepOk(kind, s.toClient, value);
      case SGet => GetStepOk(kind, s.toServer, more);
      case _ =>
    }
    hide Echo.Inv;
    hide Fd.Inv;
    hide QueueOk;
    hide PutStep;
    hide GetStep;
    hide Held;
    hide Echo.Encode;
    hide Echo.Co;
    hide Echo.No;
  }

  /** If neither thread can move, both are done, and every connection made its exchanges. */
  lemma StuckIsDone(kind: Kind, s: System, a: bool, b: bool, n: nat, queries: int)
    requires Inv(kind, s, n, queries)
    requires ClientMove(kind, s, a, queries) == s && ServerMove(kind, s, b, queries) == s
    ensures Done(s)
  {
    FewHeld(kind, s, n, queries);
    ClientStuck(kind, s, a, n, queries);
    ServerStuck(kind, s, b, n, queries);
    if s.toServer.w.WIdle? && s.toClient.w.WIdle? {
      Echo.QuietMeansDone(Abs(s), n, queries);
    }
    hide Echo.Inv;
    hide QueueOk;
    hide Held;
  }

  /** A stretch of a run in which both threads get to move. */
  ghost predicate Fair(moves: seq<Move>) {
    (exists m :: m in moves && m.who.Client?) && (exists m :: m in moves && m.who.Server?)
  }

  /** The system after a stretch of moves from any state. */
  ghost function After(kind: Kind, s: System, moves: seq<Move>, n: nat, queries: int): (t: System)
    requires Inv(kind, s, n, queries)
    ensures Inv(kind, t, n, queries)
    decreases |moves|
  {
    if moves == [] then s
    else
      MoveLowers(kind, s, moves[0], n, queries);
      After(kind, Step(kind, s, moves[0], queries), moves[1..], n, queries)
  }

  lemma {:induction false} StretchLowersOrStays(kind: Kind, s: System, moves: seq<Move>, n: nat, queries: int)
    requires Inv(kind, s, n, queries)
    ensures var t := After(kind, s, moves, n, queries);
      || Measure(t, queries) < Measure(s, queries)
      || (t == s && forall m :: m in moves ==> Step(kind, s, m, queries) == s)
    decreases |moves|
  {
    if moves != [] {
      var s' := Step(kind, s, moves[0], queries);
      MoveLowers(kind, s, moves[0], n, queries);
      StretchLowersOrStays(kind, s', moves[1..], n, queries);
      hide Inv;
      hide Measure;
      hide Step;
    }
  }

  lemma FairStretchLowers(kind: Kind, s: System, moves: seq<Move>, n: nat, queries: int)
    requires Inv(kind, s, n, queries) && Fair(moves)
    ensures var t := After(kind, s, moves, n, queries);
      Measure(t, queries) < Measure(s, queries) || (t == s && Done(s))
  {
    StretchLowersOrStays(kind, s, moves, n, queries);
    var c :| c in moves && c.who.Client?;
    var v :| v in moves && v.who.Server?;
    if Step(kind, s, c, queries) == s && Step(kind, s, v, queries) == s {
      StuckIsDone(kind, s, c.more, v.more, n, queries);
    }
    hide Inv;
    hide Measure;
    hide ClientMove;
    hide ServerMove;
  }

  /** The system after several stretches. */
  ghost function AfterAll(kind: Kind, s: System, stretches: seq<seq<Move>>, n: nat, queries: int): (t: System)
    requires Inv(kind, s, n, queries)
    ensures Inv(kind, t, n, queries)
    decreases |stretches|
  {
    if stretches == [] then s
    else AfterAll(kind, After(kind, s, stretches[0], n, queries), stretches[1..], n, queries)
  }

  lemma MeasureBounds(kind: Kind, s: System, n: nat, queries: int)
    requires Inv(kind, s, n, queries)
    ensures 0 <= Measure(s, queries)
      <= 8 * (4 * (Echo.Rounds(queries) * n) + n + 3) + QueueRank(s.toServer) + QueueRank(s.toClient)
  {
    Echo.RemainingBounds(Abs(s), n, queries);
    hide Echo.Inv;
    hide Echo.Remaining;
    hide Held;
  }

  lemma {:induction false} FairStretchesEnd(kind: Kind, s: System, stretches: seq<seq<Move>>, n: nat, queries: int)
    requires Inv(kind, s, n, queries) && forall x :: x in stretches ==> Fair(x)
    requires |stretches| > Measure(s, queries)
    ensures Done(AfterAll(kind, s, stretches, n, queries))
    decreases |stretches|
  {
    MeasureBounds(kind, s, n, queries);
    var x, rest := stretches[0], stretches[1..];
    assert x in stretches;
    FairStretchLowers(kind, s, x, n, queries);
    var t := After(kind, s, x, n, queries);
    MeasureBounds(kind, t, n, queries);
    hide Inv;
    hide Measure;
    if Measure(t, queries) < Measure(s, queries) {
      FairStretchesEnd(kind, t, rest, n, queries);
    } else {
      DoneStays(kind, s, rest, n, queries);
    }
  }

  lemma {:induction false} DoneStays(kind: Kind, s: System, stretches: seq<seq<Move>>, n: nat, queries: int)
    requires Inv(kind, s, n, queries) && Done(s)
    ensures AfterAll(kind, s, stretches, n, queries) == s
    decreases |stretches|
  {
    if stretches != [] {
      DoneIsStill(kind, s, stretches[0], n, queries);
      DoneStays(kind, s, stretches[1..], n, queries);
    }
  }

  lemma {:induction false} DoneIsStill(kind: Kind, s: System, moves: seq<Move>, n: nat, queries: int)
    requires Inv(kind, s, n, queries) && Done(s)
    ensures After(kind, s, moves, n, queries) == s
    decreases |moves|
  {
    if moves != [] {
      assert Step(kind, s, moves[0], queries) == s;
      hide Inv;
      DoneIsStill(kind, s, moves[1..], n, queries);
    }
  }

  /** In every fair schedule the benchmark ends, over polling and over sleeping queues: after more
      than 8 · (4 · rounds · n + n + 3) + 14 stretches in each of which both threads move, both
      have left their loops with all exchanges made and nothing left in the rings. */
  lemma EveryFairRunEnds(kind: Kind, n: nat, queries: int, q: seq<int>, stretches: seq<seq<Move>>)
    requires |q| == Ring.QUEUE_BUF_SIZE && n <= Echo.MAX_CONNECTIONS && queries < Echo.NO_RANGE
    requires forall x :: x in stretches ==> Fair(x)
    requires |stretches| > 8 * (4 * (Echo.Rounds(queries) * n) + n + 3) + 14
    ensures Inv(kind, Initial(n, q), n, queries)
    ensures var t := AfterAll(kind, Initial(n, q), stretches, n, queries);
      && Done(t) && Held(t.toServer) == [] == Held(t.toClient)
      && |t.locals.clientConn| == |t.locals.serverConn| == n
      && forall co :: 0 <= co < n ==> t.locals.clientConn[co] == t.locals.serverConn[co] == Echo.Rounds(queries)
  {
    var s := Initial(n, q);
    InitialOk(kind, n, queries, q);
    MeasureBounds(kind, s, n, queries);
    FairStretchesEnd(kind, s, stretches, n, queries);
    var t := AfterAll(kind, s, stretches, n, queries);
    DoneMeansExchanged(kind, t, n, queries);
    hide Inv;
    hide AfterAll;
    hide Measure;
  }

  lemma DoneMeansExchanged(kind: Kind, s: System, n: nat, queries: int)
    requires Inv(kind, s, n, queries) && Done(s)
    ensures Held(s.toServer) == [] == Held(s.toClient)
    ensures |s.locals.clientConn| == |s.locals.serverConn| == n
    ensures forall co :: 0 <= co < n ==> s.locals.clientConn[co] == s.locals.serverConn[co] == Echo.Rounds(queries)
  {
    Echo.QuietMeansDone(Abs(s), n, queries);
    hide Held;
  }
}
