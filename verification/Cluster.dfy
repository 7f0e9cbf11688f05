/**
 The cluster behind the wire, as one queue and one result store, and the replies a client may see.
 A request may be refused, never arrive, be carried out with its reply lost, fail at the server, or
 be carried out and answered. Between two of our requests, other clients may issue any number.
 */
module Cluster {
  import opened Wrappers
  import opened TaskQueue

  datatype Request =
    | Enqueue(payload: Bytes, maxAttempts: nat)
    | Lease(worker: nat, timeoutMs: nat, filter: Bytes)
    | Complete(qid: nat, token: Token)
    | Fail(qid: nat, token: Token)
    | Heartbeat(qid: nat, token: Token, extendByMs: nat)
    | TaskState(qid: nat)
    | Put(qid: nat, bytes: Bytes)
    | Get(qid: nat, consume: bool)
    | Sweep

  /** The return codes the client tells apart; every other code is `Rejected`. */
  datatype Rc = Success | QueueEmpty | ConsensusRefusal | TransportFailure | Rejected

  datatype Body =
    | Nothing
    | NewTask(id: nat)
    | Granted(grant: Grant)
    | Known(state: QState)
    | UnknownState
    | Found(put: nat, bytes: Bytes)
    | NotFound

  datatype Reply = Reply(rc: Rc, body: Body)

  /** `puts` is the history of effective puts; the store maps a task to the put it still holds. */
  datatype PutRecord = PutRecord(qid: nat, bytes: Bytes)

  datatype State = State(queue: Queue, puts: seq<PutRecord>, store: map<nat, nat>)

  /** What the server fills in by itself: its clock, the Raft half of a token, a newer state code. */
  datatype Server = Server(now: nat, term: nat, index: nat, newerStates: bool)

  function Retryable(rc: Rc): bool { rc == ConsensusRefusal || rc == TransportFailure }

  function Fenced(s: State, end: (Queue, bool)): (State, Reply) {
    (s.(queue := end.0), if end.1 then Reply(Success, Nothing) else Reply(Rejected, Nothing))
  }

  function Execute(s: State, req: Request, server: Server): (State, Reply) {
    match req
    case Enqueue(payload, maxAttempts) =>
      var q := Enqueued(s.queue, payload, maxAttempts);
      (s.(queue := q), Reply(Success, NewTask(|q.tasks|)))
    case Lease(_, timeoutMs, filter) =>
      var (q, grant) := LeaseEarliest(s.queue, filter, timeoutMs, server.now, server.term, server.index);
      if grant.Some? then (s.(queue := q), Reply(Success, Granted(grant.value)))
      else (s, Reply(QueueEmpty, Nothing))
    case Complete(qid, token) => Fenced(s, EndIfHeld(s.queue, qid, token, ByComplete))
    case Fail(qid, token) => Fenced(s, EndIfHeld(s.queue, qid, token, ByFail))
    case Heartbeat(qid, token, extendByMs) => Fenced(s, Extended(s.queue, qid, token, extendByMs, server.now))
    case TaskState(qid) =>
      if server.newerStates then (s, Reply(Success, UnknownState))
      else if 1 <= qid <= |s.queue.tasks| then (s, Reply(Success, Known(s.queue.tasks[qid - 1].state)))
      else (s, Reply(Rejected, Nothing))
    case Put(qid, bytes) =>
      (s.(puts := s.puts + [PutRecord(qid, bytes)], store := s.store[qid := |s.puts|]), Reply(Success, Nothing))
    case Get(qid, consume) =>
      if qid in s.store && s.store[qid] < |s.puts| then
        (if consume then s.(store := s.store - {qid}) else s,
         Reply(Success, Found(s.store[qid], s.puts[s.store[qid]].bytes)))
      else (s, Reply(Success, NotFound))
    case Sweep => (s.(queue := Swept(s.queue, server.now, 0)), Reply(Success, Nothing))
  }

  /** A request of another client, and the server's clock and consensus state when it is carried out. */
  datatype Rival = Rival(request: Request, server: Server)

  /** The other clients' requests, in order. */
  function ExecuteAll(s: State, rivals: seq<Rival>): State
    decreases |rivals|
  {
    if rivals == [] then s else ExecuteAll(Execute(s, rivals[0].request, rivals[0].server).0, rivals[1..])
  }

  /**
   An enqueue, a put and a get succeed whenever they are carried out, and a successful reply carries
   what was asked for; the server itself never sends a retryable code.
   */
  predicate Answers(req: Request, reply: Reply) {
    && !Retryable(reply.rc)
    && (req.Enqueue? || req.Put? || req.Get? ==> reply.rc.Success?)
    && (req.Enqueue? ==> reply.body.NewTask?)
    && (req.Lease? ==> (reply.rc.Success? && reply.body.Granted?) || reply.rc.QueueEmpty?)
    && (reply.rc.QueueEmpty? ==> req.Lease?)
    && (req.TaskState? && reply.rc.Success? ==> reply.body.Known? || reply.body.UnknownState?)
    && (req.Get? ==> reply.body.Found? || reply.body.NotFound?)
  }

  lemma ExecuteAnswers(s: State, req: Request, server: Server)
    ensures Answers(req, Execute(s, req, server).1)
  {
    hide Swept, Enqueued, LeaseEarliest;
  }

  /**
   When the broker accepts a request: an enqueue, a put, a get and a sweep always; a lease if some pending
   task matches; a complete, a fail and a heartbeat if the lease is held under that very token; a state
   query if there is such a task, whose state it answers unless that has a code this client does not know.
   */
  lemma AcceptsExactly(s: State, req: Request, server: Server)
    ensures var (reply, tasks) := (Execute(s, req, server).1, s.queue.tasks);
      && (req.Enqueue? || req.Put? || req.Get? || req.Sweep? ==> reply.rc == Success)
      && (req.Lease? ==>
            reply.rc == if exists k :: 0 <= k < |tasks| && tasks[k].state == Pending && Matches(tasks[k].payload, req.filter)
                        then Success else QueueEmpty)
      && (req.Complete? || req.Fail? || req.Heartbeat? ==>
            reply.rc == if req.qid > 0 && req.qid <= |tasks| && tasks[req.qid - 1].state == Leased
                           && tasks[req.qid - 1].token == req.token then Success else Rejected)
      && (req.TaskState? && !server.newerStates ==>
            reply == if req.qid == 0 || req.qid > |tasks| then Reply(Rejected, Nothing)
                     else Reply(Success, Known(tasks[req.qid - 1].state)))
      && (req.TaskState? && server.newerStates ==> !reply.body.Known?)
  {
    hide Swept, Matches;
    if req.Lease? {
      LeasedExactly(s.queue, req.filter, req.timeoutMs, server.now, server.term, server.index);
    }
  }

  lemma EndIfHeldKeepsValid(q: Queue, qid: nat, token: Token, how: How)
    requires Valid(q)
    ensures Valid(EndIfHeld(q, qid, token, how).0)
  {
    hide Valid, EndLease;
    if Holds(q, qid, token) {
      EndKeepsValid(q, qid - 1, how);
    }
  }

  lemma ExecuteKeepsValid(s: State, req: Request, server: Server)
    requires Valid(s.queue)
    ensures Valid(Execute(s, req, server).0.queue)
  {
    hide Valid, Enqueued, LeaseEarliest, EndIfHeld, Extended, Swept;
    match req
    case Enqueue(payload, maxAttempts) => EnqueuedKeepsValid(s.queue, payload, maxAttempts);
    case Lease(_, timeoutMs, filter) => LeaseKeepsValid(s.queue, filter, timeoutMs, server.now, server.term, server.index);
    case Complete(qid, token) => EndIfHeldKeepsValid(s.queue, qid, token, ByComplete);
    case Fail(qid, token) => EndIfHeldKeepsValid(s.queue, qid, token, ByFail);
    case Heartbeat(qid, token, extendByMs) => ExtendedKeepsValid(s.queue, qid, token, extendByMs, server.now);
    case Sweep => SweptKeepsValid(s.queue, server.now, 0);
    case TaskState(_) =>
    case Put(_, _) =>
    case Get(_, _) =>
  }

  /** Whatever all clients do, in any order, the queue's invariant holds. */
  lemma {:induction false} ExecuteAllKeepsValid(s: State, rivals: seq<Rival>)
    requires Valid(s.queue)
    ensures Valid(ExecuteAll(s, rivals).queue)
    decreases |rivals|
  {
    hide Valid, Execute;
    if rivals != [] {
      ExecuteKeepsValid(s, rivals[0].request, rivals[0].server);
      ExecuteAllKeepsValid(Execute(s, rivals[0].request, rivals[0].server).0, rivals[1..]);
    }
  }

  // Histories only grow, and a used-up token stays used up.

  ghost predicate Grows(q: Queue, q': Queue) {
    q.ended <= q'.ended && |q.tasks| <= |q'.tasks| && q.nextToken <= q'.nextToken
  }

  lemma {:induction false} SweptGrows(q: Queue, now: nat, from: nat)
    requires from <= |q.tasks|
    ensures Grows(q, Swept(q, now, from))
    decreases |q.tasks| - from
  {
    if from == |q.tasks| {
    } else if q.tasks[from].state == Leased && now >= q.tasks[from].deadline {
      SweptGrows(EndLease(q, from, ByExpiry), now, from + 1);
    } else {
      SweptGrows(q, now, from + 1);
    }
  }

  lemma ExecuteGrows(s: State, req: Request, server: Server)
    ensures Grows(s.queue, Execute(s, req, server).0.queue)
  {
    hide Matches;
    SweptGrows(s.queue, server.now, 0);
  }

  lemma {:induction false} ExecuteAllGrows(s: State, rivals: seq<Rival>)
    ensures Grows(s.queue, ExecuteAll(s, rivals).queue)
    decreases |rivals|
  {
    hide Execute;
    if rivals != [] {
      ExecuteGrows(s, rivals[0].request, rivals[0].server);
      ExecuteAllGrows(Execute(s, rivals[0].request, rivals[0].server).0, rivals[1..]);
    }
  }

  /** The lease `qid` held under `token` has ended. */
  ghost predicate HasEnded(q: Queue, token: Token) {
    exists k :: 0 <= k < |q.ended| && q.ended[k].token.local == token.local
  }

  lemma EndedStaysEnded(q: Queue, q': Queue, token: Token)
    requires HasEnded(q, token) && Grows(q, q')
    ensures HasEnded(q', token)
  {
    var k :| 0 <= k < |q.ended| && q.ended[k].token.local == token.local;
    assert q'.ended[k] == q.ended[k];
  }

  lemma EndedIsNotHeld(q: Queue, qid: nat, token: Token)
    requires TokensUnique(q) && HasEnded(q, token)
    ensures !Holds(q, qid, token)
  {
  }

  /** A token whose lease has ended never passes the fence again, whatever all clients do. */
  lemma EndedIsNeverHeldAgain(s: State, rivals: seq<Rival>, qid: nat, token: Token)
    requires Valid(s.queue) && HasEnded(s.queue, token)
    ensures !Holds(ExecuteAll(s, rivals).queue, qid, token)
  {
    hide Execute, HasEnded, Holds;
    ExecuteAllKeepsValid(s, rivals);
    ExecuteAllGrows(s, rivals);
    EndedStaysEnded(s.queue, ExecuteAll(s, rivals).queue, token);
    EndedIsNotHeld(ExecuteAll(s, rivals).queue, qid, token);
  }

  /**
   Time passes between rivals' requests: a rival's lease can be granted, and expire, before our next
   attempt. Here the earliest match is leased and swept once its deadline has come.
   */
  lemma RivalLeaseCanExpire(s: State, timeoutMs: nat, filter: Bytes, granted: Server, later: Server)
    requires var i := FirstMatch(s.queue.tasks, filter, 0);
      i < |s.queue.tasks|
      && later.now >= granted.now + if timeoutMs == 0 then DEFAULT_VISIBILITY_MS else timeoutMs
    ensures var i := FirstMatch(s.queue.tasks, filter, 0);
      var q' := ExecuteAll(s, [Rival(Lease(0, timeoutMs, filter), granted), Rival(Sweep, later)]).queue;
      && i < |q'.tasks| == |s.queue.tasks|
      && q'.tasks[i].attempt == s.queue.tasks[i].attempt + 1 && q'.tasks[i].maxAttempts == s.queue.tasks[i].maxAttempts
      && q'.tasks[i].state == LeftAs(q'.tasks[i])
      && |s.queue.ended| < |q'.ended|
  {
    hide Matches, FirstMatch;
    var i := FirstMatch(s.queue.tasks, filter, 0);
    var rivals := [Rival(Lease(0, timeoutMs, filter), granted), Rival(Sweep, later)];
    var s1 := Execute(s, rivals[0].request, granted).0;
    assert ExecuteAll(s, rivals) == ExecuteAll(s1, rivals[1..]) == Execute(s1, Sweep, later).0;
    SweptExactly(s1.queue, later.now, 0, i);
  }
}
