/**
 * What the caller of a port operation learns from a successful answer: it is the outcome of its
 * request on the cluster, which the call leaves exactly as that request made it.
 */
module PortAnswers {
  import opened Wrappers
  import opened TaskQueue
  import opened Cluster
  import opened Retry
  import opened RetryFacts
  import opened Fencing
  import opened PortModel

  /** The answer is what executing the request gave, on a valid cluster that grew out of `s`. */
  ghost predicate Executed(s: State, s': State, req: Request, reply: Reply, before: State, server: Server) {
    && Valid(before.queue) && Grows(s.queue, before.queue)
    && (s', reply) == Execute(before, req, server)
  }

  lemma AttemptExecutes(cfg: Config, script: Script, w: World, call: nat, idx: nat, req: Request)
    returns (before: State, server: Server)
    requires cfg.Size() > 0 && Valid(w.cluster.queue)
    ensures var t := script.turn(w.turn, idx);
      var (w', reply) := Attempted(cfg, t, w, call, idx, req);
      t.fate.Served? ==> Executed(w.cluster, w'.cluster, req, reply, before, server) && AnsweredBy(script, w, w', server)
  {
    hide Execute, ExecuteAll, Valid, Grows;
    var t := script.turn(w.turn, idx);
    before, server := ExecuteAll(w.cluster, t.rivals), t.server;
    ExecuteAllKeepsValid(w.cluster, t.rivals);
    ExecuteAllGrows(w.cluster, t.rivals);
  }

  /** The server of the last attempt, the one that answered. */
  ghost predicate AnsweredBy(script: Script, w: World, w': World, server: Server) {
    && |w.sent| < |w'.sent| && w'.turn > 0
    && server == script.turn(w'.turn - 1, w'.sent[|w'.sent| - 1].node).server
  }

  /** A successful answer of a whole call was executed by its last attempt, on what came before. */
  lemma {:induction false} AnswerIsExecuted(
      cfg: Config, script: Script, w: World, call: nat, req: Request, attempt: nat, deadline: nat)
    returns (before: State, server: Server)
    requires cfg.Size() > 0 && Valid(w.cluster.queue)
    ensures var (w', outcome) := Drive(cfg, script, w, call, req, attempt, deadline);
      outcome.Answered? && outcome.reply.rc != Rejected ==>
        && Executed(w.cluster, w'.cluster, req, outcome.reply, before, server)
        && AnsweredBy(script, w, w', server)
    decreases Before(deadline, w.clock), cfg.Size() - attempt % cfg.Size()
  {
    hide Attempted, Execute, ExecuteAll, Valid, Grows, Executed, EntryOf, NextIndex;
    var w0 := w.(active := Interfered(cfg.Size(), w.active, script.gap(w.turn)));
    var idx := w0.active % cfg.Size();
    before, server := AttemptExecutes(cfg, script, w0, call, idx, req);
    AnsweredIsServed(cfg, script, w0, call, idx, req);
    IterationOnQueue(cfg, script, w, call, req, attempt, deadline);
    IterationFacts(cfg, script, w, call, req, attempt, deadline);
    DriveUnfolds(cfg, script, w, call, req, attempt, deadline);
    var step := Iterate(cfg, script, w, call, req, attempt, deadline);
    if step.Again? {
      NextSlot(attempt, cfg.Size());
      before, server := AnswerIsExecuted(cfg, script, step.world, call, req, attempt + 1, deadline);
      var (w', outcome) := Drive(cfg, script, step.world, call, req, attempt + 1, deadline);
      if outcome.Answered? && outcome.reply.rc != Rejected {
        assert AnsweredBy(script, w, w', server);
        ExecutedLater(w.cluster, step.world.cluster, w'.cluster, req, outcome.reply, before, server);
      }
    }
  }

  lemma ExecutedLater(s: State, s1: State, s': State, req: Request, reply: Reply, before: State, server: Server)
    requires Grows(s.queue, s1.queue) && Executed(s1, s', req, reply, before, server)
    ensures Executed(s, s', req, reply, before, server)
  {
    hide Execute, Valid, Grows;
    GrowsTransitive(s.queue, s1.queue, before.queue);
  }

  lemma AnsweredIsServed(cfg: Config, script: Script, w: World, call: nat, idx: nat, req: Request)
    requires cfg.Size() > 0
    ensures var t := script.turn(w.turn, idx);
      var reply := Attempted(cfg, t, w, call, idx, req).1;
      !Retryable(reply.rc) && reply.rc != Rejected ==> t.fate.Served?
  {
    hide Execute, ExecuteAll;
  }

  lemma TransactIsExecuted(cfg: Config, script: Script, w: World, req: Request) returns (before: State, server: Server)
    requires cfg.Size() > 0 && Valid(w.cluster.queue)
    ensures var (w', outcome) := Transact(cfg, script, w, req);
      outcome.Answered? && outcome.reply.rc != Rejected ==>
        && Executed(w.cluster, w'.cluster, req, outcome.reply, before, server)
        && AnsweredBy(script, w, w', server)
  {
    hide Drive, Execute, Valid, Grows;
    before, server := AnswerIsExecuted(cfg, script, w.(calls := w.calls + 1), w.calls, req, 0, w.clock + RETRY_BUDGET);
  }

  /**
   * The id that `enqueue` returns names a new task, the last one, pending and untried, with this payload;
   * the request that was answered changed nothing else.
   */
  lemma EnqueuedTaskIsThere(cfg: Config, script: Script, p: Port, payload: Bytes, maxAttempts: nat)
    returns (before: State, server: Server)
    requires Valid(p.world.cluster.queue)
    ensures var (p', result) := EnqueueOp(cfg, script, p, payload, maxAttempts);
      var tasks := p'.world.cluster.queue.tasks;
      result.Ok? ==>
        && Valid(before.queue) && Grows(p.world.cluster.queue, before.queue)
        && |p.world.cluster.queue.tasks| < |tasks| == result.value && tasks[..result.value - 1] == before.queue.tasks
        && var task := tasks[result.value - 1];
          && task.payload == payload && task.attempt == 0 && task.state == Pending
          && task.maxAttempts == if maxAttempts == 0 then 3 else maxAttempts
  {
    hide Transact, Valid;
    before, server := p.world.cluster, Server(0, 0, 0, false);
    if cfg.Size() > 0 {
      before, server := TransactIsExecuted(cfg, script, p.world, Enqueue(payload, maxAttempts));
    }
  }

  /**
   * A lease handed to the worker is of a task that was pending and matched, the earliest such; it is
   * now leased, one attempt further, under a token granted never before, which the table keeps, until
   * the answering server's time plus the timeout; no other task was touched by that request.
   */
  lemma LeasedTaskIsHeld(cfg: Config, script: Script, p: Port, worker: nat, timeoutMs: nat, filter: Bytes)
    returns (before: State, server: Server)
    requires Valid(p.world.cluster.queue)
    ensures var (p', result) := LeaseOp(cfg, script, p, worker, timeoutMs, filter);
      var (q, q') := (before.queue, p'.world.cluster.queue);
      result.Ok? && result.value.Some? ==>
        && var LeaseView(qid, token, attempt, payload) := result.value.value;
        && Valid(q) && Grows(p.world.cluster.queue, q) && AnsweredBy(script, p.world, p'.world, server)
        && qid in p'.leases && p'.leases[qid].local == token
        && Holds(q', qid, p'.leases[qid])
        && p.world.cluster.queue.nextToken < token == q'.nextToken
        && qid <= |q.tasks| && OnlyTask(q, q', qid - 1)
        && var (was, task) := (q.tasks[qid - 1], q'.tasks[qid - 1]);
          && was.state == Pending && Matches(payload, filter)
          && was.payload == payload == task.payload && was.attempt + 1 == attempt == task.attempt <= task.maxAttempts
          && task.deadline == server.now + (if timeoutMs == 0 then 30_000 else timeoutMs)
          && forall k | 0 <= k < qid - 1 && q'.tasks[k].state == Pending :: !Matches(q'.tasks[k].payload, filter)
  {
    hide Transact, Valid, Matches, LeaseEarliest;
    before, server := p.world.cluster, Server(0, 0, 0, false);
    if cfg.Size() > 0 {
      before, server := TransactIsExecuted(cfg, script, p.world, Lease(worker, timeoutMs, filter));
      LeasedExactly(before.queue, filter, timeoutMs, server.now, server.term, server.index);
      if Valid(before.queue) { WithinLimit(before.queue); }
    }
  }

  lemma WithinLimit(q: Queue)
    requires Valid(q)
    ensures forall k | 0 <= k < |q.tasks| && q.tasks[k].state == Pending :: q.tasks[k].attempt < q.tasks[k].maxAttempts
  {
  }

  /** When `lease` finds nothing, no pending task of the cluster matches the filter. */
  lemma NothingLeasedNothingMatches(cfg: Config, script: Script, p: Port, worker: nat, timeoutMs: nat, filter: Bytes)
    requires Valid(p.world.cluster.queue)
    ensures var (p', result) := LeaseOp(cfg, script, p, worker, timeoutMs, filter);
      var tasks := p'.world.cluster.queue.tasks;
      result == Ok(None) ==>
        p'.leases == p.leases
        && forall k | 0 <= k < |tasks| && tasks[k].state == Pending :: !Matches(tasks[k].payload, filter)
  {
    hide Transact, Valid, Matches;
    if cfg.Size() > 0 {
      var before, server := TransactIsExecuted(cfg, script, p.world, Lease(worker, timeoutMs, filter));
    }
  }

  /**
   * A heartbeat that succeeds found the lease held under this token and leaves it held, its deadline
   * set to the answering server's time plus the extension.
   */
  lemma HeartbeatKeepsTheLease(cfg: Config, script: Script, p: Port, qid: nat, local: nat, extendByMs: nat)
    requires Valid(p.world.cluster.queue)
    ensures var (p', result) := HeartbeatOp(cfg, script, p, qid, local, extendByMs);
      result.Ok? ==>
        && qid in p.leases && p'.leases == p.leases
        && Holds(p'.world.cluster.queue, qid, p.leases[qid])
        && |p.world.sent| < |p'.world.sent| && p'.world.turn > 0
        && var answering := script.turn(p'.world.turn - 1, p'.world.sent[|p'.world.sent| - 1].node).server;
          p'.world.cluster.queue.tasks[qid - 1].deadline
          == answering.now + if extendByMs == 0 then 10_000 else extendByMs
  {
    hide Transact, Valid;
    if cfg.Size() > 0 && PassesCheck(p, qid, local) {
      var before, server := TransactIsExecuted(cfg, script, p.world, Heartbeat(qid, p.leases[qid], extendByMs));
    }
  }

  /** The state reported is the state the task is in, on the very cluster the answering request met. */
  lemma ReportedStateIsTrue(cfg: Config, script: Script, p: Port, qid: nat) returns (before: State, server: Server)
    requires Valid(p.world.cluster.queue)
    ensures var (p', result) := StateOp(cfg, script, p, qid);
      result.Ok? ==>
        && Executed(p.world.cluster, p'.world.cluster, TaskState(qid), Reply(Success, Known(result.value)), before, server)
        && p'.world.cluster == before && p'.leases == p.leases
        && 1 <= qid <= |before.queue.tasks| && before.queue.tasks[qid - 1].state == result.value
  {
    hide Transact, Valid;
    before, server := p.world.cluster, Server(0, 0, 0, false);
    if cfg.Size() > 0 {
      before, server := TransactIsExecuted(cfg, script, p.world, TaskState(qid));
    }
  }
}
