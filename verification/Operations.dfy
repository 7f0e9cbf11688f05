/**
 Every operation of the port and of the result channel as one call: how long it goes on trying, and
 when exactly it succeeds.
 */
module Operations {
  import opened Wrappers
  import opened TaskQueue
  import opened Cluster
  import opened Retry
  import opened RetryFacts
  import opened Fencing
  import opened PortModel
  import opened ChannelModel

  ghost predicate AllOpen(cfg: Config) {
    forall e | 0 <= e < cfg.Size() :: cfg.clients[e]
  }

  // ---------------------------------------------------------------- how long an operation tries

  /**
   On `n` endpoints a call sends at least one request, unless an endpoint has no client, and at most
   `100 n + 1`. When its last attempt could have been repeated it gives up no earlier than five seconds
   after it began, unless it came to an endpoint without a client.
   */
  ghost predicate KeepsBudget(cfg: Config, w: World, w': World) {
    && w.sent <= w'.sent && w.clock <= w'.clock
    && |w'.sent| - |w.sent| <= 100 * cfg.Size() + 1
    && (AllOpen(cfg) ==> |w.sent| < |w'.sent|)
    && (AllOpen(cfg) && Repeatable(w'.sent[|w'.sent| - 1].fate) ==> w'.clock >= w.clock + 5_000_000_000)
  }

  lemma TransactKeepsBudget(cfg: Config, script: Script, w: World, req: Request)
    requires cfg.Size() > 0
    ensures var (w', outcome) := Transact(cfg, script, w, req);
      && KeepsBudget(cfg, w, w')
      && (outcome.Expired? ==> w'.clock >= w.clock + 5_000_000_000)
      && (AllOpen(cfg) ==> !outcome.NoClient?)
  {
    hide Drive, EntryOf;
    var w0 := w.(calls := w.calls + 1);
    CallLog(cfg, script, w0, w.calls, req, 0, w.clock + RETRY_BUDGET);
    UnansweredFor(cfg, script, w0, w.calls, req, 0, w.clock + RETRY_BUDGET);
    RetryFacts.AttemptsBounded(cfg, script, w0, w.calls, req, 0, w.clock);
    ClockRuns(cfg, script, w0, w.calls, req, 0, w.clock + RETRY_BUDGET);
  }

  lemma {:induction false} ClockRuns(
      cfg: Config, script: Script, w: World, call: nat, req: Request, attempt: nat, deadline: nat)
    requires cfg.Size() > 0
    ensures Drive(cfg, script, w, call, req, attempt, deadline).0.clock >= w.clock
    decreases Before(deadline, w.clock), cfg.Size() - attempt % cfg.Size()
  {
    hide Iterate, SentOnce;
    IterationFacts(cfg, script, w, call, req, attempt, deadline);
    var step := Iterate(cfg, script, w, call, req, attempt, deadline);
    if step.Again? {
      NextSlot(attempt, cfg.Size());
      ClockRuns(cfg, script, step.world, call, req, attempt + 1, deadline);
    }
  }

  /** Any operation of the port that sends anything at all keeps to that budget. */
  lemma PortKeepsBudget(cfg: Config, script: Script, p: Port, c: Command)
    ensures var p' := Apply(cfg, script, p, c);
      if RequestOf(cfg, p, c).None? then p' == p else KeepsBudget(cfg, p.world, p'.world)
  {
    hide Transact, Apply, RequestOf, KeepsBudget, LeasesAfter;
    ApplyTransacts(cfg, script, p, c);
    match RequestOf(cfg, p, c)
    case None =>
    case Some(req) => TransactKeepsBudget(cfg, script, p.world, req);
  }

  /** So does any operation of the channel. */
  lemma ChannelKeepsBudget(cfg: Config, script: Script, consume: bool, w: World, c: ChannelCommand)
    ensures var w' := ApplyChannel(cfg, script, consume, w, c);
      if cfg.Size() == 0 then w' == w else KeepsBudget(cfg, w, w')
  {
    hide Transact, KeepsBudget;
    if cfg.Size() > 0 {
      match c
      case DoPut(qid, bytes) => TransactKeepsBudget(cfg, script, w, Put(qid, bytes));
      case DoTryGet(qid) => TransactKeepsBudget(cfg, script, w, Get(qid, consume));
    }
  }

  /** The budget is used to the full: five seconds and `100 n + 1` requests, to the nanosecond. */
  ghost predicate UsesUpBudget(cfg: Config, w: World, w': World) {
    |w'.sent| == |w.sent| + 100 * cfg.Size() + 1 && w'.clock == w.clock + 5_000_000_000
  }

  lemma LeaderlessTransact(cfg: Config, script: Script, w: World, req: Request)
    requires cfg.Size() > 0 && Leaderless(cfg, script)
    ensures UsesUpBudget(cfg, w, Transact(cfg, script, w, req).0)
  {
    hide Drive, Leaderless;
    LeaderlessUsesWholeBudget(cfg, script, w.(calls := w.calls + 1), w.calls, req, 0, w.clock);
  }

  /** Against a cluster without a leader every operation that sends anything tries for five full seconds. */
  lemma LeaderlessPort(cfg: Config, script: Script, p: Port, c: Command)
    requires Leaderless(cfg, script) && RequestOf(cfg, p, c).Some?
    ensures UsesUpBudget(cfg, p.world, Apply(cfg, script, p, c).world)
  {
    hide Transact, Apply, RequestOf, UsesUpBudget, LeasesAfter, Leaderless;
    ApplyTransacts(cfg, script, p, c);
    LeaderlessTransact(cfg, script, p.world, RequestOf(cfg, p, c).value);
  }

  lemma LeaderlessChannel(cfg: Config, script: Script, consume: bool, w: World, c: ChannelCommand)
    requires cfg.Size() > 0 && Leaderless(cfg, script)
    ensures UsesUpBudget(cfg, w, ApplyChannel(cfg, script, consume, w, c))
  {
    hide Transact, UsesUpBudget, Leaderless;
    match c
    case DoPut(qid, bytes) => LeaderlessTransact(cfg, script, w, Put(qid, bytes));
    case DoTryGet(qid) => LeaderlessTransact(cfg, script, w, Get(qid, consume));
  }

  // ---------------------------------------------------------------- when exactly an operation succeeds

  /** Some attempt since entry `from` was answered. */
  ghost predicate SomeAnswered(sent: seq<Sent>, from: nat) {
    exists i :: from <= i < |sent| && sent[i].fate == Served
  }

  /** Some attempt since entry `from` was accepted by the cluster and answered. */
  ghost predicate SomeAccepted(sent: seq<Sent>, from: nat) {
    exists i :: from <= i < |sent| && sent[i].fate == Served && Effective(sent[i])
  }

  /** The cluster accepts every enqueue, put and get it carries out. */
  predicate AlwaysAccepted(req: Request) { req.Enqueue? || req.Put? || req.Get? }

  lemma ServedIsAccepted(e: Sent)
    requires Faithful(e) && e.fate == Served
    ensures AlwaysAccepted(e.request) ==> Effective(e)
    ensures e.seen == e.outcome.value && Answers(e.request, e.seen)
  {
  }

  /** What a call comes to, by what became of its attempts. */
  lemma TransactSucceeds(cfg: Config, script: Script, w: World, req: Request)
    requires cfg.Size() > 0
    ensures var (w', outcome) := Transact(cfg, script, w, req);
      && w.sent <= w'.sent
      && (Reported(outcome) <==> SomeAccepted(w'.sent, |w.sent|))
      && (AlwaysAccepted(req) ==> (Reported(outcome) <==> SomeAnswered(w'.sent, |w.sent|)))
      && (Reported(outcome) ==> Answers(req, outcome.reply))
  {
    hide Drive, Repeatable, Retryable, Effective, Faithful, Answers;
    var w0 := w.(calls := w.calls + 1);
    ReportedIffServed(cfg, script, w0, w.calls, req, w.clock + RETRY_BUDGET);
    CallLog(cfg, script, w0, w.calls, req, 0, w.clock + RETRY_BUDGET);
    var (w', outcome) := Transact(cfg, script, w, req);
    forall i | |w.sent| <= i < |w'.sent| && w'.sent[i].fate == Served
      ensures AlwaysAccepted(req) ==> Effective(w'.sent[i])
      ensures Answers(req, w'.sent[i].seen)
    {
      assert EntryOf(cfg, script, w'.sent[i], w0.turn + i - |w0.sent|, w.calls, req);
      ServedIsAccepted(w'.sent[i]);
    }
  }

  /** `enqueue` returns an id exactly if some attempt was answered. */
  lemma EnqueueSucceedsExactly(cfg: Config, script: Script, p: Port, payload: Bytes, maxAttempts: nat)
    ensures var (p', result) := EnqueueOp(cfg, script, p, payload, maxAttempts);
      && p.world.sent <= p'.world.sent
      && (if SomeAnswered(p'.world.sent, |p.world.sent|) then result.Ok? else result == Err(DistributedError))
  {
    hide Transact, SomeAccepted;
    if cfg.Size() > 0 {
      hide SomeAnswered;
      TransactSucceeds(cfg, script, p.world, Request.Enqueue(payload, maxAttempts));
    }
  }

  /**
   * `lease` hands out a lease exactly if some attempt was granted one and answered; it reports that there
   * is nothing exactly if an attempt was answered so; and without the filtered entry point a filter is
   * refused before anything is sent.
   */
  lemma LeaseSucceedsExactly(cfg: Config, script: Script, p: Port, worker: nat, timeoutMs: nat, filter: Bytes)
    ensures var (p', result) := LeaseOp(cfg, script, p, worker, timeoutMs, filter);
      var (from, sent) := (|p.world.sent|, p'.world.sent);
      && p.world.sent <= sent
      && (if cfg.Size() > 0 && filter != [] && !cfg.filtered then p' == p && result == Err(NotImplemented)
          else if SomeAccepted(sent, from) then result.Ok? && result.value.Some?
          else if SomeAnswered(sent, from) then result == Ok(None)
          else result == Err(DistributedError))
  {
    hide Transact;
    if cfg.Size() > 0 && (filter == [] || cfg.filtered) {
      hide SomeAccepted, SomeAnswered;
      var req := Request.Lease(worker, timeoutMs, filter);
      TransactSucceeds(cfg, script, p.world, req);
      LeaseAnswered(cfg, script, p.world, req);
    }
  }

  lemma LeaseAnswered(cfg: Config, script: Script, w: World, req: Request)
    requires cfg.Size() > 0 && req.Lease?
    ensures var (w', outcome) := Transact(cfg, script, w, req);
      |w.sent| <= |w'.sent|
      && (SomeAnswered(w'.sent, |w.sent|) <==>
            outcome.Answered? && (outcome.reply.rc == Success || outcome.reply.rc == QueueEmpty))
  {
    hide Drive, Faithful;
    var w0 := w.(calls := w.calls + 1);
    CallLog(cfg, script, w0, w.calls, req, 0, w.clock + RETRY_BUDGET);
    var (w', outcome) := Transact(cfg, script, w, req);
    forall i | |w.sent| <= i < |w'.sent|
      ensures w'.sent[i].fate == Served <==> w'.sent[i].seen.rc == Success || w'.sent[i].seen.rc == QueueEmpty
    {
      assert EntryOf(cfg, script, w'.sent[i], w0.turn + i - |w0.sent|, w.calls, req);
      LeaseSeen(w'.sent[i]);
    }
  }

  lemma LeaseSeen(e: Sent)
    requires Faithful(e) && e.request.Lease?
    ensures e.fate == Served <==> e.seen.rc == Success || e.seen.rc == QueueEmpty
  {
  }

  /** `heartbeat` succeeds exactly if some attempt was accepted and answered, for which the port must hold a lease with this token. */
  lemma HeartbeatSucceedsExactly(cfg: Config, script: Script, p: Port, qid: nat, local: nat, extendByMs: nat)
    ensures var (p', result) := HeartbeatOp(cfg, script, p, qid, local, extendByMs);
      && p.world.sent <= p'.world.sent && p'.leases == p.leases
      && (SomeAccepted(p'.world.sent, |p.world.sent|) ==> PassesCheck(p, qid, local))
      && result == if SomeAccepted(p'.world.sent, |p.world.sent|) then Ok(()) else Err(DistributedError)
  {
    hide Transact, SomeAnswered;
    if cfg.Size() > 0 && PassesCheck(p, qid, local) {
      hide SomeAccepted;
      TransactSucceeds(cfg, script, p.world, Heartbeat(qid, p.leases[qid], extendByMs));
    }
  }

  /** `state` reports a state exactly if some attempt was answered with that state. */
  lemma StateSucceedsExactly(cfg: Config, script: Script, p: Port, qid: nat, state: QState)
    ensures var (p', result) := StateOp(cfg, script, p, qid);
      var (from, sent) := (|p.world.sent|, p'.world.sent);
      && p.world.sent <= sent && p'.leases == p.leases && (result.Err? ==> result.error == DistributedError)
      && (result == Ok(state) <==>
            exists i :: from <= i < |sent| && sent[i].fate == Served && sent[i].seen == Reply(Success, Known(state)))
  {
    hide Drive, Faithful;
    if cfg.Size() > 0 {
      var (w, req) := (p.world, TaskState(qid));
      var w0 := w.(calls := w.calls + 1);
      CallLog(cfg, script, w0, w.calls, req, 0, w.clock + RETRY_BUDGET);
      var (w', outcome) := Transact(cfg, script, w, req);
      forall i | |w.sent| <= i < |w'.sent| && w'.sent[i].seen.rc == Success
        ensures w'.sent[i].fate == Served
      {
        assert EntryOf(cfg, script, w'.sent[i], w0.turn + i - |w0.sent|, w.calls, req);
        OnlyServedSucceeds(w'.sent[i]);
      }
    }
  }

  lemma OnlyServedSucceeds(e: Sent)
    requires Faithful(e)
    ensures e.seen.rc == Success ==> e.fate == Served
  {
  }

  /** `put` succeeds exactly if some attempt was answered. */
  lemma PutSucceedsExactly(cfg: Config, script: Script, w: World, qid: nat, bytes: Bytes)
    ensures var (w', result) := PutOp(cfg, script, w, qid, bytes);
      && w.sent <= w'.sent
      && result == if SomeAnswered(w'.sent, |w.sent|) then Ok(()) else Err(DistributedError)
  {
    hide Transact, SomeAccepted;
    if cfg.Size() > 0 {
      hide SomeAnswered;
      TransactSucceeds(cfg, script, w, Put(qid, bytes));
    }
  }

  /** `try_get` succeeds, with a result or without, exactly if some attempt was answered. */
  lemma TryGetSucceedsExactly(cfg: Config, script: Script, consume: bool, w: World, qid: nat)
    ensures var (w', result) := TryGetOp(cfg, script, consume, w, qid);
      && w.sent <= w'.sent
      && (if SomeAnswered(w'.sent, |w.sent|) then result.Ok? else result == Err(DistributedError))
  {
    hide Transact, SomeAccepted;
    if cfg.Size() > 0 {
      hide SomeAnswered;
      TransactSucceeds(cfg, script, w, Get(qid, consume));
    }
  }

  /** So, with every endpoint open, none fails before its five seconds are over unless the cluster refused it. */
  lemma FailureIsLateOrRefused(cfg: Config, script: Script, w: World, req: Request)
    requires cfg.Size() > 0 && AllOpen(cfg)
    ensures var (w', outcome) := Transact(cfg, script, w, req);
      Reported(outcome) || w'.clock >= w.clock + 5_000_000_000
      || (|w.sent| < |w'.sent|
          && var e := w'.sent[|w'.sent| - 1]; e.fate == Faulted || (e.fate == Served && e.seen.rc != Success))
  {
    hide Drive, Faithful;
    TransactKeepsBudget(cfg, script, w, req);
    TransactSucceeds(cfg, script, w, req);
    var w0 := w.(calls := w.calls + 1);
    CallLog(cfg, script, w0, w.calls, req, 0, w.clock + RETRY_BUDGET);
  }
}
