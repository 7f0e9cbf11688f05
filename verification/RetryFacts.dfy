/** What holds of every run of the retry loop. */
module RetryFacts {
  import opened DivMod
  import opened Wrappers
  import opened TaskQueue
  import opened Cluster
  import opened Retry

  /** A log entry tells the truth: the caller saw what the request's fate lets through. */
  ghost predicate Faithful(e: Sent) {
    && (e.outcome.Some? <==> CarriedOut(e.fate))
    && (e.outcome.Some? ==> Answers(e.request, e.outcome.value))
    && e.seen == FateReply(e.fate, if e.outcome.Some? then e.outcome.value else Reply(Rejected, Nothing))
  }

  ghost predicate EntryOf(cfg: Config, script: Script, e: Sent, turn: nat, call: nat, req: Request) {
    && e.call == call && e.request == req
    && e.node < cfg.Size()
    && e.fate == script.turn(turn, e.node).fate
    && Faithful(e)
  }

  /** An iteration that sends: one new log entry, one script turn used. */
  ghost predicate SentOnce(cfg: Config, script: Script, w: World, w': World, call: nat, req: Request) {
    && w.sent <= w'.sent
    && |w'.sent| == |w.sent| + 1
    && w'.turn == w.turn + 1
    && EntryOf(cfg, script, w'.sent[|w.sent|], w.turn, call, req)
  }

  lemma AttemptSends(cfg: Config, script: Script, w: World, call: nat, idx: nat, req: Request)
    requires idx < cfg.Size()
    ensures var (w', reply) := Attempted(cfg, script.turn(w.turn, idx), w, call, idx, req);
      && SentOnce(cfg, script, w, w', call, req)
      && reply == w'.sent[|w.sent|].seen && w'.sent[|w.sent|].node == idx
      && (Retryable(reply.rc) <==> Repeatable(w'.sent[|w.sent|].fate))
      && w'.calls == w.calls && w'.pauses == w.pauses
      && w'.clock == w.clock + script.turn(w.turn, idx).elapsed
  {
    var t := script.turn(w.turn, idx);
    ExecuteAnswers(ExecuteAll(w.cluster, t.rivals), req, t.server);
    hide Execute, ExecuteAll;
  }

  /** What one iteration does, apart from the ring and the cluster. */
  ghost predicate Iterated(cfg: Config, script: Script, w: World, s: Step, call: nat, req: Request, attempt: nat, deadline: nat)
    requires cfg.Size() > 0
  {
    && s.world.calls == w.calls && s.world.clock >= w.clock
    && (s.Stop? && s.outcome.NoClient? ==> s.world.sent == w.sent && s.world.turn == w.turn && s.world.pauses == w.pauses)
    && (s.Again? || !s.outcome.NoClient? ==> SentOnce(cfg, script, w, s.world, call, req))
    && (s.Stop? && s.outcome.Answered? ==>
          var e := s.world.sent[|w.sent|]; s.outcome.reply == e.seen && !Repeatable(e.fate) && !Retryable(e.seen.rc))
    && (s.Again? || s.outcome.Expired? ==>
          var e := s.world.sent[|w.sent|]; Repeatable(e.fate) && Retryable(e.seen.rc))
    && (s.Stop? ==> s.world.pauses == w.pauses)
    && (s.Again? ==>
          && w.clock < deadline
          && s.world.pauses == w.pauses + (if (attempt + 1) % cfg.Size() == 0 then 1 else 0)
          && s.world.clock >= w.clock + (if (attempt + 1) % cfg.Size() == 0 then SWEEP_PAUSE else 0))
  }

  lemma IterationFacts(cfg: Config, script: Script, w: World, call: nat, req: Request, attempt: nat, deadline: nat)
    requires cfg.Size() > 0
    ensures Iterated(cfg, script, w, Iterate(cfg, script, w, call, req, attempt, deadline), call, req, attempt, deadline)
  {
    var w0 := w.(active := Interfered(cfg.Size(), w.active, script.gap(w.turn)));
    var idx := w0.active % cfg.Size();
    AttemptSends(cfg, script, w0, call, idx, req);
    hide Attempted, Faithful, FateReply, NextIndex, CarriedOut;
  }

  // The log of a whole call.

  ghost predicate Logged(cfg: Config, script: Script, w: World, w': World, outcome: Outcome, call: nat, req: Request) {
    && w.sent <= w'.sent
    && w'.calls == w.calls
    && w'.turn == w.turn + |w'.sent| - |w.sent|
    && (forall i | |w.sent| <= i < |w'.sent| :: EntryOf(cfg, script, w'.sent[i], w.turn + i - |w.sent|, call, req))
    && (forall i | |w.sent| <= i < |w'.sent| - 1 :: Repeatable(w'.sent[i].fate))
    && (if outcome.Answered? then
          && |w.sent| < |w'.sent|
          && outcome.reply == w'.sent[|w'.sent| - 1].seen
          && !Repeatable(w'.sent[|w'.sent| - 1].fate)
        else forall i | |w.sent| <= i < |w'.sent| :: Repeatable(w'.sent[i].fate))
    && (outcome.Expired? ==> |w.sent| < |w'.sent|)
  }

  lemma LogExtends(cfg: Config, script: Script, w: World, w1: World, w': World, outcome: Outcome, call: nat, req: Request)
    requires SentOnce(cfg, script, w, w1, call, req) && w1.calls == w.calls && Repeatable(w1.sent[|w.sent|].fate)
    requires Logged(cfg, script, w1, w', outcome, call, req)
    ensures Logged(cfg, script, w, w', outcome, call, req)
  {
    hide EntryOf, Repeatable;
    assert w'.sent[|w.sent|] == w1.sent[|w.sent|];
    forall i | |w.sent| <= i < |w'.sent|
      ensures EntryOf(cfg, script, w'.sent[i], w.turn + i - |w.sent|, call, req)
    {
      if i > |w.sent| {
        assert w1.turn + i - |w1.sent| == w.turn + i - |w.sent|;
      }
    }
  }

  /** Every attempt of a call sends the same request; all but a final answer were retryable. */
  lemma {:induction false} CallLog(cfg: Config, script: Script, w: World, call: nat, req: Request, attempt: nat, deadline: nat)
    requires cfg.Size() > 0
    ensures var (w', outcome) := Drive(cfg, script, w, call, req, attempt, deadline);
      Logged(cfg, script, w, w', outcome, call, req)
    decreases Before(deadline, w.clock), cfg.Size() - attempt % cfg.Size()
  {
    IterationFacts(cfg, script, w, call, req, attempt, deadline);
    hide Iterate, EntryOf, Repeatable, Retryable;
    match Iterate(cfg, script, w, call, req, attempt, deadline)
    case Stop(_, _) =>
    case Again(w1) =>
      NextSlot(attempt, cfg.Size());
      CallLog(cfg, script, w1, call, req, attempt + 1, deadline);
      var (w', outcome) := Drive(cfg, script, w1, call, req, attempt + 1, deadline);
      LogExtends(cfg, script, w, w1, w', outcome, call, req);
  }

  /** A call without an answer either ran past its deadline or came to an endpoint without a client. */
  lemma {:induction false} UnansweredFor(
      cfg: Config, script: Script, w: World, call: nat, req: Request, attempt: nat, deadline: nat)
    requires cfg.Size() > 0
    ensures var (w', outcome) := Drive(cfg, script, w, call, req, attempt, deadline);
      && (outcome.Expired? ==> w'.clock >= deadline)
      && (outcome.NoClient? ==> exists e :: 0 <= e < cfg.Size() && !cfg.clients[e])
    decreases Before(deadline, w.clock), cfg.Size() - attempt % cfg.Size()
  {
    hide Attempted, Rotated, Interfered;
    DriveUnfolds(cfg, script, w, call, req, attempt, deadline);
    IterationFacts(cfg, script, w, call, req, attempt, deadline);
    var step := Iterate(cfg, script, w, call, req, attempt, deadline);
    if step.Again? {
      NextSlot(attempt, cfg.Size());
      UnansweredFor(cfg, script, step.world, call, req, attempt + 1, deadline);
    }
  }

  // How long a call can go on.

  /** A call on an `n`-endpoint ring sends at most `100 * n + 1` requests. */
  lemma {:induction false} AttemptsBounded(
      cfg: Config, script: Script, w: World, call: nat, req: Request, attempt: nat, start: nat)
    requires cfg.Size() > 0
    requires attempt <= 100 * cfg.Size()
    requires w.clock >= start + SWEEP_PAUSE * (attempt / cfg.Size())
    ensures var w' := Drive(cfg, script, w, call, req, attempt, start + RETRY_BUDGET).0;
      |w.sent| <= |w'.sent| && attempt + |w'.sent| - |w.sent| <= 100 * cfg.Size() + 1
    decreases Before(start + RETRY_BUDGET, w.clock), cfg.Size() - attempt % cfg.Size()
  {
    IterationFacts(cfg, script, w, call, req, attempt, start + RETRY_BUDGET);
    hide Iterate, EntryOf, Repeatable, Retryable;
    match Iterate(cfg, script, w, call, req, attempt, start + RETRY_BUDGET)
    case Stop(_, _) =>
    case Again(w1) =>
      NextSlot(attempt, cfg.Size());
      ClockPerSlot(attempt, cfg.Size(), start, w.clock, w1.clock);
      AttemptsBounded(cfg, script, w1, call, req, attempt + 1, start);
  }

  /** A call pauses exactly once for every `n` failures that another attempt follows. */
  lemma {:induction false} PausesPerSweep(
      cfg: Config, script: Script, w: World, call: nat, req: Request, attempt: nat, deadline: nat)
    requires cfg.Size() > 0
    ensures var (w', outcome) := Drive(cfg, script, w, call, req, attempt, deadline);
      var followed := |w'.sent| - |w.sent| - (if outcome.NoClient? then 0 else 1);
      0 <= followed && w'.pauses == w.pauses + (attempt + followed) / cfg.Size() - attempt / cfg.Size()
    decreases Before(deadline, w.clock), cfg.Size() - attempt % cfg.Size()
  {
    IterationFacts(cfg, script, w, call, req, attempt, deadline);
    hide Iterate, EntryOf, Repeatable, Retryable;
    match Iterate(cfg, script, w, call, req, attempt, deadline)
    case Stop(_, _) =>
    case Again(w1) =>
      NextSlot(attempt, cfg.Size());
      PausesPerSweep(cfg, script, w1, call, req, attempt + 1, deadline);
      var (w', outcome) := Drive(cfg, script, w1, call, req, attempt + 1, deadline);
      var followed := |w'.sent| - |w1.sent| - (if outcome.NoClient? then 0 else 1);
      assert (attempt + 1) + followed == attempt + (followed + 1);
  }

  /** The clock has run at least one pause for each full sweep, so few sweeps fit into the budget. */
  lemma ClockPerSlot(attempt: nat, n: nat, start: nat, clock: nat, clock': nat)
    requires n > 0 && start + SWEEP_PAUSE * (attempt / n) <= clock < start + RETRY_BUDGET
    requires clock' >= clock + (if (attempt + 1) % n == 0 then SWEEP_PAUSE else 0)
    ensures attempt < 100 * n
    ensures clock' >= start + SWEEP_PAUSE * ((attempt + 1) / n)
  {
    NextSlot(attempt, n);
    assert attempt / n < 100;
    assert attempt == attempt / n * n + attempt % n;
    Distribute(100, attempt / n, n);
    AtLeastOnce(100 - attempt / n, n);
  }

  /** A cluster with no leader: everyone refuses, at no cost in time. */
  ghost predicate Leaderless(cfg: Config, script: Script) {
    && (forall e | 0 <= e < cfg.Size() :: cfg.clients[e])
    && (forall t: nat, e: nat :: var turn := script.turn(t, e); turn.fate.Refused? && turn.elapsed == turn.oversleep == 0)
  }

  /** The bound is met: against a leaderless cluster a call sends exactly `100 * n + 1` requests. */
  lemma {:induction false} LeaderlessUsesWholeBudget(
      cfg: Config, script: Script, w: World, call: nat, req: Request, attempt: nat, start: nat)
    requires cfg.Size() > 0 && Leaderless(cfg, script)
    requires attempt <= 100 * cfg.Size()
    requires w.clock == start + SWEEP_PAUSE * (attempt / cfg.Size())
    ensures var (w', outcome) := Drive(cfg, script, w, call, req, attempt, start + RETRY_BUDGET);
      && outcome.Expired? && w'.clock == start + RETRY_BUDGET
      && attempt + |w'.sent| - |w.sent| == 100 * cfg.Size() + 1
    decreases 100 * cfg.Size() - attempt
  {
    hide Iterate, EntryOf, Leaderless, Retryable, Repeatable;
    var n := cfg.Size();
    NextSlot(attempt, n);
    IterationFacts(cfg, script, w, call, req, attempt, start + RETRY_BUDGET);
    HundredSweeps(attempt, n);
    LeaderlessIteration(cfg, script, w, call, req, attempt, start);
    match Iterate(cfg, script, w, call, req, attempt, start + RETRY_BUDGET)
    case Stop(_, _) =>
    case Again(w1) =>
      LeaderlessUsesWholeBudget(cfg, script, w1, call, req, attempt + 1, start);
  }

  lemma HundredSweeps(attempt: nat, n: nat)
    requires n > 0 && attempt <= 100 * n
    ensures if attempt == 100 * n then attempt / n == 100 else attempt / n < 100
  {
    if attempt == 100 * n {
      Quotient(attempt, n, 100, 0);
    } else {
      assert attempt == attempt / n * n + attempt % n;
      LessByFactor(attempt / n, 100, n);
    }
  }

  lemma LeaderlessIteration(cfg: Config, script: Script, w: World, call: nat, req: Request, attempt: nat, start: nat)
    requires cfg.Size() > 0 && Leaderless(cfg, script)
    ensures var s := Iterate(cfg, script, w, call, req, attempt, start + RETRY_BUDGET);
      if w.clock >= start + RETRY_BUDGET then s.Stop? && s.outcome.Expired? && s.world.clock == w.clock
      else s.Again? && s.world.clock == w.clock + (if (attempt + 1) % cfg.Size() == 0 then SWEEP_PAUSE else 0)
  {
    var w0 := w.(active := Interfered(cfg.Size(), w.active, script.gap(w.turn)));
    AttemptSends(cfg, script, w0, call, w0.active % cfg.Size(), req);
    hide ExecuteAll, Execute;
  }
}
