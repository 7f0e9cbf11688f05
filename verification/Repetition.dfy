/**
 What a retried enqueue or lease leaves behind: every attempt that is carried out takes effect, so each
 answer that is lost on the way back adds one task nobody knows of, or one lease nobody holds.
 */
module Repetition {
  import opened Wrappers
  import opened TaskQueue
  import opened Cluster
  import opened Retry
  import opened RetryFacts
  import opened Fencing
  import opened PortModel

  /** No other client has a request carried out. */
  ghost predicate Unrivalled(script: Script) {
    forall t: nat, e: nat :: script.turn(t, e).rivals == []
  }

  /** Attempts from entry `from` on that took effect. */
  ghost function Effects(sent: seq<Sent>, from: nat): nat
    decreases |sent| - from
  {
    if from >= |sent| then 0 else (if Effective(sent[from]) then 1 else 0) + Effects(sent, from + 1)
  }

  /** Those of them whose answer was lost. */
  ghost function LostEffects(sent: seq<Sent>, from: nat): nat
    decreases |sent| - from
  {
    if from >= |sent| then 0
    else (if Effective(sent[from]) && sent[from].fate == LostReply then 1 else 0) + LostEffects(sent, from + 1)
  }

  /** What a request that takes effect adds one to: the tasks, or the leases granted. */
  function Tally(req: Request, q: Queue): nat {
    if req.Enqueue? then |q.tasks| else q.nextToken
  }

  /** New tasks are only added behind the old ones, each with the payload of the request. */
  ghost predicate Adds(req: Request, q: Queue, q': Queue) {
    req.Enqueue? ==> q.tasks <= q'.tasks && forall k | |q.tasks| <= k < |q'.tasks| :: q'.tasks[k].payload == req.payload
  }

  lemma ExecuteCounts(s: State, req: Request, server: Server)
    requires req.Enqueue? || req.Lease?
    ensures var (s', reply) := Execute(s, req, server);
      && Tally(req, s'.queue) == Tally(req, s.queue) + (if reply.rc == Success then 1 else 0)
      && Adds(req, s.queue, s'.queue)
      && (req.Enqueue? ==> reply.rc == Success)
  {
    hide Matches;
  }

  /** One attempt counts once if it takes effect; it then was answered or its answer was lost. */
  lemma AttemptCounts(cfg: Config, script: Script, w: World, call: nat, idx: nat, req: Request)
    requires cfg.Size() > 0 && Unrivalled(script) && (req.Enqueue? || req.Lease?)
    ensures var (w', reply) := Attempted(cfg, script.turn(w.turn, idx), w, call, idx, req);
      && w'.sent == w.sent + [w'.sent[|w.sent|]]
      && var e := w'.sent[|w.sent|];
        && Tally(req, w'.cluster.queue) == Tally(req, w.cluster.queue) + (if Effective(e) then 1 else 0)
        && Adds(req, w.cluster.queue, w'.cluster.queue)
        && (Effective(e) <==> (e.fate == LostReply && Effective(e)) || reply.rc == Success)
        && (reply.rc == Success ==> e.fate == Served)
        && (req.Enqueue? ==> (Effective(e) <==> CarriedOut(e.fate)))
  {
    hide Execute;
    var t := script.turn(w.turn, idx);
    assert t.rivals == [];
    ExecuteCounts(w.cluster, req, t.server);
  }

  /** What a call left behind, counted over its log from entry `from`. */
  ghost predicate Counted(req: Request, q: Queue, q': Queue, sent: seq<Sent>, from: nat, reported: bool) {
    && Tally(req, q') == Tally(req, q) + Effects(sent, from)
    && Effects(sent, from) == LostEffects(sent, from) + (if reported then 1 else 0)
    && Adds(req, q, q')
    && (req.Enqueue? ==> forall i | from <= i < |sent| :: Effective(sent[i]) <==> CarriedOut(sent[i].fate))
  }

  lemma CountedEarlier(req: Request, q: Queue, q1: Queue, q': Queue, sent: seq<Sent>, from: nat, reported: bool)
    requires from < |sent| && Counted(req, q1, q', sent, from + 1, reported)
    requires Tally(req, q1) == Tally(req, q) + (if Effective(sent[from]) then 1 else 0) && Adds(req, q, q1)
    requires Effective(sent[from]) ==> sent[from].fate == LostReply
    requires req.Enqueue? ==> (Effective(sent[from]) <==> CarriedOut(sent[from].fate))
    ensures Counted(req, q, q', sent, from, reported)
  {
    hide Effective, Tally;
    if req.Enqueue? {
      forall k | |q.tasks| <= k < |q'.tasks| ensures q'.tasks[k].payload == req.payload {
        if k < |q1.tasks| { assert q'.tasks[k] == q1.tasks[k]; }
      }
    }
  }

  lemma CountedNow(req: Request, q: Queue, q': Queue, sent: seq<Sent>, from: nat, reported: bool)
    requires |sent| - 1 <= from <= |sent|
    requires if from == |sent| then q' == q && !reported
      else
        && Tally(req, q') == Tally(req, q) + (if Effective(sent[from]) then 1 else 0) && Adds(req, q, q')
        && (Effective(sent[from]) <==> reported || (Effective(sent[from]) && sent[from].fate == LostReply))
        && (reported ==> sent[from].fate == Served)
        && (req.Enqueue? ==> (Effective(sent[from]) <==> CarriedOut(sent[from].fate)))
    ensures Counted(req, q, q', sent, from, reported)
  {
    hide Effective;
    assert Effects(sent, |sent|) == 0 && LostEffects(sent, |sent|) == 0;
  }

  lemma {:induction false} CallCounts(
      cfg: Config, script: Script, w: World, call: nat, req: Request, attempt: nat, deadline: nat)
    requires cfg.Size() > 0 && Unrivalled(script) && (req.Enqueue? || req.Lease?)
    ensures var (w', outcome) := Drive(cfg, script, w, call, req, attempt, deadline);
      && w.sent <= w'.sent
      && Counted(req, w.cluster.queue, w'.cluster.queue, w'.sent, |w.sent|, Reported(outcome))
    decreases Before(deadline, w.clock), cfg.Size() - attempt % cfg.Size()
  {
    hide Attempted, EntryOf, Counted, Unrivalled, NextIndex, Effective, Adds, Tally;
    var w0 := w.(active := Interfered(cfg.Size(), w.active, script.gap(w.turn)));
    var idx := w0.active % cfg.Size();
    AttemptCounts(cfg, script, w0, call, idx, req);
    IterationFacts(cfg, script, w, call, req, attempt, deadline);
    IterationIsAttempt(cfg, script, w, call, req, attempt, deadline);
    AttemptSends(cfg, script, w0, call, idx, req);
    var step := Iterate(cfg, script, w, call, req, attempt, deadline);
    hide Iterate;
    var w1 := step.world;
    if step.Stop? {
      CountedNow(req, w.cluster.queue, w1.cluster.queue, w1.sent, |w.sent|, Reported(step.outcome));
    } else {
      NextSlot(attempt, cfg.Size());
      CallCounts(cfg, script, w1, call, req, attempt + 1, deadline);
      var (w', outcome) := Drive(cfg, script, w1, call, req, attempt + 1, deadline);
      assert w'.sent[|w.sent|] == w1.sent[|w.sent|];
      CountedEarlier(req, w.cluster.queue, w1.cluster.queue, w'.cluster.queue, w'.sent, |w.sent|, Reported(outcome));
    }
  }

  /**
   * One `enqueue`, nobody else at work: it adds as many tasks as attempts were carried out, all with its
   * payload: one for each answer lost, and one more if it reports success. So a reported success has
   * added one task exactly if no attempt carried out lost its answer.
   */
  lemma EnqueueAddsExactly(cfg: Config, script: Script, p: Port, payload: Bytes, maxAttempts: nat)
    requires Unrivalled(script)
    ensures var (p', result) := EnqueueOp(cfg, script, p, payload, maxAttempts);
      var (from, sent, old', new') :=
        (|p.world.sent|, p'.world.sent, p.world.cluster.queue.tasks, p'.world.cluster.queue.tasks);
      && old' <= new'
      && |new'| == |old'| + Effects(sent, from)
      && (forall i | from <= i < |sent| :: Effective(sent[i]) <==> CarriedOut(sent[i].fate))
      && Effects(sent, from) == LostEffects(sent, from) + (if result.Ok? then 1 else 0)
      && (forall k | |old'| <= k < |new'| :: new'[k].payload == payload)
      && (result.Ok? ==>
            (|new'| == |old'| + 1 <==> forall i | from <= i < |sent| && CarriedOut(sent[i].fate) :: sent[i].fate != LostReply))
  {
    hide Drive, Answers, EntryOf;
    if cfg.Size() > 0 {
      var w := p.world;
      var req := Request.Enqueue(payload, maxAttempts);
      CallCounts(cfg, script, w.(calls := w.calls + 1), w.calls, req, 0, w.clock + RETRY_BUDGET);
      var (w', outcome) := Transact(cfg, script, w, req);
      EnqueueReports(cfg, script, w, req);
      NoneLostExactly(w'.sent, |w.sent|);
    }
  }

  /** A successful answer to an enqueue brings an id. */
  lemma EnqueueReports(cfg: Config, script: Script, w: World, req: Request)
    requires cfg.Size() > 0 && req.Enqueue?
    ensures var outcome := Transact(cfg, script, w, req).1;
      Reported(outcome) ==> outcome.reply.body.NewTask?
  {
    hide Drive;
    var w0 := w.(calls := w.calls + 1);
    CallLog(cfg, script, w0, w.calls, req, 0, w.clock + RETRY_BUDGET);
    var (w', outcome) := Transact(cfg, script, w, req);
    if outcome.Answered? {
      var last := |w'.sent| - 1;
      assert EntryOf(cfg, script, w'.sent[last], w0.turn + last - |w0.sent|, w.calls, req);
    }
  }

  lemma {:induction false} NoneLostExactly(sent: seq<Sent>, from: nat)
    ensures LostEffects(sent, from) == 0
            <==> forall i | from <= i < |sent| && Effective(sent[i]) :: sent[i].fate != LostReply
    decreases |sent| - from
  {
    hide Effective;
    if from < |sent| {
      NoneLostExactly(sent, from + 1);
    }
  }

  /**
   * One `lease`, nobody else at work: it takes one lease for each attempt that was granted one and lost
   * the answer, and one more if it hands one out, the only one the lease table learns of.
   */
  lemma LeaseTakesExactly(cfg: Config, script: Script, p: Port, worker: nat, timeoutMs: nat, filter: Bytes)
    requires Unrivalled(script)
    ensures var (p', result) := LeaseOp(cfg, script, p, worker, timeoutMs, filter);
      var (from, sent, q, q') := (|p.world.sent|, p'.world.sent, p.world.cluster.queue, p'.world.cluster.queue);
      var handedOut := result.Ok? && result.value.Some?;
      && q'.nextToken == q.nextToken + Effects(sent, from)
      && Effects(sent, from) == LostEffects(sent, from) + (if handedOut then 1 else 0)
      && (handedOut ==>
            (q'.nextToken == q.nextToken + 1 <==> forall i | from <= i < |sent| && Effective(sent[i]) :: sent[i].fate != LostReply))
      && p'.leases == if handedOut then p.leases[result.value.value.qid := p'.leases[result.value.value.qid]] else p.leases
  {
    hide Drive, Effective;
    if cfg.Size() > 0 && (filter == [] || cfg.filtered) {
      var w := p.world;
      var req := Request.Lease(worker, timeoutMs, filter);
      CallCounts(cfg, script, w.(calls := w.calls + 1), w.calls, req, 0, w.clock + RETRY_BUDGET);
      var (w', outcome) := Transact(cfg, script, w, req);
      LeaseReports(cfg, script, w, req);
      NoneLostExactly(w'.sent, |w.sent|);
    }
  }

  /** A successful answer to a lease request brings a lease. */
  lemma LeaseReports(cfg: Config, script: Script, w: World, req: Request)
    requires cfg.Size() > 0 && req.Lease?
    ensures var outcome := Transact(cfg, script, w, req).1;
      Reported(outcome) ==> outcome.reply.body.Granted?
  {
    hide Drive;
    var w0 := w.(calls := w.calls + 1);
    CallLog(cfg, script, w0, w.calls, req, 0, w.clock + RETRY_BUDGET);
    var (w', outcome) := Transact(cfg, script, w, req);
    if outcome.Answered? {
      var last := |w'.sent| - 1;
      assert EntryOf(cfg, script, w'.sent[last], w0.turn + last - |w0.sent|, w.calls, req);
    }
  }
}
