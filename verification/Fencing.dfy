/**
 What a fenced request does to the cluster over a whole call: a `complete` or a `fail` ends its
 lease at most once, however often the request is repeated, and a caller is told of success
 exactly when the attempt that ended the lease got its answer back.
 */
module Fencing {
  import opened Wrappers
  import opened TaskQueue
  import opened Cluster
  import opened Retry
  import opened RetryFacts

  /** A request that ends the lease of `qid` held under `token`. */
  ghost predicate Ends(req: Request, qid: nat, token: Token, how: How) {
    (req == Complete(qid, token) && how == ByComplete) || (req == Fail(qid, token) && how == ByFail)
  }

  /** The cluster carried the request out and accepted it. */
  ghost predicate Effective(e: Sent) { e.outcome.Some? && e.outcome.value.rc == Success }

  /** The queue just took `qid` out of exactly that lease: completed for good, or failed and retried until its limit. */
  ghost predicate JustEnded(q: Queue, q': Queue, qid: nat, token: Token, how: How) {
    && Grows(q, q')
    && |q.ended| < |q'.ended|
    && q'.ended[|q'.ended| - 1] == Ending(qid, token, how)
    && 1 <= qid <= |q'.tasks|
    && q'.tasks[qid - 1].token == token
    && (how == ByComplete ==> q'.tasks[qid - 1].state == Completed)
    && (how == ByFail ==> q'.tasks[qid - 1].state == LeftAs(q'.tasks[qid - 1]))
  }

  lemma ExecuteEnds(s: State, req: Request, server: Server, qid: nat, token: Token, how: How)
    requires Ends(req, qid, token, how)
    ensures var (s', reply) := Execute(s, req, server);
      && (reply.rc == Success <==> Holds(s.queue, qid, token))
      && (reply.rc == Success ==> JustEnded(s.queue, s'.queue, qid, token, how) && HasEnded(s'.queue, token))
  {
    hide Swept, LeaseEarliest;
    var q' := Execute(s, req, server).0.queue;
    if Holds(s.queue, qid, token) {
      assert q'.ended[|s.queue.ended|] == Ending(qid, token, how);
    }
  }

  lemma GrowsTransitive(q: Queue, q1: Queue, q2: Queue)
    requires Grows(q, q1) && Grows(q1, q2)
    ensures Grows(q, q2)
  {
  }

  /** The queue after one attempt, other clients' requests included: still valid, only grown. */
  lemma AttemptOnQueue(cfg: Config, t: Turn, w: World, call: nat, idx: nat, req: Request)
    requires cfg.Size() > 0 && Valid(w.cluster.queue)
    ensures var w' := Attempted(cfg, t, w, call, idx, req).0;
      Valid(w'.cluster.queue) && Grows(w.cluster.queue, w'.cluster.queue)
  {
    hide Execute, ExecuteAll, Valid, Grows, FateReply;
    var before := ExecuteAll(w.cluster, t.rivals);
    ExecuteAllKeepsValid(w.cluster, t.rivals);
    ExecuteAllGrows(w.cluster, t.rivals);
    ExecuteKeepsValid(before, req, t.server);
    ExecuteGrows(before, req, t.server);
    GrowsTransitive(w.cluster.queue, before.queue, Execute(before, req, t.server).0.queue);
  }

  /** An attempt that takes effect found the lease held, and ended it. */
  lemma AttemptEnds(cfg: Config, t: Turn, w: World, call: nat, idx: nat, req: Request, qid: nat, token: Token, how: How)
    requires cfg.Size() > 0 && Valid(w.cluster.queue) && Ends(req, qid, token, how)
    ensures var w' := Attempted(cfg, t, w, call, idx, req).0;
      |w'.sent| == |w.sent| + 1
      && (Effective(w'.sent[|w.sent|]) ==>
            && !HasEnded(w.cluster.queue, token)
            && HasEnded(w'.cluster.queue, token)
            && JustEnded(w.cluster.queue, w'.cluster.queue, qid, token, how))
  {
    hide Execute, ExecuteAll, Valid, Grows, HasEnded, Holds, FateReply, JustEnded, Ends;
    var before := ExecuteAll(w.cluster, t.rivals);
    ExecuteAllKeepsValid(w.cluster, t.rivals);
    ExecuteAllGrows(w.cluster, t.rivals);
    ExecuteEnds(before, req, t.server, qid, token, how);
    ValidTokens(before.queue);
    if HasEnded(w.cluster.queue, token) {
      EndedStaysEnded(w.cluster.queue, before.queue, token);
      EndedIsNotHeld(before.queue, qid, token);
    }
    var after := Execute(before, req, t.server).0;
    if JustEnded(before.queue, after.queue, qid, token, how) {
      JustEndedGrows(w.cluster.queue, before.queue, after.queue, qid, token, how);
    }
  }

  lemma ValidTokens(q: Queue)
    requires Valid(q)
    ensures TokensUnique(q)
  {
  }

  /** An iteration changes cluster and log by its attempt alone. */
  lemma IterationIsAttempt(
      cfg: Config, script: Script, w: World, call: nat, req: Request, attempt: nat, deadline: nat)
    requires cfg.Size() > 0
    ensures var s := Iterate(cfg, script, w, call, req, attempt, deadline);
      var w0 := w.(active := Interfered(cfg.Size(), w.active, script.gap(w.turn)));
      var idx := w0.active % cfg.Size();
      var w1 := Attempted(cfg, script.turn(w.turn, idx), w0, call, idx, req).0;
      if cfg.clients[idx] then s.world.cluster == w1.cluster && s.world.sent == w1.sent
      else s.Stop? && s.world.cluster == w.cluster && s.world.sent == w.sent
  {
    hide Attempted, NextIndex, Retryable;
  }

  lemma IterationOnQueue(
      cfg: Config, script: Script, w: World, call: nat, req: Request, attempt: nat, deadline: nat)
    requires cfg.Size() > 0 && Valid(w.cluster.queue)
    ensures var s := Iterate(cfg, script, w, call, req, attempt, deadline);
      Valid(s.world.cluster.queue) && Grows(w.cluster.queue, s.world.cluster.queue)
  {
    hide Iterate, Attempted, Valid, Grows;
    IterationIsAttempt(cfg, script, w, call, req, attempt, deadline);
    GrowsReflexive(w.cluster.queue);
    var w0 := w.(active := Interfered(cfg.Size(), w.active, script.gap(w.turn)));
    var idx := w0.active % cfg.Size();
    AttemptOnQueue(cfg, script.turn(w.turn, idx), w0, call, idx, req);
  }

  lemma IterationEnds(
      cfg: Config, script: Script, w: World, call: nat, req: Request, attempt: nat, deadline: nat,
      qid: nat, token: Token, how: How)
    requires cfg.Size() > 0 && Valid(w.cluster.queue) && Ends(req, qid, token, how)
    ensures var s := Iterate(cfg, script, w, call, req, attempt, deadline);
      |s.world.sent| > |w.sent| && Effective(s.world.sent[|w.sent|]) ==>
        && !HasEnded(w.cluster.queue, token)
        && HasEnded(s.world.cluster.queue, token)
        && JustEnded(w.cluster.queue, s.world.cluster.queue, qid, token, how)
  {
    hide Iterate, Attempted, Valid, HasEnded, JustEnded, Effective, Ends;
    IterationIsAttempt(cfg, script, w, call, req, attempt, deadline);
    var w0 := w.(active := Interfered(cfg.Size(), w.active, script.gap(w.turn)));
    var idx := w0.active % cfg.Size();
    AttemptEnds(cfg, script.turn(w.turn, idx), w0, call, idx, req, qid, token, how);
  }

  /** Once a lease has ended, no repetition of the request can take effect. */
  lemma {:induction false} NothingAfterTheEnd(
      cfg: Config, script: Script, w: World, call: nat, req: Request, attempt: nat, deadline: nat,
      qid: nat, token: Token, how: How)
    requires cfg.Size() > 0 && Valid(w.cluster.queue) && Ends(req, qid, token, how)
    requires HasEnded(w.cluster.queue, token)
    ensures var (w', outcome) := Drive(cfg, script, w, call, req, attempt, deadline);
      w.sent <= w'.sent && forall i | |w.sent| <= i < |w'.sent| :: !Effective(w'.sent[i])
    decreases Before(deadline, w.clock), cfg.Size() - attempt % cfg.Size()
  {
    hide Iterate, EntryOf, Repeatable, Retryable, Valid, HasEnded, Effective, Ends, Grows, JustEnded;
    IterationFacts(cfg, script, w, call, req, attempt, deadline);
    IterationOnQueue(cfg, script, w, call, req, attempt, deadline);
    IterationEnds(cfg, script, w, call, req, attempt, deadline, qid, token, how);
    var step := Iterate(cfg, script, w, call, req, attempt, deadline);
    EndedStaysEnded(w.cluster.queue, step.world.cluster.queue, token);
    if step.Again? {
      NextSlot(attempt, cfg.Size());
      NothingAfterTheEnd(cfg, script, step.world, call, req, attempt + 1, deadline, qid, token, how);
    }
  }

  /** The queue is still valid after the call, and its history has only grown. */
  lemma {:induction false} CallOnQueue(
      cfg: Config, script: Script, w: World, call: nat, req: Request, attempt: nat, deadline: nat)
    requires cfg.Size() > 0 && Valid(w.cluster.queue)
    ensures var w' := Drive(cfg, script, w, call, req, attempt, deadline).0;
      Valid(w'.cluster.queue) && Grows(w.cluster.queue, w'.cluster.queue)
    decreases Before(deadline, w.clock), cfg.Size() - attempt % cfg.Size()
  {
    hide Iterate, SentOnce, Valid, Grows;
    IterationFacts(cfg, script, w, call, req, attempt, deadline);
    IterationOnQueue(cfg, script, w, call, req, attempt, deadline);
    var step := Iterate(cfg, script, w, call, req, attempt, deadline);
    if step.Again? {
      NextSlot(attempt, cfg.Size());
      CallOnQueue(cfg, script, step.world, call, req, attempt + 1, deadline);
      GrowsTransitive(w.cluster.queue, step.world.cluster.queue,
                      Drive(cfg, script, step.world, call, req, attempt + 1, deadline).0.cluster.queue);
    }
  }

  /** The history records that `qid`'s lease under `token` ended after `q`. */
  ghost predicate EndedSince(q: Queue, q': Queue, qid: nat, token: Token, how: How) {
    exists m :: |q.ended| <= m < |q'.ended| && q'.ended[m] == Ending(qid, token, how)
  }

  lemma EndedSinceGrows(q: Queue, q1: Queue, q2: Queue, q3: Queue, qid: nat, token: Token, how: How)
    requires Grows(q, q1) && EndedSince(q1, q2, qid, token, how) && Grows(q2, q3)
    ensures EndedSince(q, q3, qid, token, how)
  {
    var m :| |q1.ended| <= m < |q2.ended| && q2.ended[m] == Ending(qid, token, how);
    assert q3.ended[m] == q2.ended[m];
  }

  lemma JustEndedGrows(q: Queue, q1: Queue, q2: Queue, qid: nat, token: Token, how: How)
    requires Grows(q, q1) && JustEnded(q1, q2, qid, token, how)
    ensures JustEnded(q, q2, qid, token, how)
  {
  }

  /** At most one attempt of a call takes effect, and then the history has that lease's end. */
  ghost predicate AtMostOneEffect(w: World, w': World, qid: nat, token: Token, how: How) {
    && w.sent <= w'.sent
    && (forall i, k | |w.sent| <= i < k < |w'.sent| :: !(Effective(w'.sent[i]) && Effective(w'.sent[k])))
    && (forall i | |w.sent| <= i < |w'.sent| && Effective(w'.sent[i]) ::
          EndedSince(w.cluster.queue, w'.cluster.queue, qid, token, how))
    && (|w.sent| < |w'.sent| && Effective(w'.sent[|w'.sent| - 1]) && w'.sent[|w'.sent| - 1].fate == Served ==>
          JustEnded(w.cluster.queue, w'.cluster.queue, qid, token, how))
  }

  lemma EffectStepsBack(w: World, w1: World, w': World, qid: nat, token: Token, how: How)
    requires w.sent <= w1.sent && |w1.sent| == |w.sent| + 1
    requires Grows(w.cluster.queue, w1.cluster.queue) && Grows(w1.cluster.queue, w'.cluster.queue)
    requires AtMostOneEffect(w1, w', qid, token, how)
    requires w1.sent[|w.sent|].fate != Served
    requires Effective(w1.sent[|w.sent|]) ==>
      && JustEnded(w.cluster.queue, w1.cluster.queue, qid, token, how)
      && forall i | |w1.sent| <= i < |w'.sent| :: !Effective(w'.sent[i])
    ensures AtMostOneEffect(w, w', qid, token, how)
  {
    hide Effective, Grows, JustEnded;
    var q, q1, q' := w.cluster.queue, w1.cluster.queue, w'.cluster.queue;
    assert w'.sent[|w.sent|] == w1.sent[|w.sent|];
    if Effective(w1.sent[|w.sent|]) {
      JustEndedIsSince(q, q1, q', qid, token, how);
    }
    if JustEnded(q1, q', qid, token, how) {
      JustEndedGrows(q, q1, q', qid, token, how);
    }
    forall i | |w.sent| <= i < |w'.sent| && Effective(w'.sent[i])
      ensures EndedSince(q, q', qid, token, how)
    {
      if i > |w.sent| {
        GrowsReflexive(q');
        EndedSinceGrows(q, q1, q', q', qid, token, how);
      }
    }
  }

  lemma GrowsReflexive(q: Queue)
    ensures Grows(q, q)
  {
  }

  lemma JustEndedIsSince(q: Queue, q1: Queue, q': Queue, qid: nat, token: Token, how: How)
    requires JustEnded(q, q1, qid, token, how) && Grows(q1, q')
    ensures EndedSince(q, q', qid, token, how)
  {
    assert q'.ended[|q1.ended| - 1] == Ending(qid, token, how);
  }

  lemma {:induction false} CallEndsAtMostOnce(
      cfg: Config, script: Script, w: World, call: nat, req: Request, attempt: nat, deadline: nat,
      qid: nat, token: Token, how: How)
    requires cfg.Size() > 0 && Valid(w.cluster.queue) && Ends(req, qid, token, how)
    ensures AtMostOneEffect(w, Drive(cfg, script, w, call, req, attempt, deadline).0, qid, token, how)
    decreases Before(deadline, w.clock), cfg.Size() - attempt % cfg.Size()
  {
    hide Iterate, EntryOf, Retryable, Valid, Grows, JustEnded, HasEnded, Effective, AtMostOneEffect, Ends;
    IterationFacts(cfg, script, w, call, req, attempt, deadline);
    IterationOnQueue(cfg, script, w, call, req, attempt, deadline);
    IterationEnds(cfg, script, w, call, req, attempt, deadline, qid, token, how);
    var step := Iterate(cfg, script, w, call, req, attempt, deadline);
    var w1 := step.world;
    if step.Stop? {
      FirstEffect(w, w1, qid, token, how);
    } else {
      NextSlot(attempt, cfg.Size());
      CallEndsAtMostOnce(cfg, script, w1, call, req, attempt + 1, deadline, qid, token, how);
      CallOnQueue(cfg, script, w1, call, req, attempt + 1, deadline);
      if Effective(w1.sent[|w.sent|]) {
        NothingAfterTheEnd(cfg, script, w1, call, req, attempt + 1, deadline, qid, token, how);
      }
      EffectStepsBack(w, w1, Drive(cfg, script, w1, call, req, attempt + 1, deadline).0, qid, token, how);
    }
  }

  lemma FirstEffect(w: World, w1: World, qid: nat, token: Token, how: How)
    requires w.sent <= w1.sent && |w1.sent| <= |w.sent| + 1
    requires |w1.sent| > |w.sent| && Effective(w1.sent[|w.sent|]) ==>
      JustEnded(w.cluster.queue, w1.cluster.queue, qid, token, how)
    ensures AtMostOneEffect(w, w1, qid, token, how)
  {
    hide Effective;
    if |w1.sent| > |w.sent| && Effective(w1.sent[|w.sent|]) {
      GrowsReflexive(w1.cluster.queue);
      JustEndedIsSince(w.cluster.queue, w1.cluster.queue, w1.cluster.queue, qid, token, how);
    }
  }

  /** The caller is told of success. */
  predicate Reported(outcome: Outcome) { outcome.Answered? && outcome.reply.rc == Success }

  /** Success is reported exactly when some attempt took effect and its answer was not lost. */
  lemma ReportedIffServed(cfg: Config, script: Script, w: World, call: nat, req: Request, deadline: nat)
    requires cfg.Size() > 0
    ensures var (w', outcome) := Drive(cfg, script, w, call, req, 0, deadline);
      && |w.sent| <= |w'.sent|
      && (Reported(outcome) <==>
            exists i :: |w.sent| <= i < |w'.sent| && Effective(w'.sent[i]) && w'.sent[i].fate == Served)
      && (Reported(outcome) ==>
            var last := w'.sent[|w'.sent| - 1]; |w.sent| < |w'.sent| && Effective(last) && last.fate == Served)
  {
    hide Drive, Answers;
    CallLog(cfg, script, w, call, req, 0, deadline);
    var (w', outcome) := Drive(cfg, script, w, call, req, 0, deadline);
    if |w.sent| < |w'.sent| {
      var last := |w'.sent| - 1;
      assert EntryOf(cfg, script, w'.sent[last], w.turn + last - |w.sent|, call, req);
      hide EntryOf;
    }
  }
}
