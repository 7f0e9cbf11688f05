/** What the result channel may rely on: results are retained, or handed out at most once. */
module Retention {
  import opened Wrappers
  import opened Cluster
  import opened Retry
  import opened RetryFacts
  import opened Fencing
  import opened PortModel
  import opened ChannelModel

  /** The latest put of `qid` that took effect. */
  ghost function LastPut(puts: seq<PutRecord>, qid: nat): (k: Option<nat>)
    ensures k.Some? ==> k.value < |puts| && puts[k.value].qid == qid
    decreases |puts|
  {
    if puts == [] then None
    else if puts[|puts| - 1].qid == qid then Some(|puts| - 1)
    else LastPut(puts[..|puts| - 1], qid)
  }

  ghost function LatestPayload(s: State, qid: nat): Option<Bytes> {
    match LastPut(s.puts, qid)
    case Some(k) => Some(s.puts[k].bytes)
    case None => None
  }

  ghost predicate StoreIsLatest(s: State) {
    forall q: nat :: LastPut(s.puts, q) == if q in s.store then Some(s.store[q]) else None
  }

  ghost predicate Consumes(req: Request) { req.Get? && req.consume }

  ghost predicate NobodyConsumes(script: Script) {
    forall t: nat, e: nat, i: nat | i < |script.turn(t, e).rivals| :: !Consumes(script.turn(t, e).rivals[i].request)
  }

  lemma ExecuteRetains(s: State, req: Request, server: Server)
    requires StoreIsLatest(s) && !Consumes(req)
    ensures StoreIsLatest(Execute(s, req, server).0)
  {
    hide TaskQueue.Swept, TaskQueue.LeaseEarliest, TaskQueue.EndIfHeld, TaskQueue.Extended, TaskQueue.Enqueued;
    if req.Put? {
      var s' := Execute(s, req, server).0;
      assert s'.puts[..|s'.puts| - 1] == s.puts;
    }
  }

  lemma {:induction false} ExecuteAllRetains(s: State, rivals: seq<Rival>)
    requires StoreIsLatest(s) && forall i | 0 <= i < |rivals| :: !Consumes(rivals[i].request)
    ensures StoreIsLatest(ExecuteAll(s, rivals))
    decreases |rivals|
  {
    hide StoreIsLatest, Execute, Consumes;
    if rivals != [] {
      ExecuteRetains(s, rivals[0].request, rivals[0].server);
      ExecuteAllRetains(Execute(s, rivals[0].request, rivals[0].server).0, rivals[1..]);
    }
  }

  /** An answered request agrees with the store as it is after the attempt. */
  ghost predicate AnswersLatest(s: State, e: Sent) {
    e.request.Get? && e.fate == Served && e.seen.rc.Success? ==>
      match LastPut(s.puts, e.request.qid)
      case Some(k) => e.seen.body == Found(k, s.puts[k].bytes)
      case None => e.seen.body == NotFound
  }

  lemma AttemptRetains(cfg: Config, script: Script, w: World, call: nat, idx: nat, req: Request)
    requires cfg.Size() > 0 && NobodyConsumes(script) && StoreIsLatest(w.cluster) && !Consumes(req)
    ensures var w' := Attempted(cfg, script.turn(w.turn, idx), w, call, idx, req).0;
      |w'.sent| == |w.sent| + 1 && StoreIsLatest(w'.cluster) && AnswersLatest(w'.cluster, w'.sent[|w.sent|])
  {
    hide ExecuteAll, TaskQueue.Swept, TaskQueue.LeaseEarliest, TaskQueue.EndIfHeld, TaskQueue.Extended, TaskQueue.Enqueued;
    var t := script.turn(w.turn, idx);
    var before := ExecuteAll(w.cluster, t.rivals);
    ExecuteAllRetains(w.cluster, t.rivals);
    ExecuteRetains(before, req, t.server);
    if req.Get? {
      assert LastPut(before.puts, req.qid) == if req.qid in before.store then Some(before.store[req.qid]) else None;
    }
    hide NobodyConsumes, StoreIsLatest;
  }

  lemma {:induction false} CallRetains(
      cfg: Config, script: Script, w: World, call: nat, req: Request, attempt: nat, deadline: nat)
    requires cfg.Size() > 0 && NobodyConsumes(script) && StoreIsLatest(w.cluster) && !Consumes(req)
    ensures var (w', outcome) := Drive(cfg, script, w, call, req, attempt, deadline);
      && StoreIsLatest(w'.cluster)
      && (outcome.Answered? ==> |w.sent| < |w'.sent| && AnswersLatest(w'.cluster, w'.sent[|w'.sent| - 1]))
    decreases Before(deadline, w.clock), cfg.Size() - attempt % cfg.Size()
  {
    hide Iterate, EntryOf, Repeatable, Retryable, StoreIsLatest, AnswersLatest, NobodyConsumes, Attempted, Consumes;
    IterationFacts(cfg, script, w, call, req, attempt, deadline);
    IterationIsAttempt(cfg, script, w, call, req, attempt, deadline);
    var w0 := w.(active := Interfered(cfg.Size(), w.active, script.gap(w.turn)));
    AttemptRetains(cfg, script, w0, call, w0.active % cfg.Size(), req);
    var step := Iterate(cfg, script, w, call, req, attempt, deadline);
    if step.Again? {
      NextSlot(attempt, cfg.Size());
      CallRetains(cfg, script, step.world, call, req, attempt + 1, deadline);
    }
  }

  /** Nobody consuming, the store keeps the last effective payload of every task, through every run. */
  lemma {:induction false} RunRetains(cfg: Config, script: Script, w: World, commands: seq<ChannelCommand>)
    requires NobodyConsumes(script) && StoreIsLatest(w.cluster)
    ensures StoreIsLatest(RunChannel(cfg, script, false, w, commands).cluster)
    decreases |commands|
  {
    hide NobodyConsumes, StoreIsLatest, Drive;
    if commands != [] && cfg.Size() > 0 {
      RunRetains(cfg, script, w, commands[..|commands| - 1]);
      var mid := RunChannel(cfg, script, false, w, commands[..|commands| - 1]);
      var req := match commands[|commands| - 1]
        case DoPut(qid, bytes) => Put(qid, bytes)
        case DoTryGet(qid) => Get(qid, false);
      CallRetains(cfg, script, mid.(calls := mid.calls + 1), mid.calls, req, 0, mid.clock + RETRY_BUDGET);
    } else if commands != [] {
      RunRetains(cfg, script, w, commands[..|commands| - 1]);
    }
  }

  /** And then every `try_get` that gets an answer returns that payload, or nothing if there was no put. */
  lemma TryGetReturnsLatest(cfg: Config, script: Script, w: World, commands: seq<ChannelCommand>, qid: nat)
    requires NobodyConsumes(script) && StoreIsLatest(w.cluster)
    ensures var (w', result) := TryGetOp(cfg, script, false, RunChannel(cfg, script, false, w, commands), qid);
      result.Ok? ==> result.value == LatestPayload(w'.cluster, qid)
  {
    hide NobodyConsumes, StoreIsLatest, Drive, RunChannel, LastPut, Answers;
    RunRetains(cfg, script, w, commands);
    var mid := RunChannel(cfg, script, false, w, commands);
    if cfg.Size() > 0 {
      var m := mid.(calls := mid.calls + 1);
      CallRetains(cfg, script, m, mid.calls, Get(qid, false), 0, mid.clock + RETRY_BUDGET);
      CallLog(cfg, script, m, mid.calls, Get(qid, false), 0, mid.clock + RETRY_BUDGET);
      var (w', outcome) := Transact(cfg, script, mid, Get(qid, false));
      if outcome.Answered? {
        var last := |w'.sent| - 1;
        assert EntryOf(cfg, script, w'.sent[last], m.turn + last - |m.sent|, mid.calls, Get(qid, false));
      }
    }
  }

  lemma AttemptPuts(cfg: Config, t: Turn, w: World, call: nat, idx: nat, qid: nat, bytes: Bytes)
    requires cfg.Size() > 0
    ensures var (w', reply) := Attempted(cfg, t, w, call, idx, Put(qid, bytes));
      reply.rc == Success ==> LatestPayload(w'.cluster, qid) == Some(bytes)
  {
    hide ExecuteAll;
    var before := ExecuteAll(w.cluster, t.rivals);
    assert (before.puts + [PutRecord(qid, bytes)])[|before.puts|] == PutRecord(qid, bytes);
  }

  lemma {:induction false} CallPuts(
      cfg: Config, script: Script, w: World, call: nat, qid: nat, bytes: Bytes, attempt: nat, deadline: nat)
    requires cfg.Size() > 0
    ensures var (w', outcome) := Drive(cfg, script, w, call, Put(qid, bytes), attempt, deadline);
      Reported(outcome) ==> LatestPayload(w'.cluster, qid) == Some(bytes)
    decreases Before(deadline, w.clock), cfg.Size() - attempt % cfg.Size()
  {
    hide Attempted, NextIndex, LatestPayload;
    var req := Put(qid, bytes);
    var w0 := w.(active := Interfered(cfg.Size(), w.active, script.gap(w.turn)));
    var idx := w0.active % cfg.Size();
    AttemptPuts(cfg, script.turn(w.turn, idx), w0, call, idx, qid, bytes);
    IterationFacts(cfg, script, w, call, req, attempt, deadline);
    var step := Iterate(cfg, script, w, call, req, attempt, deadline);
    if step.Again? {
      NextSlot(attempt, cfg.Size());
      CallPuts(cfg, script, step.world, call, qid, bytes, attempt + 1, deadline);
    }
  }

  /** A `put` that returns success has made its payload the latest one, whoever consumes or puts besides. */
  lemma PutIsLatest(cfg: Config, script: Script, w: World, qid: nat, bytes: Bytes)
    ensures var (w', result) := PutOp(cfg, script, w, qid, bytes);
      result.Ok? ==> LatestPayload(w'.cluster, qid) == Some(bytes)
  {
    hide Drive, LatestPayload;
    if cfg.Size() > 0 {
      CallPuts(cfg, script, w.(calls := w.calls + 1), w.calls, qid, bytes, 0, w.clock + RETRY_BUDGET);
    }
  }

  // With consumption on reading: each effective put is handed out at most once.

  ghost predicate Delivers(e: Sent, put: nat) {
    e.request.Get? && e.seen.rc.Success? && e.seen.body.Found? && e.seen.body.put == put
  }

  /** The store names, for each task, one of that task's puts. */
  ghost predicate StoreNamesPuts(s: State) {
    forall q | q in s.store :: s.store[q] < |s.puts| && s.puts[s.store[q]].qid == q
  }

  ghost predicate HandedOutOnce(w: World) {
    && StoreNamesPuts(w.cluster)
    && (forall i, d | 0 <= i < |w.sent| && Delivers(w.sent[i], d) :: Spent(w.cluster, d))
    && (forall i, k, d | 0 <= i < k < |w.sent| && Delivers(w.sent[i], d) :: !Delivers(w.sent[k], d))
  }

  /** A put that happened and is no longer stored. */
  ghost predicate Spent(s: State, d: nat) {
    d < |s.puts| && forall q | q in s.store :: s.store[q] != d
  }

  lemma ExecuteKeepsSpent(s: State, req: Request, server: Server)
    requires StoreNamesPuts(s)
    ensures var s' := Execute(s, req, server).0; StoreNamesPuts(s') && forall d | Spent(s, d) :: Spent(s', d)
  {
    hide TaskQueue.Swept, TaskQueue.LeaseEarliest, TaskQueue.EndIfHeld, TaskQueue.Extended, TaskQueue.Enqueued;
  }

  lemma {:induction false} ExecuteAllKeepsSpent(s: State, rivals: seq<Rival>)
    requires StoreNamesPuts(s)
    ensures var s' := ExecuteAll(s, rivals); StoreNamesPuts(s') && forall d | Spent(s, d) :: Spent(s', d)
    decreases |rivals|
  {
    hide StoreNamesPuts, Spent, Execute;
    if rivals != [] {
      ExecuteKeepsSpent(s, rivals[0].request, rivals[0].server);
      ExecuteAllKeepsSpent(Execute(s, rivals[0].request, rivals[0].server).0, rivals[1..]);
    }
  }

  /** A consuming `get` that delivers took the put out of the store just then. */
  lemma ConsumingGetSpends(s: State, req: Request, server: Server)
    requires StoreNamesPuts(s) && (req.Get? ==> req.consume)
    ensures var (s', reply) := Execute(s, req, server);
      req.Get? && reply.body.Found? ==> !Spent(s, reply.body.put) && Spent(s', reply.body.put)
  {
    hide TaskQueue.Swept, TaskQueue.LeaseEarliest, TaskQueue.EndIfHeld, TaskQueue.Extended, TaskQueue.Enqueued;
  }

  lemma AttemptHandsOutOnce(cfg: Config, t: Turn, w: World, call: nat, idx: nat, req: Request)
    requires cfg.Size() > 0 && HandedOutOnce(w) && (req.Get? ==> req.consume)
    ensures HandedOutOnce(Attempted(cfg, t, w, call, idx, req).0)
  {
    hide StoreNamesPuts, Spent, Execute, ExecuteAll;
    var before := ExecuteAll(w.cluster, t.rivals);
    ExecuteAllKeepsSpent(w.cluster, t.rivals);
    ExecuteKeepsSpent(before, req, t.server);
    ConsumingGetSpends(before, req, t.server);
  }

  lemma {:induction false} CallHandsOutOnce(
      cfg: Config, script: Script, w: World, call: nat, req: Request, attempt: nat, deadline: nat)
    requires cfg.Size() > 0 && HandedOutOnce(w) && (req.Get? ==> req.consume)
    ensures HandedOutOnce(Drive(cfg, script, w, call, req, attempt, deadline).0)
    decreases Before(deadline, w.clock), cfg.Size() - attempt % cfg.Size()
  {
    hide Iterate, SentOnce, Attempted, StoreNamesPuts, Spent, Delivers;
    IterationFacts(cfg, script, w, call, req, attempt, deadline);
    IterationIsAttempt(cfg, script, w, call, req, attempt, deadline);
    var w0 := w.(active := Interfered(cfg.Size(), w.active, script.gap(w.turn)));
    var idx := w0.active % cfg.Size();
    AttemptHandsOutOnce(cfg, script.turn(w.turn, idx), w0, call, idx, req);
    var step := Iterate(cfg, script, w, call, req, attempt, deadline);
    if step.Again? {
      NextSlot(attempt, cfg.Size());
      CallHandsOutOnce(cfg, script, step.world, call, req, attempt + 1, deadline);
    }
  }

  /** In every run of a consuming channel, no effective put is delivered by two answers. */
  lemma {:induction false} RunHandsOutOnce(cfg: Config, script: Script, w: World, commands: seq<ChannelCommand>)
    requires HandedOutOnce(w)
    ensures HandedOutOnce(RunChannel(cfg, script, true, w, commands))
    decreases |commands|
  {
    hide StoreNamesPuts, Spent, Delivers, Drive;
    if commands != [] {
      RunHandsOutOnce(cfg, script, w, commands[..|commands| - 1]);
      if cfg.Size() > 0 {
        var mid := RunChannel(cfg, script, true, w, commands[..|commands| - 1]);
        var req := match commands[|commands| - 1]
          case DoPut(qid, bytes) => Put(qid, bytes)
          case DoTryGet(qid) => Get(qid, true);
        CallHandsOutOnce(cfg, script, mid.(calls := mid.calls + 1), mid.calls, req, 0, mid.clock + RETRY_BUDGET);
      }
    }
  }
}
