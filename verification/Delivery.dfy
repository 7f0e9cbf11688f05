/**
 * When exactly a consuming read delivers the result that is stored: a get that is carried out takes
 * the result out of the store whether or not its answer comes back, so everything hangs on the first
 * attempt of the call that is carried out.
 */
module Delivery {
  import opened Wrappers
  import opened Cluster
  import opened Retry
  import opened RetryFacts
  import opened Fencing
  import opened PortModel
  import opened ChannelModel
  import opened Retention

  /** The result stored for `qid` is put `d`. */
  ghost predicate Stored(s: State, qid: nat, d: nat) {
    qid in s.store && s.store[qid] == d && d < |s.puts|
  }

  ghost predicate Touches(req: Request, qid: nat) {
    (req.Put? && req.qid == qid) || (req.Get? && req.consume && req.qid == qid)
  }

  /** No other client puts or consumes a result of `qid`. */
  ghost predicate Untouched(script: Script, qid: nat) {
    forall t: nat, e: nat, i: nat | i < |script.turn(t, e).rivals| :: !Touches(script.turn(t, e).rivals[i].request, qid)
  }

  /** From `s` to `s'` the result of `qid` stayed what it was. */
  ghost predicate SameResult(s: State, s': State, qid: nat) {
    && s.puts <= s'.puts
    && (qid in s'.store <==> qid in s.store)
    && (qid in s.store ==> s'.store[qid] == s.store[qid])
  }

  lemma OthersKeepResult(s: State, req: Request, server: Server, qid: nat)
    requires !Touches(req, qid)
    ensures SameResult(s, Execute(s, req, server).0, qid)
  {
    hide TaskQueue.Swept, TaskQueue.LeaseEarliest, TaskQueue.EndIfHeld, TaskQueue.Extended, TaskQueue.Enqueued;
  }

  lemma {:induction false} RivalsKeepResult(s: State, rivals: seq<Rival>, qid: nat)
    requires forall i | 0 <= i < |rivals| :: !Touches(rivals[i].request, qid)
    ensures SameResult(s, ExecuteAll(s, rivals), qid)
    decreases |rivals|
  {
    hide Execute, Touches;
    if rivals != [] {
      OthersKeepResult(s, rivals[0].request, rivals[0].server, qid);
      RivalsKeepResult(Execute(s, rivals[0].request, rivals[0].server).0, rivals[1..], qid);
    }
  }

  /** One attempt of a consuming get, nobody else touching the result. */
  lemma AttemptTakes(cfg: Config, script: Script, w: World, call: nat, idx: nat, qid: nat, d: nat)
    requires cfg.Size() > 0 && Untouched(script, qid)
    ensures var t := script.turn(w.turn, idx);
      var (w', reply) := Attempted(cfg, t, w, call, idx, Get(qid, true));
      && |w'.sent| == |w.sent| + 1 && w'.sent[|w.sent|].fate == t.fate
      && w.cluster.puts <= w'.cluster.puts
      && (qid !in w.cluster.store ==> qid !in w'.cluster.store && (t.fate.Served? ==> reply == Reply(Success, NotFound)))
      && (Stored(w.cluster, qid, d) ==>
            if CarriedOut(t.fate) then
              qid !in w'.cluster.store
              && (t.fate.Served? ==> reply == Reply(Success, Found(d, w.cluster.puts[d].bytes)))
            else Stored(w'.cluster, qid, d))
  {
    hide ExecuteAll, TaskQueue.Swept, TaskQueue.LeaseEarliest, TaskQueue.EndIfHeld, TaskQueue.Extended, TaskQueue.Enqueued;
    var t := script.turn(w.turn, idx);
    RivalsKeepResult(w.cluster, t.rivals, qid);
  }

  /** Entry `i` is the first of the call that was carried out, and its answer came back. */
  ghost predicate FirstServed(sent: seq<Sent>, from: nat, i: nat)
    requires from <= i < |sent|
  {
    sent[i].fate == Served && forall k | from <= k < i :: !CarriedOut(sent[k].fate)
  }

  ghost predicate FirstCarriedOutIsServed(sent: seq<Sent>, from: nat) {
    exists i :: from <= i < |sent| && FirstServed(sent, from, i)
  }

  ghost predicate SomeServed(sent: seq<Sent>, from: nat) {
    exists i :: from <= i < |sent| && sent[i].fate == Served
  }

  /** What a call that started with put `d` stored, or with nothing stored, comes to. */
  ghost predicate Settled(sent: seq<Sent>, from: nat, outcome: Outcome, stored: bool, d: nat, bytes: Bytes) {
    && (outcome == Answered(Reply(Success, Found(d, bytes))) <==> stored && FirstCarriedOutIsServed(sent, from))
    && (outcome == Answered(Reply(Success, NotFound)) <==>
          SomeServed(sent, from) && !(stored && FirstCarriedOutIsServed(sent, from)))
    && (outcome.Answered? && outcome.reply.rc == Success ==>
          outcome.reply.body == NotFound || outcome.reply.body == Found(d, bytes))
  }

  lemma SettledNow(w: World, w': World, outcome: Outcome, stored: bool, d: nat, bytes: Bytes)
    requires w.sent <= w'.sent && |w'.sent| <= |w.sent| + 1
    requires if |w'.sent| > |w.sent| && w'.sent[|w.sent|].fate == Served
             then outcome == Answered(Reply(Success, if stored then Found(d, bytes) else NotFound))
             else !(outcome.Answered? && outcome.reply.rc == Success)
    ensures Settled(w'.sent, |w.sent|, outcome, stored, d, bytes)
  {
    var from := |w.sent|;
    if |w'.sent| > from && w'.sent[from].fate == Served {
      assert FirstServed(w'.sent, from, from);
    }
  }

  lemma SettledLater(sent: seq<Sent>, from: nat, outcome: Outcome, stored: bool, stillStored: bool, d: nat, bytes: Bytes)
    requires from < |sent| && sent[from].fate != Served
    requires stillStored == (stored && !CarriedOut(sent[from].fate))
    requires Settled(sent, from + 1, outcome, stillStored, d, bytes)
    ensures Settled(sent, from, outcome, stored, d, bytes)
  {
    if stored && FirstCarriedOutIsServed(sent, from) {
      var i :| from <= i < |sent| && FirstServed(sent, from, i);
      assert FirstServed(sent, from + 1, i);
    }
    if stillStored && FirstCarriedOutIsServed(sent, from + 1) {
      var i :| from + 1 <= i < |sent| && FirstServed(sent, from + 1, i);
      assert FirstServed(sent, from, i);
    }
  }

  lemma {:induction false} CallSettles(
      cfg: Config, script: Script, w: World, call: nat, qid: nat, d: nat, bytes: Bytes, attempt: nat, deadline: nat)
    requires cfg.Size() > 0 && Untouched(script, qid)
    requires qid !in w.cluster.store || (Stored(w.cluster, qid, d) && w.cluster.puts[d].bytes == bytes)
    ensures var (w', outcome) := Drive(cfg, script, w, call, Get(qid, true), attempt, deadline);
      && w.sent <= w'.sent
      && Settled(w'.sent, |w.sent|, outcome, qid in w.cluster.store, d, bytes)
    decreases Before(deadline, w.clock), cfg.Size() - attempt % cfg.Size()
  {
    hide Attempted, EntryOf, Retryable, Settled, Untouched, NextIndex;
    var req := Get(qid, true);
    var w0 := w.(active := Interfered(cfg.Size(), w.active, script.gap(w.turn)));
    var idx := w0.active % cfg.Size();
    AttemptTakes(cfg, script, w0, call, idx, qid, d);
    AttemptSends(cfg, script, w0, call, idx, req);
    IterationFacts(cfg, script, w, call, req, attempt, deadline);
    IterationIsAttempt(cfg, script, w, call, req, attempt, deadline);
    AttemptSeen(cfg, script, w0, call, idx, req);
    var step := Iterate(cfg, script, w, call, req, attempt, deadline);
    var stored := qid in w.cluster.store;
    hide Iterate;
    if step.Stop? {
      SettledNow(w, step.world, step.outcome, stored, d, bytes);
    } else {
      NextSlot(attempt, cfg.Size());
      CallSettles(cfg, script, step.world, call, qid, d, bytes, attempt + 1, deadline);
      var (w', outcome) := Drive(cfg, script, step.world, call, req, attempt + 1, deadline);
      assert w'.sent[|w.sent|] == step.world.sent[|w.sent|];
      SettledLater(w'.sent, |w.sent|, outcome, stored, qid in step.world.cluster.store, d, bytes);
    }
  }

  /** What the caller sees of an attempt is success only if it was answered. */
  lemma AttemptSeen(cfg: Config, script: Script, w: World, call: nat, idx: nat, req: Request)
    requires cfg.Size() > 0
    ensures var (w', reply) := Attempted(cfg, script.turn(w.turn, idx), w, call, idx, req);
      && w'.sent == w.sent + [w'.sent[|w.sent|]] && w'.sent[|w.sent|].seen == reply
      && w'.sent[|w.sent|].fate == script.turn(w.turn, idx).fate
      && (reply.rc == Success ==> script.turn(w.turn, idx).fate == Served)
  {
    hide Execute, ExecuteAll;
  }

  /**
   * With put `d` stored for the task and no other client touching it, a consuming read returns that
   * result exactly if the first attempt carried out was answered; it finds nothing exactly if an
   * attempt was answered but that first one was not; otherwise it reports an error.
   */
  lemma DeliveredExactly(cfg: Config, script: Script, w: World, qid: nat, d: nat)
    requires Untouched(script, qid) && Stored(w.cluster, qid, d)
    ensures var (w', result) := TryGetOp(cfg, script, true, w, qid);
      && w.sent <= w'.sent
      && (result == Ok(Some(w.cluster.puts[d].bytes)) <==> FirstCarriedOutIsServed(w'.sent, |w.sent|))
      && (result == Ok(None) <==> SomeServed(w'.sent, |w.sent|) && !FirstCarriedOutIsServed(w'.sent, |w.sent|))
      && (result.Ok? <==> SomeServed(w'.sent, |w.sent|))
  {
    hide Drive, FirstCarriedOutIsServed, SomeServed;
    if cfg.Size() > 0 {
      CallSettles(cfg, script, w.(calls := w.calls + 1), w.calls, qid, d, w.cluster.puts[d].bytes, 0, w.clock + RETRY_BUDGET);
      var (w', outcome) := Transact(cfg, script, w, Get(qid, true));
      FirstIsSome(w'.sent, |w.sent|);
    } else {
      NothingServed(w.sent);
    }
  }

  lemma FirstIsSome(sent: seq<Sent>, from: nat)
    ensures FirstCarriedOutIsServed(sent, from) ==> SomeServed(sent, from)
  {
    if FirstCarriedOutIsServed(sent, from) {
      var i :| from <= i < |sent| && FirstServed(sent, from, i);
    }
  }

  lemma NothingServed(sent: seq<Sent>)
    ensures !FirstCarriedOutIsServed(sent, |sent|) && !SomeServed(sent, |sent|)
  {}

  // Whatever other clients do, a put is delivered only by the first attempt that was carried out.

  lemma CarriedOutSpends(cfg: Config, script: Script, w: World, call: nat, idx: nat, qid: nat, d: nat)
    requires cfg.Size() > 0 && StoreNamesPuts(w.cluster)
    requires d < |w.cluster.puts| && w.cluster.puts[d].qid == qid
    ensures var w' := Attempted(cfg, script.turn(w.turn, idx), w, call, idx, Get(qid, true)).0;
      && StoreNamesPuts(w'.cluster)
      && d < |w'.cluster.puts| && w'.cluster.puts[d].qid == qid
      && (Spent(w.cluster, d) ==> Spent(w'.cluster, d) && !Delivers(w'.sent[|w.sent|], d))
      && (CarriedOut(script.turn(w.turn, idx).fate) ==> Spent(w'.cluster, d))
  {
    hide Execute, ExecuteAll, Spent, StoreNamesPuts;
    var t := script.turn(w.turn, idx);
    var before := ExecuteAll(w.cluster, t.rivals);
    ExecuteAllKeepsSpent(w.cluster, t.rivals);
    RivalsKeepPuts(w.cluster, t.rivals);
    ConsumingGetSpends(before, Get(qid, true), t.server);
    GetSpends(before, t.server, qid, d);
  }

  lemma GetSpends(s: State, server: Server, qid: nat, d: nat)
    requires StoreNamesPuts(s) && d < |s.puts| && s.puts[d].qid == qid
    ensures var s' := Execute(s, Get(qid, true), server).0;
      StoreNamesPuts(s') && Spent(s', d) && s'.puts == s.puts
  {
  }

  lemma PutsGrow(s: State, req: Request, server: Server)
    ensures s.puts <= Execute(s, req, server).0.puts
  {
    hide TaskQueue.Swept, TaskQueue.LeaseEarliest, TaskQueue.EndIfHeld, TaskQueue.Extended, TaskQueue.Enqueued;
  }

  lemma {:induction false} RivalsKeepPuts(s: State, rivals: seq<Rival>)
    ensures s.puts <= ExecuteAll(s, rivals).puts
    decreases |rivals|
  {
    hide Execute;
    if rivals != [] {
      PutsGrow(s, rivals[0].request, rivals[0].server);
      RivalsKeepPuts(Execute(s, rivals[0].request, rivals[0].server).0, rivals[1..]);
    }
  }

  /** Every entry that delivers `d` is the first carried out; none is once `d` is spent. */
  ghost predicate OnlyFirstDelivers(sent: seq<Sent>, from: nat, d: nat, spent: bool) {
    forall i | from <= i < |sent| && Delivers(sent[i], d) :: !spent && FirstServed(sent, from, i)
  }

  lemma OnlyFirstLater(sent: seq<Sent>, from: nat, d: nat, spent: bool, spentAfter: bool)
    requires from < |sent| && OnlyFirstDelivers(sent, from + 1, d, spentAfter)
    requires CarriedOut(sent[from].fate) || spent ==> spentAfter
    requires Delivers(sent[from], d) ==> !spent && sent[from].fate == Served
    ensures OnlyFirstDelivers(sent, from, d, spent)
  {
    hide Delivers;
    forall i | from <= i < |sent| && Delivers(sent[i], d)
      ensures !spent && FirstServed(sent, from, i)
    {
      if i > from {
        assert FirstServed(sent, from + 1, i);
      }
    }
  }

  lemma {:induction false} DeliveredOnlyByFirst(
      cfg: Config, script: Script, w: World, call: nat, qid: nat, d: nat, attempt: nat, deadline: nat)
    requires cfg.Size() > 0 && StoreNamesPuts(w.cluster)
    requires d < |w.cluster.puts| && w.cluster.puts[d].qid == qid
    ensures var w' := Drive(cfg, script, w, call, Get(qid, true), attempt, deadline).0;
      w.sent <= w'.sent && OnlyFirstDelivers(w'.sent, |w.sent|, d, Spent(w.cluster, d))
    decreases Before(deadline, w.clock), cfg.Size() - attempt % cfg.Size()
  {
    hide Attempted, EntryOf, Retryable, Spent, StoreNamesPuts, OnlyFirstDelivers, NextIndex;
    var req := Get(qid, true);
    var w0 := w.(active := Interfered(cfg.Size(), w.active, script.gap(w.turn)));
    var idx := w0.active % cfg.Size();
    CarriedOutSpends(cfg, script, w0, call, idx, qid, d);
    AttemptSeen(cfg, script, w0, call, idx, req);
    IterationFacts(cfg, script, w, call, req, attempt, deadline);
    IterationIsAttempt(cfg, script, w, call, req, attempt, deadline);
    var step := Iterate(cfg, script, w, call, req, attempt, deadline);
    hide Iterate;
    var w1 := step.world;
    if step.Again? {
      NextSlot(attempt, cfg.Size());
      DeliveredOnlyByFirst(cfg, script, w1, call, qid, d, attempt + 1, deadline);
      var w' := Drive(cfg, script, w1, call, req, attempt + 1, deadline).0;
      assert w'.sent[|w.sent|] == w1.sent[|w.sent|];
      OnlyFirstLater(w'.sent, |w.sent|, d, Spent(w.cluster, d), Spent(w1.cluster, d));
    } else {
      NoneDelivers(w1.sent, |w1.sent|, d, Spent(w1.cluster, d));
      if |w1.sent| > |w.sent| {
        OnlyFirstLater(w1.sent, |w.sent|, d, Spent(w.cluster, d), Spent(w1.cluster, d));
      } else {
        NoneDelivers(w1.sent, |w1.sent|, d, Spent(w.cluster, d));
      }
    }
  }

  lemma NoneDelivers(sent: seq<Sent>, from: nat, d: nat, spent: bool)
    requires |sent| <= from
    ensures OnlyFirstDelivers(sent, from, d, spent)
  {}

  /** So a read that delivers put `d` did so by its first attempt that was carried out. */
  lemma DeliveryIsFirst(cfg: Config, script: Script, w: World, qid: nat, d: nat)
    requires cfg.Size() > 0 && StoreNamesPuts(w.cluster) && Stored(w.cluster, qid, d)
    ensures var (w', outcome) := Transact(cfg, script, w, Get(qid, true));
      && w.sent <= w'.sent
      && (outcome.Answered? && outcome.reply.rc == Success && outcome.reply.body.Found? && outcome.reply.body.put == d ==>
            FirstCarriedOutIsServed(w'.sent, |w.sent|))
  {
    hide Drive, Spent, FirstServed, Answers;
    var w0 := w.(calls := w.calls + 1);
    DeliveredOnlyByFirst(cfg, script, w0, w.calls, qid, d, 0, w.clock + RETRY_BUDGET);
    CallLog(cfg, script, w0, w.calls, Get(qid, true), 0, w.clock + RETRY_BUDGET);
    var (w', outcome) := Transact(cfg, script, w, Get(qid, true));
    if outcome.Answered? {
      var last := |w'.sent| - 1;
      assert EntryOf(cfg, script, w'.sent[last], w0.turn + last - |w0.sent|, w.calls, Get(qid, true));
      assert outcome.reply == w'.sent[last].seen;
    }
  }
}
