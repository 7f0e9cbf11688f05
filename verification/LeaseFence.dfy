/** The lease fence over whole runs of a port, read off the log of what it sent. */
module LeaseFence {
  import opened Wrappers
  import opened TaskQueue
  import opened Cluster
  import opened Retry
  import opened RetryFacts
  import opened Fencing
  import opened PortModel

  /** The caller received a lease of `qid`. */
  ghost predicate Grants(e: Sent, qid: nat) {
    e.request.Lease? && e.seen.rc.Success? && e.seen.body.Granted? && e.seen.body.grant.qid == qid
  }

  ghost predicate GrantsOnly(e: Sent, qid: nat) {
    forall q :: Grants(e, q) <==> q == qid
  }

  ghost predicate EndsLeaseOf(e: Sent, qid: nat) {
    (e.request.Complete? || e.request.Fail?) && e.request.qid == qid
  }

  ghost predicate UsesLeaseOf(e: Sent, qid: nat) {
    EndsLeaseOf(e, qid) || (e.request.Heartbeat? && e.request.qid == qid)
  }

  /** The wire token of the latest lease of `qid` received. */
  ghost function LatestGrant(sent: seq<Sent>, qid: nat): Option<Token>
    decreases |sent|
  {
    if sent == [] then None
    else
      var e := sent[|sent| - 1];
      if Grants(e, qid) then Some(e.seen.body.grant.token) else LatestGrant(sent[..|sent| - 1], qid)
  }

  /** The call that last tried to end that latest lease, if any did. */
  ghost function LatestEnd(sent: seq<Sent>, qid: nat): Option<nat>
    decreases |sent|
  {
    if sent == [] then None
    else
      var e := sent[|sent| - 1];
      if Grants(e, qid) then None
      else if EndsLeaseOf(e, qid) then Some(e.call)
      else LatestEnd(sent[..|sent| - 1], qid)
  }

  /** Entry `i` uses a lease properly: the latest token, and no other call tried to end it before. */
  ghost predicate ProperUse(sent: seq<Sent>, i: nat, qid: nat)
    requires i < |sent|
  {
    UsesLeaseOf(sent[i], qid) ==>
      && LatestGrant(sent[..i], qid) == Some(sent[i].request.token)
      && (LatestEnd(sent[..i], qid) == None || LatestEnd(sent[..i], qid) == Some(sent[i].call))
  }

  ghost predicate CallsAgree(sent: seq<Sent>) {
    forall i, k | 0 <= i < k < |sent| && sent[i].call == sent[k].call :: sent[i].request == sent[k].request
  }

  ghost predicate FenceHolds(p: Port) {
    && (forall q | q in p.leases ::
          LatestGrant(p.world.sent, q) == Some(p.leases[q]) && LatestEnd(p.world.sent, q) == None)
    && (forall i: nat, q: nat | i < |p.world.sent| :: ProperUse(p.world.sent, i, q))
    && (forall i | 0 <= i < |p.world.sent| :: p.world.sent[i].call < p.world.calls)
    && CallsAgree(p.world.sent)
  }

  // One call's stretch of the log.

  ghost predicate Stretch(sent: seq<Sent>, sent': seq<Sent>, call: nat, req: Request) {
    && sent <= sent'
    && (forall i | |sent| <= i < |sent'| :: sent'[i].call == call && sent'[i].request == req)
  }

  lemma {:induction false} NoGrantInStretch(sent: seq<Sent>, sent': seq<Sent>, qid: nat)
    requires sent <= sent'
    requires forall i | |sent| <= i < |sent'| :: !Grants(sent'[i], qid)
    ensures LatestGrant(sent', qid) == LatestGrant(sent, qid)
    ensures (forall i | |sent| <= i < |sent'| :: !EndsLeaseOf(sent'[i], qid)) ==>
              LatestEnd(sent', qid) == LatestEnd(sent, qid)
    decreases |sent'|
  {
    if |sent| < |sent'| {
      NoGrantInStretch(sent, sent'[..|sent'| - 1], qid);
    } else {
      assert sent == sent';
    }
  }

  /** Appending a call that neither grants nor uses a lease of `qid` in the stretch keeps uses proper. */
  lemma StretchKeepsUses(sent: seq<Sent>, sent': seq<Sent>, i: nat, qid: nat)
    requires sent <= sent' && i < |sent| && ProperUse(sent, i, qid)
    ensures ProperUse(sent', i, qid)
  {
    assert sent'[..i] == sent[..i];
  }

  /** A stretch by one fresh call that uses `qid`'s latest, not yet ended lease. */
  lemma UseIsProper(sent: seq<Sent>, sent': seq<Sent>, call: nat, req: Request, i: nat, qid: nat)
    requires Stretch(sent, sent', call, req) && |sent| <= i < |sent'|
    requires UsesLeaseOf(sent'[i], qid) ==>
               LatestGrant(sent, qid) == Some(req.token) && LatestEnd(sent, qid) == None
    ensures ProperUse(sent', i, qid)
  {
    if UsesLeaseOf(sent'[i], qid) {
      NoGrantInStretch(sent, sent'[..i], qid);
      if EndsLeaseOf(sent'[i], qid) && i > |sent| {
        assert sent'[..i][i - 1] == sent'[i - 1];
      }
    }
  }

  /** One fresh call keeps the log's part of the fence. */
  lemma StretchKeepsLog(p: Port, w': World, req: Request)
    requires FenceHolds(p) && Stretch(p.world.sent, w'.sent, p.world.calls, req)
    requires w'.calls == p.world.calls + 1
    requires (req.Complete? || req.Fail? || req.Heartbeat?) ==> req.qid in p.leases && req.token == p.leases[req.qid]
    ensures forall i: nat, q: nat | i < |w'.sent| :: ProperUse(w'.sent, i, q)
    ensures forall i | 0 <= i < |w'.sent| :: w'.sent[i].call < w'.calls
    ensures CallsAgree(w'.sent)
  {
    var sent, sent' := p.world.sent, w'.sent;
    forall i: nat, q: nat | i < |sent'|
      ensures ProperUse(sent', i, q)
    {
      if i < |sent| {
        StretchKeepsUses(sent, sent', i, q);
      } else {
        UseIsProper(sent, sent', p.world.calls, req, i, q);
      }
    }
    forall i, k | 0 <= i < k < |sent'| && sent'[i].call == sent'[k].call
      ensures sent'[i].request == sent'[k].request
    {
      if i < |sent| {
        assert sent'[i] == sent[i];
      }
    }
  }

  lemma NotGranted(e: Sent, qid: nat)
    requires Repeatable(e.fate) && Faithful(e)
    ensures !Grants(e, qid)
  {
  }

  /** The log of one transaction: one stretch, in which only a final successful answer can grant. */
  lemma TransactLog(cfg: Config, script: Script, w: World, req: Request)
    requires cfg.Size() > 0
    ensures var (w', outcome) := Transact(cfg, script, w, req);
      && Stretch(w.sent, w'.sent, w.calls, req) && w'.calls == w.calls + 1
      && (forall i, q | |w.sent| <= i < |w'.sent| - 1 :: !Grants(w'.sent[i], q))
      && (if req.Lease? && Reported(outcome) then
            && |w.sent| < |w'.sent| && outcome.reply.body.Granted?
            && GrantsOnly(w'.sent[|w'.sent| - 1], outcome.reply.body.grant.qid)
            && w'.sent[|w'.sent| - 1].seen == outcome.reply
          else forall i, q | |w.sent| <= i < |w'.sent| :: !Grants(w'.sent[i], q))
  {
    hide Drive, Faithful, Repeatable, Grants, FateReply, Answers;
    var w0 := w.(calls := w.calls + 1);
    CallLog(cfg, script, w0, w.calls, req, 0, w.clock + RETRY_BUDGET);
    var (w', outcome) := Transact(cfg, script, w, req);
    forall i, q | |w.sent| <= i < |w'.sent| && Repeatable(w'.sent[i].fate)
      ensures !Grants(w'.sent[i], q)
    {
      assert EntryOf(cfg, script, w'.sent[i], w0.turn + i - |w0.sent|, w.calls, req);
      NotGranted(w'.sent[i], q);
    }
    if outcome.Answered? {
      var last := w'.sent[|w'.sent| - 1];
      assert EntryOf(cfg, script, last, w0.turn + |w'.sent| - 1 - |w0.sent|, w.calls, req);
      FinalGrant(last);
    }
  }

  lemma FinalGrant(e: Sent)
    requires Faithful(e)
    ensures e.request.Lease? && e.seen.rc == Success ==> e.seen.body.Granted?
    ensures e.request.Lease? && e.seen.rc == Success ==> GrantsOnly(e, e.seen.body.grant.qid)
    ensures !(e.request.Lease? && e.seen.rc == Success) ==> forall q :: !Grants(e, q)
  {
  }

  lemma TransactKeepsFence(cfg: Config, script: Script, p: Port, req: Request)
    requires cfg.Size() > 0 && FenceHolds(p)
    requires (req.Complete? || req.Fail? || req.Heartbeat?) ==> req.qid in p.leases && req.token == p.leases[req.qid]
    ensures var (w', outcome) := Transact(cfg, script, p.world, req);
      FenceHolds(Port(LeasesAfter(p.leases, req, outcome), w'))
  {
    hide Transact, ProperUse, CallsAgree, Grants;
    TransactLog(cfg, script, p.world, req);
    var (w', outcome) := Transact(cfg, script, p.world, req);
    StretchKeepsLog(p, w', req);
    var sent, sent', leases' := p.world.sent, w'.sent, LeasesAfter(p.leases, req, outcome);
    forall q | q in leases'
      ensures LatestGrant(sent', q) == Some(leases'[q]) && LatestEnd(sent', q) == None
    {
      if req.Lease? && Reported(outcome) && q == outcome.reply.body.grant.qid {
      } else {
        NoGrantInStretch(sent, sent', q);
      }
    }
  }

  lemma ApplyKeepsFence(cfg: Config, script: Script, p: Port, c: Command)
    requires FenceHolds(p)
    ensures FenceHolds(Apply(cfg, script, p, c))
  {
    hide Transact, FenceHolds, Apply, LeasesAfter, RequestOf;
    ApplyTransacts(cfg, script, p, c);
    match RequestOf(cfg, p, c)
    case None =>
    case Some(req) => TransactKeepsFence(cfg, script, p, req);
  }

  /** In every run of a port, against every environment, the fence holds. */
  lemma {:induction false} RunKeepsFence(cfg: Config, script: Script, p: Port, commands: seq<Command>)
    requires FenceHolds(p)
    ensures FenceHolds(Run(cfg, script, p, commands))
    decreases |commands|
  {
    hide FenceHolds, Apply;
    if commands != [] {
      RunKeepsFence(cfg, script, p, commands[..|commands| - 1]);
      ApplyKeepsFence(cfg, script, Run(cfg, script, p, commands[..|commands| - 1]), commands[|commands| - 1]);
    }
  }

  // What the fence means, read off the log.

  ghost predicate NoGrantBetween(sent: seq<Sent>, i: nat, k: nat, qid: nat)
    requires k <= |sent|
  {
    forall m | i < m < k :: !Grants(sent[m], qid)
  }

  /** Some attempt to end the lease since its grant is the one `LatestEnd` names. */
  lemma {:induction false} LatestEndFound(sent: seq<Sent>, i: nat, k: nat, qid: nat) returns (j: nat)
    requires i < k <= |sent| && EndsLeaseOf(sent[i], qid) && NoGrantBetween(sent, i, k, qid)
    ensures i <= j < k && EndsLeaseOf(sent[j], qid) && LatestEnd(sent[..k], qid) == Some(sent[j].call)
    decreases k
  {
    assert sent[..k][..k - 1] == sent[..k - 1];
    if EndsLeaseOf(sent[k - 1], qid) {
      j := k - 1;
    } else {
      j := LatestEndFound(sent, i, k - 1, qid);
    }
  }

  /**
   Once a call has tried to end a lease, no other call uses that lease: whatever else is sent for the
   task before its next lease is that same request again. So no lease is ended both ways.
   */
  lemma {:induction false} OneEndPerLease(p: Port, i: nat, k: nat, qid: nat)
    requires FenceHolds(p) && i < k < |p.world.sent|
    requires EndsLeaseOf(p.world.sent[i], qid) && UsesLeaseOf(p.world.sent[k], qid)
    requires NoGrantBetween(p.world.sent, i, k, qid)
    ensures p.world.sent[i].request == p.world.sent[k].request && p.world.sent[i].call == p.world.sent[k].call
    decreases k
  {
    var sent := p.world.sent;
    var j := LatestEndFound(sent, i, k, qid);
    assert ProperUse(sent, k, qid);
    if i < j {
      OneEndPerLease(p, i, j, qid);
    }
    assert CallsAgree(sent);
  }

  /** Every attempt of every run carries the wire token of the latest lease received. */
  lemma LatestTokenIsSent(cfg: Config, script: Script, w: World, commands: seq<Command>, i: nat, qid: nat)
    requires w.sent == []
    requires var sent := Run(cfg, script, Port(map[], w), commands).world.sent;
      i < |sent| && UsesLeaseOf(sent[i], qid)
    ensures var sent := Run(cfg, script, Port(map[], w), commands).world.sent;
      LatestGrant(sent[..i], qid) == Some(sent[i].request.token)
  {
    RunKeepsFence(cfg, script, Port(map[], w), commands);
    var sent := Run(cfg, script, Port(map[], w), commands).world.sent;
    hide Run;
    assert ProperUse(sent, i, qid);
  }

  /** Whatever the outcome, a call past the token check forgets the lease. */
  lemma EndingForgets(cfg: Config, script: Script, p: Port, qid: nat, local: nat, how: How)
    requires cfg.Size() > 0 && PassesCheck(p, qid, local)
    ensures EndOp(cfg, script, p, qid, local, how).0.leases == p.leases - {qid}
  {
    hide Transact;
  }

  /** `from` on, nothing was sent for `qid` and no lease of it came in. */
  ghost predicate Silent(sent: seq<Sent>, from: nat, qid: nat) {
    forall i | from <= i < |sent| :: !UsesLeaseOf(sent[i], qid)
  }

  ghost predicate Ungranted(sent: seq<Sent>, from: nat, qid: nat) {
    forall i | from <= i < |sent| :: !Grants(sent[i], qid)
  }

  lemma ApplyLog(cfg: Config, script: Script, p: Port, c: Command, qid: nat)
    ensures var p' := Apply(cfg, script, p, c);
      && p.world.sent <= p'.world.sent
      && (qid !in p.leases ==> Silent(p'.world.sent, |p.world.sent|, qid))
      && (qid !in p.leases && Ungranted(p'.world.sent, |p.world.sent|, qid) ==> qid !in p'.leases)
  {
    hide Transact, Grants, Apply, RequestOf;
    ApplyTransacts(cfg, script, p, c);
    match RequestOf(cfg, p, c)
    case None =>
    case Some(req) => TransactLog(cfg, script, p.world, req);
  }

  /** With no lease of `qid`, nothing is sent for it until a new lease of it comes in. */
  lemma {:induction false} SilentUntilNextLease(cfg: Config, script: Script, p: Port, commands: seq<Command>, qid: nat)
    requires qid !in p.leases
    ensures var p' := Run(cfg, script, p, commands);
      && p.world.sent <= p'.world.sent
      && (Ungranted(p'.world.sent, |p.world.sent|, qid) ==>
            qid !in p'.leases && Silent(p'.world.sent, |p.world.sent|, qid))
    decreases |commands|
  {
    hide Apply, Grants, UsesLeaseOf;
    if commands != [] {
      var mid := Run(cfg, script, p, commands[..|commands| - 1]);
      SilentUntilNextLease(cfg, script, p, commands[..|commands| - 1], qid);
      ApplyLog(cfg, script, mid, commands[|commands| - 1], qid);
      var sent' := Run(cfg, script, p, commands).world.sent;
      forall i | |p.world.sent| <= i < |mid.world.sent|
        ensures sent'[i] == mid.world.sent[i]
      {
      }
    }
  }

  // What the caller of `complete` or `fail` learns about the broker.

  /**
   A call past the token check ends exactly the lease this port holds, at most once. It returns success
   exactly when the attempt that ended the lease was answered; the queue has then just moved the task
   out of that lease. A lost answer is reported as a failure although the lease has ended.
   */
  lemma EndIsReportedTruthfully(cfg: Config, script: Script, p: Port, qid: nat, local: nat, how: How)
    requires cfg.Size() > 0 && PassesCheck(p, qid, local) && Valid(p.world.cluster.queue)
    requires how == ByComplete || how == ByFail
    ensures var (p', result) := EndOp(cfg, script, p, qid, local, how);
      var (w, w') := (p.world, p'.world);
      && Valid(w'.cluster.queue)
      && AtMostOneEffect(w, w', qid, p.leases[qid], how)
      && (result.Ok? <==>
            exists i :: |w.sent| <= i < |w'.sent| && Effective(w'.sent[i]) && w'.sent[i].fate == Served)
      && (result.Ok? ==> JustEnded(w.cluster.queue, w'.cluster.queue, qid, p.leases[qid], how))
  {
    hide Drive, Valid, Effective, JustEnded, EndedSince;
    var w := p.world;
    var w0 := w.(calls := w.calls + 1);
    var req := EndRequest(qid, p.leases[qid], how);
    CallOnQueue(cfg, script, w0, w.calls, req, 0, w.clock + RETRY_BUDGET);
    CallEndsAtMostOnce(cfg, script, w0, w.calls, req, 0, w.clock + RETRY_BUDGET, qid, p.leases[qid], how);
    ReportedIffServed(cfg, script, w0, w.calls, req, w.clock + RETRY_BUDGET);
  }

  lemma ApplyKeepsQueue(cfg: Config, script: Script, p: Port, c: Command)
    requires Valid(p.world.cluster.queue)
    ensures var p' := Apply(cfg, script, p, c);
      Valid(p'.world.cluster.queue) && Grows(p.world.cluster.queue, p'.world.cluster.queue)
  {
    hide Drive, Valid, Grows, Apply, RequestOf;
    ApplyTransacts(cfg, script, p, c);
    GrowsReflexive(p.world.cluster.queue);
    match RequestOf(cfg, p, c)
    case None =>
    case Some(req) =>
      var w := p.world;
      CallOnQueue(cfg, script, w.(calls := w.calls + 1), w.calls, req, 0, w.clock + RETRY_BUDGET);
  }

  /** In every run, whatever other clients do, the broker's invariant holds and its history only grows. */
  lemma {:induction false} RunKeepsQueue(cfg: Config, script: Script, p: Port, commands: seq<Command>)
    requires Valid(p.world.cluster.queue)
    ensures var p' := Run(cfg, script, p, commands);
      Valid(p'.world.cluster.queue) && Grows(p.world.cluster.queue, p'.world.cluster.queue)
    decreases |commands|
  {
    hide Valid, Grows, Apply;
    GrowsReflexive(p.world.cluster.queue);
    if commands != [] {
      var mid := Run(cfg, script, p, commands[..|commands| - 1]);
      RunKeepsQueue(cfg, script, p, commands[..|commands| - 1]);
      ApplyKeepsQueue(cfg, script, mid, commands[|commands| - 1]);
      GrowsTransitive(p.world.cluster.queue, mid.world.cluster.queue, Run(cfg, script, p, commands).world.cluster.queue);
    }
  }

  /**
   Over whole runs: after any commands, a `complete` or `fail` that returns success has moved the task
   out of the latest lease this port received of it, during that very call.
   */
  lemma SuccessMeansEnded(
      cfg: Config, script: Script, w: World, commands: seq<Command>, qid: nat, local: nat, how: How)
    requires w.sent == [] && Valid(w.cluster.queue) && (how == ByComplete || how == ByFail)
    ensures var p := Run(cfg, script, Port(map[], w), commands);
      var (p', result) := EndOp(cfg, script, p, qid, local, how);
      result.Ok? ==>
        && LatestGrant(p.world.sent, qid).Some?
        && var token := LatestGrant(p.world.sent, qid).value;
          token.local == local && JustEnded(p.world.cluster.queue, p'.world.cluster.queue, qid, token, how)
  {
    hide Run, Transact, Valid, JustEnded;
    RunKeepsFence(cfg, script, Port(map[], w), commands);
    RunKeepsQueue(cfg, script, Port(map[], w), commands);
    var p := Run(cfg, script, Port(map[], w), commands);
    if cfg.Size() > 0 && PassesCheck(p, qid, local) {
      EndIsReportedTruthfully(cfg, script, p, qid, local, how);
    }
  }

  /**
   * The report of a call past the check is right, success if and only if some attempt took effect,
   * exactly when no attempt took effect with its answer lost.
   */
  lemma ReportIsRightExactly(cfg: Config, script: Script, p: Port, qid: nat, local: nat, how: How)
    requires cfg.Size() > 0 && PassesCheck(p, qid, local) && Valid(p.world.cluster.queue)
    requires how == ByComplete || how == ByFail
    ensures var (p', result) := EndOp(cfg, script, p, qid, local, how);
      var (from, sent) := (|p.world.sent|, p'.world.sent);
      (result.Ok? <==> exists i :: from <= i < |sent| && Effective(sent[i]))
      <==> forall i | from <= i < |sent| && Effective(sent[i]) :: sent[i].fate != LostReply
  {
    hide Drive, Valid, Answers, JustEnded, EndedSince;
    EndIsReportedTruthfully(cfg, script, p, qid, local, how);
    var w0 := p.world.(calls := p.world.calls + 1);
    var req := EndRequest(qid, p.leases[qid], how);
    CallLog(cfg, script, w0, p.world.calls, req, 0, p.world.clock + RETRY_BUDGET);
    var (p', result) := EndOp(cfg, script, p, qid, local, how);
    var (from, sent) := (|p.world.sent|, p'.world.sent);
    forall i | from <= i < |sent| && Effective(sent[i])
      ensures sent[i].fate == LostReply || sent[i].fate == Served
    {
      assert EntryOf(cfg, script, sent[i], w0.turn + i - |w0.sent|, p.world.calls, req);
    }
  }

  /** Nothing is sent and an error is returned by every operation on a lease of `qid`. */
  ghost predicate Unusable(cfg: Config, script: Script, p: Port, qid: nat) {
    && (forall local, how: How :: EndOp(cfg, script, p, qid, local, how) == (p, Err(DistributedError)))
    && (forall local, extendByMs: nat :: HeartbeatOp(cfg, script, p, qid, local, extendByMs) == (p, Err(DistributedError)))
  }

  lemma UnusableWithoutLease(cfg: Config, script: Script, p: Port, qid: nat)
    requires qid !in p.leases
    ensures Unusable(cfg, script, p, qid)
  {
    hide Transact;
  }

  /**
   * Over whole runs: once a complete or fail of `qid` got past the token check, whatever it returned,
   * and whatever commands follow, until a lease of `qid` is received again nothing is sent for it and
   * every complete, fail and heartbeat of it, with any token, is refused without a request.
   */
  lemma EndedLeaseIsUnusable(
      cfg: Config, script: Script, w: World, commands: seq<Command>,
      qid: nat, local: nat, how: How, more: seq<Command>)
    requires PassesCheck(Run(cfg, script, Port(map[], w), commands), qid, local)
    ensures var p := Run(cfg, script, Port(map[], w), commands);
      var ended := EndOp(cfg, script, p, qid, local, how).0;
      var p' := Run(cfg, script, ended, more);
      && ended.world.sent <= p'.world.sent
      && (Ungranted(p'.world.sent, |ended.world.sent|, qid) ==>
            Silent(p'.world.sent, |ended.world.sent|, qid) && Unusable(cfg, script, p', qid))
  {
    hide Run, EndOp, Ungranted, Silent, Unusable;
    NoRingNoLeases(cfg, script, w, commands);
    var p := Run(cfg, script, Port(map[], w), commands);
    EndingForgets(cfg, script, p, qid, local, how);
    var ended := EndOp(cfg, script, p, qid, local, how).0;
    SilentUntilNextLease(cfg, script, ended, more, qid);
    var p' := Run(cfg, script, ended, more);
    if qid !in p'.leases {
      UnusableWithoutLease(cfg, script, p', qid);
    }
  }

  /** On a ring without nodes no lease is ever taken. */
  lemma {:induction false} NoRingNoLeases(cfg: Config, script: Script, w: World, commands: seq<Command>)
    ensures cfg.Size() == 0 ==> Run(cfg, script, Port(map[], w), commands).leases == map[]
    decreases |commands|
  {
    hide Transact;
    if commands != [] {
      NoRingNoLeases(cfg, script, w, commands[..|commands| - 1]);
    }
  }
}
