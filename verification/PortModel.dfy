/** The remote broker port's operations as functions of its lease table and the world it calls into. */
module PortModel {
  import opened Wrappers
  import opened TaskQueue
  import opened Cluster
  import opened Retry

  /** What a worker gets of a lease: the local half of the token only. */
  datatype LeaseView = LeaseView(qid: nat, token: nat, attempt: nat, payload: Bytes)

  /** `leases` re-attaches the wire token to the local half for the leases this port took. */
  datatype Port = Port(leases: map<nat, Token>, world: World)

  /** One remote call: numbered, with a fresh deadline. */
  function Transact(cfg: Config, script: Script, w: World, req: Request): (World, Outcome)
    requires cfg.Size() > 0
  {
    Drive(cfg, script, w.(calls := w.calls + 1), w.calls, req, 0, w.clock + RETRY_BUDGET)
  }

  function EnqueueOp(cfg: Config, script: Script, p: Port, payload: Bytes, maxAttempts: nat): (Port, Result<nat>) {
    if cfg.Size() == 0 then (p, Err(DistributedError))
    else
      var (w, outcome) := Transact(cfg, script, p.world, Enqueue(payload, maxAttempts));
      (p.(world := w),
       if outcome.Answered? && outcome.reply.rc.Success? && outcome.reply.body.NewTask?
       then Ok(outcome.reply.body.id) else Err(DistributedError))
  }

  function LeaseOp(cfg: Config, script: Script, p: Port, worker: nat, timeoutMs: nat, filter: Bytes)
    : (Port, Result<Option<LeaseView>>)
  {
    if cfg.Size() == 0 then (p, Err(DistributedError))
    else if filter != [] && !cfg.filtered then (p, Err(NotImplemented))
    else
      var (w, outcome) := Transact(cfg, script, p.world, Lease(worker, timeoutMs, filter));
      if outcome.Answered? && outcome.reply.rc.QueueEmpty? then (p.(world := w), Ok(None))
      else if outcome.Answered? && outcome.reply.rc.Success? && outcome.reply.body.Granted? then
        var g := outcome.reply.body.grant;
        (Port(p.leases[g.qid := g.token], w), Ok(Some(LeaseView(g.qid, g.token.local, g.attempt, g.payload))))
      else (p.(world := w), Err(DistributedError))
  }

  /** The token check: this port holds a lease of `qid`, and `local` is its local half. */
  predicate PassesCheck(p: Port, qid: nat, local: nat) {
    qid in p.leases && p.leases[qid].local == local
  }

  function EndRequest(qid: nat, token: Token, how: How): Request {
    if how == ByComplete then Complete(qid, token) else Fail(qid, token)
  }

  /** `complete` and `fail`: past the token check, the lease entry is gone whatever happens. */
  function EndOp(cfg: Config, script: Script, p: Port, qid: nat, local: nat, how: How): (Port, Result<()>) {
    if cfg.Size() == 0 || !PassesCheck(p, qid, local) then (p, Err(DistributedError))
    else
      var (w, outcome) := Transact(cfg, script, p.world, EndRequest(qid, p.leases[qid], how));
      (Port(p.leases - {qid}, w),
       if outcome.Answered? && outcome.reply.rc.Success? then Ok(()) else Err(DistributedError))
  }

  function HeartbeatOp(cfg: Config, script: Script, p: Port, qid: nat, local: nat, extendByMs: nat): (Port, Result<()>) {
    if cfg.Size() == 0 || !PassesCheck(p, qid, local) then (p, Err(DistributedError))
    else
      var (w, outcome) := Transact(cfg, script, p.world, Heartbeat(qid, p.leases[qid], extendByMs));
      (p.(world := w),
       if outcome.Answered? && outcome.reply.rc.Success? then Ok(()) else Err(DistributedError))
  }

  function StateOp(cfg: Config, script: Script, p: Port, qid: nat): (Port, Result<QState>) {
    if cfg.Size() == 0 then (p, Err(DistributedError))
    else
      var (w, outcome) := Transact(cfg, script, p.world, TaskState(qid));
      (p.(world := w),
       if outcome.Answered? && outcome.reply.rc.Success? && outcome.reply.body.Known?
       then Ok(outcome.reply.body.state) else Err(DistributedError))
  }

  /** What a caller can ask of the port, in any order. */
  datatype Command =
    | DoEnqueue(payload: Bytes, maxAttempts: nat)
    | DoLease(worker: nat, timeoutMs: nat, filter: Bytes)
    | DoComplete(qid: nat, local: nat)
    | DoFail(qid: nat, local: nat)
    | DoHeartbeat(qid: nat, local: nat, extendByMs: nat)
    | DoState(qid: nat)

  function Apply(cfg: Config, script: Script, p: Port, c: Command): Port {
    match c
    case DoEnqueue(payload, maxAttempts) => EnqueueOp(cfg, script, p, payload, maxAttempts).0
    case DoLease(worker, timeoutMs, filter) => LeaseOp(cfg, script, p, worker, timeoutMs, filter).0
    case DoComplete(qid, local) => EndOp(cfg, script, p, qid, local, ByComplete).0
    case DoFail(qid, local) => EndOp(cfg, script, p, qid, local, ByFail).0
    case DoHeartbeat(qid, local, extendByMs) => HeartbeatOp(cfg, script, p, qid, local, extendByMs).0
    case DoState(qid) => StateOp(cfg, script, p, qid).0
  }

  /** A whole run of one port. */
  function Run(cfg: Config, script: Script, p: Port, commands: seq<Command>): Port
    decreases |commands|
  {
    if commands == [] then p
    else Apply(cfg, script, Run(cfg, script, p, commands[..|commands| - 1]), commands[|commands| - 1])
  }

  /** The request a command sends, if it gets as far as sending one. */
  function RequestOf(cfg: Config, p: Port, c: Command): Option<Request> {
    if cfg.Size() == 0 then None
    else
      match c
      case DoEnqueue(payload, maxAttempts) => Some(Enqueue(payload, maxAttempts))
      case DoLease(worker, timeoutMs, filter) =>
        if filter == [] || cfg.filtered then Some(Lease(worker, timeoutMs, filter)) else None
      case DoComplete(qid, local) => if PassesCheck(p, qid, local) then Some(Complete(qid, p.leases[qid])) else None
      case DoFail(qid, local) => if PassesCheck(p, qid, local) then Some(Fail(qid, p.leases[qid])) else None
      case DoHeartbeat(qid, local, extendByMs) =>
        if PassesCheck(p, qid, local) then Some(Heartbeat(qid, p.leases[qid], extendByMs)) else None
      case DoState(qid) => Some(TaskState(qid))
  }

  /** The lease table after a request's outcome: a grant enters it, an attempt to end a lease leaves it. */
  function LeasesAfter(leases: map<nat, Token>, req: Request, outcome: Outcome): map<nat, Token> {
    if req.Lease? && outcome.Answered? && outcome.reply.rc.Success? && outcome.reply.body.Granted? then
      leases[outcome.reply.body.grant.qid := outcome.reply.body.grant.token]
    else if req.Complete? || req.Fail? then leases - {req.qid}
    else leases
  }

  lemma ApplyTransacts(cfg: Config, script: Script, p: Port, c: Command)
    ensures match RequestOf(cfg, p, c)
      case None => Apply(cfg, script, p, c) == p
      case Some(req) =>
        && cfg.Size() > 0
        && ((req.Complete? || req.Fail? || req.Heartbeat?) ==> req.qid in p.leases && req.token == p.leases[req.qid])
        && var (w, outcome) := Transact(cfg, script, p.world, req);
          Apply(cfg, script, p, c) == Port(LeasesAfter(p.leases, req, outcome), w)
  {
    hide Transact;
  }

  /** A successful answer to a lease request always brings a lease. */
  lemma LeaseIsGranted(cfg: Config, t: Turn, w: World, call: nat, idx: nat, req: Request)
    requires cfg.Size() > 0 && req.Lease?
    ensures var reply := Attempted(cfg, t, w, call, idx, req).1; reply.rc.Success? ==> reply.body.Granted?
  {
    ExecuteAnswers(ExecuteAll(w.cluster, t.rivals), req, t.server);
  }
}
