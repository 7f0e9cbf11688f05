/** The broker port over the wire: eight-fold one retry loop, around a table of the leases it took. */
module GrpcBrokerPort {
  import opened Wrappers
  import opened TaskQueue
  import opened Cluster
  import opened Retry
  import opened PortModel
  import opened Remote

  class BrokerPort {
    const ring: EndpointRing
    const remote: RemoteSide
    var leases: map<nat, Token>

    constructor (ring: EndpointRing, remote: RemoteSide)
      ensures this.ring == ring && this.remote == remote && leases == map[]
    {
      this.ring, this.remote, leases := ring, remote, map[];
    }

    /** The port as the specification sees it. */
    ghost function Model(): Port
      reads this, ring, remote
    {
      Port(leases, remote.View(ring))
    }

    method Enqueue(payload: Bytes, maxAttempts: nat) returns (result: Result<nat>)
      modifies this, ring, remote
      ensures (Model(), result) == EnqueueOp(ring.cfg, remote.script, old(Model()), payload, maxAttempts)
    {
      hide Drive, Iterate, Attempted, NextIndex, Interfered;
      if ring.cfg.Size() == 0 { return Err(DistributedError); }
      var n := ring.cfg.Size();
      var deadline := remote.clock + RETRY_BUDGET;
      var req := Request.Enqueue(payload, maxAttempts);
      var call := remote.BeginCall(ring);
      ghost var whole := Drive(ring.cfg, remote.script, remote.View(ring), call, req, 0, deadline);
      var attempt := 0;
      while true
        invariant leases == old(leases)
        invariant Drive(ring.cfg, remote.script, remote.View(ring), call, req, attempt, deadline) == whole
        decreases Before(deadline, remote.clock), n - attempt % n
      {
        DriveUnfolds(ring.cfg, remote.script, remote.View(ring), call, req, attempt, deadline);
        remote.Preempt(ring);
        var idx := ring.activeIndex % n;
        if !ring.cfg.clients[idx] {
          return Err(DistributedError);
        }
        var reply := remote.Send(ring, call, idx, req);
        var rc := reply.rc;
        if rc.Success? {
          return if reply.body.NewTask? then Ok(reply.body.id) else Err(DistributedError);
        }
        if !Retryable(rc) {
          return Err(DistributedError);
        }
        ring.RotateOnError(idx, remote.leaderHint);
        if remote.clock >= deadline { break; }
        if (attempt + 1) % n == 0 { remote.SleepFor(ring, SWEEP_PAUSE); }
        attempt := attempt + 1;
      }
      return Err(DistributedError);
    }

    /** Buffers: the C heap is left as it was, so each buffer handed back was copied first and freed once. */
    method LeaseFiltered(worker: nat, timeoutMs: nat, filter: Bytes) returns (result: Result<Option<LeaseView>>)
      requires remote.heap.Valid()
      modifies this, ring, remote, remote.heap
      ensures remote.heap.Valid() && remote.heap.live == old(remote.heap.live)
      ensures (Model(), result) == LeaseOp(ring.cfg, remote.script, old(Model()), worker, timeoutMs, filter)
    {
      hide Drive, Iterate, Attempted, NextIndex, Interfered;
      if ring.cfg.Size() == 0 { return Err(DistributedError); }
      if filter != [] && !ring.cfg.filtered { return Err(NotImplemented); }
      var n := ring.cfg.Size();
      var deadline := remote.clock + RETRY_BUDGET;
      var req := Request.Lease(worker, timeoutMs, filter);
      var call := remote.BeginCall(ring);
      ghost var whole := Drive(ring.cfg, remote.script, remote.View(ring), call, req, 0, deadline);
      var attempt := 0;
      while true
        invariant leases == old(leases)
        invariant remote.heap.Valid() && remote.heap.live == old(remote.heap.live)
        invariant Drive(ring.cfg, remote.script, remote.View(ring), call, req, attempt, deadline) == whole
        decreases Before(deadline, remote.clock), n - attempt % n
      {
        DriveUnfolds(ring.cfg, remote.script, remote.View(ring), call, req, attempt, deadline);
        remote.Preempt(ring);
        var idx := ring.activeIndex % n;
        if !ring.cfg.clients[idx] {
          return Err(DistributedError);
        }
        var rc, qid, triple, attemptNo, payload, reply := AttemptLease(call, idx, req);
        if rc.QueueEmpty? { return Ok(None); }
        if rc.Success? {
          leases := leases[qid := triple];
          return Ok(Some(LeaseView(qid, triple.local, attemptNo, payload)));
        }
        if !Retryable(rc) {
          return Err(DistributedError);
        }
        ring.RotateOnError(idx, remote.leaderHint);
        if remote.clock >= deadline { break; }
        if (attempt + 1) % n == 0 { remote.SleepFor(ring, SWEEP_PAUSE); }
        attempt := attempt + 1;
      }
      return Err(DistributedError);
    }

    method Complete(qid: nat, token: nat) returns (result: Result<()>)
      modifies this, ring, remote
      ensures (Model(), result) == EndOp(ring.cfg, remote.script, old(Model()), qid, token, ByComplete)
    {
      hide Drive, Iterate, Attempted, NextIndex, Interfered;
      if ring.cfg.Size() == 0 { return Err(DistributedError); }
      if qid !in leases || leases[qid].local != token { return Err(DistributedError); }
      var triple := leases[qid];
      var n := ring.cfg.Size();
      var deadline := remote.clock + RETRY_BUDGET;
      var req := Request.Complete(qid, triple);
      var call := remote.BeginCall(ring);
      ghost var whole := Drive(ring.cfg, remote.script, remote.View(ring), call, req, 0, deadline);
      var attempt := 0;
      while true
        invariant leases == old(leases)
        invariant Drive(ring.cfg, remote.script, remote.View(ring), call, req, attempt, deadline) == whole
        decreases Before(deadline, remote.clock), n - attempt % n
      {
        DriveUnfolds(ring.cfg, remote.script, remote.View(ring), call, req, attempt, deadline);
        remote.Preempt(ring);
        var idx := ring.activeIndex % n;
        if !ring.cfg.clients[idx] {
          leases := leases - {qid};
          return Err(DistributedError);
        }
        var reply := remote.Send(ring, call, idx, req);
        var rc := reply.rc;
        if rc.Success? {
          leases := leases - {qid};
          return Ok(());
        }
        if !Retryable(rc) {
          leases := leases - {qid};
          return Err(DistributedError);
        }
        ring.RotateOnError(idx, remote.leaderHint);
        if remote.clock >= deadline { break; }
        if (attempt + 1) % n == 0 { remote.SleepFor(ring, SWEEP_PAUSE); }
        attempt := attempt + 1;
      }
      leases := leases - {qid};
      return Err(DistributedError);
    }

    method Fail(qid: nat, token: nat) returns (result: Result<()>)
      modifies this, ring, remote
      ensures (Model(), result) == EndOp(ring.cfg, remote.script, old(Model()), qid, token, ByFail)
    {
      hide Drive, Iterate, Attempted, NextIndex, Interfered;
      if ring.cfg.Size() == 0 { return Err(DistributedError); }
      if qid !in leases || leases[qid].local != token { return Err(DistributedError); }
      var triple := leases[qid];
      var n := ring.cfg.Size();
      var deadline := remote.clock + RETRY_BUDGET;
      var req := Request.Fail(qid, triple);
      var call := remote.BeginCall(ring);
      ghost var whole := Drive(ring.cfg, remote.script, remote.View(ring), call, req, 0, deadline);
      var attempt := 0;
      while true
        invariant leases == old(leases)
        invariant Drive(ring.cfg, remote.script, remote.View(ring), call, req, attempt, deadline) == whole
        decreases Before(deadline, remote.clock), n - attempt % n
      {
        DriveUnfolds(ring.cfg, remote.script, remote.View(ring), call, req, attempt, deadline);
        remote.Preempt(ring);
        var idx := ring.activeIndex % n;
        if !ring.cfg.clients[idx] {
          leases := leases - {qid};
          return Err(DistributedError);
        }
        var reply := remote.Send(ring, call, idx, req);
        var rc := reply.rc;
        if rc.Success? {
          leases := leases - {qid};
          return Ok(());
        }
        if !Retryable(rc) {
          leases := leases - {qid};
          return Err(DistributedError);
        }
        ring.RotateOnError(idx, remote.leaderHint);
        if remote.clock >= deadline { break; }
        if (attempt + 1) % n == 0 { remote.SleepFor(ring, SWEEP_PAUSE); }
        attempt := attempt + 1;
      }
      leases := leases - {qid};
      return Err(DistributedError);
    }

    method Heartbeat(qid: nat, token: nat, extendByMs: nat) returns (result: Result<()>)
      modifies this, ring, remote
      ensures (Model(), result) == HeartbeatOp(ring.cfg, remote.script, old(Model()), qid, token, extendByMs)
    {
      hide Drive, Iterate, Attempted, NextIndex, Interfered;
      if ring.cfg.Size() == 0 { return Err(DistributedError); }
      if qid !in leases || leases[qid].local != token { return Err(DistributedError); }
      var triple := leases[qid];
      var n := ring.cfg.Size();
      var deadline := remote.clock + RETRY_BUDGET;
      var req := Request.Heartbeat(qid, triple, extendByMs);
      var call := remote.BeginCall(ring);
      ghost var whole := Drive(ring.cfg, remote.script, remote.View(ring), call, req, 0, deadline);
      var attempt := 0;
      while true
        invariant leases == old(leases)
        invariant Drive(ring.cfg, remote.script, remote.View(ring), call, req, attempt, deadline) == whole
        decreases Before(deadline, remote.clock), n - attempt % n
      {
        DriveUnfolds(ring.cfg, remote.script, remote.View(ring), call, req, attempt, deadline);
        remote.Preempt(ring);
        var idx := ring.activeIndex % n;
        if !ring.cfg.clients[idx] {
          return Err(DistributedError);
        }
        var reply := remote.Send(ring, call, idx, req);
        var rc := reply.rc;
        if rc.Success? {
          return Ok(());
        }
        if !Retryable(rc) {
          return Err(DistributedError);
        }
        ring.RotateOnError(idx, remote.leaderHint);
        if remote.clock >= deadline { break; }
        if (attempt + 1) % n == 0 { remote.SleepFor(ring, SWEEP_PAUSE); }
        attempt := attempt + 1;
      }
      return Err(DistributedError);
    }

    method State(qid: nat) returns (result: Result<QState>)
      modifies this, ring, remote
      ensures (Model(), result) == StateOp(ring.cfg, remote.script, old(Model()), qid)
    {
      hide Drive, Iterate, Attempted, NextIndex, Interfered;
      if ring.cfg.Size() == 0 { return Err(DistributedError); }
      var n := ring.cfg.Size();
      var deadline := remote.clock + RETRY_BUDGET;
      var req := Request.TaskState(qid);
      var call := remote.BeginCall(ring);
      ghost var whole := Drive(ring.cfg, remote.script, remote.View(ring), call, req, 0, deadline);
      var attempt := 0;
      while true
        invariant leases == old(leases)
        invariant Drive(ring.cfg, remote.script, remote.View(ring), call, req, attempt, deadline) == whole
        decreases Before(deadline, remote.clock), n - attempt % n
      {
        DriveUnfolds(ring.cfg, remote.script, remote.View(ring), call, req, attempt, deadline);
        remote.Preempt(ring);
        var idx := ring.activeIndex % n;
        if !ring.cfg.clients[idx] {
          return Err(DistributedError);
        }
        var reply := remote.Send(ring, call, idx, req);
        var rc := reply.rc;
        if rc.Success? {
          return if reply.body.Known? then Ok(reply.body.state) else Err(DistributedError);
        }
        if !Retryable(rc) {
          return Err(DistributedError);
        }
        ring.RotateOnError(idx, remote.leaderHint);
        if remote.clock >= deadline { break; }
        if (attempt + 1) % n == 0 { remote.SleepFor(ring, SWEEP_PAUSE); }
        attempt := attempt + 1;
      }
      return Err(DistributedError);
    }

    /** One attempt inside its buffer guard: the payload is copied only on success, and the buffer always freed. */
    method AttemptLease(call: nat, idx: nat, req: Request)
      returns (rc: Rc, qid: nat, triple: Token, attemptNo: nat, payload: Bytes, ghost reply: Reply)
      requires ring.cfg.Size() > 0 && remote.heap.Valid() && req.Lease?
      modifies ring, remote, remote.heap
      ensures remote.heap.Valid() && remote.heap.live == old(remote.heap.live)
      ensures var t := remote.script.turn(old(remote.turn), idx);
        && (remote.View(ring), reply) == Attempted(ring.cfg, t, old(remote.View(ring)), call, idx, req)
        && remote.leaderHint == t.hint && remote.oversleep == t.oversleep && remote.clock >= old(remote.clock)
      ensures rc == reply.rc
      ensures rc.Success? ==> reply.body == Granted(Grant(qid, triple, attemptNo, payload))
    {
      hide Attempted;
      LeaseIsGranted(ring.cfg, remote.script.turn(remote.turn, idx), remote.View(ring), call, idx, req);
      var buffer;
      rc, qid, triple, attemptNo, buffer, reply := remote.SendLease(ring, call, idx, req);
      payload := [];
      if rc.Success? && buffer.Some? {
        payload := remote.heap.Read(buffer.value);
      }
      if buffer.Some? {
        remote.heap.Free(buffer.value);
      }
    }
  }
}
