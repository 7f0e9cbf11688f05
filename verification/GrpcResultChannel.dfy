/** The result channel over the wire; it may share its ring with a broker port. */
module GrpcResultChannel {
  import opened Wrappers
  import opened Cluster
  import opened Retry
  import opened ChannelModel
  import opened Remote

  class ResultChannel {
    const ring: EndpointRing
    const remote: RemoteSide
    const consumeOnGet: bool

    constructor (ring: EndpointRing, remote: RemoteSide, consumeOnGet: bool)
      ensures this.ring == ring && this.remote == remote && this.consumeOnGet == consumeOnGet
    {
      this.ring, this.remote, this.consumeOnGet := ring, remote, consumeOnGet;
    }

    method Put(qid: nat, bytes: Bytes) returns (result: Result<()>)
      modifies ring, remote
      ensures (remote.View(ring), result) == PutOp(ring.cfg, remote.script, old(remote.View(ring)), qid, bytes)
    {
      hide Drive, Iterate, Attempted, NextIndex, Interfered;
      if ring.cfg.Size() == 0 { return Err(DistributedError); }
      var n := ring.cfg.Size();
      var deadline := remote.clock + RETRY_BUDGET;
      var req := Request.Put(qid, bytes);
      var call := remote.BeginCall(ring);
      ghost var whole := Drive(ring.cfg, remote.script, remote.View(ring), call, req, 0, deadline);
      var attempt := 0;
      while true
        invariant Drive(ring.cfg, remote.script, remote.View(ring), call, req, attempt, deadline) == whole
        decreases Before(deadline, remote.clock), n - attempt % n
      {
        DriveUnfolds(ring.cfg, remote.script, remote.View(ring), call, req, attempt, deadline);
        remote.Preempt(ring);
        var idx := ring.activeIndex % n;
        if !ring.cfg.clients[idx] {
          return Err(DistributedError);
        }
        var reply := remote.Send(ring, call, idx, req);
        var rc := reply.rc;
        if rc.Success? {
          return Ok(());
        }
        if !Retryable(rc) {
          return Err(DistributedError);
        }
        ring.RotateOnError(idx, remote.leaderHint);
        if remote.clock >= deadline { break; }
        if (attempt + 1) % n == 0 { remote.SleepFor(ring, SWEEP_PAUSE); }
        attempt := attempt + 1;
      }
      return Err(DistributedError);
    }

    /** Buffers: the C heap is left as it was, so each buffer handed back was copied first and freed once. */
    method TryGet(qid: nat) returns (result: Result<Option<Bytes>>)
      requires remote.heap.Valid()
      modifies ring, remote, remote.heap
      ensures remote.heap.Valid() && remote.heap.live == old(remote.heap.live)
      ensures (remote.View(ring), result) ==
        TryGetOp(ring.cfg, remote.script, consumeOnGet, old(remote.View(ring)), qid)
    {
      hide Drive, Iterate, Attempted, NextIndex, Interfered;
      if ring.cfg.Size() == 0 { return Err(DistributedError); }
      var n := ring.cfg.Size();
      var deadline := remote.clock + RETRY_BUDGET;
      var req := Request.Get(qid, consumeOnGet);
      var call := remote.BeginCall(ring);
      ghost var whole := Drive(ring.cfg, remote.script, remote.View(ring), call, req, 0, deadline);
      var attempt := 0;
      while true
        invariant remote.heap.Valid() && remote.heap.live == old(remote.heap.live)
        invariant Drive(ring.cfg, remote.script, remote.View(ring), call, req, attempt, deadline) == whole
        decreases Before(deadline, remote.clock), n - attempt % n
      {
        DriveUnfolds(ring.cfg, remote.script, remote.View(ring), call, req, attempt, deadline);
        remote.Preempt(ring);
        var idx := ring.activeIndex % n;
        if !ring.cfg.clients[idx] {
          return Err(DistributedError);
        }
        var rc, found, bytes, reply := AttemptGet(call, idx, req);
        if rc.Success? {
          if !found { return Ok(None); }
          return Ok(Some(bytes));
        }
        if !Retryable(rc) {
          return Err(DistributedError);
        }
        ring.RotateOnError(idx, remote.leaderHint);
        if remote.clock >= deadline { break; }
        if (attempt + 1) % n == 0 { remote.SleepFor(ring, SWEEP_PAUSE); }
        attempt := attempt + 1;
      }
      return Err(DistributedError);
    }

    method Get(qid: nat) returns (result: Result<Bytes>)
      requires remote.heap.Valid()
      modifies ring, remote, remote.heap
      ensures remote.heap.Valid() && remote.heap.live == old(remote.heap.live)
      ensures (remote.View(ring), result) ==
        GetOp(ring.cfg, remote.script, consumeOnGet, old(remote.View(ring)), qid)
    {
      var r := TryGet(qid);
      if r.Err? { return Err(r.error); }
      if r.value.None? { return Err(DistributedError); }
      return Ok(r.value.value);
    }

    /** One attempt inside its buffer guard: the bytes are copied only on success, and the buffer always freed. */
    method AttemptGet(call: nat, idx: nat, req: Request)
      returns (rc: Rc, found: bool, bytes: Bytes, ghost reply: Reply)
      requires ring.cfg.Size() > 0 && remote.heap.Valid() && req.Get?
      modifies ring, remote, remote.heap
      ensures remote.heap.Valid() && remote.heap.live == old(remote.heap.live)
      ensures var t := remote.script.turn(old(remote.turn), idx);
        && (remote.View(ring), reply) == Attempted(ring.cfg, t, old(remote.View(ring)), call, idx, req)
        && remote.leaderHint == t.hint && remote.oversleep == t.oversleep && remote.clock >= old(remote.clock)
      ensures rc == reply.rc && found == reply.body.Found?
      ensures rc.Success? && found ==> bytes == reply.body.bytes
    {
      hide Attempted;
      var buffer;
      rc, found, buffer, reply := remote.SendGet(ring, call, idx, req);
      bytes := [];
      if rc.Success? && found && buffer.Some? {
        bytes := remote.heap.Read(buffer.value);
      }
      if buffer.Some? {
        remote.heap.Free(buffer.value);
      }
    }
  }
}
