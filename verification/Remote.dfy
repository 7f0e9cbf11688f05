/**
 The objects a remote call works on: the endpoint ring that port and channel share, the C heap whose
 buffers cross the C interface, and the remote side, which plays a script.
 */
module Remote {
  import opened Wrappers
  import opened TaskQueue
  import opened Cluster
  import opened Retry

  /**
   Buffers of the C heap. An address is never reused, and reading or freeing one requires that it is
   live; so code that verifies and leaves `live` as it was freed every buffer it got, exactly once,
   and read none after freeing it.
   */
  class CHeap {
    var live: map<nat, Bytes>
    var next: nat

    ghost predicate Valid() reads this { forall p | p in live :: p < next }

    constructor ()
      ensures Valid() && live == map[]
    {
      live, next := map[], 0;
    }

    method Alloc(bytes: Bytes) returns (p: nat)
      requires Valid()
      modifies this
      ensures Valid()
      ensures p !in old(live) && live == old(live)[p := bytes]
    {
      p := next;
      live := live[p := bytes];
      next := next + 1;
    }

    method Read(p: nat) returns (bytes: Bytes)
      requires p in live
      ensures bytes == live[p]
    {
      bytes := live[p];
    }

    method Free(p: nat)
      requires Valid() && p in live
      modifies this
      ensures Valid() && live == old(live) - {p}
    {
      live := live - {p};
    }
  }

  /** One client per endpoint (none if it could not be had), the active index, and a rotation count. */
  class EndpointRing {
    const cfg: Config
    var activeIndex: nat
    var failoverRotations: nat

    constructor (cfg: Config)
      ensures this.cfg == cfg && activeIndex == 0 && failoverRotations == 0
    {
      this.cfg := cfg;
      activeIndex, failoverRotations := 0, 0;
    }

    /** Succeeds only if the index is still the expected one. */
    method CompareExchange(expected: nat, desired: nat) returns (swapped: bool)
      modifies this`activeIndex
      ensures swapped == (old(activeIndex) == expected)
      ensures activeIndex == if swapped then desired else old(activeIndex)
    {
      swapped := activeIndex == expected;
      if swapped { activeIndex := desired; }
    }

    /** After a retryable error at `current`: follow a usable leader hint, else take the next endpoint. */
    method RotateOnError(current: nat, hint: nat)
      requires cfg.Size() > 0
      modifies this
      ensures var rotates := cfg.Size() > 1 && old(activeIndex) == current;
        && activeIndex == (if rotates then NextIndex(cfg, current, hint) else old(activeIndex))
        && failoverRotations == old(failoverRotations) + (if rotates then 1 else 0)
    {
      var n := cfg.Size();
      if n <= 1 { return; }
      var next := (current + 1) % n;
      if cfg.hints {
        if hint >= 1 && hint <= n {
          next := hint - 1;
          if next == current { next := (current + 1) % n; }
        }
      }
      var swapped := CompareExchange(current, next);
      if swapped { failoverRotations := failoverRotations + 1; }
    }
  }

  /** The remote side and the clock, driven by a script. */
  class RemoteSide {
    const script: Script
    const heap: CHeap
    var clock: nat
    var turn: nat
    var pauses: nat
    var calls: nat
    var cluster: State
    var sent: seq<Sent>
    var leaderHint: nat
    var oversleep: nat

    constructor (script: Script, heap: CHeap, cluster: State)
      ensures this.script == script && this.heap == heap && this.cluster == cluster
      ensures sent == [] && calls == 0 && turn == 0 && pauses == 0 && clock == 0
    {
      this.script, this.heap, this.cluster := script, heap, cluster;
      clock, turn, pauses, calls, sent, leaderHint, oversleep := 0, 0, 0, 0, [], 0, 0;
    }

    ghost function View(ring: EndpointRing): World
      reads this, ring
    {
      World(ring.activeIndex, ring.failoverRotations, clock, turn, pauses, calls, cluster, sent)
    }

    method BeginCall(ring: EndpointRing) returns (call: nat)
      modifies this
      ensures call == old(calls)
      ensures View(ring) == old(View(ring)).(calls := call + 1)
    {
      call := calls;
      calls := calls + 1;
    }

    /** Other threads may swap the index before it is loaded. */
    method Preempt(ring: EndpointRing)
      requires ring.cfg.Size() > 0
      modifies ring`activeIndex
      ensures View(ring) ==
        old(View(ring)).(active := Interfered(ring.cfg.Size(), old(ring.activeIndex), script.gap(turn)))
    {
      ring.activeIndex := Interfered(ring.cfg.Size(), ring.activeIndex, script.gap(turn));
    }

    method SleepFor(ring: EndpointRing, duration: nat)
      modifies this
      ensures clock == old(clock) + duration + old(oversleep)
      ensures View(ring) == old(View(ring)).(clock := clock, pauses := old(pauses) + 1)
      ensures oversleep == old(oversleep)
    {
      clock := clock + duration + oversleep;
      pauses := pauses + 1;
    }

    /** One request over the wire: what the cluster does with it, and what of that comes back. */
    method Send(ring: EndpointRing, call: nat, node: nat, req: Request) returns (reply: Reply)
      requires ring.cfg.Size() > 0
      modifies this, ring
      ensures var t := script.turn(old(turn), node);
        && (View(ring), reply) == Attempted(ring.cfg, t, old(View(ring)), call, node, req)
        && leaderHint == t.hint && oversleep == t.oversleep && clock >= old(clock)
    {
      var t := script.turn(turn, node);
      var w := World(ring.activeIndex, ring.failoverRotations, clock, turn, pauses, calls, cluster, sent);
      var (w', seen) := Attempted(ring.cfg, t, w, call, node, req);
      ring.activeIndex, ring.failoverRotations := w'.active, w'.rotations;
      clock, turn, cluster, sent := w'.clock, w'.turn, w'.cluster, w'.sent;
      leaderHint, oversleep := t.hint, t.oversleep;
      reply := seen;
    }

    /** Hands bytes over the C interface: null or a live buffer, and always a buffer if there are any. */
    method HandOver(bytes: Bytes, stray: bool) returns (buffer: Option<nat>)
      requires heap.Valid()
      modifies heap
      ensures heap.Valid()
      ensures HandedOver(buffer, old(heap.live), heap.live, bytes)
    {
      buffer := None;
      if bytes != [] || stray {
        var p := heap.Alloc(bytes);
        buffer := Some(p);
      }
    }

    /** `lease` and `lease_filtered` over the wire; the payload comes back in a buffer. */
    method SendLease(ring: EndpointRing, call: nat, node: nat, req: Request)
      returns (rc: Rc, qid: nat, token: Token, attempt: nat, buffer: Option<nat>, ghost reply: Reply)
      requires ring.cfg.Size() > 0 && heap.Valid() && req.Lease?
      modifies this, ring, heap
      ensures heap.Valid()
      ensures var t := script.turn(old(turn), node);
        && (View(ring), reply) == Attempted(ring.cfg, t, old(View(ring)), call, node, req)
        && leaderHint == t.hint && oversleep == t.oversleep && clock >= old(clock)
      ensures rc == reply.rc
      ensures rc.Success? && reply.body.Granted? ==>
        && qid == reply.body.grant.qid && token == reply.body.grant.token && attempt == reply.body.grant.attempt
      ensures HandedOver(buffer, old(heap.live), heap.live,
        if rc.Success? && reply.body.Granted? then reply.body.grant.payload else [])
    {
      var t := script.turn(turn, node);
      var answer := Send(ring, call, node, req);
      reply, rc := answer, answer.rc;
      qid, token, attempt := 0, Token(0, 0, 0), 0;
      var bytes := [];
      if rc.Success? && answer.body.Granted? {
        var g := answer.body.grant;
        qid, token, attempt, bytes := g.qid, g.token, g.attempt, g.payload;
      }
      buffer := HandOver(bytes, t.strayBuffer);
    }

    /** `get_result` over the wire; the bytes come back in a buffer. */
    method SendGet(ring: EndpointRing, call: nat, node: nat, req: Request)
      returns (rc: Rc, found: bool, buffer: Option<nat>, ghost reply: Reply)
      requires ring.cfg.Size() > 0 && heap.Valid() && req.Get?
      modifies this, ring, heap
      ensures heap.Valid()
      ensures var t := script.turn(old(turn), node);
        && (View(ring), reply) == Attempted(ring.cfg, t, old(View(ring)), call, node, req)
        && leaderHint == t.hint && oversleep == t.oversleep && clock >= old(clock)
      ensures rc == reply.rc && found == reply.body.Found?
      ensures HandedOver(buffer, old(heap.live), heap.live, if found then reply.body.bytes else [])
    {
      var t := script.turn(turn, node);
      var answer := Send(ring, call, node, req);
      reply, rc, found := answer, answer.rc, answer.body.Found?;
      buffer := HandOver(if found then answer.body.bytes else [], t.strayBuffer);
    }
  }

  /** A buffer came back: null when there is nothing to carry, else live and holding the bytes. */
  ghost predicate HandedOver(buffer: Option<nat>, before: map<nat, Bytes>, after: map<nat, Bytes>, bytes: Bytes) {
    match buffer
    case None => bytes == [] && after == before
    case Some(p) => p !in before && after == before[p := bytes]
  }
}
