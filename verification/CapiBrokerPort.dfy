/** The in-process broker port: how a lease is routed to the C library, and what becomes of its buffers. */
module CapiBrokerPort {
  import opened Wrappers
  import opened TaskQueue
  import opened Cluster
  import opened PortModel
  import opened Remote

  /** Which entry point of the library was called. The filtered one may be missing from an old library. */
  datatype Symbol = Unfiltered | Filtered

  /** What the library may do on a call beyond leasing: fail, or hand back a buffer that carries nothing. */
  datatype LibraryTurn = LibraryTurn(fails: bool, strayBuffer: bool, now: nat)

  datatype Library = Library(queue: Queue, called: seq<Symbol>)

  /** The library's answer to a lease request through either entry point. */
  function LibraryLease(lib: Library, t: LibraryTurn, symbol: Symbol, timeoutMs: nat, filter: Bytes)
    : (Library, Rc, Option<Grant>)
  {
    var lib' := lib.(called := lib.called + [symbol]);
    if t.fails then (lib', Rejected, None)
    else
      var (q, grant) := LeaseEarliest(lib.queue, if symbol == Unfiltered then [] else filter, timeoutMs, t.now, 0, 0);
      (lib'.(queue := q), if grant.Some? then Success else QueueEmpty, grant)
  }

  /** `lease_filtered`: refuse rather than lease the wrong task, else ask the one right entry point. */
  function CapiLeaseOp(open: bool, hasFiltered: bool, lib: Library, t: LibraryTurn, timeoutMs: nat, filter: Bytes)
    : (Library, Result<Option<LeaseView>>)
  {
    if !open then (lib, Err(DistributedError))
    else if filter != [] && !hasFiltered then (lib, Err(NotImplemented))
    else
      var (lib', rc, grant) :=
        LibraryLease(lib, t, if filter == [] then Unfiltered else Filtered, timeoutMs, filter);
      (lib',
       if rc.QueueEmpty? then Ok(None)
       else if rc.Success? && grant.Some? then
         Ok(Some(LeaseView(grant.value.qid, grant.value.token.local, grant.value.attempt, grant.value.payload)))
       else Err(DistributedError))
  }

  class CLibrary {
    const heap: CHeap
    const turns: nat -> LibraryTurn
    const hasFiltered: bool
    var state: Library

    constructor (heap: CHeap, turns: nat -> LibraryTurn, hasFiltered: bool, queue: Queue)
      ensures this.heap == heap && this.turns == turns && this.hasFiltered == hasFiltered
      ensures state == Library(queue, [])
    {
      this.heap, this.turns, this.hasFiltered, state := heap, turns, hasFiltered, Library(queue, []);
    }

    function Turn(): LibraryTurn
      reads this
    {
      turns(|state.called|)
    }

    method Lease(symbol: Symbol, timeoutMs: nat, filter: Bytes)
      returns (rc: Rc, qid: nat, token: nat, attempt: nat, buffer: Option<nat>)
      requires heap.Valid() && (symbol == Filtered ==> hasFiltered)
      modifies this, heap
      ensures heap.Valid()
      ensures var (lib, rc', grant) := LibraryLease(old(state), old(Turn()), symbol, timeoutMs, filter);
        && state == lib && rc == rc'
        && (grant.Some? ==> qid == grant.value.qid && token == grant.value.token.local && attempt == grant.value.attempt)
        && HandedOver(buffer, old(heap.live), heap.live, if grant.Some? then grant.value.payload else [])
    {
      var t := Turn();
      var (lib, code, grant) := LibraryLease(state, t, symbol, timeoutMs, filter);
      state, rc, qid, token, attempt := lib, code, 0, 0, 0;
      var bytes := [];
      if grant.Some? {
        qid, token, attempt := grant.value.qid, grant.value.token.local, grant.value.attempt;
        bytes := grant.value.payload;
      }
      buffer := None;
      if bytes != [] || t.strayBuffer {
        var p := heap.Alloc(bytes);
        buffer := Some(p);
      }
    }
  }

  class CapiPort {
    const lib: CLibrary
    const open: bool

    constructor (lib: CLibrary, open: bool)
      ensures this.lib == lib && this.open == open
    {
      this.lib, this.open := lib, open;
    }

    /** Every exit frees the buffer it was handed, once, and after any copy: the C heap is left as it was. */
    method LeaseFiltered(timeoutMs: nat, filter: Bytes) returns (result: Result<Option<LeaseView>>)
      requires lib.heap.Valid()
      modifies lib, lib.heap
      ensures lib.heap.Valid() && lib.heap.live == old(lib.heap.live)
      ensures (lib.state, result) ==
        CapiLeaseOp(open, lib.hasFiltered, old(lib.state), old(lib.Turn()), timeoutMs, filter)
    {
      hide LeaseEarliest;
      if !open { return Err(DistributedError); }
      if filter != [] && !lib.hasFiltered { return Err(NotImplemented); }
      var rc, qid, token, attempt, buffer;
      if filter == [] {
        rc, qid, token, attempt, buffer := lib.Lease(Unfiltered, timeoutMs, []);
      } else {
        rc, qid, token, attempt, buffer := lib.Lease(Filtered, timeoutMs, filter);
      }
      if rc.QueueEmpty? {
        if buffer.Some? { lib.heap.Free(buffer.value); }
        return Ok(None);
      }
      if !rc.Success? {
        if buffer.Some? { lib.heap.Free(buffer.value); }
        return Err(DistributedError);
      }
      var payload := [];
      if buffer.Some? {
        payload := lib.heap.Read(buffer.value);
      }
      if buffer.Some? {
        lib.heap.Free(buffer.value);
      }
      return Ok(Some(LeaseView(qid, token, attempt, payload)));
    }
  }

  // What the routing means for the queue.

  /** The tasks a worker with this filter will take. */
  ghost predicate Takes(t: Task, filter: Bytes) { t.state == Pending && Matches(t.payload, filter) }

  lemma EmptyFilterMatches(payload: Bytes)
    ensures Matches(payload, [])
  {
    assert MatchesAt(payload, [], 0);
  }

  /** An empty filter leases the head of the line, whether or not the library knows filters. */
  lemma UnfilteredTakesHead(open: bool, hasFiltered: bool, lib: Library, t: LibraryTurn, timeoutMs: nat, i: nat)
    requires open && !t.fails && i < |lib.queue.tasks| && lib.queue.tasks[i].state == Pending
    requires forall k | 0 <= k < i :: lib.queue.tasks[k].state != Pending
    ensures var (lib', result) := CapiLeaseOp(open, hasFiltered, lib, t, timeoutMs, []);
      && lib'.called == lib.called + [Unfiltered]
      && result == Ok(Some(LeaseView(i + 1, lib.queue.nextToken + 1, lib.queue.tasks[i].attempt + 1, lib.queue.tasks[i].payload)))
  {
    EmptyFilterMatches(lib.queue.tasks[i].payload);
    assert FirstMatch(lib.queue.tasks, [], 0) == i;
    hide Matches, FirstMatch;
  }

  /**
   A filtered lease takes the earliest task that matches and touches no other: a task it passes over
   keeps its state and its attempts. With no match the queue is as it was; with no filtered entry
   point the request is refused and nothing is called.
   */
  lemma FilteredTakesEarliestMatch(hasFiltered: bool, lib: Library, t: LibraryTurn, timeoutMs: nat, filter: Bytes)
    requires filter != [] && !t.fails
    ensures var (lib', result) := CapiLeaseOp(true, hasFiltered, lib, t, timeoutMs, filter);
      var (tasks, tasks') := (lib.queue.tasks, lib'.queue.tasks);
      if !hasFiltered then lib' == lib && result == Err(NotImplemented)
      else if result == Ok(None) then
        lib'.queue == lib.queue && forall k | 0 <= k < |tasks| :: !Takes(tasks[k], filter)
      else
        && result.Ok?
        && var i := result.value.value.qid - 1;
          && 0 <= i < |tasks| && |tasks'| == |tasks|
          && Takes(tasks[i], filter) && (forall k | 0 <= k < i :: !Takes(tasks[k], filter))
          && tasks'[i].state == Leased && tasks'[i].attempt == tasks[i].attempt + 1
          && result.value.value == LeaseView(i + 1, lib.queue.nextToken + 1, tasks[i].attempt + 1, tasks[i].payload)
          && forall k | 0 <= k < |tasks| && k != i :: tasks'[k] == tasks[k]
  {
    hide Matches;
  }

  /**
   When it reaches the library and what it then answers: closed, or with a filter the library has no entry
   point for, it asks nothing; else it asks one entry point once, and an error there leaves the queue
   alone, as does finding no task it may take.
   */
  lemma RoutesExactly(open: bool, hasFiltered: bool, lib: Library, t: LibraryTurn, timeoutMs: nat, filter: Bytes)
    ensures var (lib', result) := CapiLeaseOp(open, hasFiltered, lib, t, timeoutMs, filter);
      if !open then lib' == lib && result == Err(DistributedError)
      else if filter != [] && !hasFiltered then lib' == lib && result == Err(NotImplemented)
      else
        && lib'.called == lib.called + [if filter == [] then Unfiltered else Filtered]
        && (if t.fails then lib'.queue == lib.queue && result == Err(DistributedError)
            else
              && result.Ok?
              && (result.value.None? <==> forall k | 0 <= k < |lib.queue.tasks| :: !Takes(lib.queue.tasks[k], filter))
              && (result.value.None? ==> lib'.queue == lib.queue))
  {
    hide Matches;
  }
}
