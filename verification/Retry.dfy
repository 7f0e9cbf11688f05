/**
 The retry loop that every remote call runs: pick the active endpoint, send, and on a retryable
 answer rotate the ring, give up if the deadline has passed, and pause once per sweep of the ring.

 Everything the caller cannot control is a `Script`: what another thread does to the shared ring
 index before each attempt, and, for each attempt and endpoint, the fate of the request, the leader
 hint, the time that passes, and what other clients did meanwhile. A script is any pair of
 functions, so a statement for all scripts is a statement for all behaviours of the environment.
 */
module Retry {
  import opened DivMod
  import opened Wrappers
  import opened Cluster

  // Nanoseconds of the steady clock.
  const RETRY_BUDGET: nat := 5_000_000_000
  const SWEEP_PAUSE: nat := 50_000_000

  datatype Fate =
    | Refused     // the node is not the leader: nothing happened
    | Unsent      // the transport failed and nothing happened
    | LostReply   // carried out, but reported as a transport failure
    | Faulted     // some other error, and nothing happened
    | Served      // carried out and answered

  datatype Turn = Turn(
    fate: Fate,
    rivals: seq<Rival>,        // what other clients had carried out since our last attempt, and when
    server: Server,
    hint: nat,                 // the leader hint left by this request; 0 when there is none
    elapsed: nat,              // how long the attempt took
    oversleep: nat,            // how much a pause, if one follows, overshoots
    moved: Option<nat>,        // another thread's swap of the ring index during the attempt
    rivalRotations: nat,
    strayBuffer: bool)         // a buffer handed back although no payload is due

  datatype Script = Script(gap: nat -> Option<nat>, turn: (nat, nat) -> Turn)

  /** The ring's fixed part: which endpoints have an open client; and what the linked library can do. */
  datatype Config = Config(clients: seq<bool>, hints: bool, filtered: bool) {
    function Size(): nat { |clients| }
  }

  /** One request as sent: by which call, to which node, what became of it, what the caller saw. */
  datatype Sent = Sent(call: nat, node: nat, request: Request, fate: Fate, outcome: Option<Reply>, seen: Reply)

  datatype World = World(
    active: nat, rotations: nat, clock: nat, turn: nat, pauses: nat, calls: nat, cluster: State, sent: seq<Sent>)

  function Interfered(n: nat, active: nat, moved: Option<nat>): nat
    requires n > 0
  {
    if moved.Some? then moved.value % n else active
  }

  /** Where the ring turns after endpoint `idx` failed. */
  function NextIndex(cfg: Config, idx: nat, hint: nat): nat
    requires cfg.Size() > 0
  {
    var n := cfg.Size();
    if cfg.hints && 1 <= hint <= n && hint - 1 != idx then hint - 1 else (idx + 1) % n
  }

  /** The compare-and-swap takes effect only if the index still is the one this attempt used. */
  function Rotated(cfg: Config, w: World, idx: nat, hint: nat): World
    requires cfg.Size() > 0
  {
    if cfg.Size() > 1 && w.active == idx then
      w.(active := NextIndex(cfg, idx, hint), rotations := w.rotations + 1)
    else w
  }

  function FateReply(fate: Fate, reply: Reply): Reply {
    match fate
    case Refused => Reply(ConsensusRefusal, Nothing)
    case Unsent => Reply(TransportFailure, Nothing)
    case LostReply => Reply(TransportFailure, Nothing)
    case Faulted => Reply(Rejected, Nothing)
    case Served => reply
  }

  predicate CarriedOut(fate: Fate) { fate.LostReply? || fate.Served? }

  predicate Repeatable(fate: Fate) { fate.Refused? || fate.Unsent? || fate.LostReply? }

  /** One attempt, sent to node `idx`. */
  function Attempted(cfg: Config, t: Turn, w: World, call: nat, idx: nat, req: Request): (World, Reply)
    requires cfg.Size() > 0
  {
    var before := ExecuteAll(w.cluster, t.rivals);
    var (after, reply) := if CarriedOut(t.fate) then Execute(before, req, t.server) else (before, Reply(Rejected, Nothing));
    var seen := FateReply(t.fate, reply);
    var outcome := if CarriedOut(t.fate) then Some(reply) else None;
    (w.(active := Interfered(cfg.Size(), w.active, t.moved), rotations := w.rotations + t.rivalRotations,
        clock := w.clock + t.elapsed, turn := w.turn + 1, cluster := after,
        sent := w.sent + [Sent(call, idx, req, t.fate, outcome, seen)]),
     seen)
  }

  function Paused(w: World, oversleep: nat): World {
    w.(clock := w.clock + SWEEP_PAUSE + oversleep, pauses := w.pauses + 1)
  }

  datatype Outcome = NoClient | Answered(reply: Reply) | Expired

  function Before(deadline: nat, clock: nat): nat { if clock < deadline then deadline - clock else 0 }

  datatype Step = Stop(world: World, outcome: Outcome) | Again(world: World)

  /** One iteration of the loop. */
  function Iterate(cfg: Config, script: Script, w: World, call: nat, req: Request, attempt: nat, deadline: nat): Step
    requires cfg.Size() > 0
  {
    var n := cfg.Size();
    var w0 := w.(active := Interfered(n, w.active, script.gap(w.turn)));
    var idx := w0.active % n;
    if !cfg.clients[idx] then Stop(w0, NoClient)
    else
      var t := script.turn(w.turn, idx);
      var (w1, reply) := Attempted(cfg, t, w0, call, idx, req);
      if !Retryable(reply.rc) then Stop(w1, Answered(reply))
      else
        var w2 := Rotated(cfg, w1, idx, t.hint);
        if w2.clock >= deadline then Stop(w2, Expired)
        else Again(if (attempt + 1) % n == 0 then Paused(w2, t.oversleep) else w2)
  }

  /** The loop, from its `attempt`-th iteration on. */
  function Drive(cfg: Config, script: Script, w: World, call: nat, req: Request, attempt: nat, deadline: nat)
    : (World, Outcome)
    requires cfg.Size() > 0
    decreases Before(deadline, w.clock), cfg.Size() - attempt % cfg.Size()
  {
    match Iterate(cfg, script, w, call, req, attempt, deadline)
    case Stop(w', outcome) => (w', outcome)
    case Again(w') =>
      NextSlot(attempt, cfg.Size());
      Drive(cfg, script, w', call, req, attempt + 1, deadline)
  }

  lemma NextSlot(attempt: nat, n: nat)
    requires n > 0
    ensures (attempt + 1) % n == 0 || (attempt + 1) % n == attempt % n + 1
    ensures (attempt + 1) / n == attempt / n + if (attempt + 1) % n == 0 then 1 else 0
  {
    var q, r := attempt / n, attempt % n;
    assert attempt == q * n + r;
    if r + 1 == n {
      assert attempt + 1 == (q + 1) * n;
      Quotient(attempt + 1, n, q + 1, 0);
    } else {
      Quotient(attempt + 1, n, q, r + 1);
    }
  }

  /** The loop, one iteration at a time: how it ends here, or that it goes on as the next iteration. */
  lemma DriveUnfolds(cfg: Config, script: Script, w: World, call: nat, req: Request, attempt: nat, deadline: nat)
    requires cfg.Size() > 0
    ensures var n := cfg.Size();
      var w0 := w.(active := Interfered(n, w.active, script.gap(w.turn)));
      var idx := w0.active % n;
      var t := script.turn(w.turn, idx);
      var (w1, reply) := Attempted(cfg, t, w0, call, idx, req);
      var w2 := Rotated(cfg, w1, idx, t.hint);
      Drive(cfg, script, w, call, req, attempt, deadline) ==
        if !cfg.clients[idx] then (w0, NoClient)
        else if !Retryable(reply.rc) then (w1, Answered(reply))
        else if w2.clock >= deadline then (w2, Expired)
        else Drive(cfg, script, if (attempt + 1) % n == 0 then Paused(w2, t.oversleep) else w2,
                   call, req, attempt + 1, deadline)
    ensures (attempt + 1) % cfg.Size() == 0 || (attempt + 1) % cfg.Size() == attempt % cfg.Size() + 1
  {
    hide Attempted, Rotated, Interfered;
    NextSlot(attempt, cfg.Size());
  }
}
