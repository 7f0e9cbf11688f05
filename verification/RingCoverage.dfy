/** Which endpoints a call reaches when no other thread turns the ring meanwhile. */
module RingCoverage {
  import opened DivMod
  import opened Wrappers
  import opened Cluster
  import opened Retry
  import opened RetryFacts

  ghost predicate Undisturbed(script: Script) {
    && (forall t: nat :: script.gap(t) == None)
    && (forall t: nat, e: nat :: script.turn(t, e).moved == None)
  }

  ghost predicate NoUsableHint(cfg: Config, script: Script) {
    cfg.hints ==> forall t: nat, e: nat :: script.turn(t, e).hint == 0 || script.turn(t, e).hint > cfg.Size()
  }

  ghost predicate AlwaysHints(cfg: Config, script: Script, target: nat) {
    cfg.hints && forall t: nat, e: nat :: script.turn(t, e).hint == target + 1
  }

  /** Endpoint `e` never gives a retryable answer. */
  ghost predicate Decisive(script: Script, e: nat) {
    forall t: nat :: !Repeatable(script.turn(t, e).fate)
  }

  /**
   A rotation leaves the endpoint that failed, for the one the hint names if that is another endpoint of
   the ring and for the next one otherwise, and counts one; a ring of one endpoint, or an index that
   another thread has moved on meanwhile, is left alone.
   */
  lemma RotatesExactly(cfg: Config, w: World, idx: nat, hint: nat)
    requires idx < cfg.Size()
    ensures var (n, w') := (cfg.Size(), Rotated(cfg, w, idx, hint));
      if n == 1 || w.active != idx then w' == w
      else
        && w'.rotations == w.rotations + 1 && w' == w.(active := w'.active, rotations := w'.rotations)
        && w'.active < n && w'.active != idx
        && w'.active == if cfg.hints && 0 < hint <= n && hint != idx + 1 then hint - 1 else if idx + 1 < n then idx + 1 else 0
  {
    RingPlaceSmall(idx, cfg.Size());
  }

  /** Undisturbed, an iteration uses the active endpoint and, to go on, turns to `NextIndex`. */
  lemma IterationRotates(cfg: Config, script: Script, w: World, call: nat, req: Request, attempt: nat, deadline: nat)
    requires cfg.Size() > 0 && Undisturbed(script) && w.active < cfg.Size()
    ensures var s := Iterate(cfg, script, w, call, req, attempt, deadline);
      && (s.Again? || !s.outcome.NoClient? ==> |w.sent| < |s.world.sent| && s.world.sent[|w.sent|].node == w.active)
      && (s.Again? ==> s.world.active == NextIndex(cfg, w.active, script.turn(w.turn, w.active).hint))
  {
    assert script.gap(w.turn) == None;
    AttemptSends(cfg, script, w, call, w.active, req);
    hide ExecuteAll, Execute, FateReply, NextIndex;
  }

  /** From `w` on, the log visits the endpoints in ring order, beginning with the active one. */
  ghost predicate InRingOrder(n: nat, w: World, sent: seq<Sent>)
    requires n > 0
  {
    && w.sent <= sent
    && forall i | |w.sent| <= i < |sent| :: sent[i].node == RingPlace(w.active, i - |w.sent|, n)
  }

  lemma RingOrderExtends(n: nat, w: World, w1: World, sent: seq<Sent>)
    requires w.active < n && w1.active == RingPlace(w.active, 1, n)
    requires w.sent <= w1.sent && |w1.sent| == |w.sent| + 1 && w1.sent[|w.sent|].node == w.active
    requires InRingOrder(n, w1, sent)
    ensures InRingOrder(n, w, sent)
  {
    RingPlaceSmall(w.active, n);
    hide RingPlace;
    assert sent[|w.sent|] == w1.sent[|w.sent|];
    forall i | |w.sent| < i < |sent|
      ensures sent[i].node == RingPlace(w.active, i - |w.sent|, n)
    {
      RingPlaceAdds(w.active, 1, i - |w1.sent|, n);
    }
  }

  lemma UnhintedTurn(cfg: Config, script: Script, w: World)
    requires NoUsableHint(cfg, script) && w.active < cfg.Size()
    ensures NextIndex(cfg, w.active, script.turn(w.turn, w.active).hint) == RingPlace(w.active, 1, cfg.Size())
  {
  }

  /** With no usable hint the endpoints are tried in ring order, from the active one on. */
  lemma {:induction false} RoundRobin(
      cfg: Config, script: Script, w: World, call: nat, req: Request, attempt: nat, deadline: nat)
    requires cfg.Size() > 0 && Undisturbed(script) && NoUsableHint(cfg, script) && w.active < cfg.Size()
    ensures InRingOrder(cfg.Size(), w, Drive(cfg, script, w, call, req, attempt, deadline).0.sent)
    decreases Before(deadline, w.clock), cfg.Size() - attempt % cfg.Size()
  {
    var n := cfg.Size();
    IterationFacts(cfg, script, w, call, req, attempt, deadline);
    IterationRotates(cfg, script, w, call, req, attempt, deadline);
    RingPlaceSmall(w.active, n);
    UnhintedTurn(cfg, script, w);
    var step := Iterate(cfg, script, w, call, req, attempt, deadline);
    hide Iterate, EntryOf, Repeatable, Retryable, RingPlace, NextIndex, Undisturbed, NoUsableHint;
    if step.Again? {
      NextSlot(attempt, n);
      hide InRingOrder;
      RoundRobin(cfg, script, step.world, call, req, attempt + 1, deadline);
      RingOrderExtends(n, w, step.world, Drive(cfg, script, step.world, call, req, attempt + 1, deadline).0.sent);
    }
  }

  /** A retryable failure rotates an undisturbed ring of several endpoints once; nothing else does. */
  lemma IterationCountsRotation(cfg: Config, script: Script, w: World, call: nat, req: Request, attempt: nat, deadline: nat)
    requires cfg.Size() > 1 && Undisturbed(script) && w.active < cfg.Size()
    requires forall t: nat, e: nat :: script.turn(t, e).rivalRotations == 0
    ensures var s := Iterate(cfg, script, w, call, req, attempt, deadline);
      && s.world.active < cfg.Size()
      && s.world.rotations == w.rotations + if s.Again? || s.outcome.Expired? then 1 else 0
  {
    assert script.gap(w.turn) == None;
    AttemptSends(cfg, script, w, call, w.active, req);
    hide ExecuteAll, Execute, FateReply;
    RingPlaceSmall(w.active, cfg.Size());
    var t := script.turn(w.turn, w.active);
    RotatesExactly(cfg, Attempted(cfg, t, w, call, w.active, req).0, w.active, t.hint);
  }

  /** Over a whole undisturbed call the rotation count grows by the number of attempts that failed retryably. */
  lemma {:induction false} RotationsAreFailures(
      cfg: Config, script: Script, w: World, call: nat, req: Request, attempt: nat, deadline: nat)
    requires cfg.Size() > 1 && Undisturbed(script) && w.active < cfg.Size()
    requires forall t: nat, e: nat :: script.turn(t, e).rivalRotations == 0
    ensures var (w', outcome) := Drive(cfg, script, w, call, req, attempt, deadline);
      && |w.sent| <= |w'.sent|
      && w'.rotations == w.rotations + |w'.sent| - |w.sent| - if outcome.Answered? then 1 else 0
    decreases Before(deadline, w.clock), cfg.Size() - attempt % cfg.Size()
  {
    hide Iterate, EntryOf, Repeatable, Retryable, Undisturbed;
    IterationFacts(cfg, script, w, call, req, attempt, deadline);
    IterationCountsRotation(cfg, script, w, call, req, attempt, deadline);
    var step := Iterate(cfg, script, w, call, req, attempt, deadline);
    if step.Again? {
      NextSlot(attempt, cfg.Size());
      RotationsAreFailures(cfg, script, step.world, call, req, attempt + 1, deadline);
    }
  }

  /** Any `n` consecutive requests of such a call reach every endpoint, each exactly once. */
  lemma EverySweepIsComplete(
      cfg: Config, script: Script, w: World, call: nat, req: Request, deadline: nat, from: nat, e: nat)
    requires Undisturbed(script) && NoUsableHint(cfg, script) && w.active < cfg.Size()
    requires e < cfg.Size()
    requires |w.sent| <= from && from + cfg.Size() <= |Drive(cfg, script, w, call, req, 0, deadline).0.sent|
    ensures var sent := Drive(cfg, script, w, call, req, 0, deadline).0.sent;
      exists i :: from <= i < from + cfg.Size() && sent[i].node == e
                  && forall k | from <= k < from + cfg.Size() && sent[k].node == e :: k == i
  {
    hide Drive, RingPlace;
    var n := cfg.Size();
    RoundRobin(cfg, script, w, call, req, 0, deadline);
    var sent := Drive(cfg, script, w, call, req, 0, deadline).0.sent;
    var start := from - |w.sent|;
    var i := RingPlaceReached(RingPlace(w.active, start, n), e, n);
    RingPlaceAdds(w.active, start, i, n);
    assert sent[from + i].node == e;
    forall k | from <= k < from + n && sent[k].node == e
      ensures k == from + i
    {
      if k < from + i {
        RingPlacesDiffer(w.active, k - |w.sent|, start + i, n);
      } else if k > from + i {
        RingPlacesDiffer(w.active, start + i, k - |w.sent|, n);
      }
    }
  }

  /** Only the last request of a call can go to an endpoint that decides. */
  lemma DecisionIsLast(
      cfg: Config, script: Script, w: World, call: nat, req: Request, deadline: nat, e: nat, i: nat)
    requires cfg.Size() > 0 && Decisive(script, e)
    requires |w.sent| <= i < |Drive(cfg, script, w, call, req, 0, deadline).0.sent| - 1
    ensures Drive(cfg, script, w, call, req, 0, deadline).0.sent[i].node != e
  {
    hide Drive, Repeatable;
    CallLog(cfg, script, w, call, req, 0, deadline);
    var sent := Drive(cfg, script, w, call, req, 0, deadline).0.sent;
    assert EntryOf(cfg, script, sent[i], w.turn + i - |w.sent|, call, req);
  }

  /** A call that reached an endpoint that decides was answered. */
  lemma ReachedMeansAnswered(
      cfg: Config, script: Script, w: World, call: nat, req: Request, deadline: nat, e: nat)
    requires cfg.Size() > 0 && Decisive(script, e)
    ensures var (w', outcome) := Drive(cfg, script, w, call, req, 0, deadline);
      && |w.sent| <= |w'.sent|
      && ((exists i :: |w.sent| <= i < |w'.sent| && w'.sent[i].node == e) ==> outcome.Answered?)
  {
    hide Drive, Repeatable;
    CallLog(cfg, script, w, call, req, 0, deadline);
    var (w', outcome) := Drive(cfg, script, w, call, req, 0, deadline);
    if i :| |w.sent| <= i < |w'.sent| && w'.sent[i].node == e {
      assert EntryOf(cfg, script, w'.sent[i], w.turn + i - |w.sent|, call, req);
    }
  }

  /**
   * So one endpoint that decides ends the call within `n` attempts, and with an answer, unless the
   * deadline passed first or an endpoint had no client; after `n` attempts there is an answer.
   */
  lemma DecisiveEndpointReached(cfg: Config, script: Script, w: World, call: nat, req: Request, deadline: nat, e: nat)
    requires Undisturbed(script) && NoUsableHint(cfg, script) && w.active < cfg.Size()
    requires e < cfg.Size() && Decisive(script, e)
    ensures var (w', outcome) := Drive(cfg, script, w, call, req, 0, deadline);
      && |w'.sent| <= |w.sent| + cfg.Size()
      && (|w'.sent| == |w.sent| + cfg.Size() ==> outcome.Answered?)
      && (outcome.Answered? || w'.clock >= deadline || exists k :: 0 <= k < cfg.Size() && !cfg.clients[k])
  {
    hide Drive, RingPlace, Decisive;
    RoundRobin(cfg, script, w, call, req, 0, deadline);
    UnansweredFor(cfg, script, w, call, req, 0, deadline);
    ReachedMeansAnswered(cfg, script, w, call, req, deadline, e);
    var i := RingPlaceReached(w.active, e, cfg.Size());
    if |Drive(cfg, script, w, call, req, 0, deadline).0.sent| > |w.sent| + cfg.Size() {
      DecisionIsLast(cfg, script, w, call, req, deadline, e, |w.sent| + i);
    } else if |Drive(cfg, script, w, call, req, 0, deadline).0.sent| == |w.sent| + cfg.Size() {
      assert Drive(cfg, script, w, call, req, 0, deadline).0.sent[|w.sent| + i].node == e;
    }
  }

  lemma FirstTryIsActive(
      cfg: Config, script: Script, w: World, call: nat, req: Request, attempt: nat, deadline: nat)
    requires cfg.Size() > 0 && Undisturbed(script) && w.active < cfg.Size()
    ensures var sent := Drive(cfg, script, w, call, req, attempt, deadline).0.sent;
      |w.sent| <= |sent| && (|sent| > |w.sent| ==> sent[|w.sent|].node == w.active)
  {
    IterationFacts(cfg, script, w, call, req, attempt, deadline);
    IterationRotates(cfg, script, w, call, req, attempt, deadline);
    var step := Iterate(cfg, script, w, call, req, attempt, deadline);
    hide Iterate, EntryOf, Repeatable, Retryable;
    if step.Again? {
      NextSlot(attempt, cfg.Size());
      CallLog(cfg, script, step.world, call, req, attempt + 1, deadline);
    }
  }

  lemma HintIsTaken(cfg: Config, script: Script, w: World, target: nat)
    requires AlwaysHints(cfg, script, target) && w.active < cfg.Size() && target < cfg.Size()
    ensures w.active != target ==> NextIndex(cfg, w.active, script.turn(w.turn, w.active).hint) == target
  {
    assert script.turn(w.turn, w.active).hint == target + 1;
  }

  /** A constant hint is followed at once: one of the first two attempts goes to the hinted endpoint. */
  lemma HintIsFollowed(cfg: Config, script: Script, w: World, call: nat, req: Request, deadline: nat, target: nat)
    requires Undisturbed(script) && AlwaysHints(cfg, script, target) && w.active < cfg.Size()
    requires target < cfg.Size()
    ensures var sent := Drive(cfg, script, w, call, req, 0, deadline).0.sent;
      |w.sent| <= |sent| &&
      (|sent| >= |w.sent| + 2 ==> sent[|w.sent|].node == target || sent[|w.sent| + 1].node == target)
  {
    hide Iterate, EntryOf, Repeatable, Retryable, NextIndex, Undisturbed, AlwaysHints;
    FirstTryIsActive(cfg, script, w, call, req, 0, deadline);
    IterationFacts(cfg, script, w, call, req, 0, deadline);
    IterationRotates(cfg, script, w, call, req, 0, deadline);
    HintIsTaken(cfg, script, w, target);
    var step := Iterate(cfg, script, w, call, req, 0, deadline);
    if step.Again? && w.active != target {
      NextSlot(0, cfg.Size());
      FirstTryIsActive(cfg, script, step.world, call, req, 1, deadline);
    }
  }

  /**
   * So a hinted endpoint that decides ends the call within two attempts, and with an answer, unless the
   * deadline passed first or an endpoint had no client; after two attempts there is an answer.
   */
  lemma HintedDecisionReached(
      cfg: Config, script: Script, w: World, call: nat, req: Request, deadline: nat, target: nat)
    requires Undisturbed(script) && AlwaysHints(cfg, script, target) && w.active < cfg.Size()
    requires target < cfg.Size() && Decisive(script, target)
    ensures var (w', outcome) := Drive(cfg, script, w, call, req, 0, deadline);
      && |w'.sent| <= |w.sent| + 2
      && (|w'.sent| == |w.sent| + 2 ==> outcome.Answered?)
      && (outcome.Answered? || w'.clock >= deadline || exists k :: 0 <= k < cfg.Size() && !cfg.clients[k])
  {
    hide Drive, Decisive, Undisturbed, AlwaysHints;
    HintIsFollowed(cfg, script, w, call, req, deadline, target);
    UnansweredFor(cfg, script, w, call, req, 0, deadline);
    ReachedMeansAnswered(cfg, script, w, call, req, deadline, target);
    var sent := Drive(cfg, script, w, call, req, 0, deadline).0.sent;
    if |sent| >= |w.sent| + 2 {
      var i := if sent[|w.sent|].node == target then |w.sent| else |w.sent| + 1;
      assert sent[i].node == target;
      if |sent| > |w.sent| + 2 {
        DecisionIsLast(cfg, script, w, call, req, deadline, target, i);
      }
    }
  }
}
