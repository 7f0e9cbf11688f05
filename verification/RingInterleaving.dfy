/**
 Threads sharing one endpoint ring, each step atomic, in every interleaving: a port and its channel
 hold different locks, so their loads, swaps and counter increments really interleave. The index is
 loaded relaxed, so a load may return any value the index has had; a swap acts on the latest.
 */
module RingInterleaving {
  import opened DivMod
  import opened Retry

  /** Where a thread is in its attempt. `since` is the place in the index's history that it loaded. */
  datatype Thread =
    | Idle
    | Sending(idx: nat, since: nat)
    | Aiming(idx: nat, next: nat, since: nat)
    | Counting

  /** `history` holds every value of the index in modification order, the present one last. */
  datatype Shared = Shared(history: seq<nat>, rotations: nat, threads: seq<Thread>) {
    function Active(): nat
      requires history != []
    {
      history[|history| - 1]
    }

    /** How often the index has been swapped. */
    function Swaps(): nat
      requires history != []
    {
      |history| - 1
    }
  }

  datatype Action =
    | Load(at: nat)     // read some value of the index, modulo the ring size, and send
    | Finish            // a final answer: the attempt is over
    | Aim(hint: nat)    // a retryable answer: pick the next endpoint
    | Swap              // compare-and-swap
    | Count             // add one to the rotation counter

  /** One step of thread `i`; a step that is not the thread's next one does nothing. */
  function Step(cfg: Config, s: Shared, i: nat, action: Action): (s': Shared)
    requires cfg.Size() > 0 && s.history != []
    ensures s.history <= s'.history
  {
    if i >= |s.threads| then s
    else
      match (s.threads[i], action)
      case (Idle, Load(at)) =>
        if at < |s.history| then s.(threads := s.threads[i := Sending(s.history[at] % cfg.Size(), at)]) else s
      case (Sending(_, _), Finish) => s.(threads := s.threads[i := Idle])
      case (Sending(idx, since), Aim(hint)) =>
        if cfg.Size() <= 1 then s.(threads := s.threads[i := Idle])
        else s.(threads := s.threads[i := Aiming(idx, NextIndex(cfg, idx, hint), since)])
      case (Aiming(idx, next, _), Swap) =>
        if s.Active() == idx then s.(history := s.history + [next], threads := s.threads[i := Counting])
        else s.(threads := s.threads[i := Idle])
      case (Counting, Count) => s.(rotations := s.rotations + 1, threads := s.threads[i := Idle])
      case _ => s
  }

  /** A run: which thread steps, and how. */
  function Run(cfg: Config, s: Shared, schedule: seq<(nat, Action)>): (s': Shared)
    requires cfg.Size() > 0 && s.history != []
    ensures s.history <= s'.history
    decreases |schedule|
  {
    if schedule == [] then s
    else
      var last := schedule[|schedule| - 1];
      Step(cfg, Run(cfg, s, schedule[..|schedule| - 1]), last.0, last.1)
  }

  function Initial(threads: nat): Shared { Shared([0], 0, seq(threads, _ => Idle)) }

  /** Swaps whose increment is still to come. */
  function Pending(threads: seq<Thread>): nat {
    if threads == [] then 0
    else Pending(threads[..|threads| - 1]) + if threads[|threads| - 1] == Counting then 1 else 0
  }

  ghost predicate Sound(n: nat, s: Shared, t: Thread) {
    match t
    case Sending(idx, since) => since < |s.history| && s.history[since] == idx
    case Aiming(idx, next, since) => since < |s.history| && s.history[since] == idx && next < n && next != idx
    case _ => true
  }

  ghost predicate Inv(n: nat, s: Shared) {
    && s.history != []
    && (forall k | 0 <= k < |s.history| :: s.history[k] < n)
    && (forall k | 0 < k < |s.history| :: s.history[k] != s.history[k - 1])
    && (forall i | 0 <= i < |s.threads| :: Sound(n, s, s.threads[i]))
    && s.rotations + Pending(s.threads) == s.Swaps()
  }

  lemma {:induction false} PendingUpdate(threads: seq<Thread>, i: nat, t: Thread)
    requires i < |threads|
    ensures Pending(threads[i := t])
         == Pending(threads) - (if threads[i] == Counting then 1 else 0) + (if t == Counting then 1 else 0)
  {
    var last := |threads| - 1;
    if i == last {
      assert threads[i := t][..last] == threads[..last];
    } else {
      assert threads[i := t][..last] == threads[..last][i := t];
      PendingUpdate(threads[..last], i, t);
    }
  }

  /** With two endpoints or more, the next index is another endpoint of the ring. */
  lemma NextIsElsewhere(cfg: Config, idx: nat, hint: nat)
    requires cfg.Size() > 1 && idx < cfg.Size()
    ensures NextIndex(cfg, idx, hint) < cfg.Size() && NextIndex(cfg, idx, hint) != idx
  {
    RingPlaceSmall(idx, cfg.Size());
  }

  lemma StepKeepsInv(cfg: Config, s: Shared, i: nat, action: Action)
    requires cfg.Size() > 0 && Inv(cfg.Size(), s)
    ensures Inv(cfg.Size(), Step(cfg, s, i, action))
  {
    hide Pending, NextIndex;
    var n := cfg.Size();
    var s' := Step(cfg, s, i, action);
    if i < |s.threads| {
      PendingUpdate(s.threads, i, s'.threads[i]);
      assert Sound(n, s, s.threads[i]);
      if s.threads[i].Sending? && action.Aim? && n > 1 {
        NextIsElsewhere(cfg, s.threads[i].idx, action.hint);
      }
      if s.threads[i].Idle? && action.Load? {
        if action.at < |s.history| { Quotient(s.history[action.at], n, 0, s.history[action.at]); }
      }
      forall k | 0 <= k < |s'.threads|
        ensures Sound(n, s', s'.threads[k])
      {
        if k != i { assert Sound(n, s, s.threads[k]); }
      }
    }
  }

  lemma {:induction false} InitialInv(n: nat, threads: nat)
    requires n > 0
    ensures Inv(n, Initial(threads))
    decreases threads
  {
    if threads > 0 {
      InitialInv(n, threads - 1);
      assert Initial(threads).threads[..threads - 1] == Initial(threads - 1).threads;
    }
  }

  /**
   In every interleaving every value of the index lies within the ring, every swap changes it, and the
   rotation counter plus the increments still to come is the number of swaps.
   */
  lemma {:induction false} EveryRunKeepsInv(cfg: Config, threads: nat, schedule: seq<(nat, Action)>)
    requires cfg.Size() > 0
    ensures Inv(cfg.Size(), Run(cfg, Initial(threads), schedule))
    decreases |schedule|
  {
    hide Inv, Step;
    if schedule == [] {
      InitialInv(cfg.Size(), threads);
    } else {
      EveryRunKeepsInv(cfg, threads, schedule[..|schedule| - 1]);
      var last := schedule[|schedule| - 1];
      StepKeepsInv(cfg, Run(cfg, Initial(threads), schedule[..|schedule| - 1]), last.0, last.1);
    }
  }

  /** So the reduction modulo the ring size, whichever value a load returns, never changes it. */
  lemma ReductionIsIdle(cfg: Config, threads: nat, schedule: seq<(nat, Action)>, at: nat)
    requires cfg.Size() > 0 && at < |Run(cfg, Initial(threads), schedule).history|
    ensures var value := Run(cfg, Initial(threads), schedule).history[at]; value % cfg.Size() == value
  {
    EveryRunKeepsInv(cfg, threads, schedule);
    var value := Run(cfg, Initial(threads), schedule).history[at];
    Quotient(value, cfg.Size(), 0, value);
  }

  /**
   A swap that succeeds moves the index to another endpoint, and a swap fails only if some other swap
   comes after the value this thread loaded: whoever fails, somebody made progress.
   */
  lemma SwapFailsOnlyToARival(cfg: Config, threads: nat, schedule: seq<(nat, Action)>, i: nat)
    requires cfg.Size() > 0
    requires var s := Run(cfg, Initial(threads), schedule); i < |s.threads| && s.threads[i].Aiming?
    ensures var s := Run(cfg, Initial(threads), schedule);
      var s' := Step(cfg, s, i, Swap);
      && s'.Active() < cfg.Size()
      && (s'.Swaps() == s.Swaps() || (s'.Swaps() == s.Swaps() + 1 && s'.Active() != s.Active()))
      && (s'.Swaps() == s.Swaps() ==> s.threads[i].since < s.Swaps())
  {
    EveryRunKeepsInv(cfg, threads, schedule);
    hide Run, Pending;
    var s := Run(cfg, Initial(threads), schedule);
    assert Sound(cfg.Size(), s, s.threads[i]);
  }

  ghost predicate OutOfRange(n: nat, s: Shared) {
    && s.history != [] && s.Active() >= n
    && forall i | 0 <= i < |s.threads| ::
         && (s.threads[i].Sending? ==> s.threads[i].idx < n)
         && (s.threads[i].Aiming? ==> s.threads[i].idx < n)
  }

  /** The invariant is what keeps the ring alive: an index outside the ring could never be swapped away. */
  lemma {:induction false} OutOfRangeIsForever(cfg: Config, s: Shared, schedule: seq<(nat, Action)>)
    requires cfg.Size() > 0 && OutOfRange(cfg.Size(), s)
    ensures var s' := Run(cfg, s, schedule); OutOfRange(cfg.Size(), s') && s'.history == s.history
    decreases |schedule|
  {
    hide NextIndex;
    if schedule != [] {
      OutOfRangeIsForever(cfg, s, schedule[..|schedule| - 1]);
    }
  }

  /**
   * A whole failed attempt with no step of another thread in between: it turns the ring once and counts one,
   * unless the ring has a single endpoint or the value it loaded is no longer the latest.
   */
  lemma LoneAttemptRotates(cfg: Config, s: Shared, i: nat, at: nat, hint: nat)
    requires cfg.Size() > 0 && Inv(cfg.Size(), s)
    requires i < |s.threads| && s.threads[i] == Idle && at < |s.history|
    ensures var s' := Run(cfg, s, [(i, Load(at)), (i, Aim(hint)), (i, Swap), (i, Count)]);
      if cfg.Size() == 1 || s.history[at] != s.Active() then s' == s
      else s' == s.(history := s.history + [NextIndex(cfg, s.Active(), hint)], rotations := s.rotations + 1)
  {
    hide NextIndex, Inv;
    var steps := [(i, Load(at)), (i, Aim(hint)), (i, Swap), (i, Count)];
    assert Run(cfg, s, []) == s;
    assert steps[..3] == [(i, Load(at)), (i, Aim(hint)), (i, Swap)] && steps[..3][..2] == [(i, Load(at)), (i, Aim(hint))];
    assert steps[..3][..2][..1] == [(i, Load(at))];
    var s1 := Step(cfg, s, i, Load(at));
    var s2 := Step(cfg, s1, i, Aim(hint));
    var s3 := Step(cfg, s2, i, Swap);
    assert Run(cfg, s, steps[..3][..2][..1]) == s1;
    assert Run(cfg, s, steps[..3][..2]) == s2;
    assert Run(cfg, s, steps[..3]) == s3;
    assert Run(cfg, s, steps) == Step(cfg, s3, i, Count);
    LoadedIsInRange(cfg, s, at);
    assert s.threads[i := Idle] == s.threads;
  }

  lemma LoadedIsInRange(cfg: Config, s: Shared, at: nat)
    requires cfg.Size() > 0 && Inv(cfg.Size(), s) && at < |s.history|
    ensures s.history[at] % cfg.Size() == s.history[at]
  {
    Quotient(s.history[at], cfg.Size(), 0, s.history[at]);
  }
}
