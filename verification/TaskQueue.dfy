/**
 The broker's task queue: what the in-memory reference port does for each request, under one lock.
 Task ids are 1-based and sequential, so the FIFO of tasks is a sequence and task `qid` sits at
 `qid - 1`. `ended` is a history: one entry for every lease that stopped being held.
 */
module TaskQueue {
  import opened Wrappers

  datatype Token = Token(local: nat, term: nat, index: nat)

  datatype QState = Pending | Leased | Completed | Dead

  datatype Task = Task(payload: Bytes, attempt: nat, maxAttempts: nat, state: QState, token: Token, deadline: nat)

  datatype How = ByComplete | ByFail | ByExpiry

  datatype Ending = Ending(qid: nat, token: Token, how: How)

  datatype Grant = Grant(qid: nat, token: Token, attempt: nat, payload: Bytes)

  datatype Queue = Queue(tasks: seq<Task>, nextToken: nat, ended: seq<Ending>)

  const DEFAULT_ATTEMPTS: nat := 3
  const DEFAULT_VISIBILITY_MS: nat := 30_000
  const DEFAULT_EXTENSION_MS: nat := 10_000

  /** Raw, unanchored search; an empty filter matches everything. */
  predicate Matches(payload: Bytes, filter: Bytes) {
    exists i | 0 <= i <= |payload| :: MatchesAt(payload, filter, i)
  }

  predicate MatchesAt(payload: Bytes, filter: Bytes, i: nat) {
    i + |filter| <= |payload| && payload[i..i + |filter|] == filter
  }

  /** That is: the filter is a stretch of the payload; so the empty filter matches every payload, empty ones too. */
  lemma MatchesExactly(payload: Bytes, filter: Bytes)
    ensures Matches(payload, filter) <==> exists front, back :: payload == front + filter + back
    ensures filter == [] ==> Matches(payload, filter)
  {
    if Matches(payload, filter) {
      var i :| 0 <= i <= |payload| && MatchesAt(payload, filter, i);
      assert payload == payload[..i] + filter + payload[i + |filter|..];
    }
    if front, back :| payload == front + filter + back {
      assert MatchesAt(payload, filter, |front|);
    }
    if filter == [] {
      assert MatchesAt(payload, filter, 0);
    }
  }

  function FirstMatch(tasks: seq<Task>, filter: Bytes, from: nat): (i: nat)
    requires from <= |tasks|
    ensures from <= i <= |tasks|
    ensures i < |tasks| ==> tasks[i].state == Pending && Matches(tasks[i].payload, filter)
    ensures forall k | from <= k < i :: !(tasks[k].state == Pending && Matches(tasks[k].payload, filter))
    decreases |tasks| - from
  {
    if from == |tasks| then from
    else if tasks[from].state == Pending && Matches(tasks[from].payload, filter) then from
    else FirstMatch(tasks, filter, from + 1)
  }

  function Enqueued(q: Queue, payload: Bytes, maxAttempts: nat): Queue {
    var limit := if maxAttempts == 0 then DEFAULT_ATTEMPTS else maxAttempts;
    q.(tasks := q.tasks + [Task(payload, 0, limit, Pending, Token(0, 0, 0), 0)])
  }

  /** Leases task `i`, under a token never used before. */
  function LeaseAt(q: Queue, i: nat, timeoutMs: nat, now: nat, term: nat, index: nat): Queue
    requires i < |q.tasks|
  {
    var t := q.tasks[i];
    var visible := if timeoutMs == 0 then DEFAULT_VISIBILITY_MS else timeoutMs;
    var leased := t.(attempt := t.attempt + 1, state := Leased, token := Token(q.nextToken + 1, term, index),
                     deadline := now + visible);
    q.(tasks := q.tasks[i := leased], nextToken := q.nextToken + 1)
  }

  /** Leases the earliest matching pending task; a non-matching task is skipped, not touched. */
  function LeaseEarliest(q: Queue, filter: Bytes, timeoutMs: nat, now: nat, term: nat, index: nat)
    : (Queue, Option<Grant>)
  {
    var i := FirstMatch(q.tasks, filter, 0);
    if i == |q.tasks| then (q, None)
    else
      var q' := LeaseAt(q, i, timeoutMs, now, term, index);
      (q', Some(Grant(i + 1, q'.tasks[i].token, q'.tasks[i].attempt, q'.tasks[i].payload)))
  }

  /** The fence: `qid` is leased, and under exactly this token. */
  predicate Holds(q: Queue, qid: nat, token: Token) {
    1 <= qid <= |q.tasks| && q.tasks[qid - 1].state == Leased && q.tasks[qid - 1].token == token
  }

  function EndedState(t: Task, how: How): QState {
    if how == ByComplete then Completed
    else if t.attempt >= t.maxAttempts then Dead
    else Pending
  }

  /** Takes task `i` out of its lease. */
  function EndLease(q: Queue, i: nat, how: How): Queue
    requires i < |q.tasks|
  {
    var t := q.tasks[i];
    q.(tasks := q.tasks[i := t.(state := EndedState(t, how))],
       ended := q.ended + [Ending(i + 1, t.token, how)])
  }

  function EndIfHeld(q: Queue, qid: nat, token: Token, how: How): (Queue, bool) {
    if Holds(q, qid, token) then (EndLease(q, qid - 1, how), true) else (q, false)
  }

  function Extended(q: Queue, qid: nat, token: Token, extendByMs: nat, now: nat): (Queue, bool) {
    if Holds(q, qid, token) then
      var extend := if extendByMs == 0 then DEFAULT_EXTENSION_MS else extendByMs;
      (q.(tasks := q.tasks[qid - 1 := q.tasks[qid - 1].(deadline := now + extend)]), true)
    else (q, false)
  }

  /** Ends every lease whose visibility deadline has passed, from task `from` on. */
  function Swept(q: Queue, now: nat, from: nat): Queue
    requires from <= |q.tasks|
    decreases |q.tasks| - from
  {
    if from == |q.tasks| then q
    else if q.tasks[from].state == Leased && now >= q.tasks[from].deadline then
      Swept(EndLease(q, from, ByExpiry), now, from + 1)
    else Swept(q, now, from + 1)
  }

  // What every operation keeps.

  function LeasedCount(tasks: seq<Task>): (n: nat)
    ensures n <= |tasks|
  {
    if tasks == [] then 0
    else LeasedCount(tasks[..|tasks| - 1]) + if tasks[|tasks| - 1].state == Leased then 1 else 0
  }

  predicate AttemptsWithinLimit(t: Task) {
    && t.attempt <= t.maxAttempts
    && (t.state == Pending ==> t.attempt < t.maxAttempts)
    && (t.state == Leased ==> 1 <= t.attempt)
  }

  ghost predicate AttemptsBounded(q: Queue) {
    forall i | 0 <= i < |q.tasks| :: AttemptsWithinLimit(q.tasks[i])
  }

  /** A token is granted once: one task holds it or one lease ended under it, never both, never twice. */
  ghost predicate TokensUnique(q: Queue) {
    && (forall i | 0 <= i < |q.tasks| && q.tasks[i].state == Leased :: 1 <= q.tasks[i].token.local <= q.nextToken)
    && (forall i, j | 0 <= i < j < |q.tasks| && q.tasks[i].state == Leased && q.tasks[j].state == Leased ::
          q.tasks[i].token.local != q.tasks[j].token.local)
    && (forall k | 0 <= k < |q.ended| :: 1 <= q.ended[k].token.local <= q.nextToken)
    && (forall k, m | 0 <= k < m < |q.ended| :: q.ended[k].token.local != q.ended[m].token.local)
    && (forall k, i | 0 <= k < |q.ended| && 0 <= i < |q.tasks| && q.tasks[i].state == Leased ::
          q.ended[k].token.local != q.tasks[i].token.local)
  }

  /** A task that ended a lease by completion is completed for good: that was the last lease it had. */
  ghost predicate CompletionsFinal(q: Queue) {
    && (forall k | 0 <= k < |q.ended| :: 1 <= q.ended[k].qid <= |q.tasks|)
    && (forall k | 0 <= k < |q.ended| && q.ended[k].how == ByComplete :: q.tasks[q.ended[k].qid - 1].state == Completed)
    && (forall k, m | 0 <= k < m < |q.ended| && q.ended[k].how == ByComplete :: q.ended[k].qid != q.ended[m].qid)
  }

  ghost predicate CompletedByLease(q: Queue, i: nat) {
    exists k :: 0 <= k < |q.ended| && q.ended[k].qid == i + 1 && q.ended[k].how == ByComplete
  }

  ghost predicate CompletionsEarned(q: Queue) {
    forall i | 0 <= i < |q.tasks| && q.tasks[i].state == Completed :: CompletedByLease(q, i)
  }

  ghost predicate Valid(q: Queue) {
    && AttemptsBounded(q)
    && TokensUnique(q)
    && CompletionsFinal(q)
    && CompletionsEarned(q)
    // Every token ever granted is still held or has ended.
    && q.nextToken == |q.ended| + LeasedCount(q.tasks)
  }

  lemma {:induction false} LeasedCountUpdate(tasks: seq<Task>, i: nat, t: Task)
    requires i < |tasks|
    ensures LeasedCount(tasks[i := t])
         == LeasedCount(tasks) - (if tasks[i].state == Leased then 1 else 0) + (if t.state == Leased then 1 else 0)
  {
    var last := |tasks| - 1;
    if i == last {
      assert tasks[i := t][..last] == tasks[..last];
    } else {
      assert tasks[i := t][..last] == tasks[..last][i := t];
      LeasedCountUpdate(tasks[..last], i, t);
    }
  }

  lemma CompletionsEarnedKept(q: Queue, q': Queue)
    requires CompletionsEarned(q) && q.ended <= q'.ended
    requires forall i | 0 <= i < |q'.tasks| && q'.tasks[i].state == Completed ::
               CompletedByLease(q', i) || (i < |q.tasks| && q.tasks[i].state == Completed)
    ensures CompletionsEarned(q')
  {
    forall i | 0 <= i < |q'.tasks| && q'.tasks[i].state == Completed
      ensures CompletedByLease(q', i)
    {
      if i < |q.tasks| && q.tasks[i].state == Completed {
        assert CompletedByLease(q, i);
        var k :| 0 <= k < |q.ended| && q.ended[k].qid == i + 1 && q.ended[k].how == ByComplete;
        assert q'.ended[k] == q.ended[k];
      }
    }
  }

  lemma CompletionsFinalKept(q: Queue, q': Queue)
    requires CompletionsFinal(q) && q'.ended == q.ended && |q.tasks| <= |q'.tasks|
    requires forall i | 0 <= i < |q.tasks| && q.tasks[i].state == Completed :: q'.tasks[i].state == Completed
    ensures CompletionsFinal(q')
  {
  }

  lemma EnqueuedKeepsValid(q: Queue, payload: Bytes, maxAttempts: nat)
    requires Valid(q)
    ensures Valid(Enqueued(q, payload, maxAttempts))
  {
    hide TokensUnique, CompletionsFinal, CompletionsEarned, CompletedByLease;
    var q' := Enqueued(q, payload, maxAttempts);
    assert q'.tasks[..|q'.tasks| - 1] == q.tasks;
    assert AttemptsBounded(q');
    CompletionsEarnedKept(q, q');
    CompletionsFinalKept(q, q');
    EnqueuedKeepsTokens(q, q');
  }

  lemma EnqueuedKeepsTokens(q: Queue, q': Queue)
    requires TokensUnique(q)
    requires q'.ended == q.ended && q'.nextToken == q.nextToken && q.tasks <= q'.tasks
    requires forall i | |q.tasks| <= i < |q'.tasks| :: q'.tasks[i].state != Leased
    ensures TokensUnique(q')
  {
    forall i | 0 <= i < |q'.tasks| && q'.tasks[i].state == Leased
      ensures i < |q.tasks| && q.tasks[i] == q'.tasks[i]
    {
    }
  }

  /** A task takes a token no one has seen. */
  lemma FreshLeaseKeepsTokens(q: Queue, i: nat, t: Task)
    requires TokensUnique(q) && i < |q.tasks|
    requires t.state == Leased && t.token.local == q.nextToken + 1
    ensures TokensUnique(q.(tasks := q.tasks[i := t], nextToken := q.nextToken + 1))
  {
    var tasks' := q.tasks[i := t];
    forall k | 0 <= k < |tasks'| && k != i
      ensures tasks'[k] == q.tasks[k]
    {
    }
  }

  lemma LeaseAtKeepsValid(q: Queue, i: nat, timeoutMs: nat, now: nat, term: nat, index: nat)
    requires Valid(q) && i < |q.tasks| && q.tasks[i].state == Pending
    ensures Valid(LeaseAt(q, i, timeoutMs, now, term, index))
  {
    hide TokensUnique, CompletionsFinal, CompletionsEarned, CompletedByLease, LeasedCount;
    var q' := LeaseAt(q, i, timeoutMs, now, term, index);
    LeasedCountUpdate(q.tasks, i, q'.tasks[i]);
    FreshLeaseKeepsTokens(q, i, q'.tasks[i]);
    CompletionsEarnedKept(q, q');
    CompletionsFinalKept(q, q');
  }

  lemma LeaseKeepsValid(q: Queue, filter: Bytes, timeoutMs: nat, now: nat, term: nat, index: nat)
    requires Valid(q)
    ensures Valid(LeaseEarliest(q, filter, timeoutMs, now, term, index).0)
  {
    hide Valid, Matches, LeaseAt;
    var i := FirstMatch(q.tasks, filter, 0);
    if i < |q.tasks| {
      LeaseAtKeepsValid(q, i, timeoutMs, now, term, index);
    }
  }

  lemma EndKeepsTokens(q: Queue, i: nat, how: How)
    requires TokensUnique(q) && i < |q.tasks| && q.tasks[i].state == Leased
    ensures TokensUnique(EndLease(q, i, how))
  {
    var q' := EndLease(q, i, how);
    forall k | 0 <= k < |q'.tasks| && q'.tasks[k].state == Leased
      ensures k != i && q'.tasks[k] == q.tasks[k]
    {
    }
    forall k | 0 <= k < |q'.ended|
      ensures if k < |q.ended| then q'.ended[k] == q.ended[k] else q'.ended[k].token == q.tasks[i].token
    {
    }
  }

  lemma EndKeepsCompletions(q: Queue, i: nat, how: How)
    requires CompletionsFinal(q) && i < |q.tasks| && q.tasks[i].state == Leased
    ensures CompletionsFinal(EndLease(q, i, how))
  {
    var q' := EndLease(q, i, how);
    forall k | 0 <= k < |q.ended|
      ensures q'.ended[k] == q.ended[k] && (q.ended[k].how == ByComplete ==> q.ended[k].qid != i + 1)
    {
    }
  }

  lemma EndKeepsCompletionsEarned(q: Queue, i: nat, how: How)
    requires CompletionsEarned(q) && i < |q.tasks| && q.tasks[i].state == Leased
    ensures CompletionsEarned(EndLease(q, i, how))
  {
    var q' := EndLease(q, i, how);
    assert how == ByComplete ==> CompletedByLease(q', i) by {
      assert q'.ended[|q.ended|] == Ending(i + 1, q.tasks[i].token, how);
    }
    hide CompletionsEarned;
    CompletionsEarnedKept(q, q');
  }

  lemma EndKeepsValid(q: Queue, i: nat, how: How)
    requires Valid(q) && i < |q.tasks| && q.tasks[i].state == Leased
    ensures Valid(EndLease(q, i, how))
  {
    hide TokensUnique, CompletionsFinal, CompletionsEarned, CompletedByLease, LeasedCount;
    LeasedCountUpdate(q.tasks, i, EndLease(q, i, how).tasks[i]);
    EndKeepsTokens(q, i, how);
    EndKeepsCompletions(q, i, how);
    EndKeepsCompletionsEarned(q, i, how);
  }

  lemma ExtendedKeepsTokens(q: Queue, i: nat, deadline: nat)
    requires TokensUnique(q) && i < |q.tasks|
    ensures TokensUnique(q.(tasks := q.tasks[i := q.tasks[i].(deadline := deadline)]))
  {
    var tasks' := q.tasks[i := q.tasks[i].(deadline := deadline)];
    forall k | 0 <= k < |tasks'|
      ensures tasks'[k].token == q.tasks[k].token && tasks'[k].state == q.tasks[k].state
    {
    }
  }

  lemma ExtendedKeepsValid(q: Queue, qid: nat, token: Token, extendByMs: nat, now: nat)
    requires Valid(q)
    ensures Valid(Extended(q, qid, token, extendByMs, now).0)
  {
    hide TokensUnique, CompletionsFinal, CompletionsEarned, CompletedByLease, LeasedCount;
    var q' := Extended(q, qid, token, extendByMs, now).0;
    if Holds(q, qid, token) {
      LeasedCountUpdate(q.tasks, qid - 1, q'.tasks[qid - 1]);
      ExtendedKeepsTokens(q, qid - 1, q'.tasks[qid - 1].deadline);
      CompletionsEarnedKept(q, q');
      CompletionsFinalKept(q, q');
      }
  }

  lemma {:induction false} SweptKeepsValid(q: Queue, now: nat, from: nat)
    requires Valid(q) && from <= |q.tasks|
    ensures Valid(Swept(q, now, from))
    decreases |q.tasks| - from
  {
    hide Valid;
    if from == |q.tasks| {
    } else if q.tasks[from].state == Leased && now >= q.tasks[from].deadline {
      EndKeepsValid(q, from, ByExpiry);
      SweptKeepsValid(EndLease(q, from, ByExpiry), now, from + 1);
    } else {
      SweptKeepsValid(q, now, from + 1);
    }
  }

  // What each operation does to the tasks, said without its own steps.

  /** Nothing but task `i` differs. */
  ghost predicate OnlyTask(q: Queue, q': Queue, i: nat)
    requires i < |q.tasks|
  {
    |q'.tasks| == |q.tasks| && forall k | 0 <= k < |q.tasks| && k != i :: q'.tasks[k] == q.tasks[k]
  }

  /** Whether a lease that did not complete leaves the task another try. */
  function LeftAs(t: Task): QState { if t.attempt < t.maxAttempts then Pending else Dead }

  /**
   * A lease goes to the earliest pending match and to nothing else: one attempt more, a token never used
   * before, visible again after the timeout asked for, or thirty seconds; without a match nothing happens.
   */
  lemma LeasedExactly(q: Queue, filter: Bytes, timeoutMs: nat, now: nat, term: nat, index: nat)
    ensures var (q', grant) := LeaseEarliest(q, filter, timeoutMs, now, term, index);
      if grant.None? then
        q' == q && forall k | 0 <= k < |q.tasks| && q.tasks[k].state == Pending :: !Matches(q.tasks[k].payload, filter)
      else
        var Grant(qid, token, attempt, payload) := grant.value;
        && 1 <= qid <= |q.tasks| && OnlyTask(q, q', qid - 1) && q'.ended == q.ended
        && (forall k | 0 <= k < qid - 1 && q.tasks[k].state == Pending :: !Matches(q.tasks[k].payload, filter))
        && var (was, task) := (q.tasks[qid - 1], q'.tasks[qid - 1]);
          && was.state == Pending && Matches(was.payload, filter)
          && task.state == Leased && task.attempt == was.attempt + 1 == attempt
          && task.payload == was.payload == payload && task.maxAttempts == was.maxAttempts
          && task.token == token == Token(q.nextToken + 1, term, index) && q'.nextToken == token.local
          && task.deadline == now + if timeoutMs == 0 then 30_000 else timeoutMs
  {
    hide Matches;
  }

  /** A heartbeat moves the deadline of the lease that is held, and nothing else. */
  lemma ExtendedExactly(q: Queue, qid: nat, token: Token, extendByMs: nat, now: nat)
    ensures var (q', ok) := Extended(q, qid, token, extendByMs, now);
      if 1 <= qid <= |q.tasks| && q.tasks[qid - 1].state == Leased && q.tasks[qid - 1].token == token then
        && ok && OnlyTask(q, q', qid - 1) && q'.ended == q.ended && q'.nextToken == q.nextToken
        && q'.tasks[qid - 1]
           == q.tasks[qid - 1].(deadline := now + if extendByMs == 0 then 10_000 else extendByMs)
      else !ok && q' == q
  {
  }

  /** A sweep ends exactly the leases whose deadline has come: back to pending while attempts are left, else dead. */
  lemma {:induction false} SweptExactly(q: Queue, now: nat, from: nat, i: nat)
    requires from <= |q.tasks| && i < |q.tasks|
    ensures var (q', t) := (Swept(q, now, from), q.tasks[i]);
      var expired := from <= i && t.state == Leased && t.deadline <= now;
      && |q'.tasks| == |q.tasks| && q'.nextToken == q.nextToken && q.ended <= q'.ended
      && q'.tasks[i] == (if expired then t.(state := LeftAs(t)) else t)
      && (expired ==> exists k :: |q.ended| <= k < |q'.ended| && q'.ended[k] == Ending(i + 1, t.token, ByExpiry))
    decreases |q.tasks| - from
  {
    if from < |q.tasks| {
      var next := if q.tasks[from].state == Leased && now >= q.tasks[from].deadline then EndLease(q, from, ByExpiry) else q;
      SweptExactly(next, now, from + 1, i);
      if from == i && next != q {
        assert Swept(next, now, from + 1).ended[|q.ended|] == Ending(i + 1, q.tasks[i].token, ByExpiry);
      }
    }
  }

  /** One try of a task: leased, then given back without being completed. */
  datatype Try = Try(timeoutMs: nat, now: nat, term: nat, index: nat, expired: bool)

  function Tried(q: Queue, i: nat, tries: seq<Try>): (q': Queue)
    requires i < |q.tasks|
    ensures |q'.tasks| == |q.tasks|
    decreases |tries|
  {
    if tries == [] then q
    else
      var before := Tried(q, i, tries[..|tries| - 1]);
      var t := tries[|tries| - 1];
      EndLease(LeaseAt(before, i, t.timeoutMs, t.now, t.term, t.index), i, if t.expired then ByExpiry else ByFail)
  }

  /** However its leases end short of completion, a task is tried until its limit, and only then is dead. */
  lemma {:induction false} TriedUntilTheLimit(q: Queue, i: nat, tries: seq<Try>)
    requires i < |q.tasks| && q.tasks[i].state == Pending
    requires q.tasks[i].attempt + |tries| <= q.tasks[i].maxAttempts
    requires q.tasks[i].attempt < q.tasks[i].maxAttempts
    ensures var (task, was) := (Tried(q, i, tries).tasks[i], q.tasks[i]);
      && OnlyTask(q, Tried(q, i, tries), i)
      && task.attempt == was.attempt + |tries| && task.maxAttempts == was.maxAttempts && task.payload == was.payload
      && task.state == if was.attempt + |tries| < was.maxAttempts then Pending else Dead
    decreases |tries|
  {
    if tries != [] {
      TriedUntilTheLimit(q, i, tries[..|tries| - 1]);
    }
  }
}
