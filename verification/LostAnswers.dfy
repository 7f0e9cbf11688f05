/**
 Two runs in which the first answer is lost on the way back: the request took effect, the retry finds
 nothing left to do, and the caller is told that it failed, or that there is nothing there.
 */
module LostAnswers {
  import opened Wrappers
  import opened TaskQueue
  import opened Cluster
  import opened Retry
  import opened PortModel
  import opened ChannelModel

  const ONE_ENDPOINT := Config([true], false, true)

  function TurnWith(fate: Fate): Turn {
    Turn(fate, [], Server(0, 0, 0, false), 0, 0, 0, None, 0, false)
  }

  /** The first request is carried out but its answer is lost; every later one is answered. */
  const FIRST_ANSWER_LOST := Script((t: nat) => None, (t: nat, e: nat) => TurnWith(if t == 0 then LostReply else Served))

  function WorldWith(s: State): World { World(0, 0, 0, 0, 0, 0, s, []) }

  /** The loop's first two iterations under that script. */
  lemma TwoAttempts(s: State, req: Request)
    ensures var (s1, _) := Execute(s, req, Server(0, 0, 0, false));
      var (s2, reply) := Execute(s1, req, Server(0, 0, 0, false));
      var (w, outcome) := Transact(ONE_ENDPOINT, FIRST_ANSWER_LOST, WorldWith(s), req);
      !Retryable(reply.rc) ==> w.cluster == s2 && outcome == Answered(reply)
  {
    hide Execute;
    assert FIRST_ANSWER_LOST.gap(0) == None && FIRST_ANSWER_LOST.turn(0, 0) == TurnWith(LostReply);
    assert FIRST_ANSWER_LOST.gap(1) == None && FIRST_ANSWER_LOST.turn(1, 0) == TurnWith(Served);
    assert ONE_ENDPOINT.Size() == 1;
    var w0 := WorldWith(s).(calls := 1);
    var w1 := Iterate(ONE_ENDPOINT, FIRST_ANSWER_LOST, w0, 0, req, 0, RETRY_BUDGET).world;
    assert Iterate(ONE_ENDPOINT, FIRST_ANSWER_LOST, w0, 0, req, 0, RETRY_BUDGET).Again?;
    assert w1.cluster == Execute(s, req, Server(0, 0, 0, false)).0 && w1.turn == 1;
    DriveUnfolds(ONE_ENDPOINT, FIRST_ANSWER_LOST, w0, 0, req, 0, RETRY_BUDGET);
    DriveUnfolds(ONE_ENDPOINT, FIRST_ANSWER_LOST, w1, 0, req, 1, RETRY_BUDGET);
  }

  const ONLY_TOKEN := Token(1, 0, 0)
  const ONE_LEASED := Queue([Task([], 1, 3, Leased, ONLY_TOKEN, 0)], 1, [])

  lemma OneLeasedIsValid()
    ensures Valid(ONE_LEASED)
  {
    assert ONE_LEASED.tasks[..0] == [];
    assert LeasedCount(ONE_LEASED.tasks) == 1;
  }

  /** `complete` reports failure although the task is completed. */
  lemma CompletedButReportedFailed()
    ensures Valid(ONE_LEASED)
    ensures var world := WorldWith(State(ONE_LEASED, [], map[]));
      var (p, result) := EndOp(ONE_ENDPOINT, FIRST_ANSWER_LOST, Port(map[1 := ONLY_TOKEN], world), 1, 1, ByComplete);
      && result == Err(DistributedError)
      && p.world.cluster.queue.tasks == [Task([], 1, 3, TaskQueue.Completed, ONLY_TOKEN, 0)]
  {
    hide Transact, Valid;
    OneLeasedIsValid();
    TwoAttempts(State(ONE_LEASED, [], map[]), Complete(1, ONLY_TOKEN));
  }

  /** A consuming read finds nothing although a result was put and nobody else read it. */
  lemma PutButNeverDelivered()
    ensures var s := State(Queue([], 0, []), [PutRecord(1, [7])], map[1 := 0]);
      TryGetOp(ONE_ENDPOINT, FIRST_ANSWER_LOST, true, WorldWith(s), 1).1 == Ok(None)
  {
    hide Transact;
    TwoAttempts(State(Queue([], 0, []), [PutRecord(1, [7])], map[1 := 0]), Get(1, true));
  }
}
