/** The load generator's worker pool as a state machine: an unbuffered channel of jobs, workers
    that look up and count, and a main goroutine that sends, closes and waits. */
module WorkerPool {

  /** Ranging over the channel, looking up, or done. */
  datatype Worker = Waiting | Busy | Exited

  /** The main goroutine: sending jobs, waiting for the workers, or past the wait. */
  datatype Main = Sending | Joining | Finished

  datatype State = State(queries: nat, sent: nat, main: Main, workers: seq<Worker>, successes: nat, failures: nat)

  datatype Step =
    | Send(w: nat)                  // a send meets a worker's receive
    | Close                         // close(jobs), after the last send
    | Return(w: nat, found: bool)   // a lookup returns
    | Exit(w: nat)                  // a receive from the closed channel
    | Join                          // workers.Wait() returns

  function Init(queries: nat, concurrency: nat): State {
    State(queries, 0, Sending, seq(concurrency, _ => Waiting), 0, 0)
  }

  predicate Enabled(s: State, step: Step) {
    match step
    case Send(w) => s.main.Sending? && s.sent < s.queries && w < |s.workers| && s.workers[w].Waiting?
    case Close => s.main.Sending? && s.sent == s.queries
    case Return(w, _) => w < |s.workers| && s.workers[w].Busy?
    case Exit(w) => !s.main.Sending? && w < |s.workers| && s.workers[w].Waiting?
    case Join => s.main.Joining? && forall w :: 0 <= w < |s.workers| ==> s.workers[w].Exited?
  }

  function Next(s: State, step: Step): State
    requires Enabled(s, step)
  {
    match step
    case Send(w) => s.(sent := s.sent + 1, workers := s.workers[w := Busy])
    case Close => s.(main := Joining)
    case Return(w, found) =>
      if found then s.(successes := s.successes + 1, workers := s.workers[w := Waiting])
      else s.(failures := s.failures + 1, workers := s.workers[w := Waiting])
    case Exit(w) => s.(workers := s.workers[w := Exited])
    case Join => s.(main := Finished)
  }

  ghost predicate IsRun(s: State, steps: seq<Step>)
    decreases |steps|
  {
    steps == [] || (Enabled(s, steps[0]) && IsRun(Next(s, steps[0]), steps[1..]))
  }

  ghost function After(s: State, steps: seq<Step>): State
    requires IsRun(s, steps)
    decreases |steps|
  {
    if steps == [] then s else After(Next(s, steps[0]), steps[1..])
  }

  // ---------- accounting ----------

  function Held(workers: seq<Worker>): nat {
    if workers == [] then 0 else (if workers[0].Busy? then 1 else 0) + Held(workers[1..])
  }

  function Work(workers: seq<Worker>): nat {
    if workers == [] then 0
    else (match workers[0] case Busy => 2 case Waiting => 1 case Exited => 0) + Work(workers[1..])
  }

  ghost predicate Inv(s: State) {
    && s.sent == s.successes + s.failures + Held(s.workers)
    && s.sent <= s.queries
    && (!s.main.Sending? ==> s.sent == s.queries)
    && (s.main.Sending? ==> forall w :: 0 <= w < |s.workers| ==> !s.workers[w].Exited?)
    && (s.main.Finished? ==> forall w :: 0 <= w < |s.workers| ==> s.workers[w].Exited?)
  }

  /** Every step makes the remaining work smaller by exactly one. */
  function Remaining(s: State): int {
    2 * (s.queries - s.sent) + Work(s.workers) + (match s.main case Sending => 2 case Joining => 1 case Finished => 0)
  }

  lemma {:induction false} ChangeWorker(workers: seq<Worker>, w: nat, now: Worker)
    requires w < |workers|
    ensures Held(workers[w := now])
         == Held(workers) + (if now.Busy? then 1 else 0) - if workers[w].Busy? then 1 else 0
    ensures Work(workers[w := now]) - Work([now]) == Work(workers) - Work([workers[w]])
  {
    if w > 0 {
      ChangeWorker(workers[1..], w - 1, now);
      assert workers[w := now][1..] == workers[1..][w - 1 := now];
    } else {
      assert workers[w := now][1..] == workers[1..];
    }
  }

  lemma InitIsInv(queries: nat, concurrency: nat)
    ensures Inv(Init(queries, concurrency))
    ensures Remaining(Init(queries, concurrency)) == 2 * queries + concurrency + 2
  {
    AllWaiting(Init(queries, concurrency).workers);
  }

  lemma {:induction false} AllWaiting(workers: seq<Worker>)
    requires forall w :: 0 <= w < |workers| ==> workers[w].Waiting?
    ensures Held(workers) == 0 && Work(workers) == |workers|
  {
    if workers != [] {
      AllWaiting(workers[1..]);
    }
  }

  lemma {:induction false} NobodyHolds(workers: seq<Worker>)
    requires forall w :: 0 <= w < |workers| ==> workers[w].Exited?
    ensures Held(workers) == 0 && Work(workers) == 0
  {
    if workers != [] {
      NobodyHolds(workers[1..]);
    }
  }

  lemma StepKeepsInv(s: State, step: Step)
    requires Inv(s) && Enabled(s, step)
    ensures Inv(Next(s, step))
    ensures Remaining(Next(s, step)) == Remaining(s) - 1
    ensures Next(s, step).queries == s.queries && |Next(s, step).workers| == |s.workers|
  {
    match step
    case Send(w) => ChangeWorker(s.workers, w, Busy);
    case Return(w, _) => ChangeWorker(s.workers, w, Waiting);
    case Exit(w) => ChangeWorker(s.workers, w, Exited);
    case Close =>
    case Join =>
  }

  /** How many lookups returned with this result. */
  function Returned(steps: seq<Step>, found: bool): nat {
    if steps == [] then 0
    else (if steps[0].Return? && steps[0].found == found then 1 else 0) + Returned(steps[1..], found)
  }

  /** Each lookup that found something is a success and each other one a failure. */
  lemma {:induction false} ResultsAreCounted(s: State, steps: seq<Step>)
    requires IsRun(s, steps)
    ensures After(s, steps).successes == s.successes + Returned(steps, true)
    ensures After(s, steps).failures == s.failures + Returned(steps, false)
    decreases |steps|
  {
    if steps != [] {
      ResultsAreCounted(Next(s, steps[0]), steps[1..]);
    }
  }

  /** At every moment of every schedule: jobs sent = successes + failures + jobs in workers' hands,
      no more than the queries asked for, and one unit of work is done at every step. */
  lemma {:induction false} RunKeepsAccounts(s: State, steps: seq<Step>)
    requires Inv(s) && IsRun(s, steps)
    ensures Inv(After(s, steps))
    ensures Remaining(After(s, steps)) == Remaining(s) - |steps|
    ensures After(s, steps).queries == s.queries && |After(s, steps).workers| == |s.workers|
    decreases |steps|
  {
    if steps != [] {
      StepKeepsInv(s, steps[0]);
      RunKeepsAccounts(Next(s, steps[0]), steps[1..]);
    }
  }

  // ---------- progress ----------

  ghost predicate Stuck(s: State) {
    forall step :: !Enabled(s, step)
  }

  /** With a worker, the only states without a next step are the finished ones. */
  lemma NoDeadlock(s: State)
    requires Inv(s) && |s.workers| > 0
    ensures Stuck(s) <==> s.main.Finished?
  {
    if s.main.Finished? {
      assert forall step :: !Enabled(s, step);
    } else if w :| 0 <= w < |s.workers| && s.workers[w].Busy? {
      assert Enabled(s, Return(w, true));
    } else if w :| 0 <= w < |s.workers| && s.workers[w].Waiting? {
      if !s.main.Sending? {
        assert Enabled(s, Exit(w));
      } else if s.sent < s.queries {
        assert Enabled(s, Send(w));
      } else {
        assert Enabled(s, Close);
      }
    } else {
      assert s.workers[0].Exited?;
      assert Enabled(s, Join);
    }
  }

  /** Without one, the first send waits for ever: the pool can finish exactly when it has a worker
      or nothing to send. The program refuses a concurrency below one. */
  lemma DeadlockNeedsNoWorkers(queries: nat, concurrency: nat)
    ensures Stuck(Init(queries, concurrency)) <==> concurrency == 0 && queries > 0
  {
    var s := Init(queries, concurrency);
    if concurrency > 0 {
      InitIsInv(queries, concurrency);
      NoDeadlock(s);
    } else if queries == 0 {
      assert Enabled(s, Close);
    } else {
      assert forall step :: !Enabled(s, step);
    }
  }

  /** Every schedule ends after the same number of steps, with every query counted once. A run that
      has not ended can go on, and a run that cannot go on has counted all its queries. */
  lemma EveryRunEndsWithAllCounted(queries: nat, concurrency: nat, steps: seq<Step>)
    requires concurrency > 0 && IsRun(Init(queries, concurrency), steps)
    ensures var s := After(Init(queries, concurrency), steps);
            && s.successes == Returned(steps, true) && s.failures == Returned(steps, false)
            && s.sent == s.successes + s.failures + Held(s.workers)
            && |steps| <= 2 * queries + concurrency + 2
            && (Stuck(s) <==> |steps| == 2 * queries + concurrency + 2)
            && (Stuck(s) ==> Returned(steps, true) + Returned(steps, false) == queries)
  {
    var s := After(Init(queries, concurrency), steps);
    InitIsInv(queries, concurrency);
    RunKeepsAccounts(Init(queries, concurrency), steps);
    ResultsAreCounted(Init(queries, concurrency), steps);
    NoDeadlock(s);
    if s.main.Finished? {
      NobodyHolds(s.workers);
    }
  }
}
