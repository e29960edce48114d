/** Group shutdown: the worker threads of src/EventLoopGroup.cpp, each running the loop of
    src/EventLoop.cpp until bf_() is false and then waking every loop of the group. */
module LoopGroups {

  datatype Worker =
    | Checking         // at `while (bf())`
    | Blocked          // in the poller; it can leave with a token, or for an event of its own
    | Handling         // the poller returned; handlers run, the token may have been read
    | Waking(k: nat)   // about to wake loop k
    | Exited

  datatype State = State(workers: seq<Worker>, tokens: seq<nat>, stop: bool)

  /** n + 1 loops, each with a fresh eventfd of value 1000. */
  function Init(n: nat): State {
    State(seq(n + 1, _ => Checking), seq(n + 1, _ => 1000), false)
  }

  datatype Step =
    | Stop                 // from now on bf_() is false
    | Notify(i: nat)       // somebody else wakes loop i
    | Check(i: nat)        // bf_(), under the mutex
    | TakeToken(i: nat)    // the poller reports the eventfd of loop i and its read empties it
    | OtherEvent(i: nat)   // the poller returns for another descriptor; the eventfd is not read
    | Again(i: nat)        // the handlers are done: back to the test
    | Wake(i: nat)         // worker i wakes loop k
    | Leave(i: nat)        // worker i has woken all loops

  predicate Enabled(s: State, step: Step) {
    match step
    case Stop => true
    case Notify(i) => i < |s.tokens|
    case Check(i) => i < |s.workers| && s.workers[i].Checking?
    case TakeToken(i) => i < |s.workers| && i < |s.tokens| && s.workers[i].Blocked? && s.tokens[i] > 0
    case OtherEvent(i) => i < |s.workers| && s.workers[i].Blocked?
    case Again(i) => i < |s.workers| && s.workers[i].Handling?
    case Wake(i) => i < |s.workers| && s.workers[i].Waking? && s.workers[i].k < |s.tokens|
    case Leave(i) => i < |s.workers| && s.workers[i].Waking? && s.workers[i].k >= |s.tokens|
  }

  function Do(s: State, step: Step): State
    requires Enabled(s, step)
  {
    match step
    case Stop => s.(stop := true)
    case Notify(i) => s.(tokens := s.tokens[i := s.tokens[i] + 1])
    case Check(i) => s.(workers := s.workers[i := if s.stop then Waking(0) else Blocked])
    case TakeToken(i) => s.(tokens := s.tokens[i := 0], workers := s.workers[i := Handling])
    case OtherEvent(i) => s.(workers := s.workers[i := Handling])
    case Again(i) => s.(workers := s.workers[i := Checking])
    case Wake(i) =>
      var k := s.workers[i].k;
      s.(tokens := s.tokens[k := s.tokens[k] + 1], workers := s.workers[i := Waking(k + 1)])
    case Leave(i) => s.(workers := s.workers[i := Exited])
  }

  predicate Possible(s: State, steps: seq<Step>)
    decreases steps
  {
    steps == [] || (Enabled(s, steps[0]) && Possible(Do(s, steps[0]), steps[1..]))
  }

  function Run(s: State, steps: seq<Step>): State
    requires Possible(s, steps)
    decreases steps
  {
    if steps == [] then s else Run(Do(s, steps[0]), steps[1..])
  }

  /** Worker w has already woken loop j. */
  predicate HasWoken(w: Worker, j: nat) {
    w.Exited? || (w.Waking? && w.k > j)
  }

  /** A loop that some worker has woken is never left blocked without a token. */
  ghost predicate NobodyForgotten(s: State) {
    && |s.workers| == |s.tokens| >= 1
    && (forall i | 0 <= i < |s.workers| :: s.workers[i].Waking? || s.workers[i].Exited? ==> s.stop)
    && (forall i, j | 0 <= i < |s.workers| && 0 <= j < |s.workers| ::
          HasWoken(s.workers[i], j) && s.workers[j].Blocked? ==> s.tokens[j] > 0)
  }

  lemma NobodyForgottenStep(s: State, step: Step)
    requires NobodyForgotten(s) && Enabled(s, step)
    ensures NobodyForgotten(Do(s, step))
  {
    var t := Do(s, step);
    forall i, j | 0 <= i < |t.workers| && 0 <= j < |t.workers| && HasWoken(t.workers[i], j) && t.workers[j].Blocked?
      ensures t.tokens[j] > 0
    {
      if HasWoken(s.workers[i], j) {
        assert s.workers[j].Blocked? || s.stop;
      }
    }
  }

  lemma {:induction false} NobodyForgottenRun(s: State, steps: seq<Step>)
    requires NobodyForgotten(s) && Possible(s, steps)
    ensures NobodyForgotten(Run(s, steps))
    ensures |Run(s, steps).workers| == |s.workers|
    ensures s.stop ==> Run(s, steps).stop
    decreases steps
  {
    if steps != [] {
      NobodyForgottenStep(s, steps[0]);
      NobodyForgottenRun(Do(s, steps[0]), steps[1..]);
    }
  }

  // ---------- what the poller returns for ----------

  /** The state after the first k steps of a run. */
  function At(s: State, steps: seq<Step>, k: nat): State
    requires Possible(s, steps) && k <= |steps|
    decreases k
  {
    if k == 0 then s else At(Do(s, steps[0]), steps[1..], k - 1)
  }

  lemma {:induction false} AtStep(s: State, steps: seq<Step>, k: nat)
    requires Possible(s, steps) && k < |steps|
    ensures Enabled(At(s, steps, k), steps[k]) && At(s, steps, k + 1) == Do(At(s, steps, k), steps[k])
    decreases k
  {
    hide Enabled, Do;
    if k > 0 {
      AtStep(Do(s, steps[0]), steps[1..], k - 1);
    }
  }

  /** Step m took a token of loop i, or brought it another event, and since then worker i made no step. */
  predicate ReturnedFor(steps: seq<Step>, k: nat, i: nat, m: nat)
    requires k <= |steps|
  {
    && m < k && (steps[m] == TakeToken(i) || steps[m] == OtherEvent(i))
    && forall l | m < l < k :: steps[l] != Check(i) && steps[l] != Again(i)
  }

  lemma OwnSteps(s: State, step: Step, i: nat)
    requires Enabled(s, step) && i < |Do(s, step).workers| && Do(s, step).workers[i].Handling?
    ensures i < |s.workers| && step != Check(i) && step != Again(i)
    ensures step == TakeToken(i) || step == OtherEvent(i) || s.workers[i].Handling?
  {
  }

  /** A worker runs handlers only because its loop had a token or another event. */
  lemma {:induction false} HandlersAreEarned(n: nat, steps: seq<Step>, k: nat, i: nat) returns (m: nat)
    requires Possible(Init(n), steps) && k <= |steps|
    requires i < |At(Init(n), steps, k).workers| && At(Init(n), steps, k).workers[i].Handling?
    ensures ReturnedFor(steps, k, i, m)
    decreases k
  {
    hide Enabled, Do;
    AtStep(Init(n), steps, k - 1);
    OwnSteps(At(Init(n), steps, k - 1), steps[k - 1], i);
    if steps[k - 1] == TakeToken(i) || steps[k - 1] == OtherEvent(i) {
      m := k - 1;
    } else {
      m := HandlersAreEarned(n, steps, k - 1, i);
    }
  }

  /** Between two tests of bf_() a worker was in the poller, and left it for a token or for another event. */
  lemma TestsAreEarned(n: nat, steps: seq<Step>, k: nat, i: nat) returns (m: nat)
    requires Possible(Init(n), steps) && k < |steps| && steps[k] == Again(i)
    ensures ReturnedFor(steps, k, i, m)
  {
    AtStep(Init(n), steps, k);
    m := HandlersAreEarned(n, steps, k, i);
  }

  /** A worker that finds bf_() true waits in the poller, and one that finds it false goes on to wake every loop. */
  lemma TestDecides(n: nat, steps: seq<Step>, k: nat, i: nat)
    requires Possible(Init(n), steps) && k < |steps| && steps[k] == Check(i)
    ensures var t := At(Init(n), steps, k + 1);
      i < |t.workers| && t.workers[i] == if exists l | 0 <= l < k :: steps[l].Stop? then Waking(0) else Blocked
  {
    StopIsSeen(n, steps, k);
    AtStep(Init(n), steps, k);
  }

  lemma {:induction false} StopIsSeen(n: nat, steps: seq<Step>, k: nat)
    requires Possible(Init(n), steps) && k <= |steps|
    ensures At(Init(n), steps, k).stop <==> exists l | 0 <= l < k :: steps[l].Stop?
    decreases k
  {
    if k > 0 {
      StopIsSeen(n, steps, k - 1);
      AtStep(Init(n), steps, k - 1);
    }
  }

  // ---------- after the stop every worker only moves forward ----------

  /** The number of own steps a worker can still make once bf_() is false. */
  function Left(w: Worker, n: nat): nat {
    match w
    case Blocked => n + 4
    case Handling => n + 3
    case Checking => n + 2
    case Waking(k) => if k < n then n - k + 1 else 1
    case Exited => 0
  }

  function AllLeft(ws: seq<Worker>, n: nat): nat {
    if ws == [] then 0 else Left(ws[0], n) + AllLeft(ws[1..], n)
  }

  predicate ByWorker(step: Step) {
    !step.Stop? && !step.Notify?
  }

  function WorkerSteps(steps: seq<Step>): nat {
    if steps == [] then 0 else (if ByWorker(steps[0]) then 1 else 0) + WorkerSteps(steps[1..])
  }

  lemma {:induction false} AllLeftUpdate(ws: seq<Worker>, n: nat, i: nat, w: Worker)
    requires i < |ws|
    ensures AllLeft(ws[i := w], n) == AllLeft(ws, n) - Left(ws[i], n) + Left(w, n)
  {
    if i > 0 {
      assert ws[i := w][1..] == ws[1..][i - 1 := w];
      AllLeftUpdate(ws[1..], n, i - 1, w);
    } else {
      assert ws[i := w][1..] == ws[1..];
    }
  }

  lemma LeftFalls(s: State, step: Step)
    requires s.stop && Enabled(s, step)
    ensures AllLeft(Do(s, step).workers, |s.tokens|) + (if ByWorker(step) then 1 else 0)
         <= AllLeft(s.workers, |s.tokens|)
    ensures Do(s, step).stop && |Do(s, step).tokens| == |s.tokens|
  {
    if ByWorker(step) {
      AllLeftUpdate(s.workers, |s.tokens|, step.i, Do(s, step).workers[step.i]);
    }
  }

  /** Once bf_() is false, the workers make a bounded number of further steps, whoever else notifies
      them and whichever other events arrive. */
  lemma {:induction false} ShutdownIsBounded(s: State, steps: seq<Step>)
    requires s.stop && Possible(s, steps)
    ensures WorkerSteps(steps) + AllLeft(Run(s, steps).workers, |s.tokens|) <= AllLeft(s.workers, |s.tokens|)
    decreases steps
  {
    if steps != [] {
      LeftFalls(s, steps[0]);
      ShutdownIsBounded(Do(s, steps[0]), steps[1..]);
    }
  }

  // ---------- where shutdown ends ----------

  /** No worker can move on by itself: only outside events are left. */
  ghost predicate Quiet(s: State) {
    forall step :: Enabled(s, step) ==> step.Stop? || step.Notify? || step.OtherEvent?
  }

  ghost predicate AllExited(s: State) {
    forall i | 0 <= i < |s.workers| :: s.workers[i].Exited?
  }

  ghost predicate AllBlocked(s: State) {
    |s.workers| == |s.tokens| && forall i | 0 <= i < |s.workers| :: s.workers[i].Blocked? && s.tokens[i] == 0
  }

  lemma QuietWorker(s: State, i: nat)
    requires |s.workers| == |s.tokens| && i < |s.workers| && Quiet(s)
    ensures s.workers[i].Exited? || (s.workers[i].Blocked? && s.tokens[i] == 0)
  {
    assert !Enabled(s, Check(i)) && !Enabled(s, TakeToken(i)) && !Enabled(s, Again(i));
    assert !Enabled(s, Wake(i)) && !Enabled(s, Leave(i));
  }

  /** One worker that exits takes all the others with it. */
  lemma OneExitMeansAll(n: nat, steps: seq<Step>)
    requires Possible(Init(n), steps)
    requires var s := Run(Init(n), steps);
      Quiet(s) && exists i | 0 <= i < |s.workers| :: s.workers[i].Exited?
    ensures AllExited(Run(Init(n), steps))
  {
    NobodyForgottenRun(Init(n), steps);
    var s := Run(Init(n), steps);
    var i :| 0 <= i < |s.workers| && s.workers[i].Exited?;
    forall j | 0 <= j < |s.workers| ensures s.workers[j].Exited? {
      QuietWorker(s, j);
      assert HasWoken(s.workers[i], j);
    }
  }

  /** Being blocked without a token is left only by somebody's notification or an outside event. */
  ghost predicate NoOutsideHelp(steps: seq<Step>) {
    forall i | 0 <= i < |steps| :: !steps[i].Notify? && !steps[i].OtherEvent?
  }

  lemma BlockedStays(s: State, steps: seq<Step>)
    requires AllBlocked(s) && s.stop && Possible(s, steps) && NoOutsideHelp(steps)
    ensures Run(s, steps) == s
    decreases steps
  {
    if steps != [] {
      assert steps[0].Stop?;
      assert Do(s, steps[0]) == s;
      BlockedStays(s, steps[1..]);
    }
  }

  /** Some worker is awake, or will be woken by a token it already has. */
  ghost predicate SomeoneMoves(s: State) {
    exists i | 0 <= i < |s.workers| && i < |s.tokens| :: !(s.workers[i].Blocked? && s.tokens[i] == 0)
  }

  lemma MovesStep(s: State, step: Step)
    requires NobodyForgotten(s) && s.stop && SomeoneMoves(s) && Enabled(s, step)
    ensures SomeoneMoves(Do(s, step))
  {
    var i :| 0 <= i < |s.workers| && !(s.workers[i].Blocked? && s.tokens[i] == 0);
    var t := Do(s, step);
    assert t.workers[i].Blocked? ==> s.workers[i].Blocked?;
    assert !(t.workers[i].Blocked? && t.tokens[i] == 0);
  }

  lemma {:induction false} MovesRun(s: State, steps: seq<Step>)
    requires NobodyForgotten(s) && s.stop && SomeoneMoves(s) && Possible(s, steps)
    ensures SomeoneMoves(Run(s, steps))
    decreases steps
  {
    if steps != [] {
      NobodyForgottenStep(s, steps[0]);
      MovesStep(s, steps[0]);
      MovesRun(Do(s, steps[0]), steps[1..]);
    }
  }

  lemma {:induction false} RunConcat(s: State, a: seq<Step>, b: seq<Step>)
    requires Possible(s, a) && Possible(Run(s, a), b)
    ensures Possible(s, a + b) && Run(s, a + b) == Run(Run(s, a), b)
    decreases a
  {
    if a == [] {
      assert a + b == b;
    } else {
      assert (a + b)[1..] == a[1..] + b;
      RunConcat(Do(s, a[0]), a[1..], b);
    }
  }

  /** Exactly when shutdown works: from the moment bf_() is false, and without outside help, a run that
      has come to rest has all workers exited if and only if some worker was awake (or had a token)
      at that moment. Otherwise all of them stay blocked. */
  lemma ShutdownIff(n: nat, before: seq<Step>, after: seq<Step>)
    requires Possible(Init(n), before) && Run(Init(n), before).stop
    requires Possible(Run(Init(n), before), after) && NoOutsideHelp(after)
    requires Quiet(Run(Run(Init(n), before), after))
    ensures AllExited(Run(Run(Init(n), before), after)) <==> SomeoneMoves(Run(Init(n), before))
  {
    NobodyForgottenRun(Init(n), before);
    var s := Run(Init(n), before);
    NobodyForgottenRun(s, after);
    var t := Run(s, after);
    if SomeoneMoves(s) {
      MovesRun(s, after);
      var i :| 0 <= i < |t.workers| && i < |t.tokens| && !(t.workers[i].Blocked? && t.tokens[i] == 0);
      QuietWorker(t, i);
      RunConcat(Init(n), before, after);
      OneExitMeansAll(n, before + after);
    } else {
      BlockedStays(s, after);
      assert !s.workers[0].Exited?;
    }
  }
}
