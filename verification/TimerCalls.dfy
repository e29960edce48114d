/** What the calls of the timer interface mean over whole runs (src/EventLoop.cpp, src/TimerMixin.cpp): which timers
    they make, which handlers they stop, and that no timer is forgotten. The theorems are about the steps of a run. */
module TimerCalls {
  import opened Wrappers
  import opened HeapSpec
  import opened Timestamps
  import opened Timers
  import opened TimerSafety
  import opened TimerDeadlines

  /** The state after the first i steps of a run. */
  function At(s: State, steps: seq<Step>, i: nat): State
    requires Possible(s, steps) && i <= |steps|
    decreases i
  {
    if i == 0 then s else At(Do(s, steps[0]), steps[1..], i - 1)
  }

  lemma {:induction false} AtStep(s: State, steps: seq<Step>, i: nat)
    requires Possible(s, steps) && i < |steps|
    ensures Enabled(At(s, steps, i), steps[i]) && At(s, steps, i + 1) == Do(At(s, steps, i), steps[i])
    decreases i
  {
    hide Enabled, Do;
    if i > 0 {
      AtStep(Do(s, steps[0]), steps[1..], i - 1);
    }
  }

  lemma {:induction false} CoreAt(steps: seq<Step>, i: nat)
    requires Possible(INIT, steps) && i <= |steps|
    ensures Core(At(INIT, steps, i))
  {
    hide Enabled, Do, Core;
    if i == 0 {
      assert Core(INIT) by { InitCore(); }
    } else {
      CoreAt(steps, i - 1);
      AtStep(INIT, steps, i - 1);
      CoreKeeps(At(INIT, steps, i - 1), steps[i - 1]);
    }
  }

  lemma InitCore()
    ensures Core(INIT)
  {
  }

  // ---------- cancellation ----------

  /** One of the first j steps cancels the timer id, which has been given out by then. */
  ghost predicate CancelledBy(steps: seq<Step>, j: nat, id: nat)
    requires Possible(INIT, steps) && j <= |steps|
  {
    exists i | 0 <= i < j :: steps[i].Call? && steps[i].cmd == CancelTimer(id) && id < At(INIT, steps, i).nextId
  }

  /** Nobody owns the timer, and nobody will. */
  predicate Gone(s: State, id: nat) {
    id < s.nextId && id !in s.owned
  }

  lemma GoneStep(s: State, step: Step, id: nat)
    requires Enabled(s, step)
    requires Gone(s, id) || (id < s.nextId && step.Call? && step.cmd == CancelTimer(id))
    ensures Gone(Do(s, step), id)
  {
    hide Insert, DeleteMin;
  }

  lemma {:induction false} CancelledIsGone(steps: seq<Step>, i: nat, j: nat, id: nat)
    requires Possible(INIT, steps) && i < j <= |steps|
    requires steps[i].Call? && steps[i].cmd == CancelTimer(id) && id < At(INIT, steps, i).nextId
    ensures Gone(At(INIT, steps, j), id)
    decreases j
  {
    hide Enabled, Do, Gone;
    AtStep(INIT, steps, j - 1);
    if i < j - 1 {
      CancelledIsGone(steps, i, j - 1, id);
    }
    GoneStep(At(INIT, steps, j - 1), steps[j - 1], id);
  }

  /** Once cancelled, a timer never starts a handler again: no later step of the run is one for it. */
  lemma CancelledNeverStarts(steps: seq<Step>, i: nat, j: nat, id: nat)
    requires Possible(INIT, steps) && i < j < |steps|
    requires steps[i].Call? && steps[i].cmd == CancelTimer(id) && id < At(INIT, steps, i).nextId
    ensures steps[j].RunRoot? ==> |At(INIT, steps, j).heap| >= 2 && At(INIT, steps, j).heap[1].id != id
  {
    hide Do;
    CancelledIsGone(steps, i, j, id);
    AtStep(INIT, steps, j);
  }

  lemma OwnedStays(s: State, step: Step, id: nat)
    requires Enabled(s, step) && id in s.owned
    ensures id in Do(s, step).owned || (step.Call? && step.cmd == CancelTimer(id))
  {
    hide Insert, DeleteMin;
  }

  lemma {:induction false} OwnedOrCancelled(steps: seq<Step>, k: nat)
    requires Possible(INIT, steps) && k <= |steps|
    ensures |At(INIT, steps, k).heap| >= 1
    ensures forall e | e in Elems(At(INIT, steps, k).heap) ::
      e.id in At(INIT, steps, k).owned || CancelledBy(steps, k, e.id)
  {
    hide Enabled, Do, Core, Inserted;
    if k > 0 {
      var s, step, t := At(INIT, steps, k - 1), steps[k - 1], At(INIT, steps, k);
      AtStep(INIT, steps, k - 1);
      CoreAt(steps, k - 1);
      PendingIds(s);
      OwnedOrCancelled(steps, k - 1);
      StepHeapEffect(s, step);
      forall e | e in Elems(t.heap) ensures e.id in t.owned || CancelledBy(steps, k, e.id) {
        if e in Elems(s.heap) {
          if e.id in s.owned {
            OwnedStays(s, step, e.id);
          }
        } else {
          EnteredTimeout(s, step);
        }
      }
    }
  }

  /** And only cancelled timers are skipped: a due timer that no step has cancelled is not. */
  lemma SkippedWasCancelled(steps: seq<Step>, j: nat)
    requires Possible(INIT, steps) && j < |steps| && steps[j].SkipRoot?
    ensures |At(INIT, steps, j).heap| >= 2 && CancelledBy(steps, j, At(INIT, steps, j).heap[1].id)
  {
    hide Do;
    AtStep(INIT, steps, j);
    OwnedOrCancelled(steps, j);
    RootInElems(At(INIT, steps, j));
  }

  // ---------- what is started was asked for ----------

  /** The timer that a command makes when the clock reads `clock`. */
  predicate Asks(cmd: Command, clock: Timestamp, timeout: Timestamp, kind: Kind) {
    match cmd
    case RunAt(at) => timeout == at && kind == OneShot
    case RunAfter(delay) => timeout == Add(delay, clock) && kind == OneShot
    case RunEvery(interval) => timeout == interval && kind == Every(interval)
    case CancelTimer(_) => false
    case IdsTaken(_) => false
  }

  /** Step i makes the timer id, of the given kind and first timeout. */
  predicate MadeBy(steps: seq<Step>, i: nat, id: nat, timeout: Timestamp, kind: Kind)
    requires Possible(INIT, steps) && i < |steps|
  {
    steps[i].Call? && Asks(steps[i].cmd, steps[i].clock, timeout, kind) && id == At(INIT, steps, i).nextId
  }

  /** Step m starts the handler of the timer id. */
  predicate StartsTimer(steps: seq<Step>, m: nat, id: nat)
    requires Possible(INIT, steps) && m < |steps|
  {
    steps[m].RunRoot? && |At(INIT, steps, m).heap| >= 2 && At(INIT, steps, m).heap[1].id == id
  }

  /** The timeout is the one that a step asked for, or, of a periodic timer, one interval behind one of its starts. */
  ghost predicate Justified(steps: seq<Step>, k: nat, id: nat, timeout: Timestamp, kind: Kind)
    requires Possible(INIT, steps) && k <= |steps|
  {
    exists i, first | 0 <= i < k && MadeBy(steps, i, id, first, kind) ::
      || timeout == first
      || (kind.Every? && exists m | i < m < k && StartsTimer(steps, m, id) ::
            timeout == Add(kind.interval, steps[m].clock))
  }

  lemma JustifiedStays(steps: seq<Step>, k: nat, id: nat, timeout: Timestamp, kind: Kind)
    requires Possible(INIT, steps) && k < |steps| && Justified(steps, k, id, timeout, kind)
    ensures Justified(steps, k + 1, id, timeout, kind)
  {
    hide MadeBy, StartsTimer;
  }

  lemma CallMakes(s: State, step: Step)
    requires Enabled(s, step) && step.Call? && Inserted(s, step).Some?
    ensures var t, x := Do(s, step), Inserted(s, step).value;
      x.id == s.nextId && x.id in t.owned && Asks(step.cmd, step.clock, x.timeout, t.owned[x.id].kind)
  {
    hide Insert;
  }

  lemma RootReenters(s: State, step: Step)
    requires Enabled(s, step) && step.RunRoot? && Inserted(s, step).Some?
    ensures var t, x := Do(s, step), Inserted(s, step).value;
      && |s.heap| >= 2 && x.id == s.heap[1].id && x.id in s.owned && x.id in t.owned
      && t.owned[x.id].kind == s.owned[x.id].kind && s.owned[x.id].kind.Every?
      && x.timeout == Add(s.owned[x.id].kind.interval, step.clock)
  {
    hide Insert;
  }

  lemma EnteredIsJustified(steps: seq<Step>, k: nat)
    requires Possible(INIT, steps) && k < |steps| && Enabled(At(INIT, steps, k), steps[k])
    requires At(INIT, steps, k + 1) == Do(At(INIT, steps, k), steps[k]) && Inserted(At(INIT, steps, k), steps[k]).Some?
    requires steps[k].RunRoot? ==>
      var s := At(INIT, steps, k);
      |s.heap| >= 2 && s.heap[1].id in s.owned
      && Justified(steps, k, s.heap[1].id, s.heap[1].timeout, s.owned[s.heap[1].id].kind)
    ensures var t, x := At(INIT, steps, k + 1), Inserted(At(INIT, steps, k), steps[k]).value;
      x.id in t.owned && Justified(steps, k + 1, x.id, x.timeout, t.owned[x.id].kind)
  {
    hide Do, Enabled, Asks, Inserted;
    var s, step, t := At(INIT, steps, k), steps[k], At(INIT, steps, k + 1);
    var x := Inserted(s, step).value;
    InsertedWhen(s, step);
    if step.Call? {
      CallMakes(s, step);
      assert MadeBy(steps, k, x.id, x.timeout, t.owned[x.id].kind);
    } else {
      RootReenters(s, step);
      var kind := s.owned[x.id].kind;
      var i, first :| 0 <= i < k && MadeBy(steps, i, x.id, first, kind);
      assert MadeBy(steps, i, x.id, first, kind) && StartsTimer(steps, k, x.id);
    }
  }

  lemma InsertedWhen(s: State, step: Step)
    requires Enabled(s, step) && Inserted(s, step).Some?
    ensures step.Call? || step.RunRoot?
    ensures step.RunRoot? ==> |s.heap| >= 2 && s.heap[1].id in s.owned
  {
  }

  /** Every pending entry of an owned timer has its timeout rightly. */
  ghost predicate AllJustified(steps: seq<Step>, k: nat)
    requires Possible(INIT, steps) && k <= |steps|
  {
    var s := At(INIT, steps, k);
    && |s.heap| >= 1
    && forall e | e in Elems(s.heap) && e.id in s.owned :: Justified(steps, k, e.id, e.timeout, s.owned[e.id].kind)
  }

  lemma JustifiedStep(steps: seq<Step>, k: nat, e: Entry)
    requires Possible(INIT, steps) && k < |steps| && AllJustified(steps, k)
    requires var t := At(INIT, steps, k + 1); |t.heap| >= 1 && e in Elems(t.heap) && e.id in t.owned
    ensures Justified(steps, k + 1, e.id, e.timeout, At(INIT, steps, k + 1).owned[e.id].kind)
  {
    hide Enabled, Do, Core, Inserted, Justified;
    var s, step := At(INIT, steps, k), steps[k];
    AtStep(INIT, steps, k);
    CoreAt(steps, k);
    PendingIds(s);
    StepHeapEffect(s, step);
    if e in Elems(s.heap) {
      KindsStay(s, step, e.id);
      JustifiedStays(steps, k, e.id, e.timeout, s.owned[e.id].kind);
    } else {
      InsertedWhen(s, step);
      if step.RunRoot? {
        RootInElems(s);
      }
      EnteredIsJustified(steps, k);
    }
  }

  lemma {:induction false} PendingIsJustified(steps: seq<Step>, k: nat)
    requires Possible(INIT, steps) && k <= |steps|
    ensures AllJustified(steps, k)
  {
    hide Enabled, Do, Justified;
    CoreAt(steps, k);
    if k > 0 {
      PendingIsJustified(steps, k - 1);
      var t := At(INIT, steps, k);
      forall e | e in Elems(t.heap) && e.id in t.owned
        ensures Justified(steps, k, e.id, e.timeout, t.owned[e.id].kind)
      {
        JustifiedStep(steps, k - 1, e);
      }
    }
  }

  /** A sweep is under way that step f began, reading the clock as `now`. */
  predicate SweptFrom(steps: seq<Step>, j: nat, f: nat, now: Timestamp)
    requires j <= |steps|
  {
    f < j && steps[f] == Fire(now) && forall m | f < m < j :: !steps[m].Fire? && !steps[m].Finish?
  }

  function Now(s: State): Option<Timestamp> {
    if s.phase.Idle? then None else Some(s.phase.now)
  }

  lemma NowStep(s: State, step: Step)
    requires Enabled(s, step) && Now(Do(s, step)).Some?
    ensures step == Fire(Now(Do(s, step)).value)
         || (!step.Fire? && !step.Finish? && Now(s) == Now(Do(s, step)))
  {
    hide Insert, DeleteMin;
  }

  lemma {:induction false} SweepHasClock(steps: seq<Step>, j: nat) returns (f: nat)
    requires Possible(INIT, steps) && j <= |steps| && Now(At(INIT, steps, j)).Some?
    ensures SweptFrom(steps, j, f, Now(At(INIT, steps, j)).value)
    decreases j
  {
    hide Enabled, Do;
    AtStep(INIT, steps, j - 1);
    NowStep(At(INIT, steps, j - 1), steps[j - 1]);
    if steps[j - 1].Fire? {
      f := j - 1;
    } else {
      f := SweepHasClock(steps, j - 1);
    }
  }

  lemma StartEvent(s: State, step: Step)
    requires Enabled(s, step) && step.RunRoot?
    ensures |s.heap| >= 2 && s.heap[1].id in s.owned && Now(s).Some? && !Now(s).value.Less(s.heap[1].timeout)
    ensures var e := s.heap[1];
      Do(s, step).log == s.log + [Started(e.id, e.timeout, s.owned[e.id].kind, Now(s).value, step.clock)]
  {
    hide Insert;
  }

  /** Every start of a handler is for a timer that a call has made, with the kind and the timeout the call asked for
      or, from its second start on, a periodic timer's interval behind an earlier start; and it happens in a sweep
      that began at a clock reading not before that timeout. The log records exactly this. */
  lemma StartedWasAsked(steps: seq<Step>, j: nat)
    requires Possible(INIT, steps) && j < |steps| && steps[j].RunRoot?
    ensures var s, t := At(INIT, steps, j), At(INIT, steps, j + 1);
      && |t.log| == |s.log| + 1 && t.log[..|s.log|] == s.log
      && var v := t.log[|s.log|];
         && v.Started? && StartsTimer(steps, j, v.id) && v.timeout == s.heap[1].timeout && v.clock == steps[j].clock
         && Justified(steps, j, v.id, v.timeout, v.kind)
         && !v.now.Less(v.timeout) && exists f :: SweptFrom(steps, j, f, v.now)
  {
    hide Enabled, Do, Justified, SweptFrom;
    var s := At(INIT, steps, j);
    AtStep(INIT, steps, j);
    StartEvent(s, steps[j]);
    RootInElems(s);
    PendingIsJustified(steps, j);
    var f := SweepHasClock(steps, j);
  }

  // ---------- the log is what the steps did ----------

  /** The event is what the step did in state s. */
  ghost predicate Records(s: State, step: Step, v: Event) {
    match v
    case Created(id, timeout, kind) => step.Call? && Asks(step.cmd, step.clock, timeout, kind) && id == s.nextId
    case Cancelled(id) => step.Call? && step.cmd == CancelTimer(id) && id in s.owned
    case Started(id, timeout, _, _, clock) =>
      step == RunRoot(clock) && |s.heap| >= 2 && s.heap[1] == Entry(id, timeout)
  }

  lemma StepRecorded(s: State, step: Step)
    requires Enabled(s, step)
    ensures var t := Do(s, step);
      if (step.Call? && (step.cmd.RunAt? || step.cmd.RunAfter? || step.cmd.RunEvery?)) || step.RunRoot?
         || (step.Call? && step.cmd.CancelTimer? && step.cmd.id in s.owned)
      then |t.log| == |s.log| + 1 && t.log[..|s.log|] == s.log && Records(s, step, t.log[|s.log|])
      else t.log == s.log
  {
    hide Insert, DeleteMin;
  }

  /** The log of a run is the record of its steps: each event of one of them, in their order. */
  lemma {:induction false} LogRecordsSteps(steps: seq<Step>, k: nat) returns (who: seq<nat>)
    requires Possible(INIT, steps) && k <= |steps|
    ensures var s := At(INIT, steps, k);
      && |who| == |s.log|
      && (forall n | 0 <= n < |who| :: who[n] < k && Records(At(INIT, steps, who[n]), steps[who[n]], s.log[n]))
      && (forall n, m | 0 <= n < m < |who| :: who[n] < who[m])
    ensures forall i, timeout, kind | 0 <= i < k && MadeBy(steps, i, At(INIT, steps, i).nextId, timeout, kind) ::
      Created(At(INIT, steps, i).nextId, timeout, kind) in At(INIT, steps, k).log
    decreases k
  {
    hide Enabled, Do, Asks, Records;
    if k == 0 {
      who := [];
    } else {
      var s, t := At(INIT, steps, k - 1), At(INIT, steps, k);
      who := LogRecordsSteps(steps, k - 1);
      AtStep(INIT, steps, k - 1);
      StepRecorded(s, steps[k - 1]);
      if |t.log| > |s.log| {
        who := who + [k - 1];
      }
      forall i, timeout, kind | 0 <= i < k && MadeBy(steps, i, At(INIT, steps, i).nextId, timeout, kind)
        ensures Created(At(INIT, steps, i).nextId, timeout, kind) in t.log
      {
        if i == k - 1 {
          AsksOneOf(steps[i].cmd, steps[i].clock, timeout, kind);
          MadeIsRecorded(s, steps[i], t.log[|s.log|], timeout, kind);
        }
      }
    }
  }

  lemma AsksOneOf(cmd: Command, clock: Timestamp, timeout: Timestamp, kind: Kind)
    requires Asks(cmd, clock, timeout, kind)
    ensures cmd.RunAt? || cmd.RunAfter? || cmd.RunEvery?
  {
  }

  lemma MadeIsRecorded(s: State, step: Step, v: Event, timeout: Timestamp, kind: Kind)
    requires Records(s, step, v) && step.Call? && Asks(step.cmd, step.clock, timeout, kind)
    ensures v == Created(s.nextId, timeout, kind)
  {
  }

  // ---------- no timer is forgotten ----------

  lemma RestAfterCall(s: State, ins: Option<Entry>, t: State)
    requires |s.heap| >= 1 && |t.heap| >= 1 && t.phase == s.phase
    requires Elems(t.heap) == Elems(s.heap) + if ins.Some? then multiset{ins.value} else multiset{}
    requires s.phase.Running? ==> s.phase.entry in Elems(s.heap)
    ensures forall e | e in Rest(s) :: e in Rest(t)
    ensures ins.Some? ==> ins.value in Rest(t)
  {
  }

  lemma RestAfterRoot(s: State, ins: Option<Entry>, t: State)
    requires |s.heap| >= 2 && |t.heap| >= 1 && s.phase.Sweeping? && s.heap[1] in Elems(s.heap)
    requires t.phase == Running(s.phase.now, s.heap[1]) || (!t.phase.Running? && ins.None?)
    requires Elems(t.heap) ==
      if t.phase.Running? then Elems(s.heap) + if ins.Some? then multiset{ins.value} else multiset{}
      else Elems(s.heap) - multiset{s.heap[1]}
    ensures forall e | e in Rest(s) :: e in Rest(t) || e == s.heap[1]
    ensures ins.Some? ==> ins.value in Rest(t)
  {
  }

  /** The entries that stay pending: all but the root that starts or is skipped. */
  lemma RestStays(s: State, step: Step)
    requires Core(s) && Enabled(s, step)
    ensures |Do(s, step).heap| >= 1
    ensures forall e | e in Rest(s) ::
      e in Rest(Do(s, step)) || ((step.RunRoot? || step.SkipRoot?) && |s.heap| >= 2 && e == s.heap[1])
    ensures Inserted(s, step).Some? ==> Inserted(s, step).value in Rest(Do(s, step))
  {
    hide Do, Inserted, OneEntryPerId, EntryAgrees, EventAgrees, Rest, ArmedEffect;
    var ins, t := Inserted(s, step), Do(s, step);
    StepEffect(s, step);
    if |s.heap| >= 2 {
      RootInElems(s);
    }
    if step.RunRoot? || step.SkipRoot? {
      RestAfterRoot(s, ins, t);
    } else if step.Return? {
      RestAfterReturn(s, t);
    } else if step.Call? {
      RestAfterCall(s, ins, t);
    } else {
      RestAfterReturn(s, t);
    }
  }

  lemma RestAfterReturn(s: State, t: State)
    requires |s.heap| >= 1 && |t.heap| >= 1 && !t.phase.Running?
    requires if s.phase.Running? then |s.heap| >= 2 && Elems(t.heap) == Elems(s.heap) - multiset{s.phase.entry}
             else Elems(t.heap) == Elems(s.heap)
    ensures Rest(t) == Rest(s)
  {
  }

  /** The timer is still there: owned, and pending under its id. */
  ghost predicate Alive(s: State, id: nat, timeout: Timestamp, kind: Kind) {
    && |s.heap| >= 1 && id < s.nextId && id in s.owned && s.owned[id].kind == kind
    && if kind.OneShot? then Entry(id, timeout) in Rest(s) else exists e | e in Rest(s) :: e.id == id
  }

  lemma AliveStep(s: State, step: Step, id: nat, timeout: Timestamp, kind: Kind)
    requires Core(s) && Enabled(s, step) && Alive(s, id, timeout, kind)
    requires !(step.Call? && step.cmd == CancelTimer(id))
    requires kind.OneShot? ==> !(step.RunRoot? && s.heap[1].id == id)
    ensures Alive(Do(s, step), id, timeout, kind)
  {
    hide Do, Inserted, Core, Rest;
    RestStays(s, step);
    OwnedStays(s, step, id);
    IdsGrow(s, step);
    KindsStay(s, step, id);
    if kind.Every? {
      var e :| e in Rest(s) && e.id == id;
      if e !in Rest(Do(s, step)) {
        if step.SkipRoot? {
          SkipNeedsExpired(s, step);
        }
        PeriodicReenters(s, step);
        RootReenters(s, step);
      }
    } else if step.SkipRoot? {
      SkipNeedsExpired(s, step);
    }
  }

  lemma IdsGrow(s: State, step: Step)
    requires Enabled(s, step)
    ensures Do(s, step).nextId >= s.nextId
  {
    hide Insert, DeleteMin;
  }

  lemma SkipNeedsExpired(s: State, step: Step)
    requires Enabled(s, step) && step.SkipRoot?
    ensures |s.heap| >= 2 && s.heap[1].id !in s.owned
  {
  }

  lemma PeriodicReenters(s: State, step: Step)
    requires Enabled(s, step) && step.RunRoot?
    ensures |s.heap| >= 2 && s.heap[1].id in s.owned
    ensures s.owned[s.heap[1].id].kind.Every? ==> Inserted(s, step).Some?
  {
  }

  lemma MadeIsAlive(s: State, step: Step, timeout: Timestamp, kind: Kind)
    requires Core(s) && Enabled(s, step) && step.Call? && Asks(step.cmd, step.clock, timeout, kind)
    ensures Alive(Do(s, step), s.nextId, timeout, kind)
  {
    hide Do, Core, Rest;
    RestStays(s, step);
    CallMakes(s, step);
    NextIdTaken(s, step);
  }

  lemma NextIdTaken(s: State, step: Step)
    requires Enabled(s, step) && step.Call? && Inserted(s, step).Some?
    ensures Do(s, step).nextId == s.nextId + 1
  {
    hide Insert;
  }

  /** A timer that is made is not forgotten: until it is cancelled, a one-shot is pending with its timeout as long as
      its handler has not started, and a periodic one is pending at all times. */
  lemma {:induction false} NeverForgotten(steps: seq<Step>, i: nat, j: nat, timeout: Timestamp, kind: Kind)
    requires Possible(INIT, steps) && i < j <= |steps|
    requires var id := At(INIT, steps, i).nextId;
      && MadeBy(steps, i, id, timeout, kind)
      && (forall m | i < m < j :: !(steps[m].Call? && steps[m].cmd == CancelTimer(id)))
      && (kind.OneShot? ==> forall m | i < m < j :: !StartsTimer(steps, m, id))
    ensures Alive(At(INIT, steps, j), At(INIT, steps, i).nextId, timeout, kind)
    decreases j
  {
    hide Enabled, Do, Asks, Alive, Core;
    var id := At(INIT, steps, i).nextId;
    var s := At(INIT, steps, j - 1);
    AtStep(INIT, steps, j - 1);
    CoreAt(steps, j - 1);
    if i == j - 1 {
      MadeIsAlive(s, steps[i], timeout, kind);
    } else {
      NeverForgotten(steps, i, j - 1, timeout, kind);
      RunHasRoot(s, steps[j - 1]);
      assert kind.OneShot? ==> !StartsTimer(steps, j - 1, id);
      AliveStep(s, steps[j - 1], id, timeout, kind);
    }
  }

  lemma RunHasRoot(s: State, step: Step)
    requires Enabled(s, step)
    ensures step.RunRoot? ==> |s.heap| >= 2
  {
  }
}
