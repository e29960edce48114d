/** Liveness of the timer queue: what the timerfd is armed for, and when sweeps end. */
module TimerDeadlines {
  import opened Wrappers
  import opened HeapSpec
  import opened Timestamps
  import opened Timers
  import opened TimerSafety

  /** The entry a step adds to the heap, if any. */
  function Inserted(s: State, step: Step): Option<Entry>
    requires Enabled(s, step)
  {
    match step
    case Call(RunAt(timeout), _) => Some(Entry(s.nextId, timeout))
    case Call(RunAfter(delay), clock) => Some(Entry(s.nextId, Add(delay, clock)))
    case Call(RunEvery(interval), _) => Some(Entry(s.nextId, interval))
    case RunRoot(clock) =>
      var e := s.heap[1];
      var kind := s.owned[e.id].kind;
      if kind.Every? then Some(Entry(e.id, Add(kind.interval, clock))) else None
    case _ => None
  }

  // What a step does, without the layout of the heap; `ins` is the entry it adds.

  ghost predicate HeapEffect(s: State, step: Step, ins: Option<Entry>, t: State) {
    && |s.heap| >= 1 && |t.heap| >= 1
    && (ins.Some? ==>
          && |t.heap| == |s.heap| + 1
          && Elems(t.heap) == Elems(s.heap) + multiset{ins.value}
          && (step.Call? ==> ins.value.id == s.nextId)
          && (step.Call? || step.RunRoot?))
    && (step.SkipRoot? || step.Return? ==>
          && |s.heap| >= 2 && |t.heap| == |s.heap| - 1
          && Elems(t.heap) == Elems(s.heap) - multiset{s.heap[1]})
    && (ins.None? && !step.SkipRoot? && !step.Return? ==> t.heap == s.heap)
  }

  predicate PhaseEffect(s: State, step: Step, t: State) {
    match step
    case Call(_, _) => t.phase == s.phase && !s.phase.Sweeping?
    case Fire(clock) =>
      s.phase.Idle? && s.armed.Some? && t.phase == if |s.heap| == 1 then Idle else Sweeping(clock)
    case RunRoot(_) =>
      s.phase.Sweeping? && RootDue(s, s.phase.now) && t.phase == Running(s.phase.now, s.heap[1])
    case SkipRoot => s.phase.Sweeping? && RootDue(s, s.phase.now) && t.phase == s.phase
    case Return => s.phase.Running? && t.phase == Sweeping(s.phase.now)
    case Finish => s.phase.Sweeping? && !RootDue(s, s.phase.now) && t.phase == Idle
  }

  predicate ArmedEffect(s: State, step: Step, ins: Option<Entry>, t: State)
    requires |s.heap| >= 1
  {
    t.armed ==
      if ins.Some? && |s.heap| == 1 then UpdateTimerfd(s.armed, ins.value.timeout)
      else if step.Fire? then None
      else if step.Finish? && |s.heap| >= 2 then UpdateTimerfd(s.armed, s.heap[1].timeout)
      else s.armed
  }

  /** An insertion by Call or RunRoot is InsertEntry on a state with the same heap, deadline and phase. */
  lemma InsertedBy(s: State, step: Step) returns (u: State)
    requires Enabled(s, step) && Inserted(s, step).Some?
    ensures u.heap == s.heap && u.armed == s.armed
    ensures Do(s, step) == InsertEntry(u, Inserted(s, step).value)
    ensures step.Call? || step.RunRoot?
    ensures step.Call? ==> Inserted(s, step).value.id == s.nextId && u.phase == s.phase
    ensures step.RunRoot? ==>
      Inserted(s, step).value.id == s.heap[1].id && u.phase == Running(s.phase.now, s.heap[1])
  {
    match step
    case Call(cmd, clock) =>
      u := Registered(s.(clock := clock), Inserted(s, step).value.timeout,
                      if cmd.RunEvery? then Every(cmd.interval) else OneShot);
    case RunRoot(clock) =>
      var e := s.heap[1];
      var kind := s.owned[e.id].kind;
      u := s.(clock := clock, phase := Running(s.phase.now, e),
              log := s.log + [Started(e.id, e.timeout, kind, s.phase.now, clock)],
              owned := s.owned[e.id := Timer(Inserted(s, step).value.timeout, kind)]);
  }

  lemma StepHeapEffect(s: State, step: Step)
    requires Enabled(s, step)
    ensures HeapEffect(s, step, Inserted(s, step), Do(s, step))
  {
    if Inserted(s, step).Some? {
      var u := InsertedBy(s, step);
      InsertAdds(EntryLess, u.heap, Inserted(s, step).value);
    } else if step.SkipRoot? || step.Return? {
      EraseRemoves(EntryLess, s.heap, 1);
    } else {
      assert Do(s, step).heap == s.heap;
    }
  }

  lemma StepPhaseEffect(s: State, step: Step)
    requires Enabled(s, step)
    ensures PhaseEffect(s, step, Do(s, step)) && ArmedEffect(s, step, Inserted(s, step), Do(s, step))
  {
    if Inserted(s, step).Some? {
      var u := InsertedBy(s, step);
    }
  }

  ghost predicate Effect(s: State, step: Step, ins: Option<Entry>, t: State) {
    HeapEffect(s, step, ins, t) && PhaseEffect(s, step, t) && ArmedEffect(s, step, ins, t)
  }

  lemma StepEffect(s: State, step: Step)
    requires Enabled(s, step)
    ensures Effect(s, step, Inserted(s, step), Do(s, step))
  {
    StepHeapEffect(s, step);
    StepPhaseEffect(s, step);
  }

  /** An old timer that is owned after a step has the kind it had. */
  lemma KindsStay(s: State, step: Step, id: nat)
    requires Enabled(s, step) && id in Do(s, step).owned && id < s.nextId
    ensures id in s.owned && Do(s, step).owned[id].kind == s.owned[id].kind
  {
    hide Insert, DeleteMin;
  }

  /** A new periodic timer is due when its interval says, one that re-enters itself an interval from now. */
  lemma EnteredTimeout(s: State, step: Step)
    requires Enabled(s, step) && Inserted(s, step).Some?
    ensures var t, x := Do(s, step), Inserted(s, step).value;
      x.id in t.owned &&
      (t.owned[x.id].kind.Every? ==>
         x.timeout == if step.RunRoot? then Add(t.owned[x.id].kind.interval, t.clock)
                      else t.owned[x.id].kind.interval)
  {
    hide Insert;
  }

  lemma PendingIds(s: State)
    requires Core(s)
    ensures forall e | e in Elems(s.heap) :: e.id < s.nextId
  {
    forall e | e in Elems(s.heap) ensures e.id < s.nextId {
      assert e in Rest(s) ==> EntryAgrees(s, e);
    }
  }

  // ---------- no timer stranded ----------

  /** A deadline is only ever armed between sweeps and for a non-empty queue. */
  ghost predicate ArmedOnlyIdle(s: State) {
    && |s.heap| >= 1
    && (s.armed.Some? ==> s.phase.Idle? && |s.heap| >= 2)
    && (s.phase.Running? ==> |s.heap| >= 2)
  }

  lemma ArmedOnlyIdleStep(s: State, step: Step, ins: Option<Entry>, t: State)
    requires ArmedOnlyIdle(s) && Effect(s, step, ins, t)
    ensures ArmedOnlyIdle(t)
  {
  }

  lemma {:induction false} ArmedOnlyIdleRun(s: State, steps: seq<Step>)
    requires ArmedOnlyIdle(s) && Possible(s, steps)
    ensures ArmedOnlyIdle(Run(s, steps))
    decreases steps
  {
    if steps != [] {
      StepEffect(s, steps[0]);
      ArmedOnlyIdleStep(s, steps[0], Inserted(s, steps[0]), Do(s, steps[0]));
      ArmedOnlyIdleRun(Do(s, steps[0]), steps[1..]);
    }
  }

  ghost predicate AllArmable(s: State, steps: seq<Step>)
    requires Possible(s, steps)
    decreases steps
  {
    steps == [] ||
    ((Inserted(s, steps[0]).Some? ==> Armable(Inserted(s, steps[0]).value.timeout))
     && AllArmable(Do(s, steps[0]), steps[1..]))
  }

  /** Between sweeps, a non-empty queue has a deadline armed, and it is the timeout of a pending entry. */
  ghost predicate Watched(s: State)
    requires |s.heap| >= 1
  {
    s.phase.Idle? && |s.heap| >= 2 ==>
      s.armed.Some? && exists e | e in Elems(s.heap) :: e.timeout == s.armed.value
  }

  ghost predicate WatchInv(s: State) {
    && ArmedOnlyIdle(s)
    && (forall e | e in Elems(s.heap) :: Armable(e.timeout))
    && Watched(s)
  }

  lemma WatchStep(s: State, step: Step, ins: Option<Entry>, t: State)
    requires WatchInv(s) && Effect(s, step, ins, t)
    requires ins.Some? ==> Armable(ins.value.timeout)
    ensures WatchInv(t)
  {
    ArmedOnlyIdleStep(s, step, ins, t);
    forall e | e in Elems(t.heap) ensures Armable(e.timeout) {
      assert e in Elems(s.heap) || ins == Some(e);
    }
    if t.phase.Idle? && |t.heap| >= 2 {
      if step.Finish? {
        RootInElems(s);
      } else if |s.heap| == 1 {
        assert ins.value in Elems(t.heap);
      } else {
        var w :| w in Elems(s.heap) && w.timeout == s.armed.value;
        assert w in Elems(t.heap);
      }
    }
  }

  lemma {:induction false} WatchRun(s: State, steps: seq<Step>)
    requires WatchInv(s) && Possible(s, steps) && AllArmable(s, steps)
    ensures WatchInv(Run(s, steps))
    decreases steps
  {
    if steps != [] {
      StepEffect(s, steps[0]);
      WatchStep(s, steps[0], Inserted(s, steps[0]), Do(s, steps[0]));
      WatchRun(Do(s, steps[0]), steps[1..]);
    }
  }

  /** No timer is stranded in any run whose timeouts the timerfd accepts. */
  lemma NoTimerStranded(steps: seq<Step>)
    requires Possible(INIT, steps) && AllArmable(INIT, steps)
    ensures |Run(INIT, steps).heap| >= 1 && Watched(Run(INIT, steps))
  {
    assert WatchInv(INIT);
    WatchRun(INIT, steps);
  }

  /** The other way round: an insertion into the idle empty queue arms exactly the armable timeouts, ... */
  lemma FirstInsertArmsIff(steps: seq<Step>, step: Step)
    requires Possible(INIT, steps) && Enabled(Run(INIT, steps), step)
    requires var s := Run(INIT, steps);
      s.phase.Idle? && |s.heap| == 1 && Inserted(s, step).Some?
    ensures var s := Run(INIT, steps);
      var t := Inserted(s, step).value.timeout;
      Do(s, step).armed ==
        if t.sec >= 0 && 0 <= t.usec <= 999999 && (t.sec > 0 || t.usec > 0) then Some(t) else None
  {
    ArmedOnlyIdleRun(INIT, steps);
    StepEffect(Run(INIT, steps), step);
  }

  /** ... the end of a sweep arms exactly an armable root, ... */
  lemma FinishArmsIff(steps: seq<Step>)
    requires Possible(INIT, steps) && Enabled(Run(INIT, steps), Finish)
    requires |Run(INIT, steps).heap| >= 2
    ensures var s := Run(INIT, steps);
      var t := s.heap[1].timeout;
      Do(s, Finish).armed ==
        if t.sec >= 0 && 0 <= t.usec <= 999999 && (t.sec > 0 || t.usec > 0) then Some(t) else None
  {
    ArmedOnlyIdleRun(INIT, steps);
  }

  /** ... and once a non-empty idle queue is not armed, it never is again and no handler ever starts:
      later insertions find the queue non-empty and leave the timerfd alone. */
  lemma {:induction false} StrandedForever(s: State, steps: seq<Step>)
    requires |s.heap| >= 2 && s.phase.Idle? && s.armed.None?
    requires Possible(s, steps)
    ensures var t := Run(s, steps);
      && |t.heap| >= 2 && t.phase.Idle? && t.armed.None?
      && s.log <= t.log
      && forall j | |s.log| <= j < |t.log| :: !t.log[j].Started?
    decreases steps
  {
    if steps != [] {
      StepEffect(s, steps[0]);
      StrandedForever(Do(s, steps[0]), steps[1..]);
    }
  }

  // ---------- sweeps end ----------

  /** The entries a sweep started at `now` still has to remove. */
  ghost function Due(s: State, now: Timestamp): set<Entry>
    requires |s.heap| >= 1
  {
    DueIn(Elems(s.heap), now)
  }

  ghost function DueIn(m: multiset<Entry>, now: Timestamp): set<Entry> {
    set e | e in m && !now.Less(e.timeout)
  }

  lemma DueInLater(m: multiset<Entry>, e: Entry, now: Timestamp)
    requires now.Less(e.timeout)
    ensures DueIn(m + multiset{e}, now) == DueIn(m, now)
  {
  }

  function Removals(steps: seq<Step>): nat {
    if steps == [] then 0
    else (if steps[0].SkipRoot? || steps[0].Return? then 1 else 0) + Removals(steps[1..])
  }

  /** The steps stay within one sweep and add only entries that are due later. */
  ghost predicate QuietSweep(s: State, steps: seq<Step>)
    requires Possible(s, steps)
    decreases steps
  {
    !s.phase.Idle? &&
    (steps == [] ||
     ((Inserted(s, steps[0]).Some? ==> s.phase.now.Less(Inserted(s, steps[0]).value.timeout))
      && QuietSweep(Do(s, steps[0]), steps[1..])))
  }

  /** One entry per id, and the running entry is the root. */
  ghost predicate Slots(s: State) {
    && |s.heap| >= 1
    && OneEntryPerId(Rest(s))
    && (s.phase.Running? ==> |s.heap| >= 2 && s.heap[1] == s.phase.entry)
  }

  /** The running entry is due and has no second copy. */
  ghost predicate RunningDue(s: State)
    requires |s.heap| >= 1
  {
    s.phase.Running? ==> !s.phase.now.Less(s.phase.entry.timeout) && s.phase.entry !in Rest(s)
  }

  /** The root occurs once. */
  lemma RootIsSingle(s: State)
    requires Slots(s) && |s.heap| >= 2 && RunningDue(s) && !s.phase.Idle?
    ensures s.heap[1] in Elems(s.heap) && s.heap[1] !in Elems(s.heap) - multiset{s.heap[1]}
  {
    RootInElems(s);
    if s.phase.Sweeping? {
      assert Rest(s)[s.heap[1]] == 1;
    }
  }

  lemma QuietRemoval(s: State, step: Step, t: State)
    requires Slots(s) && RunningDue(s) && (step.SkipRoot? || step.Return?)
    requires HeapEffect(s, step, None, t) && PhaseEffect(s, step, t)
    ensures t.phase == Sweeping(s.phase.now)
    ensures |Due(t, s.phase.now)| + 1 == |Due(s, s.phase.now)|
  {
    RootIsSingle(s);
    assert Due(t, s.phase.now) == Due(s, s.phase.now) - {s.heap[1]};
  }

  lemma QuietInsertion(s: State, step: Step, ins: Option<Entry>, t: State)
    requires Slots(s) && RunningDue(s)
    requires HeapEffect(s, step, ins, t) && PhaseEffect(s, step, t)
    requires (step.Call? && s.phase.Running?) || step.RunRoot?
    requires ins.Some? ==> s.phase.now.Less(ins.value.timeout)
    ensures t.phase.Running? && t.phase.now == s.phase.now && RunningDue(t)
    ensures |Due(t, s.phase.now)| == |Due(s, s.phase.now)|
  {
    RootIsSingle(s);
    var kept := Elems(s.heap) - multiset{s.heap[1]};
    if ins.Some? {
      DueInLater(Elems(s.heap), ins.value, s.phase.now);
      assert Elems(t.heap) - multiset{s.heap[1]} == kept + multiset{ins.value};
    }
  }

  lemma QuietStep(s: State, step: Step)
    requires Core(s) && RunningDue(s) && Enabled(s, step)
    requires !s.phase.Idle? && !Do(s, step).phase.Idle?
    requires Inserted(s, step).Some? ==> s.phase.now.Less(Inserted(s, step).value.timeout)
    ensures var t := Do(s, step);
      && |t.heap| >= 1 && !t.phase.Idle? && t.phase.now == s.phase.now && RunningDue(t)
      && |Due(t, s.phase.now)| + (if step.SkipRoot? || step.Return? then 1 else 0) == |Due(s, s.phase.now)|
  {
    StepEffect(s, step);
    if step.SkipRoot? || step.Return? {
      QuietRemoval(s, step, Do(s, step));
    } else {
      QuietInsertion(s, step, Inserted(s, step), Do(s, step));
    }
  }

  /** A sweep whose handlers only add timers due after its `now` removes at most the entries that were
      due when it began: it terminates, and each removal takes one of them away. */
  lemma {:induction false} SweepIsBounded(s: State, steps: seq<Step>)
    requires Core(s) && RunningDue(s) && Possible(s, steps) && QuietSweep(s, steps)
    ensures var t := Run(s, steps);
      && |t.heap| >= 1 && !t.phase.Idle? && t.phase.now == s.phase.now
      && |Due(t, s.phase.now)| + Removals(steps) == |Due(s, s.phase.now)|
    decreases steps
  {
    if steps != [] {
      CoreKeeps(s, steps[0]);
      QuietStep(s, steps[0]);
      SweepIsBounded(Do(s, steps[0]), steps[1..]);
    }
  }

  /** So for every sweep of every run: from the moment it fires, it removes no more entries than were due. */
  lemma SweepEnds(before: seq<Step>, now: Timestamp, sweep: seq<Step>)
    requires Possible(INIT, before) && Enabled(Run(INIT, before), Fire(now)) && |Run(INIT, before).heap| >= 2
    requires Possible(Do(Run(INIT, before), Fire(now)), sweep)
    requires QuietSweep(Do(Run(INIT, before), Fire(now)), sweep)
    ensures Removals(sweep) <= |Due(Run(INIT, before), now)|
  {
    var s := Run(INIT, before);
    assert Inv(INIT);
    RunKeeps(INIT, before);
    CoreKeeps(s, Fire(now));
    SweepIsBounded(Do(s, Fire(now)), sweep);
  }

  /** The premise holds for periodic timers by themselves: a positive interval is re-entered later than now. */
  lemma PeriodicIsQuiet(s: State, clock: Timestamp)
    requires Inv(s) && Enabled(s, RunRoot(clock)) && !s.clock.Less(s.phase.now)
    requires s.owned[s.heap[1].id].kind.Every?
    requires var interval := s.owned[s.heap[1].id].kind.interval;
      interval.Canonical() && Timestamp(0, 0).Less(interval)
    ensures s.phase.now.Less(Inserted(s, RunRoot(clock)).value.timeout)
  {
    AddAfter(s.owned[s.heap[1].id].kind.interval, clock);
  }
}
