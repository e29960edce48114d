/** The order in which due timers run: earliest first, exactly as long as the queue is in id order. */
module TimerOrder {
  import opened Wrappers
  import opened HeapSpec
  import opened Timestamps
  import opened Timers
  import opened TimerSafety
  import opened TimerDeadlines

  /** Timeouts do not decrease as ids grow. */
  ghost predicate InIdOrder(m: multiset<Entry>) {
    forall a, b | a in m && b in m && a.id < b.id :: !b.timeout.Less(a.timeout)
  }

  /** operator< coincides with the order of timeouts exactly on the queues that are in id order. */
  lemma OrderCoincidesIff(m: multiset<Entry>)
    requires OneEntryPerId(m)
    ensures InIdOrder(m) <==>
            forall a, b | a in m && b in m :: EntryLess(a, b) <==> a.timeout.Less(b.timeout)
  {
    if !InIdOrder(m) {
      var a, b :| a in m && b in m && a.id < b.id && b.timeout.Less(a.timeout);
      assert !EntryLess(b, a);
    }
  }

  lemma InIdOrderIsWeakOrder(m: multiset<Entry>)
    requires OneEntryPerId(m) && InIdOrder(m)
    ensures WeakOrderOn(EntryLess, m)
  {
    OrderCoincidesIff(m);
    forall a, b, c | a in m && b in m && c in m ensures NegTransitive(EntryLess, a, b, c) {
      assert EntryLess(a, c) <==> a.timeout.Less(c.timeout);
      assert EntryLess(a, b) <==> a.timeout.Less(b.timeout);
      assert EntryLess(b, c) <==> b.timeout.Less(c.timeout);
    }
  }

  /** The pending entries are in id order before, after and between the steps. */
  ghost predicate AllInIdOrder(s: State, steps: seq<Step>)
    requires |s.heap| >= 1 && Possible(s, steps)
    decreases steps
  {
    InIdOrder(Rest(s)) &&
    (steps == [] || (|Do(s, steps[0]).heap| >= 1 && AllInIdOrder(Do(s, steps[0]), steps[1..])))
  }

  // ---------- the heap stays ordered ----------

  /** The heap is ordered; while a handler runs, only the slots behind the root need to be. */
  ghost predicate OrderedPart(s: State) {
    OrderedFrom(EntryLess, s.heap, if s.phase.Running? then 2 else 1)
  }

  lemma TailIsRest(s: State)
    requires |s.heap| >= 2
    ensures multiset(s.heap[2..]) == Elems(s.heap) - multiset{s.heap[1]}
  {
    assert s.heap[1..] == [s.heap[1]] + s.heap[2..];
  }

  /** An entry that cannot pass a running root joins the heap. */
  lemma InsertKeepsPart(s: State, e: Entry)
    requires |s.heap| >= 1 && OrderedPart(s)
    requires s.phase.Running? ==> |s.heap| >= 2 && s.heap[1] == s.phase.entry && e.id >= s.phase.entry.id
    requires OneEntryPerId(Rest(s) + multiset{e}) && InIdOrder(Rest(s) + multiset{e})
    ensures OrderedPart(InsertEntry(s, e))
  {
    hide WeakOrderOn, OrderedFrom, InIdOrder, OneEntryPerId;
    InIdOrderIsWeakOrder(Rest(s) + multiset{e});
    if s.phase.Running? {
      TailIsRest(s);
      InsertOrdersFrom(EntryLess, s.heap, 2, e);
    } else {
      InsertOrdersFrom(EntryLess, s.heap, 1, e);
    }
  }

  lemma RemoveKeepsPart(s: State, step: Step)
    requires Core(s) && OrderedPart(s) && InIdOrder(Rest(s))
    requires Enabled(s, step) && (step.SkipRoot? || step.Return?)
    ensures OrderedPart(Do(s, step))
  {
    hide WeakOrderOn, OrderedFrom, InIdOrder, OneEntryPerId;
    InIdOrderIsWeakOrder(Rest(s));
    if step.Return? {
      TailIsRest(s);
      DeleteMinOrders(EntryLess, s.heap);
    } else {
      EraseOrdersIff(EntryLess, s.heap, 1);
    }
  }

  lemma PartShrinks(h: seq<Entry>)
    ensures OrderedFrom(EntryLess, h, 1) ==> OrderedFrom(EntryLess, h, 2)
  {
  }

  lemma CoreFacts(s: State)
    requires Core(s)
    ensures |s.heap| >= 1 && OneEntryPerId(Rest(s))
    ensures s.phase.Running? ==> |s.heap| >= 2 && s.heap[1] == s.phase.entry && s.phase.entry.id < s.nextId
  {
    hide OneEntryPerId;
  }

  lemma InsertionKeepsPart(s: State, step: Step)
    requires Core(s) && OrderedPart(s) && Enabled(s, step) && Inserted(s, step).Some?
    requires Core(Do(s, step)) && InIdOrder(Rest(Do(s, step)))
    ensures OrderedPart(Do(s, step))
  {
    hide OrderedFrom, InIdOrder, OneEntryPerId, Core, Do, Inserted, InsertEntry;
    var e := Inserted(s, step).value;
    CoreFacts(s);
    CoreFacts(Do(s, step));
    var u := InsertedBy(s, step);
    PartShrinks(s.heap);
    InsertRest(u, e);
    InsertKeepsPart(u, e);
  }

  lemma StepKeepsPart(s: State, step: Step)
    requires Core(s) && OrderedPart(s) && Enabled(s, step) && InIdOrder(Rest(s))
    requires Core(Do(s, step)) && InIdOrder(Rest(Do(s, step)))
    ensures OrderedPart(Do(s, step))
  {
    hide OrderedFrom, InIdOrder, Core, Do, Inserted;
    CoreFacts(s);
    if Inserted(s, step).Some? {
      InsertionKeepsPart(s, step);
    } else if step.SkipRoot? || step.Return? {
      RemoveKeepsPart(s, step);
    } else {
      StepEffect(s, step);
      PartShrinks(s.heap);
    }
  }

  // ---------- earliest first ----------

  ghost predicate OrderInv(s: State) {
    Inv(s) && OrderedPart(s)
  }

  lemma {:induction false} OrderRun(s: State, steps: seq<Step>)
    requires OrderInv(s) && Possible(s, steps) && AllInIdOrder(s, steps)
    ensures OrderInv(Run(s, steps)) && InIdOrder(Rest(Run(s, steps)))
    decreases steps
  {
    hide OrderedPart, InIdOrder, Core, SafeLog;
    if steps != [] {
      StepKeeps(s, steps[0]);
      FirstInOrder(Do(s, steps[0]), steps[1..]);
      StepKeepsPart(s, steps[0]);
      OrderRun(Do(s, steps[0]), steps[1..]);
    }
  }

  lemma FirstInOrder(s: State, steps: seq<Step>)
    requires |s.heap| >= 1 && Possible(s, steps) && AllInIdOrder(s, steps)
    ensures InIdOrder(Rest(s))
  {
  }

  lemma OrderStart()
    ensures OrderInv(INIT)
  {
  }

  /** In an ordered queue the root is an earliest entry. */
  lemma RootIsEarliest(s: State)
    requires Core(s) && OrderedPart(s) && InIdOrder(Rest(s)) && !s.phase.Running? && |s.heap| >= 2
    ensures forall e | e in Elems(s.heap) :: !e.timeout.Less(s.heap[1].timeout)
  {
    CoreFacts(s);
    InIdOrderIsWeakOrder(Elems(s.heap));
    OrderCoincidesIff(Elems(s.heap));
    RootInElems(s);
    forall e | e in Elems(s.heap) ensures !e.timeout.Less(s.heap[1].timeout) {
      var k :| 0 <= k < |s.heap[1..]| && s.heap[1..][k] == e;
      RootIsLeast(EntryLess, s.heap, k + 1);
    }
  }

  /** Between handlers the root is an earliest entry, so the next handler belongs to one; and a sweep that
      may end leaves no due entry. */
  ghost predicate EarliestChosen(s: State) {
    && |s.heap| >= 1
    && (!s.phase.Running? && |s.heap| >= 2 ==> forall e | e in Elems(s.heap) :: !e.timeout.Less(s.heap[1].timeout))
    && (Enabled(s, Finish) ==> forall e | e in Elems(s.heap) :: s.phase.now.Less(e.timeout))
  }

  lemma EarliestConclusion(s: State)
    requires Core(s) && OrderedPart(s) && InIdOrder(Rest(s))
    ensures EarliestChosen(s)
  {
    hide OrderedPart, InIdOrder, Core;
    CoreFacts(s);
    if !s.phase.Running? && |s.heap| >= 2 {
      RootIsEarliest(s);
    }
  }

  /** In every run whose pending entries stay in id order, with periodic timers or without, the handler that
      starts belongs to an earliest entry, and a sweep ends only when no due entry is left. */
  lemma EarliestFirst(steps: seq<Step>)
    requires Possible(INIT, steps) && AllInIdOrder(INIT, steps)
    ensures EarliestChosen(Run(INIT, steps))
  {
    OrderStart();
    OrderRun(INIT, steps);
    EarliestConclusion(Run(INIT, steps));
  }

  /** Periodic timers are not excluded: from a queue that holds one timer, every run without new timers is in id
      order, however often the timer fires and re-enters itself. */
  lemma {:induction false} LoneTimerInOrder(s: State, steps: seq<Step>, id: nat)
    requires Core(s) && Possible(s, steps) && forall e | e in Elems(s.heap) :: e.id == id
    requires forall i | 0 <= i < |steps| && steps[i].Call? :: steps[i].cmd.CancelTimer? || steps[i].cmd.IdsTaken?
    ensures AllInIdOrder(s, steps)
    decreases steps
  {
    hide Do, Core, InIdOrder, Rest, HeapEffect;
    CoreFacts(s);
    LoneInOrder(s, id);
    if steps != [] {
      var step := steps[0];
      CoreKeeps(s, step);
      StepHeapEffect(s, step);
      if Inserted(s, step).Some? {
        var u := InsertedBy(s, step);
        RootInElems(s);
      }
      LoneStep(s, step, Inserted(s, step), Do(s, step), id);
      LoneTimerInOrder(Do(s, step), steps[1..], id);
    }
  }

  lemma LoneInOrder(s: State, id: nat)
    requires |s.heap| >= 1 && forall e | e in Elems(s.heap) :: e.id == id
    ensures InIdOrder(Rest(s))
  {
  }

  lemma LoneStep(s: State, step: Step, ins: Option<Entry>, t: State, id: nat)
    requires HeapEffect(s, step, ins, t) && (ins.Some? ==> ins.value.id == id)
    requires forall e | e in Elems(s.heap) :: e.id == id
    ensures |t.heap| >= 1 && forall e | e in Elems(t.heap) :: e.id == id
  {
  }

  // ---------- sorted starts ----------

  /** The entry whose handler makes a step of a sweep. */
  function Server(s: State, step: Step): Option<Entry> {
    if s.phase.Running? then Some(s.phase.entry)
    else if step.RunRoot? && |s.heap| >= 2 then Some(s.heap[1])
    else None
  }

  /** What a handler enters, by a call or by periodic re-insertion, is not due before the handler's own entry. */
  ghost predicate NotEarlier(s: State, step: Step)
    requires Enabled(s, step)
  {
    Inserted(s, step).Some? && Server(s, step).Some? ==>
      !Inserted(s, step).value.timeout.Less(Server(s, step).value.timeout)
  }

  /** The steps stay within one sweep, and its handlers enter nothing before their own timeout. */
  ghost predicate OneSweep(s: State, steps: seq<Step>)
    requires Possible(s, steps)
    decreases steps
  {
    !s.phase.Idle? && (steps == [] || (NotEarlier(s, steps[0]) && OneSweep(Do(s, steps[0]), steps[1..])))
  }

  /** The handlers that started since the log had n events did so in the order of their timeouts. */
  ghost predicate SortedSince(log: seq<Event>, n: nat) {
    forall i, j | n <= i < j < |log| && log[i].Started? && log[j].Started? ::
      !log[j].timeout.Less(log[i].timeout)
  }

  /** Nothing is pending that is due before a handler that started since, or that runs. */
  ghost predicate AllLater(s: State, n: nat)
    requires |s.heap| >= 1
  {
    && (forall i, e | n <= i < |s.log| && s.log[i].Started? && e in Rest(s) :: !e.timeout.Less(s.log[i].timeout))
    && (forall i | n <= i < |s.log| && s.log[i].Started? && s.phase.Running? ::
          !s.phase.entry.timeout.Less(s.log[i].timeout))
  }

  ghost predicate SweepInv(s: State, n: nat) {
    && OrderInv(s) && InIdOrder(Rest(s))
    && n <= |s.log| && SortedSince(s.log, n) && AllLater(s, n)
  }

  lemma LessTransitive(a: Timestamp, b: Timestamp, c: Timestamp)
    ensures !a.Less(b) && !b.Less(c) ==> !a.Less(c)
  {
  }

  /** What a step of a sweep does to the log. */
  ghost predicate LogEffect(s: State, step: Step, t: State)
    requires |s.heap| >= 1
  {
    if step.RunRoot? then
      && |s.heap| >= 2
      && |t.log| == |s.log| + 1 && t.log[..|s.log|] == s.log
      && t.log[|s.log|].Started? && t.log[|s.log|].timeout == s.heap[1].timeout
    else
      s.log <= t.log && forall i | |s.log| <= i < |t.log| :: !t.log[i].Started?
  }

  lemma StepLogEffect(s: State, step: Step)
    requires Enabled(s, step)
    ensures LogEffect(s, step, Do(s, step))
  {
    hide Insert, DeleteMin;
  }

  /** What it does to the pending entries. */
  lemma RestEffect(s: State, step: Step, ins: Option<Entry>, t: State)
    requires |s.heap| >= 1 && (s.phase.Running? ==> |s.heap| >= 2 && s.heap[1] == s.phase.entry)
    requires Effect(s, step, ins, t) && !s.phase.Idle? && !t.phase.Idle?
    ensures |t.heap| >= 1 && forall e | e in Rest(t) :: e in Rest(s) || (ins.Some? && e == ins.value)
    ensures step.RunRoot? ==>
      && |s.heap| >= 2 && s.heap[1] in Rest(s) && !s.phase.Running?
      && t.phase == Running(s.phase.now, s.heap[1])
    ensures !step.RunRoot? ==>
      && (t.phase.Running? ==> s.phase.Running? && t.phase == s.phase)
      && (ins.Some? ==> s.phase.Running?)
  {
    if step.RunRoot? {
      RootInElems(s);
    }
  }

  lemma AllLaterStep(s: State, step: Step, n: nat)
    requires Core(s) && OrderedPart(s) && InIdOrder(Rest(s)) && n <= |s.log|
    requires SortedSince(s.log, n) && AllLater(s, n)
    requires Enabled(s, step) && !s.phase.Idle? && !Do(s, step).phase.Idle? && NotEarlier(s, step)
    ensures |Do(s, step).heap| >= 1 && n <= |Do(s, step).log|
    ensures SortedSince(Do(s, step).log, n) && AllLater(Do(s, step), n)
  {
    hide Core, OrderedPart, InIdOrder, Do, Inserted, Rest, Effect;
    var t, ins := Do(s, step), Inserted(s, step);
    CoreFacts(s);
    StepEffect(s, step);
    RestEffect(s, step, ins, t);
    StepLogEffect(s, step);
    if step.RunRoot? {
      EarliestConclusion(s);
      RestIsElems(s);
      forall i, e | n <= i < |t.log| && t.log[i].Started? && e in Rest(t)
        ensures !e.timeout.Less(t.log[i].timeout)
      {
        if i < |s.log| {
          LessTransitive(e.timeout, s.heap[1].timeout, s.log[i].timeout);
        }
      }
    } else {
      forall i, e | n <= i < |t.log| && t.log[i].Started? && e in Rest(t)
        ensures !e.timeout.Less(t.log[i].timeout)
      {
        assert i < |s.log| && t.log[i] == s.log[i];
        if e !in Rest(s) {
          LessTransitive(e.timeout, s.phase.entry.timeout, s.log[i].timeout);
        }
      }
    }
  }

  lemma RestIsElems(s: State)
    requires |s.heap| >= 1 && !s.phase.Running?
    ensures Rest(s) == Elems(s.heap)
  {
  }

  lemma {:induction false} SweepSorted(s: State, steps: seq<Step>, n: nat)
    requires SweepInv(s, n) && Possible(s, steps) && AllInIdOrder(s, steps) && OneSweep(s, steps)
    ensures SweepInv(Run(s, steps), n)
    decreases steps
  {
    hide OrderedPart, InIdOrder, Core, SafeLog, NotEarlier, AllLater, SortedSince;
    if steps != [] {
      var t := Do(s, steps[0]);
      StepKeeps(s, steps[0]);
      FirstInOrder(t, steps[1..]);
      StepKeepsPart(s, steps[0]);
      StillSweeping(t, steps[1..]);
      AllLaterStep(s, steps[0], n);
      SweepSorted(t, steps[1..], n);
    }
  }

  lemma StillSweeping(s: State, steps: seq<Step>)
    requires Possible(s, steps) && OneSweep(s, steps)
    ensures !s.phase.Idle?
  {
  }

  /** Within one sweep, handlers start in the order of their timeouts. */
  lemma StartsInOrder(before: seq<Step>, sweep: seq<Step>)
    requires Possible(INIT, before) && AllInIdOrder(INIT, before)
    requires var s := Run(INIT, before);
      |s.heap| >= 1 && s.phase.Sweeping? && Possible(s, sweep) && AllInIdOrder(s, sweep) && OneSweep(s, sweep)
    ensures var s := Run(INIT, before);
      |s.log| <= |Run(s, sweep).log| && SortedSince(Run(s, sweep).log, |s.log|)
  {
    var s := Run(INIT, before);
    OrderStart();
    OrderRun(INIT, before);
    SweepSorted(s, sweep, |s.log|);
  }

  // ---------- periodic timers enter nothing earlier ----------

  /** A pending periodic timer is due at most one interval after the last clock reading. */
  ghost predicate WithinInterval(s: State, e: Entry) {
    e.id in s.owned && s.owned[e.id].kind.Every? && s.owned[e.id].kind.interval.NearlyCanonical() ==>
      !Add(s.owned[e.id].kind.interval, s.clock).Less(e.timeout)
  }

  ghost predicate PeriodicInv(s: State) {
    Core(s) && !s.clock.Less(Timestamp(0, 0)) && forall e | e in Elems(s.heap) :: WithinInterval(s, e)
  }

  lemma PeriodicStep(s: State, step: Step)
    requires PeriodicInv(s) && Enabled(s, step)
    ensures PeriodicInv(Do(s, step))
  {
    hide Core, Do, Inserted;
    var t, ins := Do(s, step), Inserted(s, step);
    var zero := Timestamp(0, 0);
    CoreKeeps(s, step);
    PendingIds(s);
    StepHeapEffect(s, step);
    ClockMoves(s, step);
    LessTransitive(t.clock, s.clock, zero);
    forall e | e in Elems(t.heap) ensures WithinInterval(t, e) {
      assert e in Elems(s.heap) || (ins.Some? && e == ins.value);
      if e.id in t.owned && t.owned[e.id].kind.Every? && t.owned[e.id].kind.interval.NearlyCanonical() {
        var interval := t.owned[e.id].kind.interval;
        CoreClock(s);
        CoreClock(t);
        if e in Elems(s.heap) {
          KindsStay(s, step, e.id);
          assert WithinInterval(s, e);
          AddMonotone(interval, s.clock, t.clock);
          LessTransitive(Add(interval, t.clock), Add(interval, s.clock), e.timeout);
        } else {
          EnteredTimeout(s, step);
          AddCarries(interval, zero);
          AddMonotone(interval, zero, t.clock);
        }
      }
    }
  }

  lemma CoreClock(s: State)
    requires Core(s)
    ensures s.clock.Canonical()
  {
  }

  lemma {:induction false} PeriodicRun(s: State, steps: seq<Step>)
    requires PeriodicInv(s) && Possible(s, steps)
    ensures PeriodicInv(Run(s, steps))
    decreases steps
  {
    hide PeriodicInv, Do;
    if steps != [] {
      PeriodicStep(s, steps[0]);
      PeriodicRun(Do(s, steps[0]), steps[1..]);
    }
  }

  /** In every run a periodic timer whose interval the constructor made, positive, zero or negative, re-enters
      itself at or after the timeout it runs for. So only calls can break the order. */
  lemma PeriodicNotEarlier(steps: seq<Step>, clock: Timestamp)
    requires Possible(INIT, steps) && Enabled(Run(INIT, steps), RunRoot(clock))
    requires var s := Run(INIT, steps);
      s.owned[s.heap[1].id].kind.Every? ==> s.owned[s.heap[1].id].kind.interval.NearlyCanonical()
    ensures NotEarlier(Run(INIT, steps), RunRoot(clock))
  {
    var s := Run(INIT, steps);
    PeriodicRun(INIT, steps);
    RootInElems(s);
    assert WithinInterval(s, s.heap[1]);
    if s.owned[s.heap[1].id].kind.Every? {
      var interval := s.owned[s.heap[1].id].kind.interval;
      AddMonotone(interval, s.clock, clock);
      LessTransitive(Add(interval, clock), Add(interval, s.clock), s.heap[1].timeout);
    }
  }

  // ---------- and not otherwise ----------

  lemma {:induction false} RunningIsDue(s: State, steps: seq<Step>)
    requires Possible(s, steps)
    requires s.phase.Running? ==> !s.phase.now.Less(s.phase.entry.timeout)
    ensures var t := Run(s, steps); t.phase.Running? ==> !t.phase.now.Less(t.phase.entry.timeout)
    decreases steps
  {
    hide Do;
    if steps != [] {
      StepEffect(s, steps[0]);
      RunningIsDue(Do(s, steps[0]), steps[1..]);
    }
  }

  /** A step of a sweep that enters a timer: the timer is owned, and joins the entries that stay. */
  lemma EntryEffect(s: State, step: Step)
    requires Core(s) && Enabled(s, step) && Inserted(s, step).Some? && Server(s, step).Some?
    ensures var t, x := Do(s, step), Inserted(s, step).value;
      && |t.heap| >= 1 && x in Rest(t) && x.id in t.owned
      && t.phase == Running(s.phase.now, Server(s, step).value)
      && (step.RunRoot? ==> s.phase.Sweeping? && RootDue(s, s.phase.now))
  {
    hide Core, Do, Inserted, InsertEntry, Rest;
    var u := InsertedBy(s, step);
    CoreFacts(s);
    StepEffect(s, step);
    InsertRest(u, Inserted(s, step).value);
    EnteredTimeout(s, step);
  }

  /** The first timer that a sweep enters before the timeout of the handler that enters it, by a call or by
      periodic re-insertion, in a queue in id order. */
  ghost predicate EntersEarlier(s: State, step: Step)
    requires |s.heap| >= 1
  {
    && Enabled(s, step) && Inserted(s, step).Some? && Server(s, step).Some?
    && (s.phase.Running? ==> forall f | f in Rest(s) :: !f.timeout.Less(s.phase.entry.timeout))
    && |Do(s, step).heap| >= 1 && InIdOrder(Rest(Do(s, step)))
    && Inserted(s, step).value.timeout.Less(Server(s, step).value.timeout)
  }

  /** Nothing else that stays is due before the running entry. */
  ghost predicate OnlyEarlier(t: State, x: Entry)
    requires |t.heap| >= 1
  {
    && t.phase.Running? && x in Rest(t) && x.id in t.owned
    && x.timeout.Less(t.phase.entry.timeout) && !t.phase.now.Less(x.timeout)
    && forall f | f in Rest(t) :: f == x || !f.timeout.Less(t.phase.entry.timeout)
  }

  lemma OffenderIsOnlyEarlier(s: State, step: Step)
    requires Core(s) && OrderedPart(s) && InIdOrder(Rest(s)) && EntersEarlier(s, step)
    requires s.phase.Running? ==> !s.phase.now.Less(s.phase.entry.timeout)
    ensures OnlyEarlier(Do(s, step), Inserted(s, step).value)
  {
    hide Do, Inserted, InIdOrder, Rest, Core, OrderedPart, Effect;
    var t, x, e := Do(s, step), Inserted(s, step).value, Server(s, step).value;
    CoreFacts(s);
    EntryEffect(s, step);
    StepEffect(s, step);
    RestEffect(s, step, Some(x), t);
    LessTransitive(s.phase.now, e.timeout, x.timeout);
    if step.RunRoot? {
      RootIsEarliest(s);
      RestIsElems(s);
    }
  }

  lemma ReturnRest(t: State)
    requires Core(t) && t.phase.Running?
    ensures Enabled(t, Return) && |Do(t, Return).heap| >= 1 && Rest(Do(t, Return)) == Rest(t)
    ensures var u := Do(t, Return);
      u.owned == t.owned && u.clock == t.clock && u.phase == Sweeping(t.phase.now)
  {
    hide EraseAt;
    EraseRemoves(EntryLess, t.heap, 1);
  }

  /** The only entry that is due before the running one starts as soon as the handler returns. */
  lemma OnlyEarlierRunsNext(t: State, x: Entry, later: Timestamp)
    requires Core(t) && OrderedPart(t) && InIdOrder(Rest(t)) && OnlyEarlier(t, x) && Ticks(t, later)
    ensures Enabled(t, Return) && Enabled(Do(t, Return), RunRoot(later))
    ensures var log := Do(Do(t, Return), RunRoot(later)).log;
      |log| > 0 && log[|log| - 1].Started? && log[|log| - 1].id == x.id && log[|log| - 1].timeout == x.timeout
  {
    hide Core, OrderedPart, InIdOrder, Do, Rest;
    ReturnRest(t);
    var u := Do(t, Return);
    CoreKeeps(t, Return);
    StepKeepsPart(t, Return);
    RestIsElems(u);
    TwoSlots(u, x);
    RootIsEarliest(u);
    RootInElems(u);
    LessTransitive(x.timeout, u.heap[1].timeout, t.phase.entry.timeout);
    StepLogEffect(u, RunRoot(later));
    RootStarts(u, later);
  }

  lemma TwoSlots(s: State, x: Entry)
    requires |s.heap| >= 1 && x in Elems(s.heap)
    ensures |s.heap| >= 2
  {
  }

  lemma RootStarts(s: State, later: Timestamp)
    requires Enabled(s, RunRoot(later))
    ensures var log := Do(s, RunRoot(later)).log;
      |log| == |s.log| + 1 && log[|s.log|].Started? && log[|s.log|].id == s.heap[1].id
      && log[|s.log|].timeout == s.heap[1].timeout
  {
    hide Insert;
  }

  /** The restriction to handlers that enter nothing before their own timeout is needed: for the first one that
      does, by a call or by re-inserting itself, the timer entered runs next, in the same sweep, and so out of
      order. */
  lemma EarlierInsertBreaksOrder(before: seq<Step>, step: Step, later: Timestamp)
    requires Possible(INIT, before) && AllInIdOrder(INIT, before) && |Run(INIT, before).heap| >= 1
    requires EntersEarlier(Run(INIT, before), step) && Ticks(Do(Run(INIT, before), step), later)
    ensures var s := Run(INIT, before);
      var t := Do(s, step);
      Enabled(t, Return) && Enabled(Do(t, Return), RunRoot(later)) &&
      var log := Do(Do(t, Return), RunRoot(later)).log;
      |log| > 0 && log[|log| - 1].Started? && log[|log| - 1].id == Inserted(s, step).value.id
      && log[|log| - 1].timeout.Less(Server(s, step).value.timeout)
  {
    hide Core, SafeLog, OrderedPart, Do, Inserted, InIdOrder, Rest, OnlyEarlier;
    var s := Run(INIT, before);
    var t := Do(s, step);
    OrderStart();
    OrderRun(INIT, before);
    RunningIsDue(INIT, before);
    CoreKeeps(s, step);
    StepKeepsPart(s, step);
    OffenderIsOnlyEarlier(s, step);
    OnlyEarlierRunsNext(t, Inserted(s, step).value, later);
  }

  /** For example, a timer due at 10 runs at 20, and enters one that is due at 5. */
  lemma EarlierInsertExample()
    ensures var ten, twenty := Timestamp(10, 0), Timestamp(20, 0);
      var before := [Call(RunAt(ten), Timestamp(1, 0)), Fire(twenty), RunRoot(twenty)];
      && Possible(INIT, before) && AllInIdOrder(INIT, before) && |Run(INIT, before).heap| >= 1
      && EntersEarlier(Run(INIT, before), Call(RunAt(Timestamp(5, 0)), twenty))
  {
    hide EntersEarlier;
    var ten, twenty := Timestamp(10, 0), Timestamp(20, 0);
    var e := Entry(1, ten);
    var a, b, c := Call(RunAt(ten), Timestamp(1, 0)), Fire(twenty), RunRoot(twenty);
    var owned := map[1 := Timer(ten, OneShot)];
    var log := [Created(1, ten, OneShot)];
    var s1 := State([BLANK, e], owned, 2, Some(ten), Timestamp(1, 0), Idle, log);
    var s2 := s1.(armed := None, clock := twenty, phase := Sweeping(twenty));
    var s3 := s2.(phase := Running(twenty, e), log := log + [Started(1, ten, OneShot, twenty, twenty)]);
    assert Do(INIT, a) == s1 && Do(s1, b) == s2 && Do(s2, c) == s3;
    assert [a, b, c][1..] == [b, c] && [b, c][1..] == [c] && [c][1..] == [];
    LastRun(s3);
    OneMoreRun(s2, c, []);
    OneMoreRun(s1, b, [c]);
    OneMoreRun(INIT, a, [b, c]);
    EntersEarlierHere(s3, twenty);
  }

  lemma LastRun(s: State)
    requires |s.heap| >= 1
    ensures Possible(s, []) && Run(s, []) == s && (InIdOrder(Rest(s)) ==> AllInIdOrder(s, []))
  {
  }

  lemma OneMoreRun(s: State, step: Step, steps: seq<Step>)
    requires |s.heap| >= 1 && Enabled(s, step) && |Do(s, step).heap| >= 1 && Possible(Do(s, step), steps)
    ensures Possible(s, [step] + steps) && Run(s, [step] + steps) == Run(Do(s, step), steps)
    ensures InIdOrder(Rest(s)) && AllInIdOrder(Do(s, step), steps) ==> AllInIdOrder(s, [step] + steps)
  {
    assert ([step] + steps)[1..] == steps;
  }

  lemma EntersEarlierHere(s: State, now: Timestamp)
    requires now == Timestamp(20, 0) && s.heap == [BLANK, Entry(1, Timestamp(10, 0))] && s.nextId == 2 && s.clock == now
    requires s.phase == Running(now, s.heap[1])
    ensures EntersEarlier(s, Call(RunAt(Timestamp(5, 0)), now))
  {
    hide Insert;
    var step, x := Call(RunAt(Timestamp(5, 0)), now), Entry(2, Timestamp(5, 0));
    assert s.heap[1..] == [s.heap[1]];
    InsertAdds(EntryLess, s.heap, x);
    assert Rest(s) == multiset{};
    assert Rest(Do(s, step)) == multiset{x};
  }

  // ---------- a second timer waits for the first deadline ----------

  /** Either nothing happened to the armed deadline d yet, or it has passed. */
  ghost predicate WaitsFor(s: State, d: Timestamp, n: nat) {
    && n <= |s.log|
    && (forall i | n <= i < |s.log| && s.log[i].Started? :: !s.log[i].now.Less(d))
    && (|| (s.phase.Idle? && s.armed == Some(d) && |s.heap| >= 2 && forall i | n <= i < |s.log| :: !s.log[i].Started?)
        || (!s.clock.Less(d) && (!s.phase.Idle? ==> !s.phase.now.Less(d))))
  }

  lemma WaitsStep(s: State, step: Step, d: Timestamp, n: nat)
    requires Enabled(s, step) && WaitsFor(s, d, n)
    ensures WaitsFor(Do(s, step), d, n)
  {
    hide Insert, DeleteMin;
    var t := Do(s, step);
    StepEffect(s, step);
    StepLogEffect(s, step);
    ClockMoves(s, step);
    LessTransitive(t.clock, s.clock, d);
    if step.Fire? && s.armed == Some(d) {
      assert t.clock == step.clock;
    }
  }

  lemma ClockMoves(s: State, step: Step)
    requires Enabled(s, step)
    ensures !Do(s, step).clock.Less(s.clock)
    ensures step.Fire? ==> Do(s, step).clock == step.clock
    ensures step.RunRoot? && |s.heap| >= 2 ==>
      |Do(s, step).log| == |s.log| + 1 && Do(s, step).log[|s.log|].Started?
      && Do(s, step).log[|s.log|].now == s.phase.now
  {
    hide Insert, DeleteMin;
  }

  /** While the queue is idle and armed for d, no timer starts before d, however early a new one is due: an
      insertion into a non-empty queue does not move the deadline. */
  lemma {:induction false} NothingBeforeDeadline(s: State, steps: seq<Step>, d: Timestamp, n: nat)
    requires WaitsFor(s, d, n) && Possible(s, steps)
    ensures WaitsFor(Run(s, steps), d, n)
    decreases steps
  {
    hide WaitsFor, Do;
    if steps != [] {
      WaitsStep(s, steps[0], d, n);
      NothingBeforeDeadline(Do(s, steps[0]), steps[1..], d, n);
    }
  }

  lemma SecondTimerWaits(s: State, steps: seq<Step>, d: Timestamp)
    requires s.phase.Idle? && s.armed == Some(d) && |s.heap| >= 2 && Possible(s, steps)
    ensures var t := Run(s, steps);
      forall i | |s.log| <= i < |t.log| && t.log[i].Started? :: !t.log[i].now.Less(d)
  {
    NothingBeforeDeadline(s, steps, d, |s.log|);
  }

  /** So a new timer is kept waiting, past its timeout and with no sweep possible, at some reading of the clock,
      exactly when it is due before d and d is still ahead. */
  lemma KeptWaitingIff(s: State, step: Step, d: Timestamp)
    requires s.phase.Idle? && s.armed == Some(d) && |s.heap| >= 2 && d.Canonical() && s.clock.Canonical()
    requires Enabled(s, step) && step.Call? && Inserted(s, step).Some?
    requires Inserted(s, step).value.timeout.Canonical()
    ensures var t, x := Do(s, step), Inserted(s, step).value;
      (exists c :: Ticks(t, c) && !c.Less(x.timeout) && !Enabled(t, Fire(c)))
      <==> x.timeout.Less(d) && t.clock.Less(d)
  {
    hide Insert, DeleteMin;
    StepEffect(s, step);
    var t, x := Do(s, step), Inserted(s, step).value;
    CallClock(s, step);
    forall c | Ticks(t, c) ensures Enabled(t, Fire(c)) <==> !c.Less(d) {
    }
    if x.timeout.Less(d) && t.clock.Less(d) {
      var c := if x.timeout.Less(t.clock) then t.clock else x.timeout;
      assert Ticks(t, c) && !c.Less(x.timeout) && !Enabled(t, Fire(c));
    }
    if c :| Ticks(t, c) && !c.Less(x.timeout) && !Enabled(t, Fire(c)) {
      assert c.Less(d);
    }
  }

  lemma CallClock(s: State, step: Step)
    requires Enabled(s, step) && step.Call?
    ensures Do(s, step).clock == step.clock && step.clock.Canonical()
  {
    hide Insert;
  }
}
