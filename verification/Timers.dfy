/** Timers at the level of values: the timer queue (src/TimerQueue.cpp), periodic timers (src/EventLoop.cpp),
    their owners (src/TimerMixin.cpp) and the sweep over due timers, one step at a time. */
module Timers {
  import opened Wrappers
  import opened HeapSpec
  import opened Timestamps

  /** WeakTimerHolder: the key snapshot stored in the heap. Its weak pointer is expired exactly when
      nobody owns the timer of that id any more. */
  datatype Entry = Entry(id: nat, timeout: Timestamp)

  const BLANK := Entry(0, Timestamp(0, 0))   // WeakTimerHolder()

  /** operator< of WeakTimerHolder: a conjunction, hence not a strict weak order. */
  predicate EntryLess(a: Entry, b: Entry) {
    a.timeout.Less(b.timeout) && a.id < b.id
  }

  datatype Kind = OneShot | Every(interval: Timestamp)

  datatype Timer = Timer(timeout: Timestamp, kind: Kind)

  datatype Event =
    | Created(id: nat, timeout: Timestamp, kind: Kind)
    | Started(id: nat, timeout: Timestamp, kind: Kind, now: Timestamp, clock: Timestamp)
    | Cancelled(id: nat)

  /** Where handleTimeoutEvents stands: not running, at its loop head, or inside a handler. */
  datatype Phase = Idle | Sweeping(now: Timestamp) | Running(now: Timestamp, entry: Entry)

  datatype State = State(
    heap: seq<Entry>,           // queue_, in slot order
    owned: map<nat, Timer>,     // the timers that some timerHolders_ still owns
    nextId: nat,                // timerIds_
    armed: Option<Timestamp>,   // the deadline timerfd will fire at
    clock: Timestamp,           // the last clock reading
    phase: Phase,
    log: seq<Event>)            // what happened so far

  const INIT := State([BLANK], map[], 1, None, Timestamp(0, 0), Idle, [])

  datatype Command =
    | RunAt(timeout: Timestamp)
    | RunAfter(delay: Timestamp)
    | RunEvery(interval: Timestamp)
    | CancelTimer(id: nat)
    | IdsTaken(n: nat)          // another loop drew n ids from the global counter

  datatype Step =
    | Call(cmd: Command, clock: Timestamp)   // by a client, or by the handler that is running
    | Fire(clock: Timestamp)                 // timerfd is readable: handleTimeoutEvents begins
    | RunRoot(clock: Timestamp)              // the root is due and owned: its handler begins
    | SkipRoot                               // the root is due and expired: it is deleted
    | Return                                 // the handler returns: delete_min
    | Finish                                 // the loop ends

  /** What timerfd_settime accepts as a deadline: zero disarms, tv_nsec above 999999999 is an error. */
  predicate Armable(t: Timestamp) {
    t.sec >= 0 && t.Canonical() && t != Timestamp(0, 0)
  }

  function UpdateTimerfd(armed: Option<Timestamp>, t: Timestamp): Option<Timestamp> {
    if t == Timestamp(0, 0) then None
    else if t.sec < 0 || !t.Canonical() then armed
    else Some(t)
  }

  function InsertEntry(s: State, e: Entry): State
    requires |s.heap| >= 1
  {
    s.(armed := if |s.heap| == 1 then UpdateTimerfd(s.armed, e.timeout) else s.armed,
       heap := Insert(EntryLess, s.heap, e))
  }

  /** A new timer takes the next id and gets an owner. */
  function Registered(s: State, timeout: Timestamp, kind: Kind): State {
    s.(owned := s.owned[s.nextId := Timer(timeout, kind)],
       nextId := s.nextId + 1,
       log := s.log + [Created(s.nextId, timeout, kind)])
  }

  function NewTimer(s: State, timeout: Timestamp, kind: Kind): State
    requires |s.heap| >= 1
  {
    InsertEntry(Registered(s, timeout, kind), Entry(s.nextId, timeout))
  }

  function Apply(s: State, cmd: Command): State
    requires |s.heap| >= 1
  {
    match cmd
    case RunAt(timeout) => NewTimer(s, timeout, OneShot)
    case RunAfter(delay) => NewTimer(s, Add(delay, s.clock), OneShot)
    case RunEvery(interval) => NewTimer(s, interval, Every(interval))
    case CancelTimer(id) =>
      if id in s.owned then s.(owned := s.owned - {id}, log := s.log + [Cancelled(id)]) else s
    case IdsTaken(n) => s.(nextId := s.nextId + n)
  }

  /** The handler of entry e begins; a periodic timer first re-inserts itself under its own id. */
  function StartHandler(s: State, e: Entry, now: Timestamp, clock: Timestamp): State
    requires |s.heap| >= 1 && e.id in s.owned
  {
    var timer := s.owned[e.id];
    var s1 := s.(clock := clock, phase := Running(now, e),
                 log := s.log + [Started(e.id, e.timeout, timer.kind, now, clock)]);
    match timer.kind
    case OneShot => s1
    case Every(interval) =>
      var next := Add(interval, clock);
      InsertEntry(s1.(owned := s.owned[e.id := Timer(next, timer.kind)]), Entry(e.id, next))
  }

  predicate RootDue(s: State, now: Timestamp) {
    |s.heap| >= 2 && !now.Less(s.heap[1].timeout)
  }

  /** A clock reading is canonical and never behind the previous one. */
  predicate Ticks(s: State, clock: Timestamp) {
    clock.Canonical() && !clock.Less(s.clock)
  }

  predicate Enabled(s: State, step: Step) {
    |s.heap| >= 1 &&
    match step
    case Call(_, clock) => (s.phase.Idle? || s.phase.Running?) && Ticks(s, clock)
    case Fire(clock) => s.phase.Idle? && s.armed.Some? && !clock.Less(s.armed.value) && Ticks(s, clock)
    case RunRoot(clock) =>
      s.phase.Sweeping? && RootDue(s, s.phase.now) && s.heap[1].id in s.owned && Ticks(s, clock)
    case SkipRoot => s.phase.Sweeping? && RootDue(s, s.phase.now) && s.heap[1].id !in s.owned
    case Return => s.phase.Running? && |s.heap| >= 2
    case Finish => s.phase.Sweeping? && !RootDue(s, s.phase.now)
  }

  function Do(s: State, step: Step): State
    requires Enabled(s, step)
  {
    match step
    case Call(cmd, clock) => Apply(s.(clock := clock), cmd)
    case Fire(clock) =>
      s.(armed := None, clock := clock, phase := if |s.heap| == 1 then Idle else Sweeping(clock))
    case RunRoot(clock) => StartHandler(s, s.heap[1], s.phase.now, clock)
    case SkipRoot => s.(heap := DeleteMin(EntryLess, s.heap))
    case Return => s.(heap := DeleteMin(EntryLess, s.heap), phase := Sweeping(s.phase.now))
    case Finish =>
      s.(phase := Idle,
         armed := if |s.heap| == 1 then s.armed else UpdateTimerfd(s.armed, s.heap[1].timeout))
  }

  /** Whether `steps` is a run from s. */
  predicate Possible(s: State, steps: seq<Step>)
    decreases steps
  {
    steps == [] || (Enabled(s, steps[0]) && Possible(Do(s, steps[0]), steps[1..]))
  }

  function Run(s: State, steps: seq<Step>): State
    requires Possible(s, steps)
    decreases steps
  {
    if steps == [] then s else Run(Do(s, steps[0]), steps[1..])
  }

  lemma {:induction false} RunAppend(s: State, a: seq<Step>, b: Step)
    requires Possible(s, a) && Enabled(Run(s, a), b)
    ensures Possible(s, a + [b]) && Run(s, a + [b]) == Do(Run(s, a), b)
    decreases a
  {
    if a == [] {
      assert Possible(Do(s, b), []);
      assert ([] + [b])[1..] == [];
    } else {
      assert (a + [b])[1..] == a[1..] + [b];
      RunAppend(Do(s, a[0]), a[1..], b);
    }
  }
}

/** What every run of the timer system keeps. */
module TimerSafety {
  import opened Wrappers
  import opened HeapSpec
  import opened Timestamps
  import opened Timers

  /** The entries that stay once the running handler, if any, has returned. */
  ghost function Rest(s: State): multiset<Entry>
    requires |s.heap| >= 1
  {
    if s.phase.Running? then Elems(s.heap) - multiset{s.phase.entry} else Elems(s.heap)
  }

  ghost predicate OneEntryPerId(m: multiset<Entry>) {
    && (forall e | e in m :: m[e] == 1)
    && (forall e, f | e in m && f in m && e.id == f.id :: e == f)
  }

  /** No handler starts before the timeout it was entered with. */
  ghost predicate NeverEarly(log: seq<Event>) {
    forall i | 0 <= i < |log| && log[i].Started? :: !log[i].now.Less(log[i].timeout)
  }

  /** No handler starts after its timer was cancelled. */
  ghost predicate NeverCancelled(log: seq<Event>) {
    forall i, j | 0 <= i < j < |log| && log[i].Cancelled? && log[j].Started? :: log[i].id != log[j].id
  }

  /** A one-shot handler starts at most once. */
  ghost predicate OnceOnly(log: seq<Event>) {
    forall i, j | 0 <= i < j < |log| && log[i].Started? && log[j].Started? && log[i].kind.OneShot? ::
      log[i].id != log[j].id
  }

  /** A one-shot handler starts for the timeout its timer was created with. */
  ghost predicate AsRequested(log: seq<Event>) {
    forall j | 0 <= j < |log| && log[j].Started? && log[j].kind.OneShot? ::
      exists i | 0 <= i < j :: log[i] == Created(log[j].id, log[j].timeout, OneShot)
  }

  /** Two starts of a periodic timer are at least its interval apart. */
  ghost predicate Spaced(log: seq<Event>) {
    forall i, j | 0 <= i < j < |log| && log[i].Started? && log[j].Started? && log[i].id == log[j].id
                  && log[i].kind.Every? && log[i].kind.interval.NearlyCanonical() ::
      !log[j].now.Less(Add(log[i].kind.interval, log[i].clock))
  }

  ghost predicate SafeLog(log: seq<Event>) {
    NeverEarly(log) && NeverCancelled(log) && OnceOnly(log) && AsRequested(log) && Spaced(log)
  }

  /** What the log says about a pending entry e. */
  ghost predicate EntryAgrees(s: State, e: Entry) {
    && 1 <= e.id < s.nextId
    && (e.id in s.owned ==>
          && s.owned[e.id].timeout == e.timeout
          && (s.owned[e.id].kind.OneShot? ==> Created(e.id, e.timeout, OneShot) in s.log))
    && (forall v | v in s.log && v.Started? && v.id == e.id ::
          && v.kind.Every?
          && (v.kind.interval.NearlyCanonical() ==> !e.timeout.Less(Add(v.kind.interval, v.clock)))
          && (e.id in s.owned ==> s.owned[e.id].kind == v.kind))
  }

  /** What the log says about ids and clocks. */
  ghost predicate EventAgrees(s: State, v: Event) {
    && v.id < s.nextId
    && (v.Cancelled? ==> v.id !in s.owned)
    && (v.Started? ==> v.clock.Canonical() && !s.clock.Less(v.clock))
  }

  ghost predicate Core(s: State) {
    && |s.heap| >= 1 && s.nextId >= 1 && s.clock.Canonical()
    && (s.phase.Running? ==> |s.heap| >= 2 && s.heap[1] == s.phase.entry && 1 <= s.phase.entry.id < s.nextId)
    && (forall id | id in s.owned :: id < s.nextId)
    && OneEntryPerId(Rest(s))
    && (forall e {:trigger EntryAgrees(s, e)} | e in Rest(s) :: EntryAgrees(s, e))
    && (forall v {:trigger EventAgrees(s, v)} | v in s.log :: EventAgrees(s, v))
  }

  ghost predicate Inv(s: State) {
    Core(s) && SafeLog(s.log)
  }

  // ---------- the log grows safely ----------

  lemma RequestsStay(log: seq<Event>, v: Event)
    requires AsRequested(log)
    requires v.Started? && v.kind.OneShot? ==> Created(v.id, v.timeout, OneShot) in log
    ensures AsRequested(log + [v])
  {
    var l := log + [v];
    forall j | 0 <= j < |l| && l[j].Started? && l[j].kind.OneShot?
      ensures exists i | 0 <= i < j :: l[i] == Created(l[j].id, l[j].timeout, OneShot)
    {
      var i :| 0 <= i < |log| && (j < |log| ==> i < j) && log[i] == Created(l[j].id, l[j].timeout, OneShot);
      assert l[i] == log[i];
    }
  }

  lemma AppendQuiet(log: seq<Event>, v: Event)
    requires SafeLog(log) && !v.Started?
    ensures SafeLog(log + [v])
  {
    RequestsStay(log, v);
  }

  lemma AppendStarted(log: seq<Event>, v: Event)
    requires SafeLog(log) && v.Started? && !v.now.Less(v.timeout)
    requires v.kind.OneShot? ==> Created(v.id, v.timeout, OneShot) in log
    requires forall w | w in log && w.Cancelled? :: w.id != v.id
    requires forall w | w in log && w.Started? && w.id == v.id ::
      w.kind.Every? && (w.kind.interval.NearlyCanonical() ==> !v.now.Less(Add(w.kind.interval, w.clock)))
    ensures SafeLog(log + [v])
  {
    RequestsStay(log, v);
  }

  // ---------- every step keeps the invariant ----------

  /** An entry whose id is not below the running one never moves the root away. */
  lemma InsertRest(s: State, e: Entry)
    requires |s.heap| >= 1
    requires s.phase.Running? ==> |s.heap| >= 2 && s.heap[1] == s.phase.entry && e.id >= s.phase.entry.id
    ensures Rest(InsertEntry(s, e)) == Rest(s) + multiset{e}
    ensures s.phase.Running? ==> InsertEntry(s, e).heap[1] == s.phase.entry
  {
    InsertAdds(EntryLess, s.heap, e);
    if s.phase.Running? {
      InsertKeepsRoot(EntryLess, s.heap, e);
      assert s.heap[1..][0] == s.phase.entry;
    }
  }

  /** Adding an entry that agrees with the log and whose id has no other entry. */
  lemma InsertKeeps(s: State, e: Entry)
    requires Core(s) && EntryAgrees(s, e)
    requires forall f | f in Rest(s) :: f.id != e.id
    requires s.phase.Running? ==> e.id >= s.phase.entry.id
    ensures Core(InsertEntry(s, e))
  {
    var t := InsertEntry(s, e);
    InsertRest(s, e);
    forall f | f in Rest(t) ensures EntryAgrees(t, f) {
      assert EntryAgrees(s, f);
    }
    forall w | w in t.log ensures EventAgrees(t, w) {
      assert EventAgrees(s, w);
    }
  }

  lemma RegisteredKeeps(s: State, timeout: Timestamp, kind: Kind)
    requires Core(s)
    ensures var u := Registered(s, timeout, kind);
      Core(u) && EntryAgrees(u, Entry(s.nextId, timeout)) && forall f | f in Rest(u) :: f.id < s.nextId
  {
    var v := Created(s.nextId, timeout, kind);
    var u := Registered(s, timeout, kind);
    forall f | f in Rest(u) ensures f.id < s.nextId && EntryAgrees(u, f) {
      assert EntryAgrees(s, f);
    }
    forall w | w in u.log ensures EventAgrees(u, w) && (w.Started? ==> w.id < s.nextId) {
      assert w in s.log ==> EventAgrees(s, w);
    }
    assert u.log[|s.log|] == v;
  }

  lemma NewTimerKeeps(s: State, timeout: Timestamp, kind: Kind)
    requires Core(s)
    ensures Core(NewTimer(s, timeout, kind))
  {
    RegisteredKeeps(s, timeout, kind);
    InsertKeeps(Registered(s, timeout, kind), Entry(s.nextId, timeout));
  }

  lemma CancelKeeps(s: State, id: nat)
    requires Core(s)
    ensures Core(Apply(s, CancelTimer(id)))
    ensures var t := Apply(s, CancelTimer(id));
      && t.heap == s.heap && t.phase == s.phase && t.armed == s.armed && t.nextId == s.nextId
      && (forall other :: other in t.owned <==> other in s.owned && other != id)
      && (forall other | other in t.owned :: t.owned[other] == s.owned[other])
      && t.log == s.log + if id in s.owned then [Cancelled(id)] else []
  {
    if id in s.owned {
      var v := Cancelled(id);
      var t := Apply(s, CancelTimer(id));
      forall f | f in Rest(s) ensures EntryAgrees(t, f) {
        assert EntryAgrees(s, f);
      }
      forall w | w in t.log ensures EventAgrees(t, w) {
        assert w in s.log ==> EventAgrees(s, w);
      }
    }
  }

  lemma IdsTakenKeeps(s: State, n: nat)
    requires Core(s)
    ensures Core(Apply(s, IdsTaken(n)))
  {
    var t := Apply(s, IdsTaken(n));
    forall f | f in Rest(t) ensures EntryAgrees(t, f) {
      assert EntryAgrees(s, f);
    }
    forall w | w in t.log ensures EventAgrees(t, w) {
      assert EventAgrees(s, w);
    }
  }

  lemma ClockKeeps(s: State, clock: Timestamp)
    requires Core(s) && Ticks(s, clock)
    ensures Core(s.(clock := clock))
  {
    var t := s.(clock := clock);
    forall f | f in Rest(t) ensures EntryAgrees(t, f) {
      assert EntryAgrees(s, f);
    }
    forall w | w in t.log ensures EventAgrees(t, w) {
      assert EventAgrees(s, w);
    }
  }

  lemma RootInElems(s: State)
    requires |s.heap| >= 2
    ensures s.heap[1] in Elems(s.heap)
  {
    assert s.heap[1] == s.heap[1..][0];
  }

  /** The handler of the root begins: the log grows by an event that is justified. */
  lemma StartKeepsLog(s: State, clock: Timestamp)
    requires Inv(s) && Enabled(s, RunRoot(clock))
    ensures var e := s.heap[1];
      SafeLog(s.log + [Started(e.id, e.timeout, s.owned[e.id].kind, s.phase.now, clock)])
  {
    RootInElems(s);
    var e := s.heap[1];
    assert EntryAgrees(s, e);
    forall w | w in s.log && w.Cancelled? ensures w.id != e.id {
      assert EventAgrees(s, w);
    }
    AppendStarted(s.log, Started(e.id, e.timeout, s.owned[e.id].kind, s.phase.now, clock));
  }

  /** The state in which the root's handler has begun but nothing is re-inserted yet; `timer` is what
      the id is mapped to from now on. */
  lemma BegunKeeps(s: State, clock: Timestamp, timer: Timer)
    requires Core(s) && Enabled(s, RunRoot(clock))
    requires timer.kind == s.owned[s.heap[1].id].kind
    ensures var e := s.heap[1];
      var v := Started(e.id, e.timeout, timer.kind, s.phase.now, clock);
      var u := s.(clock := clock, phase := Running(s.phase.now, e), log := s.log + [v],
                  owned := s.owned[e.id := timer]);
      && Core(u)
      && (forall f | f in Rest(u) :: f.id != e.id)
  {
    RootInElems(s);
    var e := s.heap[1];
    var v := Started(e.id, e.timeout, timer.kind, s.phase.now, clock);
    var u := s.(clock := clock, phase := Running(s.phase.now, e), log := s.log + [v],
                owned := s.owned[e.id := timer]);
    assert EntryAgrees(s, e);
    forall f | f in Rest(u) ensures f.id != e.id && f in Rest(s) && EntryAgrees(u, f) {
      assert Rest(u)[f] >= 1;
      assert f in Rest(s);
      assert EntryAgrees(s, f);
    }
    forall w | w in u.log ensures EventAgrees(u, w) {
      assert w in s.log ==> EventAgrees(s, w);
    }
  }

  lemma StartKeeps(s: State, clock: Timestamp)
    requires Core(s) && Enabled(s, RunRoot(clock))
    ensures Core(Do(s, RunRoot(clock)))
  {
    RootInElems(s);
    var e := s.heap[1];
    var timer := s.owned[e.id];
    assert EntryAgrees(s, e);
    var v := Started(e.id, e.timeout, timer.kind, s.phase.now, clock);
    match timer.kind
    case OneShot =>
      BegunKeeps(s, clock, timer);
      assert s.owned == s.owned[e.id := timer];
    case Every(interval) =>
      var again := Entry(e.id, Add(interval, clock));
      BegunKeeps(s, clock, Timer(again.timeout, timer.kind));
      var u := s.(clock := clock, phase := Running(s.phase.now, e), log := s.log + [v],
                  owned := s.owned[e.id := Timer(again.timeout, timer.kind)]);
      forall w | w in u.log && w.Started? && w.id == e.id
        ensures w.kind == timer.kind
        ensures interval.NearlyCanonical() ==> !again.timeout.Less(Add(interval, w.clock))
      {
        assert EventAgrees(u, w);
        if interval.NearlyCanonical() {
          AddMonotone(interval, w.clock, clock);
        }
      }
      InsertKeeps(u, again);
  }

  lemma RemoveKeeps(s: State, step: Step)
    requires Core(s) && Enabled(s, step) && (step.SkipRoot? || step.Return?)
    ensures Core(Do(s, step))
  {
    RootInElems(s);
    var t := Do(s, step);
    EraseRemoves(EntryLess, s.heap, 1);
    assert Rest(t) <= Rest(s);
    forall f | f in Rest(t) ensures EntryAgrees(t, f) {
      assert f in Rest(s);
      assert EntryAgrees(s, f);
    }
    forall w | w in t.log ensures EventAgrees(t, w) {
      assert EventAgrees(s, w);
    }
  }

  lemma PhaseKeeps(s: State, armed: Option<Timestamp>, phase: Phase)
    requires Core(s) && !s.phase.Running? && !phase.Running?
    ensures Core(s.(armed := armed, phase := phase))
  {
    var t := s.(armed := armed, phase := phase);
    forall f | f in Rest(t) ensures EntryAgrees(t, f) {
      assert EntryAgrees(s, f);
    }
    forall w | w in t.log ensures EventAgrees(t, w) {
      assert EventAgrees(s, w);
    }
  }

  lemma CallKeeps(s: State, cmd: Command, clock: Timestamp)
    requires Core(s) && Enabled(s, Call(cmd, clock))
    ensures Core(Do(s, Call(cmd, clock)))
  {
    ClockKeeps(s, clock);
    var s1 := s.(clock := clock);
    match cmd
    case RunAt(timeout) => NewTimerKeeps(s1, timeout, OneShot);
    case RunAfter(delay) => NewTimerKeeps(s1, Add(delay, clock), OneShot);
    case RunEvery(interval) => NewTimerKeeps(s1, interval, Every(interval));
    case CancelTimer(id) => CancelKeeps(s1, id);
    case IdsTaken(n) => IdsTakenKeeps(s1, n);
  }

  lemma LogKeeps(s: State, step: Step)
    requires Inv(s) && Enabled(s, step)
    ensures SafeLog(Do(s, step).log)
  {
    if step.RunRoot? {
      StartKeepsLog(s, step.clock);
    } else if Do(s, step).log != s.log {
      AppendQuiet(s.log, Do(s, step).log[|s.log|]);
    }
  }

  lemma CoreKeeps(s: State, step: Step)
    requires Core(s) && Enabled(s, step)
    ensures Core(Do(s, step))
  {
    match step
    case Call(cmd, clock) => CallKeeps(s, cmd, clock);
    case Fire(clock) =>
      ClockKeeps(s, clock);
      PhaseKeeps(s.(clock := clock), None, Do(s, step).phase);
    case RunRoot(clock) => StartKeeps(s, clock);
    case SkipRoot => RemoveKeeps(s, step);
    case Return => RemoveKeeps(s, step);
    case Finish => PhaseKeeps(s, Do(s, step).armed, Idle);
  }

  lemma StepKeeps(s: State, step: Step)
    requires Inv(s) && Enabled(s, step)
    ensures Inv(Do(s, step))
  {
    LogKeeps(s, step);
    CoreKeeps(s, step);
  }

  lemma {:induction false} RunKeeps(s: State, steps: seq<Step>)
    requires Inv(s) && Possible(s, steps)
    ensures Inv(Run(s, steps))
    decreases steps
  {
    if steps != [] {
      StepKeeps(s, steps[0]);
      RunKeeps(Do(s, steps[0]), steps[1..]);
    }
  }

  /** Whole-run safety, over every interleaving of client calls, calls made inside handlers, and sweeps. */
  lemma TimersAreSafe(steps: seq<Step>)
    requires Possible(INIT, steps)
    ensures var s := Run(INIT, steps);
      && NeverEarly(s.log) && NeverCancelled(s.log) && OnceOnly(s.log) && AsRequested(s.log) && Spaced(s.log)
      && |s.heap| >= 1
      && OneEntryPerId(Rest(s))
  {
    assert Inv(INIT);
    RunKeeps(INIT, steps);
  }

  /** Whatever the handler did, the entry that delete_min removes next is the one whose handler ran. */
  lemma ReturnDeletesTheRunningEntry(steps: seq<Step>)
    requires Possible(INIT, steps)
    requires Run(INIT, steps).phase.Running?
    ensures var s := Run(INIT, steps);
      && Enabled(s, Return)
      && s.heap[1] == s.phase.entry
      && Elems(Do(s, Return).heap) == Elems(s.heap) - multiset{s.phase.entry}
  {
    assert Inv(INIT);
    RunKeeps(INIT, steps);
    EraseRemoves(EntryLess, Run(INIT, steps).heap, 1);
  }
}
