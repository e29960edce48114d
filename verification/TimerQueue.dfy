/** The in-place timer queue: src/TimerQueue.cpp over the array heap, with the calls of
    src/EventLoop.cpp and src/TimerMixin.cpp. Every method is a run of the step relation in Timers. */
module TimerQueues {
  import opened Wrappers
  import opened BinaryHeaps
  import opened Timestamps
  import opened Timers
  import opened TimerSafety
  import opened TimerDeadlines
  import opened TimerCalls

  /** What one handler does: the calls it makes, each with its clock reading. `start` is the clock when
      the handler begins. */
  datatype Script = Script(start: Timestamp, calls: seq<(Command, Timestamp)>)

  /** A clock reading: gettimeofday is canonical and taken not to run backwards. */
  function Reading(last: Timestamp, raw: Timestamp): (r: Timestamp)
    ensures 0 <= raw.usec < 1000000 && !raw.Less(last) ==> r == raw
  {
    if raw.Canonical() && !raw.Less(last) then raw else last
  }

  /** The steps are exactly the given calls, in order. */
  ghost predicate MakesCalls(steps: seq<Step>, calls: seq<(Command, Timestamp)>) {
    |steps| == |calls| && forall i | 0 <= i < |calls| :: steps[i].Call? && steps[i].cmd == calls[i].0
  }

  /** The steps are one handler from its start to its removal. */
  ghost predicate Serves(steps: seq<Step>, script: Script) {
    && |steps| == |script.calls| + 2
    && steps[0].RunRoot? && steps[|steps| - 1].Return?
    && MakesCalls(steps[1..|steps| - 1], script.calls)
  }

  /** How many handlers the steps start. */
  function Starts(steps: seq<Step>): nat {
    if steps == [] then 0 else (if steps[0].RunRoot? then 1 else 0) + Starts(steps[1..])
  }

  lemma {:induction false} StartsConcat(a: seq<Step>, b: seq<Step>)
    ensures Starts(a + b) == Starts(a) + Starts(b)
  {
    if a == [] {
      assert a + b == b;
    } else {
      assert (a + b)[1..] == a[1..] + b;
      StartsConcat(a[1..], b);
    }
  }

  lemma {:induction false} CallsStartNothing(steps: seq<Step>)
    requires forall i | 0 <= i < |steps| :: steps[i].Call?
    ensures Starts(steps) == 0
  {
    if steps != [] {
      CallsStartNothing(steps[1..]);
    }
  }

  lemma ServesStartsOne(block: seq<Step>, script: Script)
    requires Serves(block, script)
    ensures Starts(block) == 1
  {
    var calls, end := block[1..|block| - 1], [block[|block| - 1]];
    assert block[1..] == calls + end;
    StartsConcat(calls, end);
    CallsStartNothing(calls);
    assert end[1..] == [];
  }

  lemma ServedBlock(h0: seq<Step>, h1: seq<Step>, h2: seq<Step>, h3: seq<Step>, script: Script)
    requires h0 <= h1 && |h1| == |h0| + 1 && h1[|h0|].RunRoot?
    requires h1 <= h2 && MakesCalls(h2[|h1|..], script.calls)
    requires h3 == h2 + [Return]
    ensures h0 <= h3 && Serves(h3[|h0|..], script)
  {
    var block := h3[|h0|..];
    assert block[1..|block| - 1] == h2[|h1|..];
  }

  /** The steps serve the scripts in order, and skip expired roots in between. */
  ghost predicate ServedAs(steps: seq<Step>, scripts: seq<Script>)
    decreases |steps|
  {
    if steps == [] then scripts == []
    else if steps[|steps| - 1].SkipRoot? then ServedAs(steps[..|steps| - 1], scripts)
    else
      && scripts != []
      && var script := scripts[|scripts| - 1];
      var n := |steps| - |script.calls| - 2;
      n >= 0 && Serves(steps[n..], script) && ServedAs(steps[..n], scripts[..|scripts| - 1])
  }

  lemma ServedOneMore(steps: seq<Step>, scripts: seq<Script>, block: seq<Step>, script: Script)
    requires ServedAs(steps, scripts) && Serves(block, script)
    ensures ServedAs(steps + block, scripts + [script])
  {
    var all := steps + block;
    assert all[|all| - 1] == block[|block| - 1];
    assert all[|steps|..] == block && all[..|steps|] == steps;
    assert (scripts + [script])[..|scripts|] == scripts;
  }

  lemma SkippedOneMore(steps: seq<Step>, scripts: seq<Script>)
    requires ServedAs(steps, scripts)
    ensures ServedAs(steps + [SkipRoot], scripts)
  {
    assert (steps + [SkipRoot])[..|steps|] == steps;
  }

  lemma {:induction false} ServedStarts(steps: seq<Step>, scripts: seq<Script>)
    requires ServedAs(steps, scripts)
    ensures Starts(steps) == |scripts|
    decreases |steps|
  {
    if steps != [] {
      var last := |steps| - 1;
      var skipped := steps[last].SkipRoot?;
      var n := if skipped then last else |steps| - |scripts[|scripts| - 1].calls| - 2;
      assert steps == steps[..n] + steps[n..];
      StartsConcat(steps[..n], steps[n..]);
      if skipped {
        assert steps[n..] == [SkipRoot] && [SkipRoot][1..] == [];
        ServedStarts(steps[..n], scripts);
      } else {
        ServesStartsOne(steps[n..], scripts[|scripts| - 1]);
        ServedStarts(steps[..n], scripts[..|scripts| - 1]);
      }
    }
  }

  /** What a sweep adds to the history. */
  function Sweep(now: Timestamp, served: seq<Step>, ended: bool): seq<Step> {
    [Fire(now)] + served + if ended then [Finish] else []
  }

  lemma SweepStarts(before: seq<Step>, now: Timestamp, served: seq<Step>, ended: bool, scripts: seq<Script>)
    requires ServedAs(served, scripts)
    ensures Starts(before + Sweep(now, served, ended)) == Starts(before) + |scripts|
  {
    var tail := if ended then [Finish] else [];
    assert ([Fire(now)] + served + tail)[1..] == served + tail;
    StartsConcat(before, Sweep(now, served, ended));
    StartsConcat(served, tail);
    ServedStarts(served, scripts);
    assert ended ==> tail[1..] == [];
  }

  lemma ServedNothing(scripts: seq<Script>)
    requires scripts == []
    ensures ServedAs([], scripts)
  {
  }

  class TimerQueue {
    const queue: BinaryHeap<Entry>
    var owned: map<nat, Timer>
    var nextId: nat
    var armed: Option<Timestamp>
    var clock: Timestamp
    ghost var phase: Phase
    ghost var log: seq<Event>
    ghost var history: seq<Step>

    ghost predicate Connected()
      reads this, queue
    {
      queue.Valid() && queue.lt == EntryLess && queue.blank == BLANK
    }

    ghost function View(): State
      requires Connected()
      reads this, queue, queue.heap
    {
      State(queue.View(), owned, nextId, armed, clock, phase, log)
    }

    /** The state is the outcome of a run from the initial state. */
    ghost predicate Valid()
      reads this, queue, queue.heap
    {
      Connected() && Possible(INIT, history) && View() == Run(INIT, history)
    }

    constructor ()
      ensures Valid() && View() == INIT
      ensures fresh(queue) && fresh(queue.heap)
    {
      queue := new BinaryHeap(EntryLess, BLANK, 100);
      owned, nextId, armed, clock := map[], 1, None, Timestamp(0, 0);
      phase, log, history := Idle, [], [];
    }

    method Arm(timeout: Timestamp)
      modifies this`armed
      ensures armed == UpdateTimerfd(old(armed), timeout)
    {
      if timeout == Timestamp(0, 0) {
        armed := None;
      } else if timeout.sec >= 0 && timeout.Canonical() {
        armed := Some(timeout);
      }
    }

    /** The queue part of the three overloads of TimerQueue::insert. */
    method Insert(e: Entry)
      requires Connected()
      modifies this`armed, queue, queue.heap
      ensures Connected() && (queue.heap == old(queue.heap) || fresh(queue.heap))
      ensures View() == InsertEntry(old(View()), e)
    {
      if queue.Empty() {
        Arm(e.timeout);
      }
      queue.Insert(e);
    }

    method Create(timeout: Timestamp, kind: Kind)
      requires Connected()
      modifies this, queue, queue.heap
      ensures Connected() && (queue.heap == old(queue.heap) || fresh(queue.heap))
      ensures View() == NewTimer(old(View()), timeout, kind) && history == old(history) && phase == old(phase)
    {
      var id := nextId;
      owned, nextId := owned[id := Timer(timeout, kind)], id + 1;
      log := log + [Created(id, timeout, kind)];
      Insert(Entry(id, timeout));
    }

    method Dispatch(cmd: Command)
      requires Connected()
      modifies this, queue, queue.heap
      ensures Connected() && (queue.heap == old(queue.heap) || fresh(queue.heap))
      ensures View() == Apply(old(View()), cmd) && history == old(history) && phase == old(phase)
      ensures match cmd
        case RunAt(timeout) => old(nextId) in owned && owned[old(nextId)] == Timer(timeout, OneShot)
        case RunAfter(delay) => old(nextId) in owned && owned[old(nextId)] == Timer(Add(delay, clock), OneShot)
        case RunEvery(interval) => old(nextId) in owned && owned[old(nextId)] == Timer(interval, Every(interval))
        case CancelTimer(id) => forall other :: other in owned <==> other in old(owned) && other != id
        case _ => true
    {
      match cmd {
        case RunAt(timeout) => Create(timeout, OneShot);
        case RunAfter(delay) => Create(Add(delay, clock), OneShot);
        case RunEvery(interval) => Create(interval, Every(interval));
        case CancelTimer(id) =>
          if id in owned {
            owned := owned - {id};
            log := log + [Cancelled(id)];
          }
        case IdsTaken(n) => nextId := nextId + n;
      }
    }

    /** One call of the timer interface, between sweeps or from inside the running handler. */
    method Execute(cmd: Command, raw: Timestamp)
      requires Valid() && !phase.Sweeping?
      modifies this, queue, queue.heap
      ensures Valid() && (queue.heap == old(queue.heap) || fresh(queue.heap))
      ensures history == old(history) + [Call(cmd, Reading(old(clock), raw))]
      ensures phase == old(phase)
      ensures match cmd
        case RunAt(timeout) => old(nextId) in owned && owned[old(nextId)] == Timer(timeout, OneShot)
        case RunAfter(delay) => old(nextId) in owned && owned[old(nextId)] == Timer(Add(delay, clock), OneShot)
        case RunEvery(interval) => old(nextId) in owned && owned[old(nextId)] == Timer(interval, Every(interval))
        case CancelTimer(id) => forall other :: other in owned <==> other in old(owned) && other != id
        case _ => true
    {
      hide Apply, Possible, Run;
      ghost var step := Call(cmd, Reading(clock, raw));
      ClockIsCanonical(history);
      Extend(history, step);
      clock := Reading(clock, raw);
      Dispatch(cmd);
      history := history + [step];
    }

    /** `RunRoot`: the handler of the due root begins; a periodic timer re-inserts itself. */
    method Begin(raw: Timestamp)
      requires Valid() && phase.Sweeping? && RootDue(View(), phase.now) && queue.View()[1].id in owned
      modifies this, queue, queue.heap
      ensures Valid() && (queue.heap == old(queue.heap) || fresh(queue.heap))
      ensures history == old(history) + [RunRoot(Reading(old(clock), raw))]
      ensures phase == Running(old(phase).now, old(queue.View())[1])
    {
      hide InsertEntry, Possible, Run;
      ghost var step := RunRoot(Reading(clock, raw));
      ClockIsCanonical(history);
      Extend(history, step);
      var e := queue.FindMin();
      var timer := owned[e.id];
      clock := Reading(clock, raw);
      log := log + [Started(e.id, e.timeout, timer.kind, phase.now, clock)];
      phase := Running(phase.now, e);
      if timer.kind.Every? {
        var next := Add(timer.kind.interval, clock);
        owned := owned[e.id := Timer(next, timer.kind)];
        Insert(Entry(e.id, next));
      }
      history := history + [step];
    }

    /** `SkipRoot` and `Return`: delete_min. */
    method DeleteRoot()
      requires Valid()
      requires phase.Running? || (phase.Sweeping? && RootDue(View(), phase.now) && queue.View()[1].id !in owned)
      modifies this, queue, queue.heap
      ensures Valid() && (queue.heap == old(queue.heap) || fresh(queue.heap))
      ensures history == old(history) + [if old(phase).Running? then Return else SkipRoot]
      ensures phase == Sweeping(old(phase).now) && queue.size == old(queue.size) - 1
    {
      ghost var step := if phase.Running? then Return else SkipRoot;
      ClockIsCanonical(history);
      Extend(history, step);
      ghost var h := queue.View();
      queue.DeleteMin();
      assert |queue.View()| == |h| - 1;
      phase := Sweeping(phase.now);
      history := history + [step];
    }

    /** The calls of one handler, in order. */
    method RunCalls(calls: seq<(Command, Timestamp)>)
      requires Valid() && phase.Running?
      modifies this, queue, queue.heap
      ensures Valid() && (queue.heap == old(queue.heap) || fresh(queue.heap))
      ensures phase == old(phase) && old(history) <= history
      ensures MakesCalls(history[|old(history)|..], calls)
    {
      for i := 0 to |calls|
        invariant Valid() && (queue.heap == old(queue.heap) || fresh(queue.heap))
        invariant phase == old(phase) && old(history) <= history
        invariant MakesCalls(history[|old(history)|..], calls[..i])
      {
        ghost var before := history;
        Execute(calls[i].0, calls[i].1);
        assert history[|old(history)|..] == before[|old(history)|..] + [history[|before|]];
        assert calls[..i + 1] == calls[..i] + [calls[i]];
      }
    }

    /** The due and owned root: its handler runs to the end and the root is deleted. */
    method Serve(script: Script)
      requires Valid() && phase.Sweeping? && RootDue(View(), phase.now) && queue.View()[1].id in owned
      modifies this, queue, queue.heap
      ensures Valid() && (queue.heap == old(queue.heap) || fresh(queue.heap))
      ensures phase == old(phase) && old(history) <= history
      ensures Serves(history[|old(history)|..], script)
    {
      ghost var h0 := history;
      Begin(script.start);
      ghost var h1 := history;
      RunCalls(script.calls);
      ghost var h2 := history;
      DeleteRoot();
      ServedBlock(h0, h1, h2, history, script);
    }

    /** What follows the loop: the timerfd is armed for the new root. */
    method End()
      requires Valid() && phase.Sweeping? && !RootDue(View(), phase.now)
      modifies this
      ensures Valid()
      ensures history == old(history) + [Finish] && phase.Idle?
    {
      Extend(history, Finish);
      if !queue.Empty() {
        Arm(queue.FindMin().timeout);
      }
      phase := Idle;
      history := history + [Finish];
    }

    /** `Fire`: timerfd is readable. */
    method Wake(now: Timestamp)
      requires Valid() && Enabled(View(), Fire(now))
      modifies this
      ensures Valid()
      ensures history == old(history) + [Fire(now)]
      ensures phase == if |View().heap| == 1 then Idle else Sweeping(now)
      ensures View().heap == old(View()).heap
    {
      Extend(history, Fire(now));
      armed, clock := None, now;
      phase := if queue.Empty() then Idle else Sweeping(now);
      history := history + [Fire(now)];
    }

    /** The loop of handleTimeoutEvents: until the root is not due, or until all of `env` was used. */
    method ServeDue(now: Timestamp, env: seq<Script>) returns (ended: bool, used: nat, ghost served: seq<Step>)
      requires Valid() && phase == Sweeping(now)
      modifies this, queue, queue.heap
      ensures Valid() && (queue.heap == old(queue.heap) || fresh(queue.heap))
      ensures phase == Sweeping(now) && used <= |env| && (if ended then !RootDue(View(), now) else used == |env|)
      ensures history == old(history) + served && ServedAs(served, env[..used])
    {
      hide ServedAs, Serves, Possible, Run;
      used, served := 0, [];
      ServedNothing(env[..0]);
      while !queue.Empty() && !now.Less(queue.FindMin().timeout)
        invariant Valid() && (queue.heap == old(queue.heap) || fresh(queue.heap))
        invariant phase == Sweeping(now) && used <= |env|
        invariant history == old(history) + served && ServedAs(served, env[..used])
        decreases |env| - used, queue.size
      {
        ghost var before := history;
        if queue.FindMin().id in owned {
          if used == |env| {
            return false, used, served;
          }
          Serve(env[used]);
          ghost var block := history[|before|..];
          ServedOneMore(served, env[..used], block, env[used]);
          assert env[..used + 1] == env[..used] + [env[used]];
          served, used := served + block, used + 1;
        } else {
          DeleteRoot();
          SkippedOneMore(served, env[..used]);
          served := served + [SkipRoot];
        }
      }
      ended := true;
    }

    /** handleTimeoutEvents, called because timerfd is readable. `env` lists what the handlers do, in the
        order in which they start. The sweep ends, or all of `env` was used and it would go on. */
    method HandleTimeoutEvents(now: Timestamp, env: seq<Script>) returns (used: nat, ghost served: seq<Step>)
      requires Valid() && Enabled(View(), Fire(now))
      modifies this, queue, queue.heap
      ensures Valid() && (queue.heap == old(queue.heap) || fresh(queue.heap))
      ensures used <= |env| && (phase.Idle? || (phase.Sweeping? && used == |env|))
      ensures ServedAs(served, env[..used])
      ensures history == old(history) + Sweep(now, served, phase.Idle? && |old(View()).heap| >= 2)
      ensures |old(View()).heap| == 1 ==> phase.Idle? && used == 0 && served == []
      ensures Starts(history) == Starts(old(history)) + used
    {
      hide ServedAs, Starts;
      used, served := 0, [];
      ghost var was, ended := history, false;
      ServedNothing(env[..0]);
      Wake(now);
      if !queue.Empty() {
        var done;
        done, used, served := ServeDue(now, env);
        if done {
          End();
        }
        ended := done;
      }
      SweepStarts(was, now, served, ended, env[..used]);
    }
  }

  lemma ClockIsCanonical(steps: seq<Step>)
    requires Possible(INIT, steps)
    ensures var s := Run(INIT, steps);
      |s.heap| >= 1 && s.clock.Canonical() && (s.phase.Running? ==> |s.heap| >= 2)
  {
    assert Inv(INIT);
    RunKeeps(INIT, steps);
  }

  lemma Extend(steps: seq<Step>, step: Step)
    requires Possible(INIT, steps) && Enabled(Run(INIT, steps), step)
    ensures Possible(INIT, steps + [step]) && Run(INIT, steps + [step]) == Do(Run(INIT, steps), step)
  {
    RunAppend(INIT, steps, step);
  }

  /** So the object's log is safe at all times, whatever calls led to its state. */
  lemma ObjectIsSafe(q: TimerQueue)
    requires q.Valid()
    ensures SafeLog(q.log) && OneEntryPerId(Rest(q.View()))
    ensures forall i, j | 0 <= i < j < |q.history| && q.history[i].Call? && q.history[i].cmd.CancelTimer? ::
      q.history[i].cmd.id < At(INIT, q.history, i).nextId ==> !StartsTimer(q.history, j, q.history[i].cmd.id)
  {
    TimersAreSafe(q.history);
    forall i, j | 0 <= i < j < |q.history| && q.history[i].Call? && q.history[i].cmd.CancelTimer?
      ensures q.history[i].cmd.id < At(INIT, q.history, i).nextId ==>
              !StartsTimer(q.history, j, q.history[i].cmd.id)
    {
      if q.history[i].cmd.id < At(INIT, q.history, i).nextId {
        CancelledNeverStarts(q.history, i, j, q.history[i].cmd.id);
      }
    }
  }

  /** Every handler that starts is removed when it returns. */
  lemma {:induction false} StartsAreRemoved(s: State, steps: seq<Step>)
    requires Possible(s, steps)
    ensures Starts(steps) + (if s.phase.Running? then 1 else 0)
         <= Removals(steps) + (if Run(s, steps).phase.Running? then 1 else 0)
    decreases steps
  {
    hide Do;
    if steps != [] {
      StepEffect(s, steps[0]);
      StartsAreRemoved(Do(s, steps[0]), steps[1..]);
    }
  }

  /** A sweep whose handlers only enter later timers starts at most as many handlers as entries were due when it
      fired: with more scripts than that, HandleTimeoutEvents runs to its end. */
  lemma QuietSweepEnds(before: seq<Step>, now: Timestamp, sweep: seq<Step>)
    requires Possible(INIT, before) && Enabled(Run(INIT, before), Fire(now)) && |Run(INIT, before).heap| >= 2
    requires Possible(Do(Run(INIT, before), Fire(now)), sweep)
    requires QuietSweep(Do(Run(INIT, before), Fire(now)), sweep)
    requires Run(Do(Run(INIT, before), Fire(now)), sweep).phase.Sweeping?
    ensures Starts(sweep) <= |Due(Run(INIT, before), now)|
  {
    SweepEnds(before, now, sweep);
    StartsAreRemoved(Do(Run(INIT, before), Fire(now)), sweep);
  }
}
