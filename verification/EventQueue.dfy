/** The cross-thread event queue: src/EventQueue.cpp over src/BlockingQueue.h, as steps of any number of
    producer threads interleaved with the loop thread that drains the queue. */
module EventQueues {

  /** A queued handler; running it pushes `spawns` to the same loop, one after the other. */
  datatype Handler = Handler(id: nat, spawns: seq<Handler>)

  /** A thread that calls runEventHandler for `todo`, in order; `owesWakeup` between push and wakeup. */
  datatype Producer = Producer(todo: seq<Handler>, owesWakeup: bool)

  datatype Consumer =
    | Polling                                              // blocked in the poller
    | Reading                                              // the eventfd was reported readable
    | Draining                                             // before the test !eventHandlers_.empty()
    | Popping                                              // the test succeeded
    | Running(todo: seq<Handler>, owesWakeup: bool)        // inside a handler

  datatype State = State(
    queue: seq<Handler>,          // eventHandlers_
    tokens: nat,                  // what a read of the eventfd (or pipe) could still deliver
    producers: seq<Producer>,
    consumer: Consumer,
    pushed: seq<Handler>,         // everything ever pushed, in push order
    pushedBy: seq<nat>,           // who pushed it; |producers| stands for the loop thread itself
    executed: seq<Handler>)       // handlers in the order in which they started

  /** The eventfd is created with the value 1000, so every loop wakes up once by itself. */
  function Init(programs: seq<seq<Handler>>): State {
    State([], 1000, seq(|programs|, i requires 0 <= i < |programs| => Producer(programs[i], false)),
          Polling, [], [], [])
  }

  datatype Step =
    | Push(i: nat)            // producer i: pushHandler
    | Wake(i: nat)            // producer i: wakeup
    | Ready                   // the poller reports the descriptor
    | Read(n: nat)            // the read takes n tokens (an eventfd read takes all of them)
    | FindEmpty
    | FindWork
    | Pop                     // pop_front, and the handler starts
    | OwnPush                 // the running handler pushes to its own loop
    | OwnWake
    | Done                    // the handler returns

  predicate Enabled(s: State, step: Step) {
    match step
    case Push(i) => i < |s.producers| && !s.producers[i].owesWakeup && s.producers[i].todo != []
    case Wake(i) => i < |s.producers| && s.producers[i].owesWakeup
    case Ready => s.consumer.Polling? && s.tokens > 0
    case Read(n) => s.consumer.Reading? && 1 <= n <= s.tokens
    case FindEmpty => s.consumer.Draining? && s.queue == []
    case FindWork => s.consumer.Draining? && s.queue != []
    case Pop => s.consumer.Popping? && s.queue != []
    case OwnPush => s.consumer.Running? && !s.consumer.owesWakeup && s.consumer.todo != []
    case OwnWake => s.consumer.Running? && s.consumer.owesWakeup
    case Done => s.consumer.Running? && !s.consumer.owesWakeup && s.consumer.todo == []
  }

  function Do(s: State, step: Step): State
    requires Enabled(s, step)
  {
    match step
    case Push(i) =>
      var h := s.producers[i].todo[0];
      s.(queue := s.queue + [h], pushed := s.pushed + [h], pushedBy := s.pushedBy + [i],
         producers := s.producers[i := Producer(s.producers[i].todo[1..], true)])
    case Wake(i) =>
      s.(tokens := s.tokens + 1, producers := s.producers[i := s.producers[i].(owesWakeup := false)])
    case Ready => s.(consumer := Reading)
    case Read(n) => s.(tokens := s.tokens - n, consumer := Draining)
    case FindEmpty => s.(consumer := Polling)
    case FindWork => s.(consumer := Popping)
    case Pop =>
      s.(queue := s.queue[1..], executed := s.executed + [s.queue[0]],
         consumer := Running(s.queue[0].spawns, false))
    case OwnPush =>
      var h := s.consumer.todo[0];
      s.(queue := s.queue + [h], pushed := s.pushed + [h], pushedBy := s.pushedBy + [|s.producers|],
         consumer := Running(s.consumer.todo[1..], true))
    case OwnWake => s.(tokens := s.tokens + 1, consumer := s.consumer.(owesWakeup := false))
    case Done => s.(consumer := Draining)
  }

  predicate Possible(s: State, steps: seq<Step>)
    decreases steps
  {
    steps == [] || (Enabled(s, steps[0]) && Possible(Do(s, steps[0]), steps[1..]))
  }

  function Run(s: State, steps: seq<Step>): State
    requires Possible(s, steps)
    decreases steps
  {
    if steps == [] then s else Run(Do(s, steps[0]), steps[1..])
  }

  // ---------- no lost wakeup ----------

  ghost predicate SomeoneOwes(s: State) {
    exists i | 0 <= i < |s.producers| :: s.producers[i].owesWakeup
  }

  /** Work in the queue is never forgotten: a token is pending, a producer still owes its wakeup, or the
      loop thread is still draining. */
  ghost predicate NotLost(s: State) {
    && (s.queue != [] && (s.consumer.Polling? || s.consumer.Reading?) ==> s.tokens > 0 || SomeoneOwes(s))
    && (s.consumer.Reading? ==> s.tokens > 0)
    && (s.consumer.Popping? ==> s.queue != [])
  }

  lemma NotLostStep(s: State, step: Step)
    requires NotLost(s) && Enabled(s, step)
    ensures NotLost(Do(s, step))
  {
    var t := Do(s, step);
    if step.Push? {
      assert t.producers[step.i].owesWakeup;
    } else if !step.Wake? && SomeoneOwes(s) {
      var i :| 0 <= i < |s.producers| && s.producers[i].owesWakeup;
      assert t.producers[i].owesWakeup;
    }
  }

  // ---------- order ----------

  /** What source `who` pushed so far. */
  function By(who: nat, pushed: seq<Handler>, pushedBy: seq<nat>): seq<Handler>
    requires |pushed| == |pushedBy|
  {
    if pushed == [] then []
    else
      var k := |pushed| - 1;
      By(who, pushed[..k], pushedBy[..k]) + if pushedBy[k] == who then [pushed[k]] else []
  }

  /** What the handlers push that ran, one after the other. */
  function Spawned(hs: seq<Handler>): seq<Handler> {
    if hs == [] then [] else Spawned(hs[..|hs| - 1]) + hs[|hs| - 1].spawns
  }

  lemma SpawnedAppend(hs: seq<Handler>, h: Handler)
    ensures Spawned(hs + [h]) == Spawned(hs) + h.spawns
  {
    assert (hs + [h])[..|hs|] == hs;
  }

  /** What the running handler has still to push. */
  function OwnTodo(c: Consumer): seq<Handler> {
    if c.Running? then c.todo else []
  }

  /** Handlers start in push order, each producer's pushes keep the order of its program, and the loop thread itself
      pushes what its handlers spawn, in the order in which they run. */
  ghost predicate InOrder(s: State, programs: seq<seq<Handler>>) {
    && |s.producers| == |programs| && |s.pushed| == |s.pushedBy|
    && s.executed + s.queue == s.pushed
    && (forall k | 0 <= k < |s.pushedBy| :: s.pushedBy[k] <= |programs|)
    && (forall i | 0 <= i < |programs| :: By(i, s.pushed, s.pushedBy) + s.producers[i].todo == programs[i])
    && By(|programs|, s.pushed, s.pushedBy) + OwnTodo(s.consumer) == Spawned(s.executed)
  }

  lemma ByAppend(who: nat, pushed: seq<Handler>, pushedBy: seq<nat>, h: Handler, src: nat)
    requires |pushed| == |pushedBy|
    ensures By(who, pushed + [h], pushedBy + [src]) == By(who, pushed, pushedBy) + if src == who then [h] else []
  {
    assert (pushed + [h])[..|pushed|] == pushed && (pushedBy + [src])[..|pushed|] == pushedBy;
  }

  lemma ProducersPush(s: State, programs: seq<seq<Handler>>, step: Step)
    requires InOrder(s, programs) && Enabled(s, step) && (step.Push? || step.OwnPush?)
    ensures var t := Do(s, step);
      |t.pushed| == |t.pushedBy| && |t.producers| == |programs| &&
      forall i | 0 <= i < |programs| :: By(i, t.pushed, t.pushedBy) + t.producers[i].todo == programs[i]
  {
    hide By;
    var t := Do(s, step);
    var src := if step.Push? then step.i else |s.producers|;
    var h := if step.Push? then s.producers[step.i].todo[0] else s.consumer.todo[0];
    forall i | 0 <= i < |programs|
      ensures By(i, t.pushed, t.pushedBy) + t.producers[i].todo == programs[i]
    {
      ByAppend(i, s.pushed, s.pushedBy, h, src);
      if i == src {
        assert s.producers[i].todo == [h] + t.producers[i].todo;
      }
    }
  }

  lemma InOrderPush(s: State, programs: seq<seq<Handler>>, step: Step)
    requires InOrder(s, programs) && Enabled(s, step) && (step.Push? || step.OwnPush?)
    ensures InOrder(Do(s, step), programs)
  {
    hide By, Spawned;
    var t := Do(s, step);
    ProducersPush(s, programs, step);
    if step.OwnPush? {
      ByAppend(|programs|, s.pushed, s.pushedBy, s.consumer.todo[0], |programs|);
      assert OwnTodo(s.consumer) == [s.consumer.todo[0]] + OwnTodo(t.consumer);
    } else {
      ByAppend(|programs|, s.pushed, s.pushedBy, s.producers[step.i].todo[0], step.i);
    }
  }

  lemma InOrderStep(s: State, programs: seq<seq<Handler>>, step: Step)
    requires InOrder(s, programs) && Enabled(s, step)
    ensures InOrder(Do(s, step), programs)
  {
    hide By, Spawned;
    if step.Push? || step.OwnPush? {
      InOrderPush(s, programs, step);
    } else if step.Pop? {
      assert s.queue == [s.queue[0]] + s.queue[1..];
      SpawnedAppend(s.executed, s.queue[0]);
    }
  }

  // ---------- every run ends, with everything executed ----------

  /** The number of handlers that a handler, or a list of them, stands for. */
  function Nodes(h: Handler): (n: nat)
    ensures n >= 1
    decreases h, 0
  {
    1 + AllNodes(h.spawns)
  }

  function AllNodes(hs: seq<Handler>): (n: nat)
    ensures n >= |hs|
    decreases hs
  {
    if hs == [] then 0 else Nodes(hs[0]) + AllNodes(hs[1..])
  }

  function TodoNodes(ps: seq<Producer>): nat {
    if ps == [] then 0 else AllNodes(ps[0].todo) + TodoNodes(ps[1..])
  }

  function Owed(ps: seq<Producer>): nat {
    if ps == [] then 0 else (if ps[0].owesWakeup then 1 else 0) + Owed(ps[1..])
  }

  /** Handlers not pushed yet, handlers queued, wakeups owed. */
  function Unpushed(s: State): nat {
    TodoNodes(s.producers) + if s.consumer.Running? then AllNodes(s.consumer.todo) else 0
  }

  function OwedIn(s: State): nat {
    Owed(s.producers) + if s.consumer.Running? && s.consumer.owesWakeup then 1 else 0
  }

  function Stage(c: Consumer): nat {
    match c
    case Reading => 0
    case Polling => 1
    case Popping => 1
    case Draining => 2
    case Running(_, _) => 3
  }

  /** A bound on the number of steps that can still happen. */
  function Rank(s: State): nat {
    8 * Unpushed(s) + 8 * (AllNodes(s.queue) - |s.queue|) + 3 * |s.queue|
    + 4 * OwedIn(s) + 3 * s.tokens + Stage(s.consumer)
  }

  lemma {:induction false} AllNodesAppend(a: seq<Handler>, b: seq<Handler>)
    ensures AllNodes(a + b) == AllNodes(a) + AllNodes(b)
  {
    if a == [] {
      assert a + b == b;
    } else {
      assert (a + b)[1..] == a[1..] + b;
      AllNodesAppend(a[1..], b);
    }
  }

  lemma {:induction false} UpdateProducer(ps: seq<Producer>, i: nat, p: Producer)
    requires i < |ps|
    ensures TodoNodes(ps[i := p]) == TodoNodes(ps) - AllNodes(ps[i].todo) + AllNodes(p.todo)
    ensures Owed(ps[i := p]) == Owed(ps) - (if ps[i].owesWakeup then 1 else 0) + (if p.owesWakeup then 1 else 0)
  {
    if i > 0 {
      assert ps[i := p][1..] == ps[1..][i - 1 := p];
      UpdateProducer(ps[1..], i - 1, p);
    } else {
      assert ps[i := p][1..] == ps[1..];
    }
  }

  /** How a step moves handlers and wakeups between the parts of the state. */
  lemma StepCounts(s: State, step: Step)
    requires Enabled(s, step)
    ensures var t := Do(s, step);
      match step
      case Push(i) =>
        AllNodes(t.queue) + Unpushed(t) == AllNodes(s.queue) + Unpushed(s)
        && |t.queue| == |s.queue| + 1 && Unpushed(t) < Unpushed(s) && OwedIn(t) == OwedIn(s) + 1
      case OwnPush =>
        AllNodes(t.queue) + Unpushed(t) == AllNodes(s.queue) + Unpushed(s)
        && |t.queue| == |s.queue| + 1 && Unpushed(t) < Unpushed(s) && OwedIn(t) == OwedIn(s) + 1
      case Pop =>
        1 + AllNodes(t.queue) + Unpushed(t) == AllNodes(s.queue) + Unpushed(s)
        && |t.queue| == |s.queue| - 1 && OwedIn(t) == OwedIn(s)
      case Wake(_) => Unpushed(t) == Unpushed(s) && OwedIn(t) == OwedIn(s) - 1
      case OwnWake => Unpushed(t) == Unpushed(s) && OwedIn(t) == OwedIn(s) - 1
      case _ => Unpushed(t) == Unpushed(s) && OwedIn(t) == OwedIn(s)
  {
    var t := Do(s, step);
    match step
    case Push(i) =>
      UpdateProducer(s.producers, i, t.producers[i]);
      PushCounts(s.queue, s.producers[i].todo);
    case Wake(i) => UpdateProducer(s.producers, i, t.producers[i]);
    case OwnPush => PushCounts(s.queue, s.consumer.todo);
    case Pop => assert AllNodes(s.queue) == Nodes(s.queue[0]) + AllNodes(s.queue[1..]);
    case _ =>
  }

  lemma PushCounts(queue: seq<Handler>, todo: seq<Handler>)
    requires todo != []
    ensures AllNodes(queue + [todo[0]]) + AllNodes(todo[1..]) == AllNodes(queue) + AllNodes(todo)
    ensures AllNodes(todo[1..]) < AllNodes(todo)
  {
    AllNodesAppend(queue, [todo[0]]);
    assert [todo[0]][1..] == [];
    assert AllNodes([todo[0]]) == Nodes(todo[0]) + AllNodes([]);
  }

  lemma RankFalls(s: State, step: Step)
    requires Enabled(s, step)
    ensures Rank(Do(s, step)) < Rank(s)
  {
    StepCounts(s, step);
  }

  /** Executed plus still to come is constant: no handler is dropped or duplicated. */
  ghost predicate Conserved(s: State, total: nat) {
    |s.executed| + AllNodes(s.queue) + Unpushed(s) == total
  }

  lemma ConservedStep(s: State, step: Step, total: nat)
    requires Conserved(s, total) && Enabled(s, step)
    ensures Conserved(Do(s, step), total)
  {
    StepCounts(s, step);
  }

  // ---------- over whole runs ----------

  ghost predicate Inv(s: State, programs: seq<seq<Handler>>, total: nat) {
    NotLost(s) && InOrder(s, programs) && Conserved(s, total)
  }

  lemma {:induction false} RunKeeps(s: State, programs: seq<seq<Handler>>, total: nat, steps: seq<Step>)
    requires Inv(s, programs, total) && Possible(s, steps)
    ensures Inv(Run(s, steps), programs, total)
    ensures |steps| + Rank(Run(s, steps)) <= Rank(s)
    decreases steps
  {
    if steps != [] {
      NotLostStep(s, steps[0]);
      InOrderStep(s, programs, steps[0]);
      ConservedStep(s, steps[0], total);
      RankFalls(s, steps[0]);
      RunKeeps(Do(s, steps[0]), programs, total, steps[1..]);
    }
  }

  /** The handlers in all programs, with everything they spawn. */
  function Total(programs: seq<seq<Handler>>): nat {
    TodoNodes(Init(programs).producers)
  }

  /** Safety in every reachable state. */
  lemma NoLostWakeup(programs: seq<seq<Handler>>, steps: seq<Step>)
    requires Possible(Init(programs), steps)
    ensures var s := Run(Init(programs), steps);
      && NotLost(s)
      && InOrder(s, programs)
      && Conserved(s, Total(programs))
  {
    RunKeeps(Init(programs), programs, Total(programs), steps);
  }

  /** Every run is finite, however the threads are scheduled. */
  lemma EveryRunEnds(programs: seq<seq<Handler>>, steps: seq<Step>)
    requires Possible(Init(programs), steps)
    ensures |steps| <= Rank(Init(programs))
  {
    RunKeeps(Init(programs), programs, Total(programs), steps);
  }

  lemma {:induction false} IdleProducers(ps: seq<Producer>)
    requires forall i | 0 <= i < |ps| :: ps[i].todo == [] && !ps[i].owesWakeup
    ensures TodoNodes(ps) == 0
  {
    if ps != [] {
      IdleProducers(ps[1..]);
    }
  }

  /** The step the loop thread would take next. */
  function LoopStep(s: State): Step {
    match s.consumer
    case Polling => Ready
    case Reading => Read(1)
    case Draining => if s.queue == [] then FindEmpty else FindWork
    case Popping => Pop
    case Running(todo, owesWakeup) => if owesWakeup then OwnWake else if todo == [] then Done else OwnPush
  }

  /** A state without any possible step has nothing left to do. */
  lemma StuckIsDone(s: State)
    requires NotLost(s)
    requires forall step :: !Enabled(s, step)
    ensures s.queue == [] && s.consumer.Polling? && s.tokens == 0
    ensures forall i | 0 <= i < |s.producers| :: s.producers[i].todo == []
    ensures Unpushed(s) == 0
  {
    forall i | 0 <= i < |s.producers| ensures s.producers[i].todo == [] && !s.producers[i].owesWakeup {
      assert !Enabled(s, Push(i)) && !Enabled(s, Wake(i));
    }
    assert !Enabled(s, LoopStep(s));
    IdleProducers(s.producers);
  }

  /** And where a run cannot go on, every handler of every program, and everything they spawned, has
      been executed exactly once, in push order, and nothing else: no wakeup was lost. */
  lemma EndedMeansAllExecuted(programs: seq<seq<Handler>>, steps: seq<Step>)
    requires Possible(Init(programs), steps)
    requires forall step :: !Enabled(Run(Init(programs), steps), step)
    ensures var s := Run(Init(programs), steps);
      && s.queue == [] && s.executed == s.pushed
      && |s.executed| == Total(programs)
      && |s.pushedBy| == |s.pushed|
      && (forall i | 0 <= i < |programs| :: By(i, s.executed, s.pushedBy) == programs[i])
      && By(|programs|, s.executed, s.pushedBy) == Spawned(s.executed)
      && forall k | 0 <= k < |s.pushedBy| :: s.pushedBy[k] <= |programs|
  {
    NoLostWakeup(programs, steps);
    var s := Run(Init(programs), steps);
    StuckIsDone(s);
    assert s.executed == s.pushed;
    forall i | 0 <= i < |programs| ensures By(i, s.executed, s.pushedBy) == programs[i] {
      assert By(i, s.pushed, s.pushedBy) + s.producers[i].todo == programs[i];
    }
  }
}
