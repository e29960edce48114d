/** The event queue in place: src/BlockingQueue.h, src/EventQueue.cpp and runEventHandler of src/EventLoop.cpp.
    Every method is a run of the step relation in EventQueues. */
module EventLoops {
  import opened EventQueues

  /** push_back and pop_front hold the lock throughout, so each is one step. */
  class BlockingQueue<T> {
    var queue: seq<T>

    constructor ()
      ensures queue == []
    {
      queue := [];
    }

    method PushBack(e: T)
      modifies this
      ensures queue == old(queue) + [e]
    {
      queue := queue + [e];
    }

    /** The front of an empty list is undefined. */
    method PopFront() returns (t: T)
      requires queue != []
      modifies this
      ensures [t] + queue == old(queue)
    {
      t := queue[0];
      queue := queue[1..];
    }

    predicate Empty()
      reads this
    {
      queue == []
    }
  }

  lemma {:induction false} RunAppend(s: State, a: seq<Step>, b: Step)
    requires Possible(s, a) && Enabled(Run(s, a), b)
    ensures Possible(s, a + [b]) && Run(s, a + [b]) == Do(Run(s, a), b)
    decreases a
  {
    if a == [] {
      assert Possible(Do(s, b), []);
      assert ([] + [b])[1..] == [];
    } else {
      assert (a + [b])[1..] == a[1..] + [b];
      RunAppend(Do(s, a[0]), a[1..], b);
    }
  }

  lemma SplitFirst<T>(a: seq<T>, x: T, b: seq<T>, c: seq<T>)
    requires a + ([x] + b) == c + b
    ensures c == a + [x]
  {
    assert a + ([x] + b) == a + [x] + b;
    assert |c| == |a| + 1;
    assert c == (c + b)[..|c|] && a + [x] == (a + [x] + b)[..|c|];
  }

  lemma SplitAll<T>(a: seq<T>, b: seq<T>, c: seq<T>)
    ensures a + b == c + [] ==> c == a + b
  {
    assert c + [] == c;
  }

  class EventQueue {
    const eventHandlers: BlockingQueue<Handler>
    ghost const programs: seq<seq<Handler>>
    var tokens: nat
    var producers: seq<Producer>   // the other threads
    ghost var consumer: Consumer
    ghost var pushed: seq<Handler>
    ghost var pushedBy: seq<nat>
    ghost var executed: seq<Handler>
    ghost var history: seq<Step>

    ghost function View(): State
      reads this, eventHandlers
    {
      State(eventHandlers.queue, tokens, producers, consumer, pushed, pushedBy, executed)
    }

    /** The state is the outcome of a run from the initial state. */
    ghost predicate Valid()
      reads this, eventHandlers
    {
      Possible(Init(programs), history) && View() == Run(Init(programs), history)
    }

    constructor (programs: seq<seq<Handler>>)
      ensures Valid() && View() == Init(programs) && this.programs == programs && tokens == 1000
      ensures fresh(eventHandlers)
    {
      eventHandlers := new BlockingQueue();
      this.programs := programs;
      tokens, producers := 1000, seq(|programs|, i requires 0 <= i < |programs| => Producer(programs[i], false));
      consumer, pushed, pushedBy, executed, history := Polling, [], [], [], [];
    }

    /** pushHandler, called by `who`. */
    method PushHandler(h: Handler, ghost who: nat)
      modifies this`pushed, this`pushedBy, eventHandlers
      ensures eventHandlers.queue == old(eventHandlers.queue) + [h]
      ensures pushed == old(pushed) + [h] && pushedBy == old(pushedBy) + [who]
    {
      eventHandlers.PushBack(h);
      pushed, pushedBy := pushed + [h], pushedBy + [who];
    }

    method Wakeup()
      modifies this`tokens
      ensures tokens == old(tokens) + 1
    {
      tokens := tokens + 1;
    }

    /** The step is possible now; taking it makes the history one longer. */
    lemma Next(step: Step)
      requires Valid() && Enabled(View(), step)
      ensures Possible(Init(programs), history + [step])
      ensures Run(Init(programs), history + [step]) == Do(View(), step)
      ensures Rank(Do(View(), step)) < Rank(View())
    {
      RunAppend(Init(programs), history, step);
      RankFalls(View(), step);
    }

    /** One half of runEventHandler in thread i: the push or the wakeup, whichever is due. */
    method Other(i: nat)
      requires Valid()
      modifies this`tokens, this`producers, this`pushed, this`pushedBy, this`history, eventHandlers
      ensures Valid() && old(history) <= history && Rank(View()) <= Rank(old(View()))
      ensures old(eventHandlers.queue) <= eventHandlers.queue && tokens >= old(tokens)
    {
      if i < |producers| {
        if producers[i].owesWakeup {
          Next(Wake(i));
          Wakeup();
          producers := producers[i := producers[i].(owesWakeup := false)];
          history := history + [Wake(i)];
        } else if producers[i].todo != [] {
          Next(Push(i));
          PushHandler(producers[i].todo[0], i);
          producers := producers[i := Producer(producers[i].todo[1..], true)];
          history := history + [Push(i)];
        }
      }
    }

    /** What the other threads do between two steps of the loop thread. */
    method Others(who: seq<nat>)
      requires Valid()
      modifies this`tokens, this`producers, this`pushed, this`pushedBy, this`history, eventHandlers
      ensures Valid() && old(history) <= history && Rank(View()) <= Rank(old(View()))
      ensures old(eventHandlers.queue) <= eventHandlers.queue && tokens >= old(tokens)
    {
      for k := 0 to |who|
        invariant Valid() && old(history) <= history && Rank(View()) <= Rank(old(View()))
        invariant old(eventHandlers.queue) <= eventHandlers.queue && tokens >= old(tokens)
      {
        Other(who[k]);
      }
    }

    /** runEventHandler, called by the running handler on its own loop. */
    method RunEventHandler(h: Handler, ghost rest: seq<Handler>, between: seq<nat>)
      requires Valid() && consumer == Running([h] + rest, false)
      modifies this`tokens, this`producers, this`pushed, this`pushedBy, this`history, this`consumer, eventHandlers
      ensures Valid() && old(history) <= history && Rank(View()) < Rank(old(View()))
      ensures consumer == Running(rest, false) && executed == old(executed)
      ensures |pushed| == |pushedBy| && |old(pushed)| == |old(pushedBy)|
      ensures By(|programs|, pushed, pushedBy) == By(|programs|, old(pushed), old(pushedBy)) + [h]
    {
      hide Possible, Run, Rank, Init, By, Spawned, NotLost, Conserved;
      NoLostWakeup(programs, history);
      Next(OwnPush);
      PushHandler(h, |producers|);
      consumer, history := Running(rest, true), history + [OwnPush];
      Others(between);
      Next(OwnWake);
      Wakeup();
      consumer, history := Running(rest, false), history + [OwnWake];
      NoLostWakeup(programs, history);
      SplitFirst(By(|programs|, old(pushed), old(pushedBy)), h, rest, By(|programs|, pushed, pushedBy));
    }

    /** The handler runs: it calls runEventHandler for each of its spawns. */
    method RunHandler(h: Handler, env: nat -> seq<nat>, at: nat) returns (k: nat)
      requires Valid() && consumer == Running(h.spawns, false)
      modifies this`tokens, this`producers, this`pushed, this`pushedBy, this`history, this`consumer, eventHandlers
      ensures Valid() && old(history) <= history && Rank(View()) < Rank(old(View()))
      ensures consumer == Draining && executed == old(executed)
      ensures |pushed| == |pushedBy| && |old(pushed)| == |old(pushedBy)|
      ensures By(|programs|, pushed, pushedBy) == By(|programs|, old(pushed), old(pushedBy)) + h.spawns
    {
      hide Possible, Run, Rank, Init, By, Spawned, NotLost, Conserved;
      NoLostWakeup(programs, history);
      k := at;
      for i := 0 to |h.spawns|
        invariant Valid() && old(history) <= history && Rank(View()) <= Rank(old(View()))
        invariant consumer == Running(h.spawns[i..], false) && executed == old(executed)
      {
        assert h.spawns[i..] == [h.spawns[i]] + h.spawns[i + 1..];
        RunEventHandler(h.spawns[i], h.spawns[i + 1..], env(k));
        Others(env(k + 1));
        k := k + 2;
      }
      NoLostWakeup(programs, history);
      SplitAll(By(|programs|, old(pushed), old(pushedBy)), h.spawns, By(|programs|, pushed, pushedBy));
      Next(Done);
      consumer, history := Draining, history + [Done];
    }

    /** The queue was found non-empty: its front is taken and becomes the running handler. */
    method TakeHandler(between: seq<nat>) returns (h: Handler)
      requires Valid() && consumer == Draining && !eventHandlers.Empty()
      modifies this`tokens, this`producers, this`pushed, this`pushedBy, this`history, this`consumer, this`executed,
        eventHandlers
      ensures Valid() && old(history) <= history && Rank(View()) < Rank(old(View()))
      ensures consumer == Running(h.spawns, false)
      ensures h == old(eventHandlers.queue[0]) && executed == old(executed) + [h]
    {
      hide Possible, Run, Rank, Init;
      Next(FindWork);
      consumer, history := Popping, history + [FindWork];
      Others(between);
      Next(Pop);
      h := eventHandlers.PopFront();
      executed, consumer, history := executed + [h], Running(h.spawns, false), history + [Pop];
    }

    /** One round of the drain loop. */
    method ServeOne(env: nat -> seq<nat>, at: nat) returns (k: nat)
      requires Valid() && consumer == Draining && !eventHandlers.Empty()
      modifies this, eventHandlers
      ensures Valid() && old(history) <= history && Rank(View()) < Rank(old(View()))
      ensures consumer == Draining && executed == old(executed) + [old(eventHandlers.queue[0])]
    {
      hide Possible, Run, Rank, Init;
      var h := TakeHandler(env(at));
      Others(env(at + 1));
      k := RunHandler(h, env, at + 2);
      Others(env(k));
      k := k + 1;
    }

    /** The poller reports the descriptor. */
    method BecomeReadable()
      requires Valid() && consumer == Polling && tokens > 0
      modifies this`consumer, this`history
      ensures Valid() && consumer == Reading && history == old(history) + [Ready]
    {
      hide Possible, Run, Rank, Init;
      Next(Ready);
      consumer, history := Reading, history + [Ready];
    }

    /** The read callback: take the tokens, then run handlers until the queue is found empty. env(k) says
        which threads move in the k-th gap. When it returns, everything pushed so far has run. */
    method HandleRead(n: nat, env: nat -> seq<nat>)
      requires Valid() && consumer == Reading && 1 <= n <= tokens
      modifies this, eventHandlers
      ensures Valid() && old(history) <= history
      ensures consumer == Polling && eventHandlers.Empty()
      ensures executed == pushed && old(executed) <= executed
    {
      hide Possible, Run, Rank, Init, NotLost, Conserved;
      Next(Read(n));
      tokens, consumer, history := tokens - n, Draining, history + [Read(n)];
      Others(env(0));
      var k := 1;
      while !eventHandlers.Empty()
        invariant Valid() && old(history) <= history && consumer == Draining
        invariant old(executed) <= executed
        decreases Rank(View())
      {
        k := ServeOne(env, k);
      }
      Next(FindEmpty);
      consumer, history := Polling, history + [FindEmpty];
      NoLostWakeup(programs, history);
    }
  }

  /** In every reachable state of the object no wakeup is lost, and handlers ran in push order. */
  lemma ObjectIsSafe(q: EventQueue)
    requires q.Valid()
    ensures NotLost(q.View()) && InOrder(q.View(), q.programs)
    ensures q.executed + q.eventHandlers.queue == q.pushed && |q.pushed| == |q.pushedBy|
    ensures By(|q.programs|, q.pushed, q.pushedBy) + OwnTodo(q.consumer) == Spawned(q.executed)
  {
    NoLostWakeup(q.programs, q.history);
  }
}
