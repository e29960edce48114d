/** The responses of the server (src/http/HttpServer.cpp) on the write queue of their connection: the head of a
    response is queued when its request is served, and its file only when the head has been written. */
module ServerReplies {
  import opened HttpServers
  import opened HttpRequest

  /** What is queued for the id-th request that was served. */
  datatype Task = Head(id: nat) | File(id: nat)

  datatype State = State(
    queue: seq<Task>,   // writTasks_
    done: seq<Task>,    // what was written, in order
    served: nat)        // how many requests were served

  const INIT := State([], [], 0)

  /** A request is served, or the front task is written to its end and its handler runs. */
  datatype Step = Serve | Written

  predicate Enabled(s: State, step: Step) {
    step.Written? ==> s.queue != []
  }

  function Do(s: State, step: Step): State
    requires Enabled(s, step)
  {
    match step
    case Serve => s.(queue := s.queue + [Head(s.served)], served := s.served + 1)
    case Written =>
      var front := s.queue[0];
      s.(queue := s.queue[1..] + Next(front), done := s.done + [front])
  }

  /** What the handler of a task queues. */
  function Next(task: Task): seq<Task> {
    if task.Head? then [File(task.id)] else []
  }

  predicate Possible(s: State, steps: seq<Step>)
    decreases steps
  {
    steps == [] || (Enabled(s, steps[0]) && Possible(Do(s, steps[0]), steps[1..]))
  }

  function Run(s: State, steps: seq<Step>): State
    requires Possible(s, steps)
    decreases steps
  {
    if steps == [] then s else Run(Do(s, steps[0]), steps[1..])
  }

  /** Everything that was queued, in the order in which it is written. */
  function Log(s: State): seq<Task> {
    s.done + s.queue
  }

  /** Response by response, each with its head in front of its file. */
  predicate InOrder(ts: seq<Task>) {
    forall i | 0 <= i < |ts| :: ts[i] == if i % 2 == 0 then Head(i / 2) else File(i / 2)
  }

  predicate HeadPending(s: State) {
    exists i | 0 <= i < |s.queue| :: s.queue[i].Head?
  }

  /** No request is served while the head of another response is still to be written. */
  predicate NeverTwoHeads(s: State, steps: seq<Step>)
    requires Possible(s, steps)
    decreases steps
  {
    steps == []
    || ((steps[0].Serve? ==> !HeadPending(s)) && NeverTwoHeads(Do(s, steps[0]), steps[1..]))
  }

  /** While that is so, at most the last task in the queue is a head. */
  ghost predicate Regular(s: State) {
    && InOrder(Log(s))
    && |Log(s)| == 2 * s.served - (if HeadPending(s) then 1 else 0)
    && forall i | 0 <= i < |s.queue| - 1 :: s.queue[i].File?
  }

  lemma ServeRegular(s: State)
    requires Regular(s)
    ensures if HeadPending(s) then !InOrder(Log(Do(s, Serve))) else Regular(Do(s, Serve))
  {
    var t := Do(s, Serve);
    assert t.queue[|s.queue|] == Head(s.served) && Log(t) == Log(s) + [Head(s.served)];
    assert Log(t)[|Log(s)|] == Head(s.served);
  }

  lemma WrittenRegular(s: State)
    requires Regular(s) && s.queue != []
    ensures Regular(Do(s, Written))
  {
    var t, front := Do(s, Written), s.queue[0];
    assert Log(s)[|s.done|] == front;
    if front.Head? {
      assert |s.queue| == 1 && Log(t) == Log(s) + [File(front.id)];
    } else {
      assert Log(t) == Log(s);
      assert forall i | 0 <= i < |t.queue| :: t.queue[i] == s.queue[i + 1];
      if HeadPending(s) {
        assert t.queue[|t.queue| - 1].Head?;
      }
    }
  }

  /** What is queued stays queued, or written, in its place. */
  lemma LogGrows(s: State, step: Step)
    requires Enabled(s, step)
    ensures Log(s) <= Log(Do(s, step))
  {
  }

  lemma {:induction false} DisorderStays(s: State, steps: seq<Step>)
    requires Possible(s, steps) && !InOrder(Log(s))
    ensures !InOrder(Log(Run(s, steps)))
    decreases steps
  {
    if steps != [] {
      LogGrows(s, steps[0]);
      DisorderStays(Do(s, steps[0]), steps[1..]);
    }
  }

  lemma {:induction false} RegularRun(s: State, steps: seq<Step>)
    requires Regular(s) && Possible(s, steps)
    ensures InOrder(Log(Run(s, steps))) <==> NeverTwoHeads(s, steps)
    decreases steps
  {
    hide Do, HeadPending, InOrder, Log;
    if steps != [] {
      var t := Do(s, steps[0]);
      if steps[0].Serve? {
        ServeRegular(s);
      } else {
        WrittenRegular(s);
      }
      if steps[0].Serve? && HeadPending(s) {
        DisorderStays(t, steps[1..]);
      } else {
        RegularRun(t, steps[1..]);
      }
    }
  }

  /** Over every interleaving of requests and writes, the responses come out one after the other, each with its
      file behind its head, iff no request is served while the head of another is still to be written. */
  lemma ResponsesInOrderIff(steps: seq<Step>)
    requires Possible(INIT, steps)
    ensures InOrder(Log(Run(INIT, steps))) <==> NeverTwoHeads(INIT, steps)
  {
    RegularRun(INIT, steps);
  }

  // ---------- several requests in one read event ----------

  function HeadTasks(n: nat): (ts: seq<Task>)
    ensures |ts| == n
  {
    seq(n, i requires 0 <= i => Head(i))
  }

  function FileTasks(n: nat): (ts: seq<Task>)
    ensures |ts| == n
  {
    seq(n, i requires 0 <= i => File(i))
  }

  /** The files of the heads in the queue: what will be queued behind it. */
  function Owed(queue: seq<Task>): seq<Task> {
    if queue == [] then []
    else Next(queue[0]) + Owed(queue[1..])
  }

  lemma {:induction false} OwedAppend(a: seq<Task>, b: seq<Task>)
    ensures Owed(a + b) == Owed(a) + Owed(b)
  {
    if a == [] {
      assert a + b == b;
    } else {
      hide Next;
      assert (a + b)[1..] == a[1..] + b;
      OwedAppend(a[1..], b);
      assert Next(a[0]) + (Owed(a[1..]) + Owed(b)) == Next(a[0]) + Owed(a[1..]) + Owed(b);
    }
  }

  /** Everything that will have been written when the queue is empty, if nothing more is served. */
  function Total(s: State): seq<Task> {
    Log(s) + Owed(s.queue)
  }

  lemma WrittenTotal(s: State)
    requires s.queue != []
    ensures Total(Do(s, Written)) == Total(s)
  {
    var front, rest, more := s.queue[0], s.queue[1..], Next(s.queue[0]);
    OwedAppend(rest, more);
    assert Owed(more) == [];
    hide Next, Owed;
    assert s.queue == [front] + rest;
    assert s.done + [front] + (rest + more) + (Owed(rest) + []) == s.done + s.queue + (more + Owed(rest));
  }

  lemma {:induction false} WritesKeepTotal(s: State, steps: seq<Step>)
    requires Possible(s, steps) && forall i | 0 <= i < |steps| :: steps[i].Written?
    ensures Total(Run(s, steps)) == Total(s) && Run(s, steps).served == s.served
    decreases steps
  {
    hide Total;
    if steps != [] {
      WrittenTotal(s);
      WritesKeepTotal(Do(s, steps[0]), steps[1..]);
    }
  }

  /** n requests are served in one read event, on an idle connection. */
  function ServeAtOnce(n: nat): (s: State)
    ensures s.served == n
  {
    if n == 0 then INIT else Do(ServeAtOnce(n - 1), Serve)
  }

  lemma {:induction false} OwedByHeads(n: nat)
    ensures Owed(HeadTasks(n)) == FileTasks(n)
  {
    if n > 0 {
      OwedByHeads(n - 1);
      assert HeadTasks(n) == HeadTasks(n - 1) + [Head(n - 1)];
      OwedAppend(HeadTasks(n - 1), [Head(n - 1)]);
      assert [Head(n - 1)][1..] == [];
      assert Owed([Head(n - 1)]) == [File(n - 1)];
    }
  }

  lemma {:induction false} AtOnce(n: nat)
    ensures ServeAtOnce(n) == State(HeadTasks(n), [], n)
  {
    if n > 0 {
      AtOnce(n - 1);
      assert HeadTasks(n) == HeadTasks(n - 1) + [Head(n - 1)];
    }
  }

  /** Of pipelined requests that arrive in one read event, all heads are written before the first file: with two
      or more of them the client takes the second head for the content of the first response. */
  lemma PipelinedResponsesMix(ps: seq<Printed>, opens: seq<char> -> bool, steps: seq<Step>)
    requires forall i | 0 <= i < |ps| :: Servable(ps[i], opens)
    requires var s := ServeAtOnce(|Loop(START, Stream(ps), opens).served|);
      Possible(s, steps) && (forall i | 0 <= i < |steps| :: steps[i].Written?) && Run(s, steps).queue == []
    ensures var s := ServeAtOnce(|Loop(START, Stream(ps), opens).served|);
      Run(s, steps).done == HeadTasks(|ps|) + FileTasks(|ps|) && (InOrder(Run(s, steps).done) <==> |ps| <= 1)
  {
    hide Loop, Servable, Stream, Heads, Run, Possible, InOrder;
    EverythingServed(ps, opens);
    var n := |ps|;
    var s := ServeAtOnce(n);
    AtOnce(n);
    OwedByHeads(n);
    assert Log(s) == HeadTasks(n);
    WritesKeepTotal(s, steps);
    var t := Run(s, steps);
    assert Total(t) == t.done;
    HeadsFirst(n);
  }

  lemma HeadsFirst(n: nat)
    ensures InOrder(HeadTasks(n) + FileTasks(n)) <==> n <= 1
  {
    var ts := HeadTasks(n) + FileTasks(n);
    if n >= 2 {
      assert ts[1] == Head(1);
    }
  }

  lemma EverythingServed(ps: seq<Printed>, opens: seq<char> -> bool)
    requires forall i | 0 <= i < |ps| :: Servable(ps[i], opens)
    ensures |Loop(START, Stream(ps), opens).served| == |ps|
  {
    hide Servable, Stream, Parse;
    Pipelining(ps, [], opens);
    assert Stream(ps) + [] == Stream(ps);
    ManyHeads(ps);
  }

  lemma {:induction false} ManyHeads(ps: seq<Printed>)
    ensures |Heads(ps)| == |ps|
  {
    hide PrintHead;
    if ps != [] {
      ManyHeads(ps[1..]);
    }
  }
}
