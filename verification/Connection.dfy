/** The write queue of src/Connection.cpp: what the steps of sending keep, and the queue in place. */
module WriteQueue {

  /** io_task. A file task carries the bytes behind its descriptor; `len` may promise more than there are. */
  datatype Task =
    | BufferTask(data: seq<char>, handler: bool)
    | FileTask(file: seq<char>, offset: nat, len: nat, handler: bool)
  {
    /** The bytes that sending this task can still put on the wire. */
    function Bytes(): (b: seq<char>)
      ensures FileTask? ==> |b| <= len
    {
      match this
      case BufferTask(data, _) => data
      case FileTask(file, offset, len, _) =>
        if offset >= |file| then [] else if offset + len <= |file| then file[offset..offset + len] else file[offset..]
    }
  }

  /** A file task sends the file from its offset on, up to its length or the end of the file. */
  lemma FileBytes(file: seq<char>, offset: nat, len: nat, handler: bool)
    ensures var b := FileTask(file, offset, len, handler).Bytes();
      && |b| == (if offset >= |file| then 0 else if len <= |file| - offset then len else |file| - offset)
      && forall k | 0 <= k < |b| :: b[k] == file[offset + k]
  {
  }

  function Flat(ts: seq<Task>): seq<char> {
    if ts == [] then [] else ts[0].Bytes() + Flat(ts[1..])
  }

  /** The submissions among the first n that have a completion handler, oldest first. */
  function Handled(ts: seq<Task>, n: nat): seq<nat>
    requires n <= |ts|
  {
    if n == 0 then [] else Handled(ts, n - 1) + if ts[n - 1].handler then [n - 1] else []
  }

  /** Where the last byte of submission n - 1 stands in the stream. */
  function End(ts: seq<Task>, n: nat): nat
    requires n <= |ts|
  {
    if n == 0 then 0 else End(ts, n - 1) + |ts[n - 1].Bytes()|
  }

  datatype State = State(
    tasks: seq<Task>,        // writTasks_
    destroyed: bool,         // destroy_
    writable: bool,          // write interest of the channel
    submitted: seq<Task>,    // every task ever enqueued, as enqueued
    wire: seq<char>,         // everything the kernel took
    inFlight: nat,           // bytes the kernel took that are still in `tasks`
    completed: nat,          // submissions completed, including the front one once its handler started
    frontDone: bool,         // the front task's handler has started
    fired: seq<nat>,         // submissions whose handler started, in that order
    firedAt: seq<nat>)       // |wire| at those moments

  const INIT := State([], false, false, [], [], 0, 0, false, [], [])

  // ---------- the steps ----------

  function Enqueue(s: State, task: Task): State {
    s.(tasks := s.tasks + [task], submitted := s.submitted + [task], writable := true)
  }

  /** The kernel takes the next n bytes of the queue. */
  function Took(s: State, n: nat): State
    requires s.inFlight + n <= |Flat(s.tasks)|
  {
    s.(wire := s.wire + Flat(s.tasks)[s.inFlight..s.inFlight + n], inFlight := s.inFlight + n)
  }

  /** The completion handler of the front task starts, if it has one. */
  function Fire(s: State): State
    requires s.tasks != []
  {
    if s.tasks[0].handler
    then s.(completed := s.completed + 1, frontDone := true,
            fired := s.fired + [s.completed], firedAt := s.firedAt + [|s.wire|])
    else s.(completed := s.completed + 1, frontDone := true)
  }

  function PopFront(s: State): State
    requires s.tasks != [] && s.inFlight >= |s.tasks[0].Bytes()|
  {
    s.(tasks := s.tasks[1..], inFlight := s.inFlight - |s.tasks[0].Bytes()|, frontDone := false)
  }

  /** The first n bytes of a task are gone: retrieve(n), or the update of offset_ and len_. */
  function Cut(task: Task, n: nat): Task
    requires n <= |task.Bytes()|
  {
    match task
    case BufferTask(data, handler) => BufferTask(data[n..], handler)
    case FileTask(file, offset, len, handler) => FileTask(file, offset + n, len - n, handler)
  }

  function CutFront(s: State): State
    requires s.tasks != [] && s.inFlight <= |s.tasks[0].Bytes()|
  {
    s.(tasks := s.tasks[0 := Cut(s.tasks[0], s.inFlight)], inFlight := 0)
  }

  function Destroy(s: State): State {
    if s.destroyed then s else s.(destroyed := true, tasks := [], inFlight := 0, frontDone := false)
  }

  // ---------- what they keep ----------

  /** The wire and the queue together are what was submitted, in order. */
  ghost predicate Conserved(s: State) {
    && s.inFlight <= |Flat(s.tasks)|
    && (if s.destroyed then s.tasks == [] && s.wire <= Flat(s.submitted)
        else s.wire + Flat(s.tasks)[s.inFlight..] == Flat(s.submitted))
  }

  /** The queue is the tail of the submissions, but for the part of the front task that is gone. */
  ghost predicate Aligned(s: State) {
    && |s.tasks| <= |s.submitted|
    && (s.frontDone ==> s.tasks != [])
    && (!s.destroyed ==>
          && s.completed + |s.tasks| == |s.submitted| + (if s.frontDone then 1 else 0)
          && (s.tasks != [] ==>
                && s.tasks[0].handler == s.submitted[|s.submitted| - |s.tasks|].handler
                && s.tasks[1..] == s.submitted[|s.submitted| - |s.tasks| + 1..]))
  }

  /** Handlers start in submission order, at most once each, and only after the last byte of their
      task, and of everything before it, is on the wire. */
  ghost predicate FiredInTime(s: State) {
    && s.completed <= |s.submitted|
    && s.fired == Handled(s.submitted, s.completed)
    && |s.firedAt| == |s.fired|
    && forall j | 0 <= j < |s.fired| ::
         s.fired[j] < |s.submitted| && End(s.submitted, s.fired[j] + 1) <= s.firedAt[j] <= |s.wire|
  }

  /** A live connection with a non-empty queue is interested in writing. */
  ghost predicate Interested(s: State) {
    !s.destroyed && s.tasks != [] ==> s.writable
  }

  ghost predicate Inv(s: State) {
    Conserved(s) && Aligned(s) && FiredInTime(s) && Interested(s)
  }

  lemma {:induction false} FlatAppend(a: seq<Task>, b: seq<Task>)
    ensures Flat(a + b) == Flat(a) + Flat(b)
  {
    if a == [] {
      assert a + b == b;
    } else {
      assert (a + b)[1..] == a[1..] + b;
      FlatAppend(a[1..], b);
    }
  }

  lemma {:induction false} EndIsLength(ts: seq<Task>, n: nat)
    requires n <= |ts|
    ensures End(ts, n) == |Flat(ts[..n])|
    decreases n
  {
    hide Task.Bytes;
    if n == 0 {
      assert ts[..0] == [];
    } else {
      EndIsLength(ts, n - 1);
      PrefixGrows(ts, n - 1);
    }
  }

  lemma PrefixGrows(ts: seq<Task>, k: nat)
    requires k < |ts|
    ensures |Flat(ts[..k + 1])| == |Flat(ts[..k])| + |ts[k].Bytes()|
  {
    assert ts[..k + 1] == ts[..k] + [ts[k]];
    FlatLast(ts[..k], ts[k]);
  }

  lemma FlatLast(ts: seq<Task>, task: Task)
    ensures Flat(ts + [task]) == Flat(ts) + task.Bytes()
  {
    FlatAppend(ts, [task]);
    assert [task][1..] == [];
    assert Flat([task]) == task.Bytes() + Flat([]);
  }

  lemma {:induction false} EndPrefix(ts: seq<Task>, task: Task, n: nat)
    requires n <= |ts|
    ensures End(ts + [task], n) == End(ts, n)
    decreases n
  {
    hide Task.Bytes;
    if n > 0 {
      EndPrefix(ts, task, n - 1);
    }
  }

  lemma {:induction false} HandledPrefix(ts: seq<Task>, task: Task, n: nat)
    requires n <= |ts|
    ensures Handled(ts + [task], n) == Handled(ts, n)
    decreases n
  {
    if n > 0 {
      HandledPrefix(ts, task, n - 1);
    }
  }

  lemma GrowTail(w: seq<char>, f: seq<char>, i: nat, x: seq<char>)
    requires i <= |f|
    ensures w + (f + x)[i..] == w + f[i..] + x
  {
    assert (f + x)[i..] == f[i..] + x;
  }

  lemma TakeTail(w: seq<char>, f: seq<char>, i: nat, n: nat)
    requires i + n <= |f|
    ensures w + f[i..i + n] + f[i + n..] == w + f[i..]
  {
    assert f[i..] == f[i..i + n] + f[i + n..];
  }

  lemma EnqueueConserved(s: State, task: Task)
    requires Conserved(s) && !s.destroyed
    ensures Conserved(Enqueue(s, task))
  {
    FlatAppend(s.tasks, [task]);
    FlatAppend(s.submitted, [task]);
    GrowTail(s.wire, Flat(s.tasks), s.inFlight, Flat([task]));
  }

  lemma EnqueueAligned(s: State, task: Task)
    requires Aligned(s) && !s.destroyed
    ensures Aligned(Enqueue(s, task))
  {
    if s.tasks != [] {
      assert (s.tasks + [task])[1..] == s.tasks[1..] + [task];
    }
  }

  lemma EnqueueFired(s: State, task: Task)
    requires FiredInTime(s)
    ensures FiredInTime(Enqueue(s, task))
  {
    var t := Enqueue(s, task);
    HandledPrefix(s.submitted, task, s.completed);
    forall j | 0 <= j < |s.fired|
      ensures t.fired[j] < |t.submitted| && End(t.submitted, t.fired[j] + 1) <= t.firedAt[j] <= |t.wire|
    {
      EndPrefix(s.submitted, task, s.fired[j] + 1);
    }
  }

  lemma EnqueueKeeps(s: State, task: Task)
    requires Inv(s) && !s.destroyed
    ensures Inv(Enqueue(s, task))
  {
    EnqueueConserved(s, task);
    EnqueueAligned(s, task);
    EnqueueFired(s, task);
  }

  lemma TookConserved(s: State, n: nat)
    requires Conserved(s) && !s.destroyed && s.inFlight + n <= |Flat(s.tasks)|
    ensures Conserved(Took(s, n))
  {
    TakeTail(s.wire, Flat(s.tasks), s.inFlight, n);
  }

  lemma TookFired(s: State, n: nat)
    requires FiredInTime(s) && s.inFlight + n <= |Flat(s.tasks)|
    ensures FiredInTime(Took(s, n))
  {
  }

  lemma TookKeeps(s: State, n: nat)
    requires Inv(s) && !s.destroyed && s.inFlight + n <= |Flat(s.tasks)|
    ensures Inv(Took(s, n))
  {
    TookConserved(s, n);
    TookFired(s, n);
  }

  lemma SplitLength(ts: seq<Task>, n: nat)
    requires n <= |ts|
    ensures |Flat(ts)| == |Flat(ts[..n])| + |Flat(ts[n..])|
  {
    FlatAppend(ts[..n], ts[n..]);
    assert ts == ts[..n] + ts[n..];
  }

  lemma ConservedLength(s: State)
    requires Conserved(s) && !s.destroyed
    ensures |s.wire| + |Flat(s.tasks)| == |Flat(s.submitted)| + s.inFlight
  {
    assert |s.wire + Flat(s.tasks)[s.inFlight..]| == |Flat(s.submitted)|;
  }

  /** When the kernel has all bytes of the front task, the wire holds all submissions up to it. */
  lemma FrontIsOut(s: State)
    requires Conserved(s) && Aligned(s) && !s.destroyed && s.tasks != []
    requires s.inFlight >= |s.tasks[0].Bytes()|
    ensures End(s.submitted, |s.submitted| - |s.tasks| + 1) <= |s.wire|
  {
    var k := |s.submitted| - |s.tasks|;
    EndIsLength(s.submitted, k + 1);
    SplitLength(s.submitted, k + 1);
    ConservedLength(s);
  }

  lemma FireFired(s: State)
    requires FiredInTime(s) && s.tasks != [] && s.completed < |s.submitted|
    requires s.tasks[0].handler == s.submitted[s.completed].handler
    requires End(s.submitted, s.completed + 1) <= |s.wire|
    ensures FiredInTime(Fire(s))
  {
    var t := Fire(s);
    assert t.fired == Handled(s.submitted, s.completed + 1);
  }

  lemma FireRest(s: State)
    requires Conserved(s) && Aligned(s) && !s.destroyed && !s.frontDone && s.tasks != []
    ensures Conserved(Fire(s)) && Aligned(Fire(s))
  {
  }

  lemma FireKeeps(s: State)
    requires Inv(s) && !s.destroyed && !s.frontDone && s.tasks != []
    requires s.inFlight >= |s.tasks[0].Bytes()|
    ensures Inv(Fire(s))
  {
    FrontIsOut(s);
    FireFired(s);
    FireRest(s);
  }

  lemma PopConserved(s: State)
    requires Conserved(s) && !s.destroyed && s.tasks != []
    requires s.inFlight >= |s.tasks[0].Bytes()|
    ensures Conserved(PopFront(s))
  {
    PopTail(s.wire, s.tasks[0].Bytes(), Flat(s.tasks[1..]), s.inFlight);
  }

  lemma PopTail(w: seq<char>, b: seq<char>, r: seq<char>, i: nat)
    requires |b| <= i <= |b| + |r|
    ensures w + r[i - |b|..] == w + (b + r)[i..]
  {
    assert (b + r)[i..] == r[i - |b|..];
  }

  lemma PopAligned(s: State)
    requires Aligned(s) && !s.destroyed && s.frontDone
    requires s.inFlight >= |s.tasks[0].Bytes()|
    ensures Aligned(PopFront(s))
  {
    var k := |s.submitted| - |s.tasks|;
    if |s.tasks| > 1 {
      assert s.tasks[1] == s.tasks[1..][0] == s.submitted[k + 1..][0] == s.submitted[k + 1];
      assert s.tasks[1..][1..] == s.submitted[k + 1..][1..] == s.submitted[k + 2..];
    }
  }

  lemma PopKeeps(s: State)
    requires Inv(s) && !s.destroyed && s.frontDone
    requires s.inFlight >= |s.tasks[0].Bytes()|
    ensures Inv(PopFront(s))
  {
    PopConserved(s);
    PopAligned(s);
  }

  lemma CutBytes(task: Task, n: nat)
    requires n <= |task.Bytes()|
    ensures Cut(task, n).Bytes() == task.Bytes()[n..] && Cut(task, n).handler == task.handler
  {
  }

  lemma CutConserved(s: State)
    requires Conserved(s) && !s.destroyed && s.tasks != []
    requires s.inFlight <= |s.tasks[0].Bytes()|
    ensures Conserved(CutFront(s))
  {
    var b, r, i := s.tasks[0].Bytes(), Flat(s.tasks[1..]), s.inFlight;
    CutBytes(s.tasks[0], i);
    assert CutFront(s).tasks[1..] == s.tasks[1..];
    CutTail(s.wire, b, r, i);
  }

  lemma CutTail(w: seq<char>, b: seq<char>, r: seq<char>, i: nat)
    requires i <= |b|
    ensures w + (b[i..] + r)[0..] == w + (b + r)[i..]
  {
    assert (b + r)[i..] == b[i..] + r;
  }

  lemma CutAligned(s: State)
    requires Aligned(s) && !s.destroyed && s.tasks != []
    requires s.inFlight <= |s.tasks[0].Bytes()|
    ensures Aligned(CutFront(s))
  {
    CutBytes(s.tasks[0], s.inFlight);
    assert CutFront(s).tasks[1..] == s.tasks[1..];
  }

  lemma CutKeeps(s: State)
    requires Inv(s) && !s.destroyed && s.tasks != []
    requires s.inFlight <= |s.tasks[0].Bytes()|
    ensures Inv(CutFront(s))
  {
    CutConserved(s);
    CutAligned(s);
  }

  lemma DestroyKeeps(s: State)
    requires Inv(s)
    ensures Inv(Destroy(s))
  {
    if !s.destroyed {
      assert s.wire == Flat(s.submitted)[..|s.wire|];
    }
  }
}

module Connections {
  import opened Wrappers
  import opened WriteQueue

  /** What a completion handler, or the error callback, does with its connection. */
  datatype Act = SendAct(task: Task) | DestroyAct

  /** One run of a callback and what it did: the handler of a completed submission, which was a file task
      or not, or (None) the error callback. */
  datatype Ran = Ran(task: Option<nat>, ofFile: bool, acts: seq<Act>)

  /** The submissions whose handlers ran. */
  function Completions(rs: seq<Ran>): seq<nat> {
    if rs == [] then []
    else
      var k := |rs| - 1;
      Completions(rs[..k]) + match rs[k].task case None => [] case Some(n) => [n]
  }

  /** What a callback enqueues, and what several do. */
  function Sends(acts: seq<Act>): seq<Task> {
    if acts == [] then []
    else
      var k := |acts| - 1;
      Sends(acts[..k]) + match acts[k] case SendAct(task) => [task] case DestroyAct => []
  }

  function AllSends(rs: seq<Ran>): seq<Task> {
    if rs == [] then [] else AllSends(rs[..|rs| - 1]) + Sends(rs[|rs| - 1].acts)
  }

  /** The result of one writev or sendfile. */
  datatype IoResult = Wrote(n: nat) | Again | Failed

  datatype Outcome =
    | Drained      // the queue is empty
    | WouldBlock   // EAGAIN
    | Partial      // the front task is not finished
    | Closed       // the connection was destroyed, by a handler or after an error
    | Crashed      // the original reaches undefined behaviour

  predicate SendsAfterDestroy(acts: seq<Act>) {
    if acts == [] then false
    else
      var k := |acts| - 1;
      SendsAfterDestroy(acts[..k]) || (acts[k].SendAct? && DestroyAct in acts[..k])
  }

  /** Sending through a destroyed connection uses its reset channel; a file task's handler that
      destroys makes the following pop_front work on an empty deque. */
  predicate Crashing(r: Ran) {
    SendsAfterDestroy(r.acts) || (r.ofFile && DestroyAct in r.acts)
  }

  /** What the k-th callback of an event does. */
  function ActsOf(env: seq<seq<Act>>, k: nat): seq<Act> {
    if k < |env| then env[k] else []
  }

  /** The callbacks since `before`: the completion handlers do what `env` says from `used` on, in order, the
      error callback does `onError`; only the last one can crash; and unless it does, exactly what they all
      enqueue has been added to the submissions. */
  ghost predicate Since(before: seq<Ran>, submitted0: seq<Task>, ran: seq<Ran>, submitted: seq<Task>,
                        env: seq<seq<Act>>, used: nat, onError: seq<Act>, crashed: bool) {
    && before <= ran && submitted0 <= submitted
    && (crashed ==> |before| < |ran| && Crashing(ran[|ran| - 1]))
    && (forall i | |before| <= i < (if crashed then |ran| - 1 else |ran|) :: !Crashing(ran[i]))
    && (!crashed ==> submitted == submitted0 + AllSends(ran[|before|..]))
    && (forall i | |before| <= i < |ran| ::
          ran[i].acts ==
            if ran[i].task.None? then onError
            else if used + i - |before| < |env| then env[used + i - |before|] else [])
  }

  lemma {:induction false} AllSendsAppend(a: seq<Ran>, b: seq<Ran>)
    ensures AllSends(a + b) == AllSends(a) + AllSends(b)
    decreases |b|
  {
    hide Sends;
    if b == [] {
      assert a + b == a;
    } else {
      var k := |b| - 1;
      var c := a + b;
      assert c[..|c| - 1] == a + b[..k] && c[|c| - 1] == b[k];
      AllSendsAppend(a, b[..k]);
      assert AllSends(c) == AllSends(a + b[..k]) + Sends(b[k].acts);
    }
  }

  lemma SinceJoins(a: seq<Ran>, s0: seq<Task>, b: seq<Ran>, s1: seq<Task>, c: seq<Ran>, s2: seq<Task>,
                   env: seq<seq<Act>>, used: nat, onError: seq<Act>, crashed: bool)
    requires Since(a, s0, b, s1, env, used, onError, false)
    requires Since(b, s1, c, s2, env, used + |b| - |a|, onError, crashed)
    ensures Since(a, s0, c, s2, env, used, onError, crashed)
  {
    hide Crashing, ActsOf, AllSends;
    assert forall i | |a| <= i < |b| :: c[i] == b[i];
    SendsJoin(a, b, c);
  }

  lemma SendsJoin(a: seq<Ran>, b: seq<Ran>, c: seq<Ran>)
    requires a <= b <= c
    ensures AllSends(c[|a|..]) == AllSends(b[|a|..]) + AllSends(c[|b|..])
  {
    assert c[|a|..] == b[|a|..] + c[|b|..];
    AllSendsAppend(b[|a|..], c[|b|..]);
  }

  /** One callback more. */
  lemma SinceOne(before: seq<Ran>, s0: seq<Task>, r: Ran, s1: seq<Task>,
                 env: seq<seq<Act>>, used: nat, onError: seq<Act>, crashed: bool)
    requires s0 <= s1 && (crashed <==> Crashing(r)) && (!crashed ==> s1 == s0 + Sends(r.acts))
    requires r.acts == if r.task.Some? then ActsOf(env, used) else onError
    ensures Since(before, s0, before + [r], s1, env, used, onError, crashed)
  {
    assert (before + [r])[|before|..] == [r] && [r][..0] == [];
  }

  lemma SinceNone(before: seq<Ran>, s0: seq<Task>, env: seq<seq<Act>>, used: nat, onError: seq<Act>)
    ensures Since(before, s0, before, s0, env, used, onError, false)
  {
    assert before[|before|..] == [];
  }

  /** How one pass of the write loop ends. */
  datatype Turn = GoOn | Stop(out: Outcome)

  /** The number of buffer tasks at the front of the queue: the iovec that writev gets. */
  function Batch(ts: seq<Task>): (n: nat)
    ensures n <= |ts|
    ensures forall i | 0 <= i < n :: ts[i].BufferTask?
    ensures n < |ts| ==> ts[n].FileTask?
  {
    if ts != [] && ts[0].BufferTask? then 1 + Batch(ts[1..]) else 0
  }

  /** The n bytes are those of the first `done` tasks, the last of them not without bytes. */
  ghost predicate CoversWhole(ts: seq<Task>, n: nat, done: nat) {
    0 < done <= |ts| && |Flat(ts[..done])| == n && |Flat(ts[..done - 1])| < n
  }

  /** The n bytes end inside the task behind the first `done`. */
  ghost predicate EndsInside(ts: seq<Task>, n: nat, done: nat) {
    done < |ts| && |Flat(ts[..done])| < n < |Flat(ts[..done + 1])|
  }

  /** One system call: the queue before it, its result, how many bytes left the queue, how many tasks these
      completed, and how the pass ended. */
  datatype IoCall = IoCall(queue: seq<Task>, res: IoResult, taken: nat, done: nat, turn: Turn)

  /** The kernel reports no more than it was given: bytes of the file at the front, or of a run of buffers. */
  ghost predicate Respects(ts: seq<Task>, n: nat) {
    && ts != []
    && if ts[0].FileTask? then n <= |ts[0].Bytes()|
       else exists m | 0 <= m <= |ts| && (forall i | 0 <= i < m :: ts[i].BufferTask?) :: n <= |Flat(ts[..m])|
  }

  /** Where the bytes of a call end. A file task is completed with its last promised byte. */
  ghost predicate EndsRight(c: IoCall) {
    && c.queue != []
    && if c.queue[0].FileTask? then
         if c.turn.GoOn? then c.done == 1 && c.taken == c.queue[0].len else c.done == 0 && c.taken < c.queue[0].len
       else
         if c.turn.GoOn? then CoversWhole(c.queue, c.taken, c.done) else EndsInside(c.queue, c.taken, c.done)
  }

  /** What a result means: exactly the bytes it reports leave the queue, and exactly the tasks they complete. */
  ghost predicate AsReported(c: IoCall) {
    && c.taken <= |Flat(c.queue)| && c.done <= |c.queue|
    && (c.turn == Stop(WouldBlock) <==> c.res.Again?)
    && c.turn != Stop(Drained)
    && (c.res.Wrote? && c.res.n > 0 && Respects(c.queue, c.res.n) ==> c.taken == c.res.n)
    && (c.res.Wrote? ==> c.taken <= c.res.n)
    && (!c.res.Wrote? ==> c.taken == 0)
    && (c.taken == 0 && !c.res.Again? ==> c.turn == Stop(Closed) || c.turn == Stop(Crashed))
    && (c.turn.GoOn? || c.turn == Stop(Partial) ==> EndsRight(c))
  }

  lemma NothingReported(c: IoCall)
    requires c.taken == 0 && c.done == 0 && c.queue != []
    requires if c.res.Again? then c.turn == Stop(WouldBlock) else c.turn == Stop(Closed) || c.turn == Stop(Crashed)
    requires c.res.Wrote? && c.res.n > 0 ==> !Respects(c.queue, c.res.n)
    ensures AsReported(c)
  {
    hide Respects;
  }

  lemma SomethingReported(c: IoCall)
    requires 0 < c.taken <= |Flat(c.queue)| && c.queue != [] && c.res.Wrote? && c.taken <= c.res.n
    requires Respects(c.queue, c.res.n) ==> c.taken == c.res.n
    requires c.turn != Stop(WouldBlock) && c.turn != Stop(Drained) && c.done <= |c.queue|
    requires c.turn.GoOn? || c.turn == Stop(Partial) ==> EndsRight(c)
    ensures AsReported(c)
  {
    hide Respects, EndsRight;
  }

  /** The connection was destroyed by a completion handler. */
  ghost predicate HandlerDestroyed(rs: seq<Ran>) {
    rs != [] && rs[|rs| - 1].task.Some? && DestroyAct in rs[|rs| - 1].acts
  }

  lemma OfferedRespects(ts: seq<Task>)
    requires ts != []
    ensures forall n: nat :: Respects(ts, n) ==>
      n <= if ts[0].FileTask? then |ts[0].Bytes()| else |Flat(ts[..Batch(ts)])|
  {
    forall n: nat | Respects(ts, n) && ts[0].BufferTask? ensures n <= |Flat(ts[..Batch(ts)])| {
      var m :| 0 <= m <= |ts| && (forall i | 0 <= i < m :: ts[i].BufferTask?) && n <= |Flat(ts[..m])|;
      FlatGrows(ts, m, Batch(ts));
    }
  }

  lemma {:induction false} FlatGrows(ts: seq<Task>, a: nat, b: nat)
    requires a <= b <= |ts|
    ensures |Flat(ts[..a])| <= |Flat(ts[..b])|
    decreases b
  {
    hide Task.Bytes;
    if a < b {
      FlatGrows(ts, a, b - 1);
      PrefixGrows(ts, b - 1);
    }
  }

  /** The front of the queue is the next task of the old one. */
  lemma NextCovered(ts: seq<Task>, done: nat, now: seq<Task>)
    requires done < |ts| && ts[done..] <= now
    ensures now != [] && now[0] == ts[done] && ts[done + 1..] <= now[1..]
    ensures |Flat(ts[..done + 1])| == |Flat(ts[..done])| + |ts[done].Bytes()|
  {
    PrefixGrows(ts, done);
    assert now[0] == ts[done..][0];
    assert ts[done..][1..] == ts[done + 1..];
  }

  /** A run of a callback crashes iff it sends behind destroying, or destroys from a file task. */
  lemma CrashingMeans(r: Ran)
    ensures Crashing(r) <==>
      || (exists i, j | 0 <= i < j < |r.acts| :: r.acts[i].DestroyAct? && r.acts[j].SendAct?)
      || (r.ofFile && exists i | 0 <= i < |r.acts| :: r.acts[i].DestroyAct?)
  {
    CrashMeans(r.acts);
  }

  /** A sequence of acts fails iff one of them sends behind one that destroys. */
  lemma {:induction false} CrashMeans(acts: seq<Act>)
    ensures SendsAfterDestroy(acts) <==>
      exists i, j | 0 <= i < j < |acts| :: acts[i].DestroyAct? && acts[j].SendAct?
    decreases |acts|
  {
    if acts != [] {
      var k := |acts| - 1;
      CrashMeans(acts[..k]);
      if i, j :| 0 <= i < j < |acts| && acts[i].DestroyAct? && acts[j].SendAct? {
        if j < k {
          assert acts[..k][i].DestroyAct? && acts[..k][j].SendAct?;
        } else {
          assert acts[..k][i] == DestroyAct;
        }
      }
      if SendsAfterDestroy(acts[..k]) {
        var i, j :| 0 <= i < j < k && acts[..k][i].DestroyAct? && acts[..k][j].SendAct?;
        assert acts[i].DestroyAct? && acts[j].SendAct?;
      } else if acts[k].SendAct? && DestroyAct in acts[..k] {
        var i :| 0 <= i < k && acts[..k][i] == DestroyAct;
        assert acts[i].DestroyAct? && acts[k].SendAct?;
      }
    }
  }

  lemma NoActs()
    ensures Sends([]) == [] && !SendsAfterDestroy([])
  {
  }

  lemma SendsStep(acts: seq<Act>, i: nat)
    requires i < |acts|
    ensures Sends(acts[..i + 1]) == Sends(acts[..i]) + if acts[i].SendAct? then [acts[i].task] else []
  {
    assert acts[..i + 1][..i] == acts[..i] && acts[..i + 1][i] == acts[i];
  }

  lemma CompletionsStep(rs: seq<Ran>, r: Ran)
    ensures Completions(rs + [r]) == Completions(rs) + if r.task.Some? then [r.task.value] else []
  {
    assert (rs + [r])[..|rs|] == rs;
  }

  lemma PrefixActs(acts: seq<Act>, i: nat)
    requires i < |acts|
    ensures DestroyAct in acts[..i + 1] <==> DestroyAct in acts[..i] || acts[i].DestroyAct?
    ensures SendsAfterDestroy(acts[..i + 1]) <==>
            SendsAfterDestroy(acts[..i]) || (acts[i].SendAct? && DestroyAct in acts[..i])
    ensures SendsAfterDestroy(acts[..i + 1]) ==> SendsAfterDestroy(acts)
    decreases |acts| - i
  {
    assert acts[..i + 1] == acts[..i] + [acts[i]];
    assert acts[..i + 1][..i] == acts[..i];
    if i + 1 < |acts| {
      PrefixActs(acts, i + 1);
    } else {
      assert acts[..i + 1] == acts;
    }
  }

  class Connection {
    var tasks: seq<Task>
    var destroyed: bool
    var writable: bool
    ghost var submitted: seq<Task>
    ghost var wire: seq<char>
    ghost var inFlight: nat
    ghost var completed: nat
    ghost var frontDone: bool
    ghost var fired: seq<nat>
    ghost var firedAt: seq<nat>
    ghost var ran: seq<Ran>

    ghost function View(): State
      reads this
    {
      State(tasks, destroyed, writable, submitted, wire, inFlight, completed, frontDone, fired, firedAt)
    }

    /** The handlers that count as fired are the ones that ran. */
    ghost predicate Linked()
      reads this
    {
      Completions(ran) == fired
    }

    /** Between two events nothing is in flight. */
    ghost predicate Valid()
      reads this
    {
      Inv(View()) && inFlight == 0 && !frontDone && Linked()
    }

    constructor ()
      ensures Valid() && View() == INIT && ran == []
    {
      tasks, destroyed, writable := [], false, false;
      submitted, wire, inFlight, completed, frontDone := [], [], 0, 0, false;
      fired, firedAt, ran := [], [], [];
    }

    /** The end of every send overload and of sendFile: the task is queued and write interest is on. */
    method Send(task: Task)
      requires Inv(View()) && !destroyed
      modifies this`tasks, this`submitted, this`writable
      ensures View() == Enqueue(old(View()), task) && Inv(View())
    {
      EnqueueKeeps(View(), task);
      tasks := tasks + [task];
      submitted := submitted + [task];
      writable := true;
    }

    /** send(const std::string &): an empty string is dropped. */
    method SendString(str: seq<char>, handler: bool)
      requires Inv(View()) && !destroyed
      modifies this`tasks, this`submitted, this`writable
      ensures Inv(View())
      ensures View() == if str == [] then old(View()) else Enqueue(old(View()), BufferTask(str, handler))
    {
      if str != [] {
        Send(BufferTask(str, handler));
      }
    }

    method DestroyNow()
      requires Inv(View())
      modifies this`destroyed, this`tasks, this`inFlight, this`frontDone
      ensures View() == Destroy(old(View())) && Inv(View()) && destroyed
    {
      DestroyKeeps(View());
      if destroyed {
        return;
      }
      destroyed := true;
      tasks := [];
      inFlight, frontDone := 0, false;
    }

    /** What a callback leaves alone, and what it may have added. */
    twostate predicate CallbackRan()
      reads this
    {
      && wire == old(wire) && fired == old(fired) && firedAt == old(firedAt)
      && old(submitted) <= submitted && completed == old(completed) && (old(writable) ==> writable)
      && (!destroyed ==> old(tasks) <= tasks && inFlight == old(inFlight) && frontDone == old(frontDone))
      && (destroyed ==> inFlight == 0 && !frontDone)
    }

    method DoAct(act: Act)
      requires Inv(View()) && (destroyed ==> act.DestroyAct? && inFlight == 0 && !frontDone)
      modifies this`tasks, this`submitted, this`writable, this`destroyed, this`inFlight, this`frontDone
      ensures Inv(View()) && CallbackRan()
      ensures destroyed <==> old(destroyed) || act.DestroyAct?
      ensures submitted == old(submitted) + if act.SendAct? then [act.task] else []
    {
      match act {
        case SendAct(task) => Send(task);
        case DestroyAct => DestroyNow();
      }
    }

    /** A callback performs its acts; it fails when it sends after it destroyed. */
    method RunActs(ghost task: Option<nat>, ofFile: bool, acts: seq<Act>) returns (ok: bool)
      requires Inv(View()) && !destroyed
      modifies this
      ensures Inv(View()) && CallbackRan()
      ensures ran == old(ran) + [Ran(task, ofFile, acts)]
      ensures ok <==> !SendsAfterDestroy(acts)
      ensures ok ==> (destroyed <==> DestroyAct in acts) && submitted == old(submitted) + Sends(acts)
      ensures !ok ==> destroyed
    {
      hide Inv, Sends, SendsAfterDestroy;
      NoActs();
      assert acts[..0] == [];
      ran := ran + [Ran(task, ofFile, acts)];
      for i := 0 to |acts|
        invariant Inv(View()) && CallbackRan()
        invariant ran == old(ran) + [Ran(task, ofFile, acts)]
        invariant submitted == old(submitted) + Sends(acts[..i])
        invariant destroyed <==> DestroyAct in acts[..i]
        invariant !SendsAfterDestroy(acts[..i])
      {
        PrefixActs(acts, i);
        SendsStep(acts, i);
        if acts[i].SendAct? && destroyed {
          return false;
        }
        DoAct(acts[i]);
      }
      assert acts[..|acts|] == acts;
      ok := true;
    }

    /** handleErroEvent: the error callback, then destroy(). */
    method HandleError(onError: seq<Act>, ghost env: seq<seq<Act>>, ghost used: nat) returns (out: Outcome)
      requires Inv(View()) && !destroyed && Linked()
      modifies this
      ensures Inv(View()) && destroyed && inFlight == 0 && !frontDone && Linked()
      ensures wire == old(wire) && fired == old(fired) && (old(writable) ==> writable)
      ensures ran == old(ran) + [Ran(None, false, onError)]
      ensures Since(old(ran), old(submitted), ran, submitted, env, used, onError, out.Crashed?)
      ensures out == if SendsAfterDestroy(onError) then Crashed else Closed
    {
      hide Inv, Since, SendsAfterDestroy, Completions;
      CompletionsStep(ran, Ran(None, false, onError));
      var ok := RunActs(None, false, onError);
      DestroyNow();
      out := if ok then Closed else Crashed;
      SinceOne(old(ran), old(submitted), Ran(None, false, onError), submitted, env, used, onError, out.Crashed?);
    }

    /** The kernel takes n more bytes of the queue. */
    ghost method Take(n: nat)
      requires Inv(View()) && !destroyed && inFlight + n <= |Flat(tasks)|
      modifies this`wire, this`inFlight
      ensures View() == Took(old(View()), n) && Inv(View())
    {
      TookKeeps(View(), n);
      wire := wire + Flat(tasks)[inFlight..inFlight + n];
      inFlight := inFlight + n;
    }

    /** The front task is on the wire and counts as completed. */
    ghost method FireFront()
      requires Inv(View()) && !destroyed && !frontDone && tasks != [] && inFlight >= |tasks[0].Bytes()|
      modifies this`fired, this`firedAt, this`completed, this`frontDone
      ensures View() == Fire(old(View())) && Inv(View())
    {
      FireKeeps(View());
      if tasks[0].handler {
        fired, firedAt := fired + [completed], firedAt + [|wire|];
      }
      completed, frontDone := completed + 1, true;
    }

    method PopFrontTask()
      requires Inv(View()) && !destroyed && frontDone && inFlight >= |tasks[0].Bytes()|
      modifies this`tasks, this`inFlight, this`frontDone
      ensures View() == PopFront(old(View())) && Inv(View())
    {
      PopKeeps(View());
      inFlight := inFlight - |tasks[0].Bytes()|;
      tasks := tasks[1..];
      frontDone := false;
    }

    /** The handler of the completed front task runs, while the task is still in the queue. */
    method RunHandler(acts: seq<Act>, ghost env: seq<seq<Act>>, ghost used: nat, ghost onError: seq<Act>)
      returns (turn: Turn)
      requires Inv(View()) && !destroyed && frontDone && completed > 0 && acts == ActsOf(env, used)
      requires fired == Completions(ran) + [completed - 1]
      modifies this
      ensures Inv(View()) && wire == old(wire) && Linked() && completed == old(completed)
      ensures old(writable) ==> writable
      ensures ran == old(ran) + [Ran(Some(old(completed) - 1), old(tasks)[0].FileTask?, acts)]
      ensures Since(old(ran), old(submitted), ran, submitted, env, used, onError, turn == Stop(Crashed))
      ensures turn.GoOn? ==> !destroyed && old(tasks) <= tasks && inFlight == old(inFlight) && frontDone
      ensures turn.Stop? ==> destroyed && inFlight == 0 && !frontDone && (turn.out.Closed? || turn.out.Crashed?)
      ensures turn.Stop? ==> DestroyAct in acts
    {
      hide Since, SendsAfterDestroy, Completions, ActsOf;
      CrashMeans(acts);
      var ofFile := tasks[0].FileTask?;
      ghost var r := Ran(Some(completed - 1), ofFile, acts);
      CompletionsStep(ran, r);
      var ok := RunActs(r.task, ofFile, acts);
      turn := if !ok || (destroyed && ofFile) then Stop(Crashed) else if destroyed then Stop(Closed) else GoOn;
      SinceOne(old(ran), old(submitted), r, submitted, env, used, onError, turn == Stop(Crashed));
    }

    /** The front task is completed: its handler runs, and the task is popped. */
    method FinishFront(acts: seq<Act>, ghost env: seq<seq<Act>>, ghost used: nat, ghost onError: seq<Act>)
      returns (turn: Turn)
      requires Inv(View()) && !destroyed && !frontDone && tasks != [] && inFlight >= |tasks[0].Bytes()|
      requires Linked() && acts == ActsOf(env, used)
      modifies this
      ensures Inv(View()) && !frontDone && wire == old(wire) && Linked()
      ensures completed == old(completed) + 1 && (old(writable) ==> writable)
      ensures Since(old(ran), old(submitted), ran, submitted, env, used, onError, turn == Stop(Crashed))
      ensures |ran| == |old(ran)| + if old(tasks)[0].handler then 1 else 0
      ensures turn.GoOn? ==>
        !destroyed && old(tasks)[1..] <= tasks && inFlight == old(inFlight) - |old(tasks)[0].Bytes()|
      ensures turn.Stop? ==> destroyed && inFlight == 0 && (turn.out.Closed? || turn.out.Crashed?)
      ensures turn.Stop? ==> |ran| > |old(ran)| && HandlerDestroyed(ran)
    {
      hide Inv, Since, Completions, ActsOf;
      FireFront();
      turn := GoOn;
      if tasks[0].handler {
        turn := RunHandler(acts, env, used, onError);
      } else {
        SinceNone(ran, submitted, env, used, onError);
      }
      if turn.GoOn? {
        PopFrontTask();
      }
    }

    /** What is left of the front task stays: retrieve(n), or the new offset_ and len_. */
    method CutFrontTask(n: nat)
      requires Inv(View()) && !destroyed && !frontDone && tasks != []
      requires n == inFlight <= |tasks[0].Bytes()|
      modifies this`tasks, this`inFlight
      ensures View() == CutFront(old(View())) && Inv(View())
    {
      CutKeeps(View());
      tasks := tasks[0 := Cut(tasks[0], n)];
      inFlight := 0;
    }

    /** ret bytes, all within the first m tasks, are on the wire but not yet accounted for. */
    ghost predicate InBatch(m: nat, ret: nat)
      reads this
    {
      && Inv(View()) && !destroyed && !frontDone && inFlight == ret
      && m <= |tasks| && (forall i | 0 <= i < m :: tasks[i].BufferTask?)
      && ret <= |Flat(tasks[..m])| && Linked()
    }

    /** Nothing is in flight, and the way the turn ended agrees with the state. */
    ghost predicate Settled(turn: Turn)
      reads this
    {
      && Valid()
      && (turn.GoOn? ==> !destroyed)
      && (turn.Stop? ==>
            match turn.out
            case Drained => false
            case WouldBlock => !destroyed && tasks != []
            case Partial => !destroyed && tasks != []
            case Closed => destroyed
            case Crashed => destroyed)
    }

    /** One task of the loop below. */
    method SettleFront(ret: nat, ghost m: nat, acts: seq<Act>,
                       ghost env: seq<seq<Act>>, ghost used: nat, ghost onError: seq<Act>)
      returns (turn: Turn, rest: nat)
      requires ret > 0 && InBatch(m, ret) && acts == ActsOf(env, used)
      modifies this
      ensures wire == old(wire) && (old(writable) ==> writable)
      ensures Since(old(ran), old(submitted), ran, submitted, env, used, onError, turn == Stop(Crashed))
      ensures if turn.GoOn? then m > 0 && InBatch(m - 1, rest) else Settled(turn)
      ensures old(tasks) != [] && m > 0 && completed == old(completed) + if turn == Stop(Partial) then 0 else 1
      ensures turn.GoOn? ==>
        && |ran| == |old(ran)| + (if old(tasks)[0].handler then 1 else 0)
        && rest + |old(tasks)[0].Bytes()| == ret && old(tasks)[1..] <= tasks
      ensures turn == Stop(Partial) ==> ret < |old(tasks)[0].Bytes()|
      ensures turn.Stop? ==> turn.out.Partial? || (|ran| > |old(ran)| && HandlerDestroyed(ran))
      ensures turn != Stop(WouldBlock)
    {
      hide Since, Completions, ActsOf, HandlerDestroyed;
      FrontOfBatch(tasks, m);
      ghost var before := tasks;
      rest := 0;
      if |tasks[0].data| > ret {
        SinceNone(ran, submitted, env, used, onError);
        CutFrontTask(ret);
        return Stop(Partial), 0;
      }
      var size := |tasks[0].data|;
      turn := FinishFront(acts, env, used, onError);
      if turn.GoOn? {
        rest := ret - size;
        BatchShrinks(before, tasks, m);
      }
    }

    /** `while (ret > 0)`: the tasks covered by the ret bytes that writev reported; `done` of them are completed. */
    method Settle(ret0: nat, ghost batch: nat, env: seq<seq<Act>>, used0: nat, ghost onError: seq<Act>)
      returns (turn: Turn, used: nat, ghost done: nat)
      requires InBatch(batch, ret0) && ret0 > 0
      modifies this
      ensures Settled(turn)
      ensures wire == old(wire) && (old(writable) ==> writable)
      ensures Since(old(ran), old(submitted), ran, submitted, env, used0, onError, turn == Stop(Crashed))
      ensures turn.GoOn? ==> used == used0 + |ran| - |old(ran)|
      ensures completed == old(completed) + done && done <= |old(tasks)|
      ensures turn.GoOn? ==> CoversWhole(old(tasks), ret0, done) && old(tasks)[done..] <= tasks
      ensures turn == Stop(Partial) ==> EndsInside(old(tasks), ret0, done)
      ensures turn.Stop? ==> turn.out.Partial? || (|ran| > |old(ran)| && HandlerDestroyed(ran))
      ensures turn != Stop(WouldBlock)
    {
      hide Since, Completions, ActsOf, Inv, HandlerDestroyed, Flat;
      NoTasks();
      var ret: nat := ret0;
      ghost var m: nat := batch;
      used, done := used0, 0;
      turn := GoOn;
      SinceNone(ran, submitted, env, used0, onError);
      assert tasks[..0] == [] && tasks[0..] == tasks;
      while ret > 0
        invariant InBatch(m, ret) && turn.GoOn? && m + done == batch <= |old(tasks)|
        invariant wire == old(wire) && used == used0 + |ran| - |old(ran)| && (old(writable) ==> writable)
        invariant |old(ran)| <= |ran|
        invariant completed == old(completed) + done && old(tasks)[done..] <= tasks
        invariant |Flat(old(tasks)[..done])| + ret == ret0
        invariant done > 0 ==> |Flat(old(tasks)[..done - 1])| < ret0
        invariant Since(old(ran), old(submitted), ran, submitted, env, used0, onError, false)
        decreases m
      {
        ghost var r0, s0, before := ran, submitted, tasks;
        FrontOfBatch(tasks, m);
        var handler := tasks[0].handler;
        turn, ret := SettleFront(ret, m, ActsOf(env, used), env, used, onError);
        SinceJoins(old(ran), old(submitted), r0, s0, ran, submitted, env, used0, onError, turn == Stop(Crashed));
        NextCovered(old(tasks), done, before);
        if turn.Stop? {
          done := done + if turn.out.Partial? then 0 else 1;
          return;
        }
        used := used + if handler then 1 else 0;
        m, done := m - 1, done + 1;
      }
      assert old(tasks)[..0] == [];
    }

    /** sendfile took ret bytes of the file task at the front. */
    method FileTaken(ghost res: IoResult, ret: nat, acts: seq<Act>,
                     ghost env: seq<seq<Act>>, ghost used: nat, ghost onError: seq<Act>)
      returns (turn: Turn, ghost done: nat)
      requires Valid() && !destroyed && tasks != [] && tasks[0].FileTask?
      requires 0 < ret <= |tasks[0].Bytes()| && acts == ActsOf(env, used)
      modifies this
      ensures Settled(turn) && (old(writable) ==> writable)
      ensures ret <= |Flat(old(tasks))| && wire == old(wire) + Flat(old(tasks))[..ret]
      ensures Since(old(ran), old(submitted), ran, submitted, env, used, onError, turn == Stop(Crashed))
      ensures turn.GoOn? ==> |ran| == |old(ran)| + if old(tasks)[0].handler then 1 else 0
      ensures completed == old(completed) + done && done <= |old(tasks)|
      ensures turn.GoOn? ==> old(tasks)[done..] <= tasks
      ensures turn.GoOn? || turn == Stop(Partial) ==> EndsRight(IoCall(old(tasks), res, ret, done, turn))
      ensures turn.Stop? ==> turn.out.Partial? || (|ran| > |old(ran)| && HandlerDestroyed(ran))
      ensures turn != Stop(WouldBlock)
    {
      hide Since, Completions, ActsOf, HandlerDestroyed;
      FrontBytes(tasks);
      Take(ret);
      if ret == tasks[0].len {
        turn := FinishFront(acts, env, used, onError);
      } else {
        SinceNone(ran, submitted, env, used, onError);
        CutFrontTask(ret);
        turn := Stop(Partial);
      }
      done := if turn == Stop(Partial) then 0 else 1;
    }

    /** writev took ret bytes of the leading buffer tasks. */
    method BuffersTaken(ghost res: IoResult, ret: nat, env: seq<seq<Act>>, used0: nat, ghost onError: seq<Act>)
      returns (turn: Turn, used: nat, ghost done: nat)
      requires Valid() && !destroyed && tasks != [] && tasks[0].BufferTask?
      requires 0 < ret <= |Flat(tasks[..Batch(tasks)])|
      modifies this
      ensures Settled(turn) && (old(writable) ==> writable)
      ensures ret <= |Flat(old(tasks))| && wire == old(wire) + Flat(old(tasks))[..ret]
      ensures Since(old(ran), old(submitted), ran, submitted, env, used0, onError, turn == Stop(Crashed))
      ensures turn.GoOn? ==> used == used0 + |ran| - |old(ran)|
      ensures completed == old(completed) + done && done <= |old(tasks)|
      ensures turn.GoOn? ==> old(tasks)[done..] <= tasks
      ensures turn.GoOn? || turn == Stop(Partial) ==> EndsRight(IoCall(old(tasks), res, ret, done, turn))
      ensures turn.Stop? ==> turn.out.Partial? || (|ran| > |old(ran)| && HandlerDestroyed(ran))
      ensures turn != Stop(WouldBlock)
    {
      hide Since, Completions, HandlerDestroyed;
      SplitLength(tasks, Batch(tasks));
      Take(ret);
      turn, used, done := Settle(ret, Batch(tasks), env, used0, onError);
    }

    /** One pass of the write loop: the system call that fits the front task, and what follows from it. `call` is
        the record of it. */
    method WriteTurn(res: IoResult, env: seq<seq<Act>>, used0: nat, onError: seq<Act>)
      returns (turn: Turn, used: nat, ghost call: IoCall)
      requires Valid() && !destroyed && tasks != []
      modifies this
      ensures Settled(turn) && (old(writable) ==> writable)
      ensures Since(old(ran), old(submitted), ran, submitted, env, used0, onError, turn == Stop(Crashed))
      ensures turn.GoOn? ==> used == used0 + |ran| - |old(ran)|
      ensures call.queue == old(tasks) && call.res == res && call.turn == turn && AsReported(call)
      ensures wire == old(wire) + Flat(old(tasks))[..call.taken]
      ensures turn.GoOn? || turn == Stop(Partial) ==> completed == old(completed) + call.done
      ensures turn.GoOn? ==> old(tasks)[call.done..] <= tasks
      ensures turn == Stop(Closed) || turn == Stop(Crashed) ==>
        |ran| > |old(ran)| && (if call.taken == 0 then ran[|ran| - 1].task.None? else HandlerDestroyed(ran))
    {
      hide Since, Completions, ActsOf, HandlerDestroyed, AsReported, Respects, EndsRight, Inv;
      used := used0;
      if res.Again? {
        SinceNone(ran, submitted, env, used0, onError);
        call := IoCall(tasks, res, 0, 0, Stop(WouldBlock));
        NothingReported(call);
        return Stop(WouldBlock), used, call;
      }
      OfferedRespects(tasks);
      var offered := if tasks[0].FileTask? then |tasks[0].Bytes()| else |Flat(tasks[..Batch(tasks)])|;
      var ret := if res.Failed? then 0 else if res.n < offered then res.n else offered;
      ghost var done := 0;
      if ret == 0 {
        var out := HandleError(onError, env, used);
        turn := Stop(out);
      } else if tasks[0].FileTask? {
        var handler := tasks[0].handler;
        turn, done := FileTaken(res, ret, ActsOf(env, used), env, used, onError);
        used := used + if handler then 1 else 0;
      } else {
        turn, used, done := BuffersTaken(res, ret, env, used, onError);
      }
      call := IoCall(old(tasks), res, ret, done, turn);
      if ret == 0 {
        NothingReported(call);
      } else {
        SomethingReported(call);
      }
    }

    /** handleWritEvent. `results` are the outcomes of the system calls it makes, the socket would block
        after the last of them; `env` is what the completion handlers do, in the order in which they
        run; `onError` is what the error callback does. `calls` records the system calls. */
    method HandleWritEvent(results: seq<IoResult>, env: seq<seq<Act>>, onError: seq<Act>)
      returns (out: Outcome, ghost calls: seq<IoCall>)
      requires Valid() && !destroyed
      modifies this
      ensures Valid()
      ensures Since(old(ran), old(submitted), ran, submitted, env, 0, onError, out.Crashed?)
      ensures CallsFollow(calls, old(tasks), results) && out == EndOf(calls)
      ensures wire == old(wire) + AllTaken(calls)
      ensures match out
        case Drained => !destroyed && tasks == []
        case WouldBlock => !destroyed && tasks != []
        case Partial => !destroyed && tasks != []
        case Closed => destroyed
        case Crashed => destroyed
      ensures out.Closed? || out.Crashed? ==>
        && calls != [] && |ran| > |old(ran)|
        && if calls[|calls| - 1].taken == 0 then ran[|ran| - 1].task.None? else HandlerDestroyed(ran)
      ensures if old(tasks) == [] then out.Drained? && !writable else old(writable) ==> writable
    {
      hide Inv, Since, Completions, AsReported, HandlerDestroyed, AllTaken;
      calls := [];
      SinceNone(ran, submitted, env, 0, onError);
      NothingTaken(wire);
      // The temporary DeferCaller runs here, at the entry.
      if tasks == [] {
        Disinterest();
      }
      var used := 0;
      var made := 0;
      while tasks != []
        invariant Valid() && !destroyed && used == |ran| - |old(ran)|
        invariant Since(old(ran), old(submitted), ran, submitted, env, 0, onError, false)
        invariant made == |calls| <= |results| && CallsFollow(calls, old(tasks), results)
        invariant wire == old(wire) + AllTaken(calls)
        invariant if calls == [] then tasks == old(tasks)
                  else calls[made - 1].turn.GoOn? && Leaves(calls[made - 1], tasks)
        invariant if old(tasks) == [] then tasks == [] && !writable else old(writable) ==> writable
        decreases |results| - made
      {
        var res := if made < |results| then results[made] else Again;
        ghost var r0, s0 := ran, submitted;
        var turn; ghost var call;
        turn, used, call := WriteTurn(res, env, used, onError);
        SinceJoins(old(ran), old(submitted), r0, s0, ran, submitted, env, 0, onError, turn == Stop(Crashed));
        OneMoreCall(calls, old(tasks), results, call);
        OneMoreTaken(calls, call, old(wire));
        calls := calls + [call];
        if turn.Stop? {
          return turn.out, calls;
        }
        ReportedGoesOn(call);
        assert Leaves(call, tasks);
        made := made + 1;
      }
      out := Drained;
    }

    /** enableWrit(false) on an empty queue. */
    method Disinterest()
      requires Valid() && tasks == []
      modifies this`writable
      ensures Valid() && !writable
    {
      writable := false;
    }
  }

  /** A live connection whose queue is empty has sent every byte ever submitted, in order, and every
      completion handler has run. */
  lemma DrainedMeansAllSent(c: Connection)
    requires c.Valid() && !c.destroyed && c.tasks == []
    ensures c.wire == Flat(c.submitted)
    ensures Completions(c.ran) == Handled(c.submitted, |c.submitted|)
  {
    assert Flat(c.tasks) == [];
    assert c.wire + Flat(c.tasks)[c.inFlight..] == Flat(c.submitted);
  }

  /** In general the wire is a prefix of the submissions, and the handler of submission k has not run
      before all bytes up to the end of k were sent. */
  lemma HandlersRunInTime(c: Connection, j: nat)
    requires c.Valid() && j < |c.fired|
    ensures c.wire <= Flat(c.submitted)
    ensures c.fired[j] < |c.submitted| && End(c.submitted, c.fired[j] + 1) <= |c.wire|
    ensures c.fired == Completions(c.ran) == Handled(c.submitted, c.completed)
  {
    assert !c.destroyed ==> c.wire <= Flat(c.submitted) by {
      if !c.destroyed {
        assert c.wire + Flat(c.tasks)[c.inFlight..] == Flat(c.submitted);
      }
    }
  }

  /** All bytes that left the queue, call by call. */
  ghost function AllTaken(calls: seq<IoCall>): seq<char> {
    if calls == [] then []
    else
      var c := calls[|calls| - 1];
      AllTaken(calls[..|calls| - 1]) + if c.taken <= |Flat(c.queue)| then Flat(c.queue)[..c.taken] else []
  }

  lemma NothingTaken(w: seq<char>)
    ensures w + AllTaken([]) == w
  {
  }

  /** The calls of one event: the first finds the queue as it was, each further one what the one before left, with
      more tasks behind it; their results are the given ones, and then the socket would block. */
  ghost predicate CallsFollow(calls: seq<IoCall>, first: seq<Task>, results: seq<IoResult>) {
    && |calls| <= |results| + 1
    && (calls != [] ==> calls[0].queue == first)
    && (forall i | 0 <= i < |calls| ::
          AsReported(calls[i]) && calls[i].res == if i < |results| then results[i] else Again)
    && (forall i | 0 <= i < |calls| - 1 :: calls[i].turn.GoOn? && Leaves(calls[i], calls[i + 1].queue))
  }

  /** The tasks that the call did not complete are at the front of what follows. */
  ghost predicate Leaves(c: IoCall, next: seq<Task>) {
    c.done <= |c.queue| && c.queue[c.done..] <= next
  }

  ghost function EndOf(calls: seq<IoCall>): Outcome {
    if calls == [] || calls[|calls| - 1].turn.GoOn? then Drained else calls[|calls| - 1].turn.out
  }

  lemma ReportedGoesOn(c: IoCall)
    requires AsReported(c)
    ensures c.done <= |c.queue| && (c.turn.GoOn? ==> c.res.Wrote?)
  {
  }

  lemma OneMoreCall(calls: seq<IoCall>, first: seq<Task>, results: seq<IoResult>, c: IoCall)
    requires CallsFollow(calls, first, results) && |calls| <= |results| && AsReported(c)
    requires c.res == if |calls| < |results| then results[|calls|] else Again
    requires if calls == [] then c.queue == first
             else calls[|calls| - 1].turn.GoOn? && Leaves(calls[|calls| - 1], c.queue)
    ensures CallsFollow(calls + [c], first, results)
  {
    hide AsReported, Leaves;
    var all := calls + [c];
    forall i | 0 <= i < |all| - 1 ensures all[i].turn.GoOn? && Leaves(all[i], all[i + 1].queue) {
      assert all[i] == calls[i];
      if i < |calls| - 1 {
        assert all[i + 1] == calls[i + 1];
      }
    }
  }

  lemma OneMoreTaken(calls: seq<IoCall>, c: IoCall, w: seq<char>)
    requires AsReported(c)
    ensures c.taken <= |Flat(c.queue)| && w + AllTaken(calls) + Flat(c.queue)[..c.taken] == w + AllTaken(calls + [c])
  {
    assert (calls + [c])[..|calls|] == calls;
    assert AllTaken(calls + [c]) == AllTaken(calls) + Flat(c.queue)[..c.taken];
    hide *;
    assert w + AllTaken(calls) + Flat(c.queue)[..c.taken] == w + (AllTaken(calls) + Flat(c.queue)[..c.taken]);
  }

  lemma NoTasks()
    ensures Flat([]) == []
  {
  }

  lemma FrontBytes(ts: seq<Task>)
    requires ts != []
    ensures |ts[0].Bytes()| <= |Flat(ts)|
  {
  }

  lemma FrontOfBatch(ts: seq<Task>, m: nat)
    requires m <= |ts| && |Flat(ts[..m])| > 0
    ensures m > 0
  {
  }

  /** The front of the batch is gone, and more tasks may have been queued. */
  lemma BatchShrinks(before: seq<Task>, ts: seq<Task>, m: nat)
    requires 0 < m <= |before| && before[1..] <= ts
    ensures ts[..m - 1] == before[..m][1..]
    ensures |Flat(before[..m])| == |before[0].Bytes()| + |Flat(ts[..m - 1])|
    ensures forall i | 0 <= i < m - 1 :: ts[i] == before[i + 1]
  {
    assert ts[..m - 1] == before[..m][1..];
    assert forall i | 0 <= i < m - 1 :: ts[..m - 1][i] == before[..m][1..][i];
  }
}
