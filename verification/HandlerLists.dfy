/** The re-entrant handler lists of src/Poller.cpp, and the loop round of src/PollerEpoll.cpp that runs them. */
module HandlerLists {

  /** The three lists: nextTickHandlers_, nextLoopHandlers_ and afterLoopHandlers_. */
  datatype Slot = NextTick | NextLoop | AfterLoop

  /** A handler is what it enqueues when it runs: a finite tree. */
  datatype Handler = Handler(id: nat, calls: seq<Call>)

  datatype Call = Call(slot: Slot, handler: Handler)

  // ---------- what calls enqueue ----------

  /** The handlers that `calls` put on one list, in order. */
  function Sent(slot: Slot, calls: seq<Call>): seq<Handler> {
    if calls == [] then []
    else (if calls[0].slot == slot then [calls[0].handler] else []) + Sent(slot, calls[1..])
  }

  /** What running `hs` one after the other puts on one list. */
  function SentBy(slot: Slot, hs: seq<Handler>): seq<Handler> {
    if hs == [] then [] else Sent(slot, hs[0].calls) + SentBy(slot, hs[1..])
  }

  lemma Regroup<T>(a: seq<T>, b: seq<T>, c: seq<T>)
    ensures a + (b + c) == a + b + c
  {
  }

  lemma {:induction false} SentAppend(slot: Slot, a: seq<Call>, b: seq<Call>)
    ensures Sent(slot, a + b) == Sent(slot, a) + Sent(slot, b)
  {
    if a == [] {
      assert a + b == b;
    } else {
      assert (a + b)[1..] == a[1..] + b && (a + b)[0] == a[0];
      SentAppend(slot, a[1..], b);
      Regroup(if a[0].slot == slot then [a[0].handler] else [], Sent(slot, a[1..]), Sent(slot, b));
    }
  }

  lemma SentOne(call: Call)
    ensures forall s: Slot :: Sent(s, [call]) == if s == call.slot then [call.handler] else []
  {
    assert [call][1..] == [];
  }

  lemma {:induction false} SentByAppend(slot: Slot, a: seq<Handler>, b: seq<Handler>)
    ensures SentBy(slot, a + b) == SentBy(slot, a) + SentBy(slot, b)
  {
    if a == [] {
      assert a + b == b;
    } else {
      assert (a + b)[1..] == a[1..] + b && (a + b)[0] == a[0];
      SentByAppend(slot, a[1..], b);
      Regroup(Sent(slot, a[0].calls), SentBy(slot, a[1..]), SentBy(slot, b));
    }
  }

  lemma SentByStep(slot: Slot, list: seq<Handler>, ran: seq<Handler>, h: Handler)
    ensures list + SentBy(slot, ran + [h]) == list + SentBy(slot, ran) + Sent(slot, h.calls)
  {
    SentByAppend(slot, ran, [h]);
    assert [h][1..] == [];
    assert SentBy(slot, [h]) == Sent(slot, h.calls);
  }

  // ---------- the size of the trees ----------

  function Nodes(h: Handler): (n: nat)
    decreases h, 0
  {
    1 + CallNodes(h.calls)
  }

  function CallNodes(calls: seq<Call>): nat
    decreases calls
  {
    if calls == [] then 0
    else
      var c := calls[0];
      assert c.handler < c;
      Nodes(c.handler) + CallNodes(calls[1..])
  }

  function AllNodes(hs: seq<Handler>): (n: nat)
    ensures n >= |hs|
  {
    if hs == [] then 0 else Nodes(hs[0]) + AllNodes(hs[1..])
  }

  lemma {:induction false} AllNodesAppend(a: seq<Handler>, b: seq<Handler>)
    ensures AllNodes(a + b) == AllNodes(a) + AllNodes(b)
  {
    if a == [] {
      assert a + b == b;
    } else {
      assert (a + b)[1..] == a[1..] + b;
      AllNodesAppend(a[1..], b);
    }
  }

  lemma {:induction false} SentNodes(slot: Slot, calls: seq<Call>)
    ensures AllNodes(Sent(slot, calls)) <= CallNodes(calls)
  {
    if calls != [] {
      SentNodes(slot, calls[1..]);
      var tail := Sent(slot, calls[1..]);
      assert ([calls[0].handler] + tail)[1..] == tail && [] + tail == tail;
    }
  }

  lemma {:induction false} SentByNodes(slot: Slot, hs: seq<Handler>)
    ensures AllNodes(SentBy(slot, hs)) + |hs| <= AllNodes(hs)
  {
    if hs != [] {
      SentNodes(slot, hs[0].calls);
      SentByNodes(slot, hs[1..]);
      AllNodesAppend(Sent(slot, hs[0].calls), SentBy(slot, hs[1..]));
    }
  }

  /** Running the head of the list leaves a smaller forest, whatever it enqueues on the same list. */
  lemma HeadShrinks(slot: Slot, work: seq<Handler>)
    requires work != []
    ensures AllNodes(work[1..] + Sent(slot, work[0].calls)) < AllNodes(work)
  {
    AllNodesAppend(work[1..], Sent(slot, work[0].calls));
    SentNodes(slot, work[0].calls);
  }

  // ---------- one pass over a list ----------

  /** The order in which a pass that starts with `work` runs handlers: what a handler enqueues on the list
      that is being run is reached by the same pass. */
  function Order(slot: Slot, work: seq<Handler>): seq<Handler>
    decreases AllNodes(work)
  {
    if work == [] then []
    else
      HeadShrinks(slot, work);
      [work[0]] + Order(slot, work[1..] + Sent(slot, work[0].calls))
  }

  /** The handlers of a forest that are linked by calls to one list, parents before children. */
  function Reached(slot: Slot, hs: seq<Handler>): seq<Handler>
    decreases AllNodes(hs)
  {
    if hs == [] then []
    else
      SentNodes(slot, hs[0].calls);
      [hs[0]] + Reached(slot, Sent(slot, hs[0].calls)) + Reached(slot, hs[1..])
  }

  lemma {:induction false} ReachedAppend(slot: Slot, a: seq<Handler>, b: seq<Handler>)
    ensures Reached(slot, a + b) == Reached(slot, a) + Reached(slot, b)
    decreases |a|
  {
    if a == [] {
      assert a + b == b;
    } else {
      assert (a + b)[1..] == a[1..] + b;
      ReachedAppend(slot, a[1..], b);
    }
  }

  /** Every handler that is reachable through the list runs in the pass, exactly as often as it was enqueued. */
  lemma {:induction false} EveryHandlerOnce(slot: Slot, work: seq<Handler>)
    ensures multiset(Order(slot, work)) == multiset(Reached(slot, work))
    decreases AllNodes(work)
  {
    if work != [] {
      var rest, sent := work[1..], Sent(slot, work[0].calls);
      HeadShrinks(slot, work);
      EveryHandlerOnce(slot, rest + sent);
      ReachedAppend(slot, rest, sent);
    }
  }

  lemma HeadFirst(slot: Slot, work: seq<Handler>, tail: seq<Handler>)
    requires work != [] && tail == work[1..] + Sent(slot, work[0].calls) + SentBy(slot, tail)
    ensures [work[0]] + tail == work + SentBy(slot, [work[0]] + tail)
  {
    hide Sent;
    var ran, sent := [work[0]] + tail, Sent(slot, work[0].calls);
    assert ran[0] == work[0] && ran[1..] == tail;
    assert SentBy(slot, ran) == sent + SentBy(slot, tail);
    assert [work[0]] + (work[1..] + sent + SentBy(slot, tail)) == work + (sent + SentBy(slot, tail));
  }

  /** Handlers run in the order in which they were enqueued: first those that were there, then what the
      handlers of the pass enqueued, in the order in which these ran. */
  lemma {:induction false} EnqueueOrder(slot: Slot, work: seq<Handler>)
    ensures Order(slot, work) == work + SentBy(slot, Order(slot, work))
    decreases AllNodes(work)
  {
    if work != [] {
      HeadShrinks(slot, work);
      var next := work[1..] + Sent(slot, work[0].calls);
      EnqueueOrder(slot, next);
      HeadFirst(slot, work, Order(slot, next));
    }
  }

  /** What a handler enqueues on the list that is being run does not wait for the next round. */
  lemma RunsInThisPass(slot: Slot, work: seq<Handler>, h: Handler, g: Handler)
    requires h in Order(slot, work) && g in Sent(slot, h.calls)
    ensures g in Order(slot, work)
  {
    hide Order, Sent, SentBy;
    EnqueueOrder(slot, work);
    SentByMember(slot, Order(slot, work), h, g);
  }

  lemma {:induction false} SentByMember(slot: Slot, hs: seq<Handler>, h: Handler, g: Handler)
    requires h in hs && g in Sent(slot, h.calls)
    ensures g in SentBy(slot, hs)
  {
    if h != hs[0] {
      SentByMember(slot, hs[1..], h, g);
    }
  }

  /** The equation determines the order: a run of the handlers that reaches exactly what it enqueues is the
      pass. */
  lemma {:induction false} OrderUnique(slot: Slot, work: seq<Handler>, ran: seq<Handler>)
    requires ran == work + SentBy(slot, ran)
    ensures ran == Order(slot, work)
    decreases AllNodes(work)
  {
    if work == [] {
      assert ran == SentBy(slot, ran);
      SentByNodes(slot, ran);
    } else {
      var next := work[1..] + Sent(slot, work[0].calls);
      assert ran[0] == work[0] && ran[1..] == next + SentBy(slot, ran[1..]);
      HeadShrinks(slot, work);
      OrderUnique(slot, next, ran[1..]);
    }
  }

  lemma LeftShrinks(slot: Slot, list: seq<Handler>, i: nat)
    requires i < |list|
    ensures AllNodes((list + Sent(slot, list[i].calls))[i + 1..]) < AllNodes(list[i..])
  {
    HeadShrinks(slot, list[i..]);
    assert (list + Sent(slot, list[i].calls))[i + 1..] == list[i..][1..] + Sent(slot, list[i].calls);
  }

  lemma EmptyPass(slot: Slot)
    ensures Order(slot, []) == []
    ensures Tagged(slot, []) == []
    ensures forall s: Slot :: SentBy(s, []) == []
  {
  }

  lemma HeadMoves<T>(ran: seq<T>, list: seq<T>, i: nat, more: seq<T>)
    requires i < |list|
    ensures ran + list[i..] + more == ran + [list[i]] + (list + more)[i + 1..]
  {
  }

  /** A log entry for each handler of a pass. */
  function Tagged(slot: Slot, hs: seq<Handler>): seq<Call> {
    seq(|hs|, i requires 0 <= i < |hs| => Call(slot, hs[i]))
  }

  lemma TaggedStep(log: seq<Call>, slot: Slot, ran: seq<Handler>, h: Handler)
    ensures log + Tagged(slot, ran) + [Call(slot, h)] == log + Tagged(slot, ran + [h])
  {
  }

  // ---------- one round of the loop ----------

  /** After each event the nextTick list is run to the end; the first of these passes also takes what was
      on the list before. */
  ghost predicate TicksRun(before: seq<Handler>, events: seq<seq<Call>>, ticks: seq<seq<Handler>>) {
    && |ticks| == |events|
    && forall i | 0 <= i < |events| ::
         ticks[i] == Order(NextTick, (if i == 0 then before else []) + Sent(NextTick, events[i]))
  }

  /** What the events of a round and their nextTick handlers put on another list. */
  function FromEvents(slot: Slot, events: seq<seq<Call>>, ticks: seq<seq<Handler>>): seq<Handler>
    requires |events| == |ticks|
  {
    if events == [] then []
    else
      var n := |events| - 1;
      FromEvents(slot, events[..n], ticks[..n]) + Sent(slot, events[n]) + SentBy(slot, ticks[n])
  }

  function AllTagged(ticks: seq<seq<Handler>>): seq<Call> {
    if ticks == [] then [] else AllTagged(ticks[..|ticks| - 1]) + Tagged(NextTick, ticks[|ticks| - 1])
  }

  lemma EventStep(log: seq<Call>, before: seq<Handler>, events: seq<seq<Call>>, ticks: seq<seq<Handler>>,
                  ran: seq<Handler>)
    requires |ticks| < |events| && TicksRun(before, events[..|ticks|], ticks)
    ensures var i, next := |ticks|, ticks + [ran];
            && (ran == Order(NextTick, (if i == 0 then before else []) + Sent(NextTick, events[i]))
                ==> TicksRun(before, events[..i + 1], next))
            && log + AllTagged(ticks) + Tagged(NextTick, ran) == log + AllTagged(next)
            && forall s: Slot :: FromEvents(s, events[..i + 1], next)
                              == FromEvents(s, events[..i], ticks) + Sent(s, events[i]) + SentBy(s, ran)
  {
    hide Order, Sent, SentBy, Tagged;
    var i, next := |ticks|, ticks + [ran];
    assert events[..i + 1][..i] == events[..i] && next[..i] == ticks;
  }

  lemma NoEvents(before: seq<Handler>)
    ensures TicksRun(before, [], []) && AllTagged([]) == [] && forall s: Slot :: FromEvents(s, [], []) == []
  {
  }

  lemma TicksAreMany(before: seq<Handler>, events: seq<seq<Call>>, ticks: seq<seq<Handler>>)
    requires TicksRun(before, events, ticks)
    ensures |ticks| == |events|
  {
  }

  lemma NothingBefore<T>(a: seq<T>, b: seq<T>, c: seq<T>)
    ensures a == [] ==> a + b + c == b + c
  {
  }

  lemma Regroup4<T>(a: seq<T>, b: seq<T>, c: seq<T>, d: seq<T>)
    ensures a + (b + c + d) == a + b + c + d
  {
  }

  // ---------- the poller ----------

  class Poller {
    var nextTickHandlers: seq<Handler>
    var nextLoopHandlers: seq<Handler>
    var afterLoopHandlers: seq<Handler>
    ghost var enqueued: seq<Call>   // every handler ever put on a list, in order
    ghost var executed: seq<Call>   // every handler run, with the list it was run from

    function List(slot: Slot): seq<Handler>
      reads this
    {
      match slot
      case NextTick => nextTickHandlers
      case NextLoop => nextLoopHandlers
      case AfterLoop => afterLoopHandlers
    }

    /** Between passes nothing enqueued is lost, doubled or overtaken, list by list. */
    ghost predicate Valid()
      reads this
    {
      forall s: Slot :: Sent(s, enqueued) == Sent(s, executed) + List(s)
    }

    /** During a pass the first `i` handlers of the list that is being run have run already. */
    ghost predicate Midway(slot: Slot, i: nat)
      reads this
    {
      && i <= |List(slot)|
      && Sent(slot, enqueued) == Sent(slot, executed) + List(slot)[i..]
      && forall s: Slot | s != slot :: Sent(s, enqueued) == Sent(s, executed) + List(s)
    }

    constructor ()
      ensures Valid() && forall slot: Slot :: List(slot) == []
      ensures enqueued == [] && executed == []
    {
      nextTickHandlers, nextLoopHandlers, afterLoopHandlers := [], [], [];
      enqueued, executed := [], [];
    }

    /** nextTick, nextLoop and afterLoop. */
    method Enqueue(slot: Slot, handler: Handler)
      modifies this
      ensures enqueued == old(enqueued) + [Call(slot, handler)] && executed == old(executed)
      ensures forall s: Slot :: List(s) == old(List(s)) + if s == slot then [handler] else []
    {
      match slot {
        case NextTick => nextTickHandlers := nextTickHandlers + [handler];
        case NextLoop => nextLoopHandlers := nextLoopHandlers + [handler];
        case AfterLoop => afterLoopHandlers := afterLoopHandlers + [handler];
      }
      enqueued := enqueued + [Call(slot, handler)];
    }

    /** A callback makes its calls. */
    method Make(calls: seq<Call>)
      modifies this
      ensures enqueued == old(enqueued) + calls && executed == old(executed)
      ensures forall s: Slot :: List(s) == old(List(s)) + Sent(s, calls)
    {
      for i := 0 to |calls|
        invariant enqueued == old(enqueued) + calls[..i] && executed == old(executed)
        invariant forall s: Slot :: List(s) == old(List(s)) + Sent(s, calls[..i])
      {
        Enqueue(calls[i].slot, calls[i].handler);
        assert calls[..i + 1] == calls[..i] + [calls[i]];
        forall s: Slot ensures Sent(s, calls[..i + 1]) == Sent(s, calls[..i]) + Sent(s, [calls[i]]) {
          SentAppend(s, calls[..i], [calls[i]]);
        }
        SentOne(calls[i]);
      }
      assert calls[..|calls|] == calls;
    }

    /** Calls made outside of a pass. */
    method Callback(calls: seq<Call>)
      requires Valid()
      modifies this
      ensures Valid() && enqueued == old(enqueued) + calls && executed == old(executed)
      ensures forall s: Slot :: List(s) == old(List(s)) + Sent(s, calls)
    {
      forall s: Slot ensures Sent(s, enqueued + calls) == Sent(s, enqueued) + Sent(s, calls) {
        SentAppend(s, enqueued, calls);
      }
      Make(calls);
    }

    /** The handler under the iterator runs; it stays in its list until the list is cleared. */
    method RunAt(slot: Slot, i: nat)
      requires i < |List(slot)|
      requires Midway(slot, i)
      modifies this
      ensures Midway(slot, i + 1)
      ensures forall s: Slot :: List(s) == old(List(s)) + Sent(s, old(List(slot)[i]).calls)
      ensures executed == old(executed) + [Call(slot, old(List(slot)[i]))]
      ensures enqueued == old(enqueued) + old(List(slot)[i]).calls
    {
      hide Sent;
      var h := List(slot)[i];
      MidwayStep(slot, i);
      executed := executed + [Call(slot, h)];
      Make(h.calls);
    }

    lemma MidwayStep(slot: Slot, i: nat)
      requires i < |List(slot)| && Midway(slot, i)
      ensures var h := List(slot)[i];
              && (forall s: Slot | s != slot ::
                    Sent(s, enqueued + h.calls) == Sent(s, executed + [Call(slot, h)]) + (List(s) + Sent(s, h.calls)))
              && Sent(slot, enqueued + h.calls)
                 == Sent(slot, executed + [Call(slot, h)]) + (List(slot) + Sent(slot, h.calls))[i + 1..]
    {
      var h := List(slot)[i];
      SentOne(Call(slot, h));
      forall s: Slot
        ensures Sent(s, enqueued + h.calls) == Sent(s, enqueued) + Sent(s, h.calls)
        ensures Sent(s, executed + [Call(slot, h)]) == Sent(s, executed) + if s == slot then [h] else []
      {
        SentAppend(s, enqueued, h.calls);
        SentAppend(s, executed, [Call(slot, h)]);
      }
      HeadMoves(Sent(slot, executed), List(slot), i, Sent(slot, h.calls));
    }

    method Clear(slot: Slot)
      modifies this
      ensures enqueued == old(enqueued) && executed == old(executed)
      ensures forall s: Slot :: List(s) == if s == slot then [] else old(List(s))
    {
      match slot {
        case NextTick => nextTickHandlers := [];
        case NextLoop => nextLoopHandlers := [];
        case AfterLoop => afterLoopHandlers := [];
      }
    }

    lemma MidwayEnds(slot: Slot)
      ensures Valid() ==> Midway(slot, 0)
      ensures Midway(slot, |List(slot)|) ==>
        forall s: Slot :: Sent(s, enqueued) == Sent(s, executed) + if s == slot then [] else List(s)
    {
    }

    /** The loop over the list, which also visits what is appended meanwhile. */
    method Pass(slot: Slot) returns (ran: seq<Handler>)
      requires Valid()
      modifies this
      ensures Midway(slot, |List(slot)|) && ran == List(slot)
      ensures executed == old(executed) + Tagged(slot, ran)
      ensures forall s: Slot :: List(s) == old(List(s)) + SentBy(s, ran)
    {
      hide Sent, SentBy, AllNodes, Tagged, Midway, Valid;
      EmptyPass(slot);
      MidwayEnds(slot);
      ran := [];
      var i := 0;
      while i < |List(slot)|
        invariant i <= |List(slot)| && ran == List(slot)[..i]
        invariant Midway(slot, i)
        invariant forall s: Slot :: List(s) == old(List(s)) + SentBy(s, ran)
        invariant executed == old(executed) + Tagged(slot, ran)
        decreases AllNodes(List(slot)[i..])
      {
        var h := List(slot)[i];
        LeftShrinks(slot, List(slot), i);
        RunAt(slot, i);
        TaggedStep(old(executed), slot, ran, h);
        forall s: Slot
          ensures old(List(s)) + SentBy(s, ran + [h]) == old(List(s)) + SentBy(s, ran) + Sent(s, h.calls)
        {
          SentByStep(s, old(List(s)), ran, h);
        }
        ran := ran + [h];
        i := i + 1;
      }
    }

    /** runNextTickHandlers, runNextLoopHandlers and runAfterLoopHandlers. */
    method RunHandlers(slot: Slot) returns (ran: seq<Handler>)
      requires Valid()
      modifies this
      ensures Valid() && executed == old(executed) + Tagged(slot, ran)
      ensures ran == Order(slot, old(List(slot)))
      ensures forall s: Slot :: List(s) == if s == slot then [] else old(List(s)) + SentBy(s, ran)
    {
      hide Sent, SentBy, Order, Tagged, Midway;
      EmptyPass(slot);
      if List(slot) == [] {
        return [];
      }
      ran := Pass(slot);
      MidwayEnds(slot);
      OrderUnique(slot, old(List(slot)), ran);
      Clear(slot);
    }

    /** The callback of one channel, and then, on every way out of it, the nextTick handlers. */
    method HandleEvent(calls: seq<Call>) returns (ran: seq<Handler>)
      requires Valid()
      modifies this
      ensures Valid() && executed == old(executed) + Tagged(NextTick, ran)
      ensures ran == Order(NextTick, old(nextTickHandlers) + Sent(NextTick, calls))
      ensures nextTickHandlers == []
      ensures forall s: Slot | s != NextTick :: List(s) == old(List(s)) + Sent(s, calls) + SentBy(s, ran)
    {
      hide Sent, SentBy, Order, Tagged;
      Callback(calls);
      ran := RunHandlers(NextTick);
    }

    /** The events of a round, one after the other. */
    method HandleEvents(events: seq<seq<Call>>) returns (ticks: seq<seq<Handler>>)
      requires Valid()
      modifies this
      ensures Valid() && TicksRun(old(nextTickHandlers), events, ticks)
      ensures executed == old(executed) + AllTagged(ticks)
      ensures afterLoopHandlers == old(afterLoopHandlers) + FromEvents(AfterLoop, events, ticks)
      ensures nextLoopHandlers == old(nextLoopHandlers) + FromEvents(NextLoop, events, ticks)
      ensures nextTickHandlers == if events == [] then old(nextTickHandlers) else []
    {
      hide Sent, SentBy, Order, Tagged, Valid, AllTagged, FromEvents, TicksRun;
      NoEvents(nextTickHandlers);
      assert events[..0] == [];
      ghost var log, tick, next, after := executed, nextTickHandlers, nextLoopHandlers, afterLoopHandlers;
      ticks := [];
      for i := 0 to |events|
        invariant Valid() && |ticks| == i && TicksRun(tick, events[..i], ticks)
        invariant executed == log + AllTagged(ticks)
        invariant afterLoopHandlers == after + FromEvents(AfterLoop, events[..i], ticks)
        invariant nextLoopHandlers == next + FromEvents(NextLoop, events[..i], ticks)
        invariant nextTickHandlers == if i == 0 then tick else []
      {
        var ran := HandleEvent(events[i]);
        EventStep(log, tick, events, ticks, ran);
        Regroup4(after, FromEvents(AfterLoop, events[..i], ticks), Sent(AfterLoop, events[i]), SentBy(AfterLoop, ran));
        Regroup4(next, FromEvents(NextLoop, events[..i], ticks), Sent(NextLoop, events[i]), SentBy(NextLoop, ran));
        ticks := ticks + [ran];
      }
      assert events[..|events|] == events;
    }

    /** The events, and the afterLoop handlers. */
    method HandleRound(events: seq<seq<Call>>) returns (ticks: seq<seq<Handler>>, last: seq<Handler>)
      requires Valid()
      modifies this
      ensures Valid() && TicksRun(old(nextTickHandlers), events, ticks)
      ensures executed == old(executed) + AllTagged(ticks) + Tagged(AfterLoop, last)
      ensures last == Order(AfterLoop, old(afterLoopHandlers) + FromEvents(AfterLoop, events, ticks))
      ensures nextLoopHandlers == old(nextLoopHandlers) + FromEvents(NextLoop, events, ticks) + SentBy(NextLoop, last)
      ensures afterLoopHandlers == []
      ensures nextTickHandlers == (if events == [] then old(nextTickHandlers) else []) + SentBy(NextTick, last)
    {
      hide Sent, SentBy, Order, Tagged, Valid, AllTagged, FromEvents, TicksRun;
      ticks := HandleEvents(events);
      TicksAreMany(old(nextTickHandlers), events, ticks);
      last := RunHandlers(AfterLoop);
    }

    /** One round of the loop. `events` is what the callback of each ready channel enqueues. */
    method LoopOnce(events: seq<seq<Call>>)
      returns (first: seq<Handler>, ticks: seq<seq<Handler>>, last: seq<Handler>)
      requires Valid()
      modifies this
      ensures Valid() && |ticks| == |events|
      ensures executed == old(executed) + Tagged(NextLoop, first) + AllTagged(ticks) + Tagged(AfterLoop, last)
      ensures first == Order(NextLoop, old(nextLoopHandlers))
      ensures TicksRun(old(nextTickHandlers) + SentBy(NextTick, first), events, ticks)
      ensures last ==
        Order(AfterLoop,
              old(afterLoopHandlers) + SentBy(AfterLoop, first) + FromEvents(AfterLoop, events, ticks))
      ensures nextLoopHandlers == FromEvents(NextLoop, events, ticks) + SentBy(NextLoop, last)
      ensures afterLoopHandlers == []
      ensures nextTickHandlers
           == (if events == [] then old(nextTickHandlers) + SentBy(NextTick, first) else []) + SentBy(NextTick, last)
    {
      hide Sent, SentBy, Order, Tagged, Valid, AllTagged, FromEvents, TicksRun;
      first := RunHandlers(NextLoop);
      ghost var next := nextLoopHandlers;
      ticks, last := HandleRound(events);
      TicksAreMany(old(nextTickHandlers) + SentBy(NextTick, first), events, ticks);
      NothingBefore(next, FromEvents(NextLoop, events, ticks), SentBy(NextLoop, last));
    }
  }
}
