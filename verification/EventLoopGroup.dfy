/** The worker thread of src/EventLoopGroup.cpp in place: every method is a run of the steps in LoopGroups. */
module EventLoopGroups {
  import opened LoopGroups

  /** What a step belongs to: a worker, or nobody in particular. */
  predicate Concerns(step: Step, me: nat) {
    match step
    case Stop => false
    case Notify(_) => false
    case Check(i) => i == me
    case TakeToken(i) => i == me
    case OtherEvent(i) => i == me
    case Again(i) => i == me
    case Wake(i) => i == me
    case Leave(i) => i == me
  }

  /** Loop j has read its eventfd since the history had h steps. */
  ghost predicate Took(history: seq<Step>, h: nat, j: nat) {
    exists i | h <= i < |history| :: history[i] == TakeToken(j)
  }

  lemma TookStays(a: seq<Step>, b: seq<Step>, h0: nat, h1: nat)
    requires a <= b && h0 <= h1
    ensures forall j :: Took(a, h1, j) ==> Took(b, h0, j)
  {
    forall j | Took(a, h1, j) ensures Took(b, h0, j) {
      var i :| h1 <= i < |a| && a[i] == TakeToken(j);
      assert b[i] == TakeToken(j);
    }
  }

  /** What happens around one test of bf_() in a worker: what other threads do before the test and while the worker
      is in its poller, and whether a descriptor other than the eventfd becomes ready. */
  datatype Round = Round(before: seq<Step>, between: seq<Step>, event: bool)

  class EventLoopGroup {
    const n: nat
    const tokens: array<nat>     // the eventfd of each loop in ploops_
    var workers: seq<Worker>
    var stop: bool               // bf_() is false
    ghost var history: seq<Step>

    function View(): State
      reads this, tokens
    {
      State(workers, tokens[..], stop)
    }

    /** The state is the outcome of a run from the initial state. */
    ghost predicate Valid()
      reads this, tokens
    {
      && tokens.Length == n + 1 == |workers|
      && Possible(Init(n), history) && View() == Run(Init(n), history)
    }

    constructor (n: nat)
      ensures Valid() && View() == Init(n) && fresh(tokens)
      ensures |workers| == n + 1 == tokens.Length && forall j | 0 <= j <= n :: tokens[j] == 1000
    {
      this.n := n;
      tokens := new nat[n + 1](_ => 1000);
      workers, stop, history := seq(n + 1, _ => Checking), false, [];
      new;
      assert tokens[..] == Init(n).tokens;
    }

    lemma Next(step: Step)
      requires Valid() && Enabled(View(), step)
      ensures Possible(Init(n), history + [step])
      ensures Run(Init(n), history + [step]) == Do(View(), step)
    {
      assert Possible(Do(View(), step), []);
      RunConcat(Init(n), history, [step]);
    }

    /** Since the history had h steps, loop j was given a token that it still has, or it has taken one. */
    ghost predicate Reached(h: nat, j: nat)
      requires j < tokens.Length
      reads this, tokens
    {
      tokens[j] > 0 || Took(history, h, j)
    }

    /** Interference: some other thread takes a step of the model. */
    method Interfere(step: Step)
      requires Valid() && Enabled(View(), step)
      modifies this`workers, this`stop, this`history, tokens
      ensures Valid() && history == old(history) + [step]
      ensures View() == Do(old(View()), step)
    {
      hide Possible, Run;
      Next(step);
      var t := Do(View(), step);
      workers, stop := t.workers, t.stop;
      forall i | 0 <= i < tokens.Length {
        tokens[i] := t.tokens[i];
      }
      assert tokens[..] == t.tokens;
      history := history + [step];
    }

    lemma TokensStay(step: Step, h: nat)
      requires Valid() && Enabled(View(), step) && h <= |history|
      ensures var t := Do(View(), step);
        forall j | 0 <= j <= n && Reached(h, j) :: j < |t.tokens| && (t.tokens[j] > 0 || Took(history + [step], h, j))
    {
      hide Possible, Run;
      TookStays(history, history + [step], h, h);
      var t := Do(View(), step);
      forall j | 0 <= j <= n && Reached(h, j)
        ensures j < |t.tokens| && (t.tokens[j] > 0 || Took(history + [step], h, j))
      {
        if tokens[j] > 0 && t.tokens[j] == 0 {
          assert (history + [step])[|history|] == TakeToken(j);
        }
      }
    }

    /** What the rest of the program does between two steps of worker `me`; impossible steps are skipped. */
    method Others(steps: seq<Step>, me: nat)
      requires Valid() && me <= n
      modifies this`workers, this`stop, this`history, tokens
      ensures Valid() && old(history) <= history
      ensures workers[me] == old(workers[me]) && (old(stop) ==> stop)
      ensures forall j | 0 <= j <= n && old(tokens[j]) > 0 :: Reached(|old(history)|, j)
    {
      hide Possible, Run, Took;
      for k := 0 to |steps|
        invariant Valid() && old(history) <= history
        invariant workers[me] == old(workers[me]) && (old(stop) ==> stop)
        invariant forall j | 0 <= j <= n && old(tokens[j]) > 0 :: Reached(|old(history)|, j)
      {
        if !Concerns(steps[k], me) && Enabled(View(), steps[k]) {
          TokensStay(steps[k], |old(history)|);
          Interfere(steps[k]);
        }
      }
    }

    method Wakeup(k: nat)
      requires k < tokens.Length
      modifies tokens
      ensures tokens[..] == old(tokens[..])[k := old(tokens[k]) + 1]
    {
      tokens[k] := tokens[k] + 1;
    }

    /** `for (auto loop : ploops_) loop->wakeup()`, and the end of the thread: every loop of the group has a token
        that it was given since, or has taken it already. */
    method WakeEveryone(me: nat, env: nat -> seq<Step>)
      requires Valid() && me <= n && workers[me] == Waking(0)
      modifies this`workers, this`stop, this`history, tokens
      ensures Valid() && old(history) <= history
      ensures workers[me].Exited? && (old(stop) ==> stop)
      ensures forall j | 0 <= j <= n :: Reached(|old(history)|, j)
    {
      hide Possible, Run, Took, Do;
      for k := 0 to n + 1
        invariant Valid() && old(history) <= history
        invariant workers[me] == Waking(k) && (old(stop) ==> stop)
        invariant forall j | 0 <= j < k :: Reached(|old(history)|, j)
      {
        WakeOne(me, k, env(k), |old(history)|);
      }
      TokensStay(Leave(me), |old(history)|);
      Depart(me);
    }

    /** One wakeup, after what the other threads do before it. */
    method WakeOne(me: nat, k: nat, between: seq<Step>, ghost h: nat)
      requires Valid() && me <= n && k <= n && workers[me] == Waking(k) && h <= |history|
      modifies this`workers, this`stop, this`history, tokens
      ensures Valid() && old(history) <= history
      ensures workers[me] == Waking(k + 1) && (old(stop) ==> stop)
      ensures Reached(h, k) && forall j | 0 <= j <= n && old(Reached(h, j)) :: Reached(h, j)
    {
      hide Possible, Run, Took;
      Others(between, me);
      TookStays(old(history), history, h, h);
      TookStays(history, history, h, |old(history)|);
      TookStays(history, history + [Wake(me)], h, h);
      Next(Wake(me));
      Wakeup(k);
      workers, history := workers[me := Waking(k + 1)], history + [Wake(me)];
    }

    /** The thread function returns. */
    method Depart(me: nat)
      requires Valid() && me <= n && workers[me] == Waking(n + 1)
      modifies this`workers, this`history
      ensures Valid() && history == old(history) + [Leave(me)] && workers[me].Exited?
      ensures View() == Do(old(View()), Leave(me))
    {
      hide Possible, Run;
      Next(Leave(me));
      workers, history := workers[me := Exited], history + [Leave(me)];
    }

    /** The poller of loop `me` returns: its eventfd is readable and read, or another descriptor is ready. */
    method Poll(me: nat, event: bool) returns (back: bool)
      requires Valid() && me <= n && workers[me].Blocked?
      modifies this`workers, this`history, tokens
      ensures Valid() && old(history) <= history
      ensures workers[me] == if back then Handling else Blocked
      ensures back <==> event || old(tokens[me]) > 0
      ensures !back || old(tokens[me]) > 0 ==> tokens[me] == 0
    {
      hide Possible, Run;
      back := true;
      if tokens[me] > 0 {
        Next(TakeToken(me));
        tokens[me] := 0;
        workers, history := workers[me := Handling], history + [TakeToken(me)];
      } else if event {
        Next(OtherEvent(me));
        workers, history := workers[me := Handling], history + [OtherEvent(me)];
      } else {
        back := false;
      }
    }

    /** One round of EventLoop::run: the test of bf_(), loop_once, and back to the test. */
    method LoopOnce(me: nat, round: Round) returns (back: bool)
      requires Valid() && me <= n && workers[me].Checking? && !stop
      modifies this`workers, this`stop, this`history, tokens
      ensures Valid() && old(history) <= history
      ensures workers[me] == if back then Checking else Blocked
      ensures !back ==> !round.event && tokens[me] == 0
    {
      hide Possible, Run;
      Next(Check(me));
      workers, history := workers[me := Blocked], history + [Check(me)];
      Others(round.between, me);
      back := Poll(me, round.event);
      if back {
        Next(Again(me));
        workers, history := workers[me := Checking], history + [Again(me)];
      }
    }

    /** worker_thread under a schedule: one entry for each test of bf_(). The thread ends exactly by having seen bf_()
        false, and has then woken every loop of the group; otherwise it is blocked without a token, or the
        schedule is over and bf_() was still true at the last test. */
    method WorkerThread(me: nat, schedule: seq<Round>, env: nat -> seq<Step>) returns (tests: nat)
      requires Valid() && me <= n && workers[me].Checking?
      modifies this`workers, this`stop, this`history, tokens
      ensures Valid() && old(history) <= history && tests <= |schedule|
      ensures match workers[me]
        case Exited => stop && forall j | 0 <= j <= n :: Reached(|old(history)|, j)
        case Blocked => tokens[me] == 0 && tests > 0 && !schedule[tests - 1].event
        case Checking => tests == |schedule|
        case _ => false
      ensures old(stop) && schedule != [] ==> workers[me].Exited? && tests == 1
    {
      hide Possible, Run, Took;
      tests := 0;
      while tests < |schedule|
        invariant Valid() && old(history) <= history && workers[me].Checking? && tests <= |schedule|
        invariant old(stop) ==> stop && tests == 0
      {
        var round := schedule[tests];
        tests := tests + 1;
        Others(round.before, me);
        if stop {
          Next(Check(me));
          workers, history := workers[me := Waking(0)], history + [Check(me)];
          ghost var h := |history|;
          WakeEveryone(me, env);
          TookStays(history, history, |old(history)|, h);
          forall j | 0 <= j <= n ensures Reached(|old(history)|, j) {
            assert Reached(h, j);
          }
          return;
        }
        var back := LoopOnce(me, round);
        if !back {
          return;
        }
      }
    }
  }

  /** Whatever the threads did, nobody that was woken is left behind in the object either. */
  lemma ObjectIsSafe(g: EventLoopGroup)
    requires g.Valid()
    ensures NobodyForgotten(g.View())
  {
    NobodyForgottenRun(Init(g.n), g.history);
  }
}
