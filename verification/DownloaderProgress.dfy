/**
  The pipeline neither gets stuck nor runs on for ever: in every reachable state
  short of the end some thread can take a step that is not a spurious wake-up,
  and every such step brings the end closer.
 */
module DownloaderProgress {
  import opened Wrappers
  import opened Ordering
  import opened BoundedQueue
  import Q = QueueMonitor
  import opened Downloader

  predicate Spurious(a: Action) { a.WakeConsumer? || a.WakeHelper? }

  // ---- no deadlock -----------------------------------------------------------

  lemma {:induction false} ReadyHelperMoves(s: State, i: nat)
    requires Machine(s) && i in s.monitor.readyWriters
    ensures exists a :: !Spurious(a) && Enabled(s, a)
  {
    Q.ReadyThreadsRun(s.monitor, i);
    var woken :| Q.Enabled(s.monitor, Q.PushAgain(i, woken));
    assert i in s.monitor.waiting;
    assert Enabled(s, PutAgain(i, woken));
  }

  lemma {:induction false} HelperMoves(s: State, i: nat)
    requires Machine(s) && i < |s.helpers| && !s.helpers[i].Done? && !s.helpers[i].Pushing?
    ensures exists a :: !Spurious(a) && Enabled(s, a)
  {
    match s.helpers[i]
    case Idle => if s.urls == [] { assert Enabled(s, NoMore(i)); } else { assert Enabled(s, Take(i)); }
    case Fetching(_) => assert Enabled(s, Fail(i));
    case Leaving => assert Enabled(s, Leave(i));
  }

  /**
    The consumer sleeps and has not been woken: then the queue is empty while a
    producer is registered, so a helper works, or sleeps among woken ones.
   */
  lemma {:induction false} SleepingConsumer(s: State)
    requires Machine(s) && s.consumer.PopWaiting? && s.threads in s.monitor.asleepReaders
    ensures exists a :: !Spurious(a) && Enabled(s, a)
  {
    assert s.monitor.readyReaders == {} by {
      assert forall t | t in s.monitor.readyReaders :: t in Readers(s.monitor);
    }
    assert s.monitor.queue.items == [] && s.monitor.queue.producers > 0;
    ActiveBounds(s.helpers);
    var i :| 0 <= i < |s.helpers| && !s.helpers[i].Done?;
    if s.helpers[i].Pushing? {
      assert i in s.monitor.waiting;
      if i in s.monitor.readyWriters {
        ReadyHelperMoves(s, i);
      } else {
        assert |s.monitor.readyWriters| > 0;
        var t :| t in s.monitor.readyWriters;
        ReadyHelperMoves(s, t);
      }
    } else {
      HelperMoves(s, i);
    }
  }

  lemma {:induction false} NoDeadlock(s: State, start: seq<Url>)
    requires Inv(s, start) && !s.consumer.Finished?
    ensures exists a :: !Spurious(a) && Enabled(s, a)
  {
    match s.consumer
    case Spawning(n, registered) =>
      assert Enabled(s, if registered || n >= s.threads then Spawn else Register);
    case Popping =>
      var woken := if PopLoop(s.monitor.queue).1.Popped? then s.monitor.asleepWriters else {};
      assert s.threads !in s.monitor.waiting && s.threads !in Readers(s.monitor);
      assert Enabled(s, Pop(woken));
    case PopWaiting =>
      assert s.threads in Readers(s.monitor);
      if s.threads in s.monitor.readyReaders {
        Q.ReadyThreadsRun(s.monitor, s.threads);
        var woken :| Q.Enabled(s.monitor, Q.PopAgain(s.threads, woken));
        assert Enabled(s, PopAgain(woken));
      } else {
        SleepingConsumer(s);
      }
    case RoundOver => assert Enabled(s, EndRound);
  }

  // ---- the measure -----------------------------------------------------------

  /** Steps a helper still has ahead of it, counting the pop of what it pushes. */
  function Weight(h: Helper): nat {
    match h
    case Idle => 2
    case Fetching(_) => 5
    case Pushing(_, _) => 4
    case Leaving => 1
    case Done => 0
  }

  function Weights(hs: seq<Helper>): nat {
    if hs == [] then 0 else Weight(hs[0]) + Weights(hs[1..])
  }

  function Phase(c: Consumer, threads: nat): int {
    match c
    case Spawning(n, registered) => 3 + 4 * (threads - n) - (if registered then 1 else 0)
    case Popping => 2
    case PopWaiting => 2
    case RoundOver => 1
    case Finished => 0
  }

  function RoundsLeft(s: State): int { ROUNDS - s.round }

  /** The work of this round. */
  function Work(s: State): int {
    4 * |s.urls| + Weights(s.helpers) + |s.monitor.queue.items| + Phase(s.consumer, s.threads)
  }

  /** Threads that may yet look at the queue in vain. */
  function Unsettled(s: State): nat {
    |s.monitor.readyReaders| + |s.monitor.readyWriters| + (if s.consumer.Popping? then 1 else 0)
  }

  predicate Closer(t: State, s: State) {
    || RoundsLeft(t) < RoundsLeft(s)
    || (RoundsLeft(t) == RoundsLeft(s) && (Work(t) < Work(s) || (Work(t) == Work(s) && Unsettled(t) < Unsettled(s))))
  }

  lemma {:induction false} WeightsUpdate(hs: seq<Helper>, i: nat, h: Helper)
    requires i < |hs|
    ensures Weights(hs[i := h]) + Weight(hs[i]) == Weights(hs) + Weight(h)
  {
    if i == 0 { assert hs[0 := h][1..] == hs[1..]; }
    else { assert hs[i := h][1..] == hs[1..][i - 1 := h]; WeightsUpdate(hs[1..], i - 1, h); }
  }

  lemma {:induction false} WeightsAppend(hs: seq<Helper>, h: Helper)
    ensures Weights(hs + [h]) == Weights(hs) + Weight(h)
  {
    if hs == [] { assert [h][1..] == []; }
    else { assert (hs + [h])[1..] == hs[1..] + [h]; WeightsAppend(hs[1..], h); }
  }

  lemma {:induction false} PutCloser(s: State, i: nat, download: bool, woken: set<Q.Tid>)
    requires Machine(s) && Enabled(s, Put(i, download, woken))
    ensures Closer(Next(s, Put(i, download, woken)), s)
  {
    hide Next, Machine, Q.Inv, Q.Next, Unsettled;
    var t := Next(s, Put(i, download, woken));
    PutEffect(s, Put(i, download, woken));
    WeightsUpdate(s.helpers, i, t.helpers[i]);
  }

  /** A push that went in, or back to sleep. */
  lemma {:induction false} PutAgainCloser(s: State, i: nat, woken: set<Q.Tid>)
    requires Machine(s) && Enabled(s, PutAgain(i, woken))
    ensures Closer(Next(s, PutAgain(i, woken)), s)
  {
    hide Next, Machine, Q.Inv, Q.Next;
    var t := Next(s, PutAgain(i, woken));
    PutEffect(s, PutAgain(i, woken));
    WeightsUpdate(s.helpers, i, t.helpers[i]);
    assert |s.monitor.readyWriters - {i}| == |s.monitor.readyWriters| - 1;
  }

  lemma {:induction false} PopCloser(s: State, a: Action)
    requires Machine(s) && Enabled(s, a) && (a.Pop? || a.PopAgain?)
    ensures Closer(Next(s, a), s)
  {
    hide Next, Weights, Q.Inv, Counted, Drained, Rounds;
    var t := Next(s, a);
    PopHasEffect(s, a);
    assert if s.threads in s.monitor.readyReaders
           then |s.monitor.readyReaders - {s.threads}| == |s.monitor.readyReaders| - 1
           else s.monitor.readyReaders - {s.threads} == s.monitor.readyReaders;
  }

  /** Every step that is not a spurious wake-up brings the end closer. */
  lemma {:induction false} StepCloser(s: State, a: Action)
    requires Machine(s) && Enabled(s, a) && !Spurious(a)
    ensures Closer(Next(s, a), s)
  {
    match a
    case Put(i, download, woken) => PutCloser(s, i, download, woken);
    case PutAgain(i, woken) => PutAgainCloser(s, i, woken);
    case _ => if a.Pop? || a.PopAgain? { PopCloser(s, a); } else { OtherCloser(s, a); }
  }

  lemma {:induction false} OtherCloser(s: State, a: Action)
    requires Machine(s) && Enabled(s, a) && !Spurious(a) && !(a.Put? || a.PutAgain? || a.Pop? || a.PopAgain?)
    ensures Closer(Next(s, a), s)
  {
    StepsBeforeEnd(s, a);
    match a
    case EndRound =>
    case Register => Q.OtherHasEffect(s.monitor, Q.AddProducer);
    case Spawn => WeightsAppend(s.helpers, Idle);
    case Take(i) => WeightsUpdate(s.helpers, i, Fetching(s.urls[|s.urls| - 1]));
    case NoMore(i) => WeightsUpdate(s.helpers, i, Leaving);
    case FastTrack(i) => WeightsUpdate(s.helpers, i, Idle);
    case Fail(i) => WeightsUpdate(s.helpers, i, Idle);
    case Leave(i) => WeightsUpdate(s.helpers, i, Done); Q.OtherHasEffect(s.monitor, Q.RemoveProducer);
  }

  lemma {:induction false} MeasureIsNatural(s: State)
    requires Machine(s)
    ensures RoundsLeft(s) >= 0 && Work(s) >= 0
  {
  }

  // ---- termination -----------------------------------------------------------

  /** `t` follows `s` by some step other than a spurious wake-up. */
  ghost predicate Steps(s: State, t: State) {
    exists a :: !Spurious(a) && Enabled(s, a) && t == Next(s, a)
  }

  /** From every reachable state the downloader can still finish. */
  lemma {:induction false} CanFinish(s: State, start: seq<Url>) returns (run: seq<Action>)
    requires Inv(s, start)
    ensures After(s, run).Some? && After(s, run).value.consumer.Finished?
    ensures forall a | a in run :: !Spurious(a)
    decreases RoundsLeft(s), Work(s), Unsettled(s)
  {
    if s.consumer.Finished? { return []; }
    NoDeadlock(s, start);
    var a :| !Spurious(a) && Enabled(s, a);
    StepCloser(s, a);
    StepKeepsInv(s, a, start);
    MeasureIsNatural(s);
    MeasureIsNatural(Next(s, a));
    var rest := CanFinish(Next(s, a), start);
    run := [a] + rest;
    assert run[1..] == rest;
  }

  lemma {:induction false} StepsDescend(s: State, t: State, start: seq<Url>)
    requires Inv(s, start) && Steps(s, t)
    ensures Inv(t, start)
    ensures RoundsLeft(s) >= 0 && Work(s) >= 0 && RoundsLeft(t) >= 0 && Work(t) >= 0
    ensures || RoundsLeft(t) < RoundsLeft(s)
            || (RoundsLeft(t) == RoundsLeft(s) && (Work(t) < Work(s) || (Work(t) == Work(s) && Unsettled(t) < Unsettled(s))))
  {
    hide Enabled, Next, Machine, Ledger, Work, Unsettled, RoundsLeft;
    var a :| !Spurious(a) && Enabled(s, a) && t == Next(s, a);
    StepCloser(s, a);
    StepKeepsInv(s, a, start);
    MeasureIsNatural(s);
    MeasureIsNatural(t);
  }

  /** `run` is an execution in which, from step `n` on, no wake-up is spurious. */
  lemma {:induction false} Descends(run: nat -> State, n: nat, start: seq<Url>)
    requires Inv(run(n), start) && forall k: nat | k >= n :: Steps(run(k), run(k + 1))
    ensures false
    decreases RoundsLeft(run(n)), Work(run(n)), Unsettled(run(n))
  {
    hide Inv, Steps, RoundsLeft, Work, Unsettled;
    StepsDescend(run(n), run(n + 1), start);
    Descends(run, n + 1, start);
  }

  /** No execution goes on for ever unless it is woken spuriously for ever. */
  lemma {:induction false} Terminates(run: nat -> State, n: nat, start: seq<Url>)
    requires Inv(run(n), start)
    ensures exists k: nat :: k >= n && !Steps(run(k), run(k + 1))
  {
    if forall k: nat | k >= n :: Steps(run(k), run(k + 1)) {
      Descends(run, n, start);
    }
  }
}
