/**
  The queue as a monitor: any number of threads push and pop concurrently, and
  each section of BoundedQueue runs under the mutex. A thread that waits sleeps
  on a condition variable until a signal (which wakes one or more sleepers), a
  broadcast or a spurious wake-up makes it ready; a ready thread re-enters its
  wait loop in some later step.
 */
module QueueMonitor {
  import opened Wrappers
  import opened Ordering
  import opened BoundedQueue
  import opened Bytes
  import opened Sequences

  type Tid = nat

  datatype Monitor<V> = Monitor(
    queue: Queue<V>,
    asleepReaders: set<Tid>,
    readyReaders: set<Tid>,
    asleepWriters: set<Tid>,
    readyWriters: set<Tid>,
    waiting: map<Tid, Entry<V>>,  // what each waiting writer wants to push
    pushed: seq<Entry<V>>,        // everything inserted so far
    popped: seq<Entry<V>>)        // everything removed so far
  {
    predicate Waits(t: Tid) {
      t in asleepReaders || t in readyReaders || t in asleepWriters || t in readyWriters
    }
  }

  function Initial<V>(capacity: nat, producers: nat): Monitor<V> {
    Monitor(Queue([], capacity, producers), {}, {}, {}, {}, map[], [], [])
  }

  datatype Action<V> =
    | Push(t: Tid, entry: Entry<V>, woken: set<Tid>)
    | PushAgain(t: Tid, woken: set<Tid>)
    | Pop(t: Tid, woken: set<Tid>)
    | PopAgain(t: Tid, woken: set<Tid>)
    | AddProducer
    | RemoveProducer
    | SpuriousReader(t: Tid)
    | SpuriousWriter(t: Tid)

  /** What `signal` may do: wake one sleeper or more, if there is any. */
  predicate Signalled(asleep: set<Tid>, woken: set<Tid>) {
    woken <= asleep && (asleep != {} ==> woken != {})
  }

  // ---- effect of the sections on the sleeping threads ------------------------

  /** A push that inserted: signal a reader. */
  function Inserts<V>(m: Monitor<V>, q: Queue<V>, e: Entry<V>, woken: set<Tid>): Monitor<V> {
    m.(queue := q, pushed := m.pushed + [e],
       asleepReaders := m.asleepReaders - woken, readyReaders := m.readyReaders + woken)
  }

  /** A pop that removed: signal a writer. */
  function Removes<V>(m: Monitor<V>, q: Queue<V>, e: Entry<V>, woken: set<Tid>): Monitor<V> {
    m.(queue := q, popped := m.popped + [e],
       asleepWriters := m.asleepWriters - woken, readyWriters := m.readyWriters + woken)
  }

  /** The thread leaves its wait loop. */
  function Resumed<V>(m: Monitor<V>, t: Tid): Monitor<V> {
    m.(readyReaders := m.readyReaders - {t}, readyWriters := m.readyWriters - {t}, waiting := m.waiting - {t})
  }

  function AfterPush<V>(m: Monitor<V>, t: Tid, e: Entry<V>, r: (Queue<V>, PushOutcome), woken: set<Tid>): Monitor<V> {
    match r.1
    case PushRaises => m
    case PushWaits => m.(asleepWriters := m.asleepWriters + {t}, waiting := m.waiting[t := e])
    case Pushed => Inserts(m, r.0, e, woken)
  }

  function AfterPop<V>(m: Monitor<V>, t: Tid, r: (Queue<V>, PopOutcome<V>), woken: set<Tid>): Monitor<V> {
    match r.1
    case PopWaits => m.(asleepReaders := m.asleepReaders + {t})
    case PopFinished => m
    case Popped(e) => Removes(m, r.0, e, woken)
  }

  predicate Enabled<V>(m: Monitor<V>, a: Action<V>) {
    match a
    case Push(t, e, woken) =>
      !m.Waits(t) && (if PushStart(m.queue, e).1.Pushed? then Signalled(m.asleepReaders, woken) else woken == {})
    case PushAgain(t, woken) =>
      t in m.readyWriters && t in m.waiting
      && (if PushLoop(m.queue, m.waiting[t]).1.Pushed? then Signalled(m.asleepReaders, woken) else woken == {})
    case Pop(t, woken) =>
      !m.Waits(t) && (if PopLoop(m.queue).1.Popped? then Signalled(m.asleepWriters, woken) else woken == {})
    case PopAgain(t, woken) =>
      t in m.readyReaders
      && (if PopLoop(m.queue).1.Popped? then Signalled(m.asleepWriters, woken) else woken == {})
    case AddProducer => true
    case RemoveProducer => true
    case SpuriousReader(t) => t in m.asleepReaders
    case SpuriousWriter(t) => t in m.asleepWriters
  }

  function Next<V>(m: Monitor<V>, a: Action<V>): Monitor<V>
    requires Enabled(m, a)
  {
    match a
    case Push(t, e, woken) => AfterPush(m, t, e, PushStart(m.queue, e), woken)
    case PushAgain(t, woken) => AfterPush(Resumed(m, t), t, m.waiting[t], PushLoop(m.queue, m.waiting[t]), woken)
    case Pop(t, woken) => AfterPop(m, t, PopLoop(m.queue), woken)
    case PopAgain(t, woken) => AfterPop(Resumed(m, t), t, PopLoop(m.queue), woken)
    case AddProducer => m.(queue := ProducerAdded(m.queue).0)
    case RemoveProducer =>
      var r := ProducerRemoved(m.queue);
      if !r.1 && r.0.producers == 0 then  // broadcast
        m.(queue := r.0, asleepReaders := {}, readyReaders := m.readyReaders + m.asleepReaders)
      else m.(queue := r.0)
    case SpuriousReader(t) =>
      m.(asleepReaders := m.asleepReaders - {t}, readyReaders := m.readyReaders + {t})
    case SpuriousWriter(t) =>
      m.(asleepWriters := m.asleepWriters - {t}, readyWriters := m.readyWriters + {t})
  }

  // ---- the invariant ---------------------------------------------------------

  /** Each thread waits in one place, and waiting writers remember their entry. */
  ghost predicate ThreadsApart<V>(m: Monitor<V>) {
    && (forall t | t in m.asleepReaders :: t !in m.readyReaders)
    && (forall t | t in m.asleepWriters :: t !in m.readyWriters)
    && (forall t | t in m.waiting :: t !in m.asleepReaders && t !in m.readyReaders)
    && (forall t :: t in m.waiting <==> t in m.asleepWriters || t in m.readyWriters)
  }

  /**
    No wake-up is lost: while a reader sleeps, there are as many ready readers
    as entries; while a writer sleeps, as many ready writers as free places.
    The two parameters count a thread that is just re-entering its section.
   */
  ghost predicate Awake<V>(m: Monitor<V>, reader: nat, writer: nat) {
    && (m.asleepReaders != {} ==> |m.queue.items| <= |m.readyReaders| + reader && m.queue.producers > 0)
    && (m.asleepWriters != {} ==> m.queue.capacity - |m.queue.items| <= |m.readyWriters| + writer)
  }

  /** Nothing is lost or duplicated, and entries of one key leave in arrival order. */
  ghost predicate Conserves<V>(m: Monitor<V>) {
    && multiset(m.pushed) == multiset(m.popped) + multiset(m.queue.items)
    && forall k :: ByKey(m.pushed, k) == ByKey(m.popped, k) + ByKey(m.queue.items, k)
  }

  ghost predicate Core<V>(m: Monitor<V>) {
    && Sorted(m.queue.items) && |m.queue.items| <= m.queue.capacity
    && m.queue.producers < UNSIGNED_LIMIT
    && ThreadsApart(m) && Conserves(m)
  }

  ghost predicate Inv<V>(m: Monitor<V>) {
    Core(m) && Awake(m, 0, 0)
  }

  lemma {:induction false} InitialInv<V>(capacity: nat, producers: nat)
    requires producers < UNSIGNED_LIMIT
    ensures Inv(Initial<V>(capacity, producers))
  {
  }

  /** The one step that breaks the invariant: the count wraps to zero while a reader sleeps. */
  predicate Overflows<V>(m: Monitor<V>, a: Action<V>) {
    a.AddProducer? && m.queue.producers == UNSIGNED_LIMIT - 1 && m.asleepReaders != {}
  }

  lemma {:induction false} ByKeySingle<V>(e: Entry<V>, k: string)
    ensures ByKey([e], k) == if e.key == k then [e] else []
  {
    assert ByKey([e], k) == (if e.key == k then [e] else []) + ByKey([], k);
  }

  /** Pushing adds the entry to the log and to the queue. */
  lemma {:induction false} PushMoves<V>(pushed: seq<Entry<V>>, popped: seq<Entry<V>>, items: seq<Entry<V>>, e: Entry<V>, k: string)
    requires Sorted(items) && ByKey(pushed, k) == ByKey(popped, k) + ByKey(items, k)
    ensures ByKey(pushed + [e], k) == ByKey(popped, k) + ByKey(Inserted(items, e), k)
  {
    hide ByKey, Inserted, Sorted;
    var last := if e.key == k then [e] else [];
    InsertedLast(items, e, k);
    ByKeyAppend(pushed, [e], k);
    ByKeySingle(e, k);
    Associative(ByKey(popped, k), ByKey(items, k), last);
  }

  lemma {:induction false} InsertsConserves<V>(m: Monitor<V>, e: Entry<V>, woken: set<Tid>)
    requires Sorted(m.queue.items) && Conserves(m)
    ensures Conserves(Inserts(m, m.queue.(items := Inserted(m.queue.items, e)), e, woken))
  {
    hide ByKey, Inserted, Sorted;
    forall k ensures ByKey(m.pushed + [e], k) == ByKey(m.popped, k) + ByKey(Inserted(m.queue.items, e), k) {
      PushMoves(m.pushed, m.popped, m.queue.items, e, k);
    }
  }

  /** Popping moves the front entry from the queue to the log. */
  lemma {:induction false} PopMoves<V>(popped: seq<Entry<V>>, items: seq<Entry<V>>, k: string)
    requires items != []
    ensures ByKey(popped + [items[0]], k) + ByKey(items[1..], k) == ByKey(popped, k) + ByKey(items, k)
  {
    hide ByKey;
    var e, rest := items[0], items[1..];
    ByKeyAppend(popped, [e], k);
    ByKeyAppend([e], rest, k);
    assert items == [e] + rest;
    Associative(ByKey(popped, k), ByKey([e], k), ByKey(rest, k));
  }

  lemma {:induction false} RemovesConserves<V>(m: Monitor<V>, woken: set<Tid>)
    requires m.queue.items != [] && Conserves(m)
    ensures Conserves(Removes(m, m.queue.(items := m.queue.items[1..]), m.queue.items[0], woken))
  {
    var e, rest := m.queue.items[0], m.queue.items[1..];
    assert m.queue.items == [e] + rest;
    hide ByKey;
    forall k ensures ByKey(m.pushed, k) == ByKey(m.popped + [e], k) + ByKey(rest, k) {
      PopMoves(m.popped, m.queue.items, k);
    }
  }

  lemma {:induction false} SameLog<V>(m: Monitor<V>, n: Monitor<V>)
    requires m.queue.items == n.queue.items && m.pushed == n.pushed && m.popped == n.popped
    ensures Conserves(m) <==> Conserves(n)
  {
  }

  /** Waking sleepers moves them; at least one if there were any. */
  lemma {:induction false} WakeCounts(asleep: set<Tid>, ready: set<Tid>, woken: set<Tid>)
    requires Signalled(asleep, woken) && forall t | t in asleep :: t !in ready
    ensures |ready + woken| == |ready| + |woken|
    ensures asleep != {} ==> |woken| >= 1
  {
    assert ready !! woken;
  }

  lemma {:induction false} InsertsKeepsInv<V>(m: Monitor<V>, e: Entry<V>, woken: set<Tid>)
    requires Core(m) && Awake(m, 0, 1) && |m.queue.items| < m.queue.capacity
    requires Signalled(m.asleepReaders, woken)
    ensures Inv(Inserts(m, m.queue.(items := Inserted(m.queue.items, e)), e, woken))
  {
    hide Less, Sorted, Conserves, Inserted;
    InsertsConserves(m, e, woken);
    InsertedSorted(m.queue.items, e);
    WakeCounts(m.asleepReaders, m.readyReaders, woken);
  }

  lemma {:induction false} RemovesKeepsInv<V>(m: Monitor<V>, woken: set<Tid>)
    requires Core(m) && Awake(m, 1, 0) && m.queue.items != []
    requires Signalled(m.asleepWriters, woken)
    ensures Inv(Removes(m, m.queue.(items := m.queue.items[1..]), m.queue.items[0], woken))
  {
    hide Less, Conserves;
    RemovesConserves(m, woken);
    WakeCounts(m.asleepWriters, m.readyWriters, woken);
  }

  lemma {:induction false} WriterSleeps<V>(m: Monitor<V>, t: Tid, e: Entry<V>)
    requires Core(m) && Awake(m, 0, 1) && !m.Waits(t) && |m.queue.items| == m.queue.capacity
    ensures Inv(m.(asleepWriters := m.asleepWriters + {t}, waiting := m.waiting[t := e]))
  {
    hide Less, Sorted, Conserves;
    SameLog(m, m.(asleepWriters := m.asleepWriters + {t}, waiting := m.waiting[t := e]));
  }

  lemma {:induction false} ReaderSleeps<V>(m: Monitor<V>, t: Tid)
    requires Core(m) && Awake(m, 1, 0) && !m.Waits(t) && m.queue.items == [] && m.queue.producers > 0
    ensures Inv(m.(asleepReaders := m.asleepReaders + {t}))
  {
    hide Less, Sorted, Conserves;
    SameLog(m, m.(asleepReaders := m.asleepReaders + {t}));
  }

  lemma {:induction false} PushKeepsInv<V>(m: Monitor<V>, t: Tid, e: Entry<V>, woken: set<Tid>)
    requires Core(m) && Awake(m, 0, 1) && !m.Waits(t)
    requires if PushLoop(m.queue, e).1.Pushed? then Signalled(m.asleepReaders, woken) else woken == {}
    ensures Inv(AfterPush(m, t, e, PushLoop(m.queue, e), woken))
  {
    if |m.queue.items| < m.queue.capacity { InsertsKeepsInv(m, e, woken); } else { WriterSleeps(m, t, e); }
  }

  lemma {:induction false} PopKeepsInv<V>(m: Monitor<V>, t: Tid, woken: set<Tid>)
    requires Core(m) && Awake(m, 1, 0) && !m.Waits(t)
    requires if PopLoop(m.queue).1.Popped? then Signalled(m.asleepWriters, woken) else woken == {}
    ensures Inv(AfterPop(m, t, PopLoop(m.queue), woken))
  {
    if m.queue.items != [] {
      RemovesKeepsInv(m, woken);
    } else if m.queue.producers > 0 {
      ReaderSleeps(m, t);
    }
  }

  // ---- every step, every run -------------------------------------------------

  lemma {:induction false} ReaderResumes<V>(m: Monitor<V>, t: Tid)
    requires Inv(m) && t in m.readyReaders
    ensures Core(Resumed(m, t)) && Awake(Resumed(m, t), 1, 0) && !Resumed(m, t).Waits(t)
  {
    hide Less, Sorted, Conserves;
    var n := Resumed(m, t);
    SameLog(m, n);
    assert t !in m.waiting;
    assert |n.readyReaders| == |m.readyReaders| - 1;
    assert n.readyWriters == m.readyWriters && n.waiting == m.waiting;
  }

  lemma {:induction false} WriterResumes<V>(m: Monitor<V>, t: Tid)
    requires Inv(m) && t in m.readyWriters
    ensures Core(Resumed(m, t)) && Awake(Resumed(m, t), 0, 1) && !Resumed(m, t).Waits(t)
  {
    hide Less, Sorted, Conserves;
    var n := Resumed(m, t);
    SameLog(m, n);
    assert t in m.waiting && t !in m.readyReaders;
    assert |n.readyWriters| == |m.readyWriters| - 1;
    assert n.readyReaders == m.readyReaders;
  }

  lemma {:induction false} AddKeepsInv<V>(m: Monitor<V>)
    requires Inv(m) && !Overflows(m, AddProducer)
    ensures Inv(Next(m, AddProducer))
  {
    hide Less, Sorted, Conserves;
    SameLog(m, Next(m, AddProducer));
  }

  lemma {:induction false} RemoveKeepsInv<V>(m: Monitor<V>)
    requires Inv(m)
    ensures Inv(Next(m, RemoveProducer))
  {
    hide Less, Sorted, Conserves;
    var n := Next(m, RemoveProducer);
    SameLog(m, n);
    assert forall t | t in n.readyReaders :: t in m.readyReaders || t in m.asleepReaders;
    assert n.asleepWriters == m.asleepWriters && n.readyWriters == m.readyWriters && n.waiting == m.waiting;
    assert n.asleepReaders != {} ==> n.readyReaders == m.readyReaders && n.queue.producers > 0;
  }

  lemma {:induction false} SpuriousReaderKeepsInv<V>(m: Monitor<V>, t: Tid)
    requires Inv(m) && t in m.asleepReaders
    ensures Inv(m.(asleepReaders := m.asleepReaders - {t}, readyReaders := m.readyReaders + {t}))
  {
    hide Sorted, Conserves;
    SameLog(m, m.(asleepReaders := m.asleepReaders - {t}, readyReaders := m.readyReaders + {t}));
    WakeCounts(m.asleepReaders, m.readyReaders, {t});
  }

  lemma {:induction false} SpuriousWriterKeepsInv<V>(m: Monitor<V>, t: Tid)
    requires Inv(m) && t in m.asleepWriters
    ensures Inv(m.(asleepWriters := m.asleepWriters - {t}, readyWriters := m.readyWriters + {t}))
  {
    hide Sorted, Conserves;
    SameLog(m, m.(asleepWriters := m.asleepWriters - {t}, readyWriters := m.readyWriters + {t}));
    WakeCounts(m.asleepWriters, m.readyWriters, {t});
  }

  /** Every step keeps the invariant, except a wrap-around under a sleeping reader. */
  lemma {:induction false} StepKeepsInv<V>(m: Monitor<V>, a: Action<V>)
    requires Inv(m) && Enabled(m, a)
    ensures Inv(Next(m, a)) <==> !Overflows(m, a)
  {
    if Overflows(m, a) {
      assert Next(m, a).queue.producers == 0 && !Awake(Next(m, a), 0, 0);
    } else {
      match a
      case Push(t, e, woken) => if m.queue.producers > 0 { PushKeepsInv(m, t, e, woken); }
      case PushAgain(t, woken) => WriterResumes(m, t); PushKeepsInv(Resumed(m, t), t, m.waiting[t], woken);
      case Pop(t, woken) => PopKeepsInv(m, t, woken);
      case PopAgain(t, woken) => ReaderResumes(m, t); PopKeepsInv(Resumed(m, t), t, woken);
      case AddProducer => AddKeepsInv(m);
      case RemoveProducer => RemoveKeepsInv(m);
      case SpuriousReader(t) => SpuriousReaderKeepsInv(m, t);
      case SpuriousWriter(t) => SpuriousWriterKeepsInv(m, t);
    }
  }

  /** The state after a sequence of steps, if each was enabled and none overflowed the count. */
  function After<V>(m: Monitor<V>, run: seq<Action<V>>): Option<Monitor<V>>
    decreases |run|
  {
    if run == [] then Some(m)
    else if !Enabled(m, run[0]) || Overflows(m, run[0]) then None
    else After(Next(m, run[0]), run[1..])
  }

  /** On every run of any number of threads the invariant holds. */
  lemma {:induction false} RunKeepsInv<V>(m: Monitor<V>, run: seq<Action<V>>)
    requires Inv(m) && After(m, run).Some?
    ensures Inv(After(m, run).value)
    decreases |run|
  {
    if run != [] {
      StepKeepsInv(m, run[0]);
      RunKeepsInv(Next(m, run[0]), run[1..]);
    }
  }

  /** The failing step can come about: one reader sleeps on an empty queue whose count is at its maximum. */
  lemma {:induction false} OverflowIsReachable<V>()
    ensures var start := Initial<V>(1, UNSIGNED_LIMIT - 1);
            var m := After(start, [Pop(0, {})]);
            Inv(start) && m.Some? && Enabled(m.value, AddProducer) && Overflows(m.value, AddProducer)
              && !Inv(Next(m.value, AddProducer))
  {
    var start := Initial<V>(1, UNSIGNED_LIMIT - 1);
    InitialInv<V>(1, UNSIGNED_LIMIT - 1);
    var run: seq<Action<V>> := [Pop(0, {})];
    assert run[1..] == [];
    assert After(Next(start, run[0]), []) == Some(Next(start, run[0]));
    RunKeepsInv(start, [Pop(0, {})]);
    StepKeepsInv(After(start, [Pop(0, {})]).value, AddProducer);
  }

  /** What the invariant means for sleepers, in any state of any run. */
  lemma {:induction false} NoLostWakeup<V>(capacity: nat, producers: nat, run: seq<Action<V>>)
    requires 0 < capacity && producers < UNSIGNED_LIMIT && After(Initial<V>(capacity, producers), run).Some?
    ensures var m := After(Initial<V>(capacity, producers), run).value;
            && |m.queue.items| <= capacity
            && (m.asleepReaders != {} && m.queue.items != [] ==> m.readyReaders != {})
            && (m.asleepWriters != {} && |m.queue.items| < capacity ==> m.readyWriters != {})
            && (m.asleepReaders != {} && m.asleepWriters != {} ==> m.readyReaders + m.readyWriters != {})
            && (m.queue.producers == 0 ==> m.asleepReaders == {})
  {
    InitialInv<V>(capacity, producers);
    RunKeepsInv(Initial(capacity, producers), run);
    CapacityFixed(Initial<V>(capacity, producers), run);
  }

  lemma {:induction false} CapacityFixed<V>(m: Monitor<V>, run: seq<Action<V>>)
    requires After(m, run).Some?
    ensures After(m, run).value.queue.capacity == m.queue.capacity
    decreases |run|
  {
    if run != [] { CapacityFixed(Next(m, run[0]), run[1..]); }
  }

  /** What was pushed is, key by key and in order, what was popped and what is still queued. */
  lemma {:induction false} RunConserves<V>(capacity: nat, producers: nat, run: seq<Action<V>>, k: string)
    requires producers < UNSIGNED_LIMIT && After(Initial<V>(capacity, producers), run).Some?
    ensures var m := After(Initial<V>(capacity, producers), run).value;
            && multiset(m.pushed) == multiset(m.popped) + multiset(m.queue.items)
            && ByKey(m.pushed, k) == ByKey(m.popped, k) + ByKey(m.queue.items, k)
            && Sorted(m.queue.items)
  {
    InitialInv<V>(capacity, producers);
    RunKeepsInv(Initial(capacity, producers), run);
  }

  /** A thread that has been woken can run, whatever the others do. */
  lemma {:induction false} ReadyThreadsRun<V>(m: Monitor<V>, t: Tid)
    requires Inv(m)
    ensures t in m.readyReaders ==> exists woken :: Enabled(m, PopAgain(t, woken))
    ensures t in m.readyWriters ==> exists woken :: Enabled(m, PushAgain(t, woken))
  {
    if t in m.readyReaders {
      var woken := if PopLoop(m.queue).1.Popped? then m.asleepWriters else {};
      assert Enabled(m, PopAgain(t, woken));
    }
    if t in m.readyWriters {
      var woken := if PushLoop(m.queue, m.waiting[t]).1.Pushed? then m.asleepReaders else {};
      assert Enabled(m, PushAgain(t, woken));
    }
  }

  // ---- what one section does, seen from outside --------------------------------

  ghost predicate PushEffect<V>(m: Monitor<V>, n: Monitor<V>, t: Tid, e: Entry<V>, outcome: PushOutcome) {
    && n.queue.capacity == m.queue.capacity && n.queue.producers == m.queue.producers && n.popped == m.popped
    && n.asleepReaders + n.readyReaders == m.asleepReaders + m.readyReaders
    && (outcome.Pushed? ==>
          n.pushed == m.pushed + [e] && n.queue.items == Inserted(m.queue.items, e) && n.waiting == m.waiting - {t})
    && (!outcome.Pushed? ==>
          n.pushed == m.pushed && n.queue.items == m.queue.items
          && n.waiting == if outcome.PushWaits? then m.waiting[t := e] else m.waiting - {t})
    && (outcome.PushWaits? ==> n.readyReaders == m.readyReaders && n.readyWriters == m.readyWriters - {t})
  }

  ghost predicate PopEffect<V>(m: Monitor<V>, n: Monitor<V>, t: Tid, outcome: PopOutcome<V>) {
    && n.queue.capacity == m.queue.capacity && n.queue.producers == m.queue.producers && n.pushed == m.pushed
    && n.waiting == m.waiting
    && n.asleepReaders + n.readyReaders ==
       (if outcome.PopWaits? then m.asleepReaders + m.readyReaders + {t} else m.asleepReaders + m.readyReaders - {t})
    && (if outcome.Popped?
        then m.queue.items == [outcome.entry] + n.queue.items && n.popped == m.popped + [outcome.entry]
        else n.queue.items == m.queue.items && n.popped == m.popped)
    && (outcome.PopFinished? ==> m.queue.items == [] && m.queue.producers == 0)
    && (outcome.PopWaits? ==> n.readyReaders == m.readyReaders - {t} && n.readyWriters == m.readyWriters)
  }

  lemma {:induction false} PushHasEffect<V>(m: Monitor<V>, t: Tid, e: Entry<V>, woken: set<Tid>)
    requires ThreadsApart(m) && Enabled(m, Push(t, e, woken))
    ensures PushEffect(m, Next(m, Push(t, e, woken)), t, e, PushStart(m.queue, e).1)
  {
    hide Less, Inserted;
    assert m.waiting - {t} == m.waiting && m.readyWriters - {t} == m.readyWriters;
  }

  lemma {:induction false} PushAgainHasEffect<V>(m: Monitor<V>, t: Tid, woken: set<Tid>)
    requires ThreadsApart(m) && Enabled(m, PushAgain(t, woken))
    ensures PushEffect(m, Next(m, PushAgain(t, woken)), t, m.waiting[t], PushLoop(m.queue, m.waiting[t]).1)
  {
    hide Less, Inserted;
    assert (m.waiting - {t})[t := m.waiting[t]] == m.waiting[t := m.waiting[t]];
    assert m.readyReaders - {t} == m.readyReaders;
  }

  lemma {:induction false} PopHasEffect<V>(m: Monitor<V>, t: Tid, woken: set<Tid>)
    requires ThreadsApart(m)
    ensures Enabled(m, Pop(t, woken)) ==> PopEffect(m, Next(m, Pop(t, woken)), t, PopLoop(m.queue).1)
    ensures Enabled(m, PopAgain(t, woken)) ==> PopEffect(m, Next(m, PopAgain(t, woken)), t, PopLoop(m.queue).1)
  {
    assert t !in m.waiting ==> m.waiting - {t} == m.waiting;
    assert t !in m.readyReaders ==> m.readyReaders - {t} == m.readyReaders;
    assert t !in m.readyWriters ==> m.readyWriters - {t} == m.readyWriters;
  }

  /** Steps that move no entry: only the producer count changes, or who is awake. */
  ghost predicate QuietEffect<V>(m: Monitor<V>, n: Monitor<V>) {
    && n.queue == m.queue.(producers := n.queue.producers)
    && n.pushed == m.pushed && n.popped == m.popped && n.waiting == m.waiting
    && n.asleepReaders + n.readyReaders == m.asleepReaders + m.readyReaders
  }

  lemma {:induction false} OtherHasEffect<V>(m: Monitor<V>, a: Action<V>)
    requires Enabled(m, a) && (a.AddProducer? || a.RemoveProducer? || a.SpuriousReader? || a.SpuriousWriter?)
    ensures QuietEffect(m, Next(m, a))
    ensures a.SpuriousReader? || a.SpuriousWriter? ==> Next(m, a).queue == m.queue
    ensures a.AddProducer? ==> Next(m, a).queue == ProducerAdded(m.queue).0
    ensures a.RemoveProducer? ==> Next(m, a).queue == ProducerRemoved(m.queue).0
  {
  }
}
