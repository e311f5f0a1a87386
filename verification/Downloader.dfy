/**
  The download pipeline: helper threads take URLs, download them and push the
  results into the bounded queue; the main thread pops and loads them. Failed
  URLs are retried for up to three rounds. One action is one section under a
  mutex (or a purely local step), and the actions of all threads interleave
  freely. The outcome of a download is chosen by the environment.
 */
module Downloader {
  import opened Wrappers
  import opened Ordering
  import opened BoundedQueue
  import Q = QueueMonitor
  import opened Bytes

  datatype Url = Url(name: string, href: string, digest: string)

  datatype Load = Load(url: Url, download: bool)

  const ROUNDS := 3

  datatype Helper =
    | Idle                                  // at the top of the loop
    | Fetching(url: Url)                    // in download_url
    | Pushing(url: Url, download: bool)     // waiting inside push
    | Leaving                               // found no URL, still a producer
    | Done

  datatype Consumer =
    | Spawning(n: nat, registered: bool)    // n helpers started, the next one registered or not
    | Popping                               // about to call pop
    | PopWaiting                            // waiting inside pop
    | RoundOver                             // pop returned false
    | Finished

  datatype State = State(
    threads: nat, round: nat,
    urls: seq<Url>, failed: seq<Url>,
    helpers: seq<Helper>, consumer: Consumer,
    monitor: Q.Monitor<Load>,
    tracked: multiset<Url>,                 // found in the database already
    roundFailures: seq<multiset<Url>>)      // what had failed at the end of each round

  /** The first URL ends up at the back, from where the helpers take. */
  function Reversed<T>(s: seq<T>): (r: seq<T>)
    ensures multiset(r) == multiset(s)
    ensures |r| == |s| && forall i | 0 <= i < |s| :: r[i] == s[|s| - 1 - i]
  {
    if s == [] then [] else
      assert s == [s[0]] + s[1..];
      Reversed(s[1..]) + [s[0]]
  }

  function Start(threads: nat, start: seq<Url>): State {
    State(threads, 0, Reversed(start), [], [], Spawning(0, false), Q.Initial(threads, 0), multiset{}, [])
  }

  datatype Action =
    | Register | Spawn | EndRound
    | Pop(woken: set<Q.Tid>) | PopAgain(woken: set<Q.Tid>)
    | Take(i: nat) | NoMore(i: nat) | FastTrack(i: nat) | Fail(i: nat)
    | Put(i: nat, download: bool, woken: set<Q.Tid>) | PutAgain(i: nat, woken: set<Q.Tid>)
    | Leave(i: nat)
    | WakeConsumer | WakeHelper(i: nat)     // spurious

  function EntryOf(u: Url, download: bool): Entry<Load> {
    Entry(u.name, Load(u, download))
  }

  /** What the action does to the queue, if anything: helper `i` is thread `i`, the consumer comes after them. */
  function QueueAction(s: State, a: Action): Option<Q.Action<Load>> {
    match a
    case Register => Some(Q.AddProducer)
    case Pop(woken) => Some(Q.Pop(s.threads, woken))
    case PopAgain(woken) => Some(Q.PopAgain(s.threads, woken))
    case Put(i, download, woken) =>
      if i < |s.helpers| && s.helpers[i].Fetching?
      then Some(Q.Push(i, EntryOf(s.helpers[i].url, download), woken)) else None
    case PutAgain(i, woken) => Some(Q.PushAgain(i, woken))
    case Leave(i) => Some(Q.RemoveProducer)
    case WakeConsumer => Some(Q.SpuriousReader(s.threads))
    case WakeHelper(i) => Some(Q.SpuriousWriter(i))
    case _ => None
  }

  predicate Enabled(s: State, a: Action) {
    && (QueueAction(s, a).Some? ==> Q.Enabled(s.monitor, QueueAction(s, a).value))
    && match a
       case Register => s.consumer.Spawning? && !s.consumer.registered && s.consumer.n < s.threads
       case Spawn => s.consumer.Spawning? && (s.consumer.registered || s.consumer.n >= s.threads)
       case EndRound => s.consumer.RoundOver?
       case Pop(_) => s.consumer.Popping?
       case PopAgain(_) => s.consumer.PopWaiting?
       case Take(i) => i < |s.helpers| && s.helpers[i].Idle? && s.urls != []
       case NoMore(i) => i < |s.helpers| && s.helpers[i].Idle? && s.urls == []
       case FastTrack(i) => i < |s.helpers| && s.helpers[i].Fetching?
       case Fail(i) => i < |s.helpers| && s.helpers[i].Fetching?
       case Put(i, _, _) => i < |s.helpers| && s.helpers[i].Fetching?
       case PutAgain(i, _) => i < |s.helpers| && s.helpers[i].Pushing?
       case Leave(i) => i < |s.helpers| && s.helpers[i].Leaving?
       case WakeConsumer => s.consumer.PopWaiting?
       case WakeHelper(i) => i < |s.helpers| && s.helpers[i].Pushing?
  }

  function Next(s: State, a: Action): State
    requires Enabled(s, a)
  {
    var m := if QueueAction(s, a).Some? then Q.Next(s.monitor, QueueAction(s, a).value) else s.monitor;
    match a
    case Register => s.(monitor := m, consumer := Spawning(s.consumer.n, true))
    case Spawn =>
      if s.consumer.registered
      then s.(helpers := s.helpers + [Idle], consumer := Spawning(s.consumer.n + 1, false))
      else s.(consumer := Popping)
    case EndRound =>
      var t := s.(roundFailures := s.roundFailures + [multiset(s.failed)]);
      if s.failed == [] then t.(consumer := Finished)
      else
        var u := t.(urls := s.failed, failed := s.urls, round := s.round + 1);
        if u.round < ROUNDS then u.(helpers := [], consumer := Spawning(0, false)) else u.(consumer := Finished)
    case Pop(_) => AfterPop(s.(monitor := m), PopLoop(s.monitor.queue).1)
    case PopAgain(_) => AfterPop(s.(monitor := m), PopLoop(s.monitor.queue).1)
    case Take(i) =>
      s.(urls := s.urls[..|s.urls| - 1], helpers := s.helpers[i := Fetching(s.urls[|s.urls| - 1])])
    case NoMore(i) => s.(helpers := s.helpers[i := Leaving])
    case FastTrack(i) =>
      s.(tracked := s.tracked + multiset{s.helpers[i].url}, helpers := s.helpers[i := Idle])
    case Fail(i) =>
      s.(failed := s.failed + [s.helpers[i].url], helpers := s.helpers[i := Idle])
    case Put(i, download, _) =>
      AfterPut(s.(monitor := m), i, s.helpers[i].url, download, PushStart(s.monitor.queue, EntryOf(s.helpers[i].url, download)).1)
    case PutAgain(i, _) =>
      AfterPut(s.(monitor := m), i, s.helpers[i].url, s.helpers[i].download, PushLoop(s.monitor.queue, s.monitor.waiting[i]).1)
    case Leave(i) => s.(monitor := m, helpers := s.helpers[i := Done])
    case WakeConsumer => s.(monitor := m)
    case WakeHelper(i) => s.(monitor := m)
  }

  function AfterPop(s: State, outcome: PopOutcome<Load>): State {
    s.(consumer := if outcome.PopWaits? then PopWaiting else if outcome.PopFinished? then RoundOver else Popping)
  }

  /** A push that raised would end the helper; the invariant excludes it. */
  function AfterPut(s: State, i: nat, u: Url, download: bool, outcome: PushOutcome): State
    requires i < |s.helpers|
  {
    s.(helpers := s.helpers[i := if outcome.PushWaits? then Pushing(u, download)
                                 else if outcome.Pushed? then Idle else Done])
  }

  // ---- the invariant ---------------------------------------------------------

  /** One if the helper has taken `u` and not yet disposed of it. */
  function HeldBy(h: Helper, u: Url): nat {
    if (h.Fetching? || h.Pushing?) && h.url == u then 1 else 0
  }

  function Held(hs: seq<Helper>, u: Url): nat {
    if hs == [] then 0 else HeldBy(hs[0], u) + Held(hs[1..], u)
  }

  function Active(hs: seq<Helper>): nat {
    if hs == [] then 0 else (if hs[0].Done? then 0 else 1) + Active(hs[1..])
  }

  /** How many of the queue entries are for `u`. */
  function Loads(es: seq<Entry<Load>>, u: Url): nat {
    if es == [] then 0 else (if es[0].value.url == u then 1 else 0) + Loads(es[1..], u)
  }

  function Readers(m: Q.Monitor<Load>): set<Q.Tid> {
    m.asleepReaders + m.readyReaders
  }

  /** The threads that wait in the monitor are the threads that wait in the pipeline. */
  ghost predicate Wired(consumer: Q.Tid, hs: seq<Helper>, c: Consumer, readers: set<Q.Tid>, waiting: map<Q.Tid, Entry<Load>>) {
    && readers == (if c.PopWaiting? then {consumer} else {})
    && (forall i | i in waiting :: i < |hs| && hs[i].Pushing? && waiting[i] == EntryOf(hs[i].url, hs[i].download))
    && (forall i | 0 <= i < |hs| && hs[i].Pushing? :: i in waiting)
  }

  /** The registered producers are the helpers that have not left. */
  ghost predicate Counted(s: State) {
    && 0 < s.threads < UNSIGNED_LIMIT && s.monitor.queue.capacity == s.threads
    && s.monitor.queue.producers == Active(s.helpers) + (if s.consumer.Spawning? && s.consumer.registered then 1 else 0)
    && (if s.consumer.Spawning?
        then |s.helpers| == s.consumer.n <= s.threads && (s.consumer.registered ==> s.consumer.n < s.threads)
        else |s.helpers| == s.threads)
  }

  /** A helper leaves only when there is nothing left to take; the round ends when all have left. */
  ghost predicate Drained(s: State) {
    && (!s.consumer.Finished? ==> forall i | 0 <= i < |s.helpers| && (s.helpers[i].Leaving? || s.helpers[i].Done?) :: s.urls == [])
    && (s.consumer.RoundOver? || s.consumer.Finished? ==> Active(s.helpers) == 0 && s.monitor.queue.items == [])
  }

  /** The URLs a round starts with. */
  function RoundInput(s: State, start: seq<Url>, r: nat): multiset<Url>
    requires r <= |s.roundFailures|
  {
    if r == 0 then multiset(start) else s.roundFailures[r - 1]
  }

  /** The rounds so far, and what the last one left behind. */
  ghost predicate Rounds(s: State) {
    if s.consumer.Finished?
    then s.failed == [] && s.round <= |s.roundFailures| <= ROUNDS
         && (s.urls != [] ==> |s.roundFailures| == ROUNDS && multiset(s.urls) == s.roundFailures[ROUNDS - 1])
    else |s.roundFailures| == s.round < ROUNDS
  }

  ghost predicate Machine(s: State) {
    Q.Inv(s.monitor) && Wired(s.threads, s.helpers, s.consumer, Readers(s.monitor), s.monitor.waiting) && Counted(s) && Drained(s) && Rounds(s)
  }

  /** Each copy of `u` is in exactly one place, and each round works on the failures of the one before. */
  ghost predicate Ledger(s: State, start: seq<Url>, u: Url) {
    && Loads(s.monitor.pushed, u) == Loads(s.monitor.popped, u) + Loads(s.monitor.queue.items, u)
    && multiset(start)[u] == multiset(s.urls)[u] + Held(s.helpers, u) + multiset(s.failed)[u] + s.tracked[u] + Loads(s.monitor.pushed, u)
    && (forall r | 0 <= r < |s.roundFailures| :: s.roundFailures[r][u] <= RoundInput(s, start, r)[u])
    && (!s.consumer.Finished? ==>
          multiset(s.urls)[u] + Held(s.helpers, u) + multiset(s.failed)[u] <= RoundInput(s, start, |s.roundFailures|)[u])
  }

  ghost predicate Inv(s: State, start: seq<Url>) {
    Machine(s) && forall u :: Ledger(s, start, u)
  }

  lemma {:induction false} HeldUpdate(hs: seq<Helper>, i: nat, h: Helper, u: Url)
    requires i < |hs|
    ensures Held(hs[i := h], u) + HeldBy(hs[i], u) == Held(hs, u) + HeldBy(h, u)
  {
    if i == 0 { assert hs[0 := h][1..] == hs[1..]; }
    else { assert hs[i := h][1..] == hs[1..][i - 1 := h]; HeldUpdate(hs[1..], i - 1, h, u); }
  }

  lemma {:induction false} ActiveUpdate(hs: seq<Helper>, i: nat, h: Helper)
    requires i < |hs|
    ensures Active(hs[i := h]) + (if hs[i].Done? then 0 else 1) == Active(hs) + (if h.Done? then 0 else 1)
  {
    if i == 0 { assert hs[0 := h][1..] == hs[1..]; }
    else { assert hs[i := h][1..] == hs[1..][i - 1 := h]; ActiveUpdate(hs[1..], i - 1, h); }
  }

  lemma {:induction false} ActiveBounds(hs: seq<Helper>)
    ensures Active(hs) <= |hs|
    ensures Active(hs) == 0 <==> forall i | 0 <= i < |hs| :: hs[i].Done?
  {
    if hs != [] { ActiveBounds(hs[1..]); assert forall i | 1 <= i < |hs| :: hs[i] == hs[1..][i - 1]; }
  }

  lemma {:induction false} AppendIdle(hs: seq<Helper>)
    ensures Active(hs + [Idle]) == Active(hs) + 1
    ensures forall u :: Held(hs + [Idle], u) == Held(hs, u)
  {
    if hs == [] { assert [Idle][1..] == []; }
    else { assert (hs + [Idle])[1..] == hs[1..] + [Idle]; AppendIdle(hs[1..]); }
  }

  lemma {:induction false} LoadsAppend(a: seq<Entry<Load>>, e: Entry<Load>, u: Url)
    ensures Loads(a + [e], u) == Loads(a, u) + (if e.value.url == u then 1 else 0)
  {
    if a == [] { assert [e][1..] == []; }
    else { assert (a + [e])[1..] == a[1..] + [e]; LoadsAppend(a[1..], e, u); }
  }

  lemma {:induction false} LoadsInserted(a: seq<Entry<Load>>, e: Entry<Load>, u: Url)
    ensures Loads(Inserted(a, e), u) == Loads(a, u) + (if e.value.url == u then 1 else 0)
  {
    if a == [] || Less(e.key, a[0].key) {
      assert ([e] + a)[1..] == a;
    } else {
      LoadsInserted(a[1..], e, u);
      assert Inserted(a, e)[1..] == Inserted(a[1..], e);
    }
  }

  lemma {:induction false} StartInv(threads: nat, start: seq<Url>)
    requires 0 < threads < UNSIGNED_LIMIT
    ensures Inv(Start(threads, start), start)
  {
    Q.InitialInv<Load>(threads, 0);
  }

  // ---- every step keeps the ledger ----------------------------------------------

  /** The URLs in the hands of this program: to do, in progress, and failed in this round. */
  function Open(s: State, u: Url): nat {
    multiset(s.urls)[u] + Held(s.helpers, u) + multiset(s.failed)[u]
  }

  /** A step inside a round moves URLs between places without losing any. */
  lemma {:induction false} LedgerMoves(s: State, t: State, start: seq<Url>, u: Url)
    requires Ledger(s, start, u) && !s.consumer.Finished? && t.roundFailures == s.roundFailures
    requires Open(t, u) + t.tracked[u] + Loads(t.monitor.pushed, u) == Open(s, u) + s.tracked[u] + Loads(s.monitor.pushed, u)
    requires Open(t, u) <= Open(s, u)
    requires Loads(t.monitor.pushed, u) == Loads(t.monitor.popped, u) + Loads(t.monitor.queue.items, u)
    ensures Ledger(t, start, u)
  {
    assert forall r | 0 <= r <= |s.roundFailures| :: RoundInput(t, start, r) == RoundInput(s, start, r);
  }

  lemma {:induction false} TakeKeepsLedger(s: State, i: nat, start: seq<Url>, u: Url)
    requires Ledger(s, start, u) && !s.consumer.Finished? && Enabled(s, Take(i))
    ensures Ledger(Next(s, Take(i)), start, u)
  {
    var n := |s.urls| - 1;
    assert s.urls == s.urls[..n] + [s.urls[n]];
    HeldUpdate(s.helpers, i, Fetching(s.urls[n]), u);
    LedgerMoves(s, Next(s, Take(i)), start, u);
  }

  /** The helper's own state changes, and with it one of the lists. */
  lemma {:induction false} HelperKeepsLedger(s: State, t: State, i: nat, h: Helper, start: seq<Url>, u: Url)
    requires Ledger(s, start, u) && !s.consumer.Finished? && i < |s.helpers| && t.helpers == s.helpers[i := h]
    requires t.roundFailures == s.roundFailures && t.urls == s.urls && SameQueue(s.monitor, t.monitor)
    requires HeldBy(h, u) + multiset(t.failed)[u] + t.tracked[u] == HeldBy(s.helpers[i], u) + multiset(s.failed)[u] + s.tracked[u]
    requires s.tracked[u] <= t.tracked[u]
    ensures Ledger(t, start, u)
  {
    HeldUpdate(s.helpers, i, h, u);
    LedgerMoves(s, t, start, u);
  }

  ghost predicate SameQueue(m: Q.Monitor<Load>, n: Q.Monitor<Load>) {
    m.pushed == n.pushed && m.popped == n.popped && m.queue.items == n.queue.items
  }

  lemma {:induction false} PutKeepsLedger(s: State, m: Q.Monitor<Load>, i: nat, url: Url, download: bool,
        outcome: PushOutcome, start: seq<Url>, u: Url)
    requires Ledger(s, start, u) && !s.consumer.Finished? && i < |s.helpers|
    requires (s.helpers[i].Fetching? || s.helpers[i].Pushing?) && s.helpers[i].url == url
    requires outcome.Pushed? ==> m.pushed == s.monitor.pushed + [EntryOf(url, download)] && m.popped == s.monitor.popped
                                 && m.queue.items == Inserted(s.monitor.queue.items, EntryOf(url, download))
    requires outcome.PushWaits? ==> m.pushed == s.monitor.pushed && m.popped == s.monitor.popped && m.queue == s.monitor.queue
    requires !outcome.PushRaises?
    ensures Ledger(AfterPut(s.(monitor := m), i, url, download, outcome), start, u)
  {
    var t := AfterPut(s.(monitor := m), i, url, download, outcome);
    HeldUpdate(s.helpers, i, t.helpers[i], u);
    LoadsAppend(s.monitor.pushed, EntryOf(url, download), u);
    LoadsInserted(s.monitor.queue.items, EntryOf(url, download), u);
    LedgerMoves(s, t, start, u);
  }

  lemma {:induction false} PopKeepsLedger(s: State, m: Q.Monitor<Load>, outcome: PopOutcome<Load>, start: seq<Url>, u: Url)
    requires Ledger(s, start, u) && !s.consumer.Finished? && m.pushed == s.monitor.pushed
    requires if outcome.Popped?
             then s.monitor.queue.items == [outcome.entry] + m.queue.items && m.popped == s.monitor.popped + [outcome.entry]
             else m.queue.items == s.monitor.queue.items && m.popped == s.monitor.popped
    ensures Ledger(AfterPop(s.(monitor := m), outcome), start, u)
  {
    if outcome.Popped? {
      LoadsAppend(s.monitor.popped, outcome.entry, u);
      assert s.monitor.queue.items[1..] == m.queue.items;
    }
    LedgerMoves(s, AfterPop(s.(monitor := m), outcome), start, u);
  }

  /** When the round is over, all that is left are the failures. */
  lemma {:induction false} RoundOverIsQuiet(s: State, u: Url)
    requires Machine(s) && s.consumer.RoundOver?
    ensures s.urls == [] && Held(s.helpers, u) == 0 && |s.roundFailures| == s.round
  {
    hide Q.Inv, Wired;
    ActiveBounds(s.helpers);
    HeldByNobody(s.helpers, u);
  }

  lemma {:induction false} EndRoundEffect(s: State, u: Url)
    requires Machine(s) && Enabled(s, EndRound)
    ensures var t := Next(s, EndRound);
            && t.roundFailures == s.roundFailures + [multiset(s.failed)]
            && t.monitor == s.monitor && t.tracked == s.tracked && Held(s.helpers, u) == 0 && s.urls == []
            && multiset(t.urls)[u] + Held(t.helpers, u) + multiset(t.failed)[u] == multiset(s.failed)[u]
  {
    RoundOverIsQuiet(s, u);
    hide Machine, Q.Next, Loads;
  }

  lemma {:induction false} EndRoundKeepsLedger(s: State, start: seq<Url>, u: Url)
    requires Ledger(s, start, u) && Machine(s) && Enabled(s, EndRound)
    ensures Ledger(Next(s, EndRound), start, u)
  {
    EndRoundEffect(s, u);
    hide Machine, Next, Loads, Held;
    var t := Next(s, EndRound);
    forall r | 0 <= r <= |s.roundFailures| ensures RoundInput(t, start, r) == RoundInput(s, start, r) {
      if r > 0 { assert t.roundFailures[r - 1] == s.roundFailures[r - 1]; }
    }
    assert multiset(s.failed)[u] <= RoundInput(t, start, |s.roundFailures|)[u];
    assert RoundInput(t, start, |t.roundFailures|) == multiset(s.failed);
  }

  lemma {:induction false} HeldByNobody(hs: seq<Helper>, u: Url)
    requires forall i | 0 <= i < |hs| :: hs[i].Done?
    ensures Held(hs, u) == 0
  {
    if hs != [] { HeldByNobody(hs[1..], u); }
  }

  /** A producer registers, a helper starts, or a thread is woken: no URL moves. */
  lemma {:induction false} OtherKeepsLedger(s: State, t: State, start: seq<Url>, u: Url)
    requires Ledger(s, start, u) && !s.consumer.Finished? && SameQueue(s.monitor, t.monitor)
    requires t == s.(monitor := t.monitor, consumer := t.consumer, helpers := t.helpers)
    requires t.helpers == s.helpers || t.helpers == s.helpers + [Idle]
    ensures Ledger(t, start, u)
  {
    AppendIdle(s.helpers);
    LedgerMoves(s, t, start, u);
  }

  lemma {:induction false} StepsBeforeEnd(s: State, a: Action)
    requires Machine(s) && Enabled(s, a)
    ensures !s.consumer.Finished?
    ensures a.Put? ==> s.monitor.queue.producers > 0
  {
    ActiveBounds(s.helpers);
  }

  lemma {:induction false} FirstPutEffect(s: State, a: Action)
    requires Machine(s) && Enabled(s, a) && a.Put?
    ensures var e := EntryOf(s.helpers[a.i].url, a.download);
            var outcome := PushStart(s.monitor.queue, e).1;
            && !outcome.PushRaises? && Q.Inv(Next(s, a).monitor)
            && Q.PushEffect(s.monitor, Next(s, a).monitor, a.i, e, outcome)
            && Next(s, a) == AfterPut(s.(monitor := Next(s, a).monitor), a.i, e.value.url, a.download, outcome)
  {
    StepsBeforeEnd(s, a);
    hide Q.PushEffect, Wired, Counted, Drained, Rounds;
    Q.StepKeepsInv(s.monitor, QueueAction(s, a).value);
    Q.PushHasEffect(s.monitor, a.i, EntryOf(s.helpers[a.i].url, a.download), a.woken);
    hide Q.Next, Q.Inv;
  }

  lemma {:induction false} PutAgainEffect(s: State, a: Action)
    requires Machine(s) && Enabled(s, a) && a.PutAgain?
    ensures var e := EntryOf(s.helpers[a.i].url, s.helpers[a.i].download);
            var outcome := PushLoop(s.monitor.queue, e).1;
            && Q.Inv(Next(s, a).monitor)
            && Q.PushEffect(s.monitor, Next(s, a).monitor, a.i, e, outcome)
            && Next(s, a) == AfterPut(s.(monitor := Next(s, a).monitor), a.i, e.value.url, e.value.download, outcome)
  {
    hide Q.PushEffect, Counted, Drained, Rounds;
    Q.StepKeepsInv(s.monitor, QueueAction(s, a).value);
    Q.PushAgainHasEffect(s.monitor, a.i, a.woken);
    hide Q.Next, Q.Inv;
  }

  /** The queue section of a helper's push, and what it means for the pipeline. */
  lemma {:induction false} PutEffect(s: State, a: Action)
    requires Machine(s) && Enabled(s, a) && (a.Put? || a.PutAgain?)
    ensures var e := EntryOf(s.helpers[a.i].url, if a.Put? then a.download else s.helpers[a.i].download);
            var outcome := if a.Put? then PushStart(s.monitor.queue, e).1 else PushLoop(s.monitor.queue, e).1;
            && !outcome.PushRaises? && Q.Inv(Next(s, a).monitor)
            && Q.PushEffect(s.monitor, Next(s, a).monitor, a.i, e, outcome)
            && Next(s, a) == AfterPut(s.(monitor := Next(s, a).monitor), a.i, e.value.url, e.value.download, outcome)
  {
    if a.Put? { FirstPutEffect(s, a); } else { PutAgainEffect(s, a); }
    hide Next, Machine, Enabled, Q.Inv, Q.PushEffect;
  }

  lemma {:induction false} PopHasEffect(s: State, a: Action)
    requires Machine(s) && Enabled(s, a) && (a.Pop? || a.PopAgain?)
    ensures Q.Inv(Next(s, a).monitor)
    ensures Q.PopEffect(s.monitor, Next(s, a).monitor, s.threads, PopLoop(s.monitor.queue).1)
    ensures Next(s, a) == AfterPop(s.(monitor := Next(s, a).monitor), PopLoop(s.monitor.queue).1)
  {
    Q.StepKeepsInv(s.monitor, QueueAction(s, a).value);
    Q.PopHasEffect(s.monitor, s.threads, a.woken);
    hide Q.Inv, Q.Next, Q.PopEffect;
  }

  /** The effect of a push on the queue is what the ledger needs. */
  lemma {:induction false} PushMovesLedger(s: State, m: Q.Monitor<Load>, i: nat, url: Url, download: bool,
        outcome: PushOutcome, start: seq<Url>, u: Url)
    requires Ledger(s, start, u) && !s.consumer.Finished? && i < |s.helpers|
    requires (s.helpers[i].Fetching? || s.helpers[i].Pushing?) && s.helpers[i].url == url
    requires Q.PushEffect(s.monitor, m, i, EntryOf(url, download), outcome) && !outcome.PushRaises?
    ensures Ledger(AfterPut(s.(monitor := m), i, url, download, outcome), start, u)
  {
    hide Ledger, EntryOf;
    PutKeepsLedger(s, m, i, url, download, outcome, start, u);
  }

  lemma {:induction false} PutStepKeepsLedger(s: State, a: Action, start: seq<Url>, u: Url)
    requires Ledger(s, start, u) && Machine(s) && Enabled(s, a) && (a.Put? || a.PutAgain?)
    ensures Ledger(Next(s, a), start, u)
  {
    StepsBeforeEnd(s, a);
    var h, m := s.helpers[a.i], Next(s, a).monitor;
    if a.Put? {
      FirstPutEffect(s, a);
      hide Machine, Next, Enabled, Q.Inv, PushStart, Ledger;
      PushMovesLedger(s, m, a.i, h.url, a.download, PushStart(s.monitor.queue, EntryOf(h.url, a.download)).1, start, u);
    } else {
      PutAgainEffect(s, a);
      hide Machine, Next, Enabled, Q.Inv, PushLoop, Ledger;
      PushMovesLedger(s, m, a.i, h.url, h.download, PushLoop(s.monitor.queue, EntryOf(h.url, h.download)).1, start, u);
    }
  }

  lemma {:induction false} QuietStepKeepsLedger(s: State, a: Action, start: seq<Url>, u: Url)
    requires Ledger(s, start, u) && Machine(s) && Enabled(s, a)
    requires a.Register? || a.Spawn? || a.Leave? || a.WakeConsumer? || a.WakeHelper?
    ensures Ledger(Next(s, a), start, u)
  {
    StepsBeforeEnd(s, a);
    if !a.Spawn? { Q.OtherHasEffect(s.monitor, QueueAction(s, a).value); }
    hide Ledger, Machine, Q.Next, Q.Enabled;
    if a.Leave? {
      HelperKeepsLedger(s, Next(s, a), a.i, Done, start, u);
    } else {
      OtherKeepsLedger(s, Next(s, a), start, u);
    }
  }

  lemma {:induction false} LocalStepKeepsLedger(s: State, a: Action, start: seq<Url>, u: Url)
    requires Ledger(s, start, u) && Machine(s) && Enabled(s, a) && (a.NoMore? || a.FastTrack? || a.Fail?)
    ensures Ledger(Next(s, a), start, u)
  {
    StepsBeforeEnd(s, a);
    hide Ledger, Machine;
    HelperKeepsLedger(s, Next(s, a), a.i, Next(s, a).helpers[a.i], start, u);
  }

  lemma {:induction false} StepKeepsLedger(s: State, a: Action, start: seq<Url>, u: Url)
    requires Ledger(s, start, u) && Machine(s) && Enabled(s, a)
    ensures Ledger(Next(s, a), start, u)
  {
    if a.EndRound? {
      EndRoundKeepsLedger(s, start, u);
    } else if a.Take? {
      StepsBeforeEnd(s, a);
      TakeKeepsLedger(s, a.i, start, u);
    } else if a.Pop? || a.PopAgain? {
      StepsBeforeEnd(s, a);
      PopHasEffect(s, a);
      hide Ledger, Machine, Next, Enabled;
      PopKeepsLedger(s, Next(s, a).monitor, PopLoop(s.monitor.queue).1, start, u);
    } else if a.Put? || a.PutAgain? {
      PutStepKeepsLedger(s, a, start, u);
    } else if a.NoMore? || a.FastTrack? || a.Fail? {
      LocalStepKeepsLedger(s, a, start, u);
    } else {
      QuietStepKeepsLedger(s, a, start, u);
    }
  }

  // ---- every step keeps the machine in order --------------------------------------

  lemma {:induction false} HelperKeepsWired(consumer: Q.Tid, hs: seq<Helper>, c: Consumer, readers: set<Q.Tid>,
        waiting: map<Q.Tid, Entry<Load>>, i: nat, h: Helper)
    requires Wired(consumer, hs, c, readers, waiting) && i < |hs|
    ensures !h.Pushing? ==> Wired(consumer, hs[i := h], c, readers, waiting - {i})
    ensures h.Pushing? ==> Wired(consumer, hs[i := h], c, readers, waiting[i := EntryOf(h.url, h.download)])
  {
  }

  /** What a helper's step owes to the rest of the pipeline. */
  lemma {:induction false} HelperKeepsMachine(s: State, t: State, i: nat, h: Helper)
    requires Machine(s) && i < |s.helpers| && t.helpers == s.helpers[i := h]
    requires t == s.(urls := t.urls, failed := t.failed, tracked := t.tracked, helpers := t.helpers, monitor := t.monitor)
    requires !s.helpers[i].Done? && (s.helpers[i].Leaving? <==> h.Done?)
    requires (s.urls == [] ==> t.urls == []) && (h.Leaving? ==> t.urls == [])
    requires Q.Inv(t.monitor) && t.monitor.queue.capacity == s.monitor.queue.capacity
    requires t.monitor.queue.producers == s.monitor.queue.producers - (if h.Done? then 1 else 0)
    requires Readers(t.monitor) == Readers(s.monitor)
    requires t.monitor.waiting == if h.Pushing? then s.monitor.waiting[i := EntryOf(h.url, h.download)]
                                  else s.monitor.waiting - {i}
    ensures Machine(t)
  {
    ActiveBounds(s.helpers);
    ActiveUpdate(s.helpers, i, h);
    HelperKeepsWired(s.threads, s.helpers, s.consumer, Readers(s.monitor), s.monitor.waiting, i, h);
    hide Q.Inv, Active, Wired, Readers;
  }

  /** Helper steps that leave the queue alone. */
  lemma {:induction false} LocalKeepsMachine(s: State, a: Action)
    requires Machine(s) && Enabled(s, a) && (a.Take? || a.NoMore? || a.FastTrack? || a.Fail?)
    ensures Machine(Next(s, a))
  {
    assert a.i !in s.monitor.waiting;
    assert s.monitor.waiting - {a.i} == s.monitor.waiting;
    hide Machine, Wired, Q.Enabled;
    HelperKeepsMachine(s, Next(s, a), a.i, Next(s, a).helpers[a.i]);
  }

  lemma {:induction false} LeaveKeepsMachine(s: State, i: nat)
    requires Machine(s) && Enabled(s, Leave(i))
    ensures Machine(Next(s, Leave(i)))
  {
    Q.StepKeepsInv(s.monitor, Q.RemoveProducer);
    Q.OtherHasEffect(s.monitor, Q.RemoveProducer);
    ActiveBounds(s.helpers);
    assert i !in s.monitor.waiting && s.monitor.waiting - {i} == s.monitor.waiting;
    hide Machine, Wired, Q.Inv, Q.Next;
    HelperKeepsMachine(s, Next(s, Leave(i)), i, Done);
  }

  lemma {:induction false} PutKeepsMachine(s: State, a: Action)
    requires Machine(s) && Enabled(s, a) && (a.Put? || a.PutAgain?)
    ensures Machine(Next(s, a))
  {
    PutEffect(s, a);
    var t := Next(s, a);
    hide Machine, Next, Wired, Q.Inv;
    HelperKeepsMachine(s, t, a.i, t.helpers[a.i]);
  }

  lemma {:induction false} PopKeepsWired(s: State, a: Action)
    requires Machine(s) && Enabled(s, a) && (a.Pop? || a.PopAgain?)
    ensures var t := Next(s, a); Wired(t.threads, t.helpers, t.consumer, Readers(t.monitor), t.monitor.waiting)
  {
    hide Next, Q.Inv, Counted, Drained, Rounds, Q.Enabled;
    PopHasEffect(s, a);
  }

  lemma {:induction false} PopKeepsCounts(s: State, a: Action)
    requires Machine(s) && Enabled(s, a) && (a.Pop? || a.PopAgain?)
    ensures var t := Next(s, a); Counted(t) && Drained(t) && Rounds(t)
  {
    hide Next, Q.Inv, Wired, Active, Q.Enabled;
    PopHasEffect(s, a);
    ActiveBounds(s.helpers);
  }

  lemma {:induction false} PopKeepsMachine(s: State, a: Action)
    requires Machine(s) && Enabled(s, a) && (a.Pop? || a.PopAgain?)
    ensures Machine(Next(s, a))
  {
    hide Next, Q.Inv, Q.Enabled, Wired, Counted, Drained, Rounds;
    PopHasEffect(s, a);
    PopKeepsWired(s, a);
    PopKeepsCounts(s, a);
  }

  lemma {:induction false} OtherKeepsMachine(s: State, a: Action)
    requires Machine(s) && Enabled(s, a) && (a.Register? || a.Spawn?)
    ensures Machine(Next(s, a))
  {
    ActiveBounds(s.helpers);
    AppendIdle(s.helpers);
    if a.Register? { Q.StepKeepsInv(s.monitor, Q.AddProducer); }
    hide Q.Inv, Active;
  }

  lemma {:induction false} EndRoundKeepsMachine(s: State)
    requires Machine(s) && Enabled(s, EndRound)
    ensures Machine(Next(s, EndRound))
  {
    ActiveBounds(s.helpers);
    assert s.helpers[0].Done? && s.urls == [];
    assert s.monitor.waiting == map[];
    hide Q.Inv, Q.Next, Readers, EntryOf;
    assert Next(s, EndRound).monitor == s.monitor;
  }

  lemma {:induction false} WakeHasEffect(s: State, a: Action)
    requires Machine(s) && Enabled(s, a) && (a.WakeConsumer? || a.WakeHelper?)
    ensures Next(s, a) == s.(monitor := Next(s, a).monitor)
    ensures Q.Inv(Next(s, a).monitor) && Q.QuietEffect(s.monitor, Next(s, a).monitor)
    ensures Next(s, a).monitor.queue == s.monitor.queue
  {
    hide Q.Inv, Q.QuietEffect, Wired, Counted, Drained, Rounds;
    Q.StepKeepsInv(s.monitor, QueueAction(s, a).value);
    Q.OtherHasEffect(s.monitor, QueueAction(s, a).value);
    hide Q.Next;
  }

  lemma {:induction false} WakeKeepsMachine(s: State, a: Action)
    requires Machine(s) && Enabled(s, a) && (a.WakeConsumer? || a.WakeHelper?)
    ensures Machine(Next(s, a))
  {
    hide Next, Enabled, QueueAction, Q.Inv, Active, Wired;
    WakeHasEffect(s, a);
  }

  /** Every step of every thread keeps the invariant. */
  lemma {:induction false} StepKeepsInv(s: State, a: Action, start: seq<Url>)
    requires Inv(s, start) && Enabled(s, a)
    ensures Inv(Next(s, a), start)
  {
    forall u ensures Ledger(Next(s, a), start, u) { StepKeepsLedger(s, a, start, u); }
    match a
    case Leave(i) => LeaveKeepsMachine(s, i);
    case EndRound => EndRoundKeepsMachine(s);
    case _ =>
      if a.Put? || a.PutAgain? { PutKeepsMachine(s, a); }
      else if a.Pop? || a.PopAgain? { PopKeepsMachine(s, a); }
      else if a.Register? || a.Spawn? { OtherKeepsMachine(s, a); }
      else if a.WakeConsumer? || a.WakeHelper? { WakeKeepsMachine(s, a); }
      else { LocalKeepsMachine(s, a); }
  }

  // ---- whole runs ------------------------------------------------------------------

  /** The state after a sequence of enabled actions. */
  function After(s: State, run: seq<Action>): Option<State>
    decreases |run|
  {
    if run == [] then Some(s)
    else if !Enabled(s, run[0]) then None
    else After(Next(s, run[0]), run[1..])
  }

  lemma {:induction false} RunKeepsInv(s: State, run: seq<Action>, start: seq<Url>)
    requires Inv(s, start) && After(s, run).Some?
    ensures Inv(After(s, run).value, start)
    decreases |run|
  {
    if run != [] {
      StepKeepsInv(s, run[0], start);
      RunKeepsInv(Next(s, run[0]), run[1..], start);
    }
  }

  /**
    When `pop` has returned false, the round is over: no URL is left to take,
    no helper is active or holds one, and the queue is empty and has no producer.
   */
  lemma {:induction false} RoundEndsDrained(threads: nat, start: seq<Url>, run: seq<Action>)
    requires 0 < threads < UNSIGNED_LIMIT && After(Start(threads, start), run).Some?
    ensures var s := After(Start(threads, start), run).value;
            s.consumer.RoundOver? ==>
              && s.urls == [] && s.monitor.queue.items == [] && s.monitor.queue.producers == 0
              && |s.helpers| == threads && forall i | 0 <= i < threads :: s.helpers[i].Done?
  {
    StartInv(threads, start);
    RunKeepsInv(Start(threads, start), run, start);
    var s := After(Start(threads, start), run).value;
    ThreadsFixed(Start(threads, start), run);
    ActiveBounds(s.helpers);
  }

  lemma {:induction false} ThreadsFixed(s: State, run: seq<Action>)
    requires After(s, run).Some?
    ensures After(s, run).value.threads == s.threads
    decreases |run|
  {
    if run != [] { ThreadsFixed(Next(s, run[0]), run[1..]); }
  }

  /**
    When the downloader has finished, every starting URL was found in the
    database, loaded, or is left in `urls_`; and what is left failed in each of
    the three rounds.
   */
  lemma {:induction false} FinishedAccountsForAll(threads: nat, start: seq<Url>, run: seq<Action>, u: Url)
    requires 0 < threads < UNSIGNED_LIMIT && After(Start(threads, start), run).Some?
    ensures var s := After(Start(threads, start), run).value;
            s.consumer.Finished? ==>
              && multiset(start)[u] == s.tracked[u] + Loads(s.monitor.popped, u) + multiset(s.urls)[u]
              && (s.urls != [] ==> |s.roundFailures| == 3)
              && |s.roundFailures| <= 3
              && forall r | 0 <= r < |s.roundFailures| :: multiset(s.urls)[u] <= s.roundFailures[r][u] <= multiset(start)[u]
  {
    StartInv(threads, start);
    RunKeepsInv(Start(threads, start), run, start);
    var s := After(Start(threads, start), run).value;
    if s.consumer.Finished? {
      assert Ledger(s, start, u);
      ActiveBounds(s.helpers);
      HeldByNobody(s.helpers, u);
      FailuresShrink(s, start, u);
    }
  }

  // ---- the order of loading ------------------------------------------------------

  /** Everything that was pushed goes by its package's name. */
  ghost predicate Keyed(s: State) {
    forall i | 0 <= i < |s.monitor.pushed| :: s.monitor.pushed[i].key == s.monitor.pushed[i].value.url.name
  }

  /** What the action may push: the URL in the helper's hands, and how it got the file, under the name of the package. */
  function Pushes(s: State, a: Action): Entry<Load>
    requires (a.Put? || a.PutAgain?) && a.i < |s.helpers|
    requires if a.Put? then s.helpers[a.i].Fetching? else s.helpers[a.i].Pushing?
  {
    var u := s.helpers[a.i].url;
    Entry(u.name, Load(u, if a.Put? then a.download else s.helpers[a.i].download))
  }

  lemma {:induction false} PutPushes(s: State, a: Action)
    requires Machine(s) && Enabled(s, a) && (a.Put? || a.PutAgain?)
    ensures Next(s, a).monitor.pushed == s.monitor.pushed || Next(s, a).monitor.pushed == s.monitor.pushed + [Pushes(s, a)]
  {
    PutEffect(s, a);
    hide Machine, Next, Enabled, Q.Inv, PushStart, PushLoop;
  }

  lemma {:induction false} PushedGrows(s: State, a: Action)
    requires Machine(s) && Enabled(s, a)
    ensures var t := Next(s, a);
            t.monitor.pushed == s.monitor.pushed
            || ((a.Put? || a.PutAgain?) && t.monitor.pushed == s.monitor.pushed + [Pushes(s, a)])
  {
    if a.Put? || a.PutAgain? {
      PutPushes(s, a);
    } else if a.Pop? || a.PopAgain? {
      hide Next, Machine, Enabled, Q.Inv;
      PopHasEffect(s, a);
    } else if a.WakeConsumer? || a.WakeHelper? {
      hide Next, Machine, Enabled, Q.Inv;
      WakeHasEffect(s, a);
    } else {
      hide Machine;
    }
  }

  lemma {:induction false} StepKeepsKeyed(s: State, a: Action)
    requires Machine(s) && Enabled(s, a) && Keyed(s)
    ensures Keyed(Next(s, a))
  {
    PushedGrows(s, a);
    hide Machine, Next;
  }

  lemma {:induction false} RunKeepsKeyed(s: State, run: seq<Action>, start: seq<Url>)
    requires Inv(s, start) && Keyed(s) && After(s, run).Some?
    ensures Keyed(After(s, run).value)
    decreases |run|
  {
    hide Machine, Ledger, Keyed;
    if run != [] {
      StepKeepsInv(s, run[0], start);
      StepKeepsKeyed(s, run[0]);
      RunKeepsKeyed(Next(s, run[0]), run[1..], start);
    }
  }

  /** Among the packages that are ready, the consumer gets one whose name is least. */
  lemma {:induction false} LeastNameIsLoaded(threads: nat, start: seq<Url>, run: seq<Action>, a: Action)
    requires 0 < threads < UNSIGNED_LIMIT && After(Start(threads, start), run).Some?
    requires Enabled(After(Start(threads, start), run).value, a) && (a.Pop? || a.PopAgain?)
    ensures var m := After(Start(threads, start), run).value.monitor;
            var n := Next(After(Start(threads, start), run).value, a).monitor;
            m.queue.items != [] ==>
              && n.popped == m.popped + [m.queue.items[0]] && n.queue.items == m.queue.items[1..]
              && forall i | 0 <= i < |m.queue.items| ::
                   !Less(m.queue.items[i].value.url.name, m.queue.items[0].value.url.name)
  {
    var s := After(Start(threads, start), run).value;
    StartInv(threads, start);
    RunKeepsInv(Start(threads, start), run, start);
    RunKeepsKeyed(Start(threads, start), run, start);
    PopHasEffect(s, a);
    QueuedAreKeyed(s);
    hide Wired, Counted, Drained, Rounds, Next, Enabled, After;
    LessIrreflexive(if s.monitor.queue.items != [] then s.monitor.queue.items[0].key else "");
  }

  lemma {:induction false} QueuedAreKeyed(s: State)
    requires Keyed(s) && Q.Inv(s.monitor)
    ensures forall i | 0 <= i < |s.monitor.queue.items| ::
              s.monitor.queue.items[i].key == s.monitor.queue.items[i].value.url.name
  {
    var m := s.monitor;
    forall i | 0 <= i < |m.queue.items| ensures m.queue.items[i].key == m.queue.items[i].value.url.name {
      assert m.queue.items[i] in multiset(m.queue.items);
      assert m.queue.items[i] in multiset(m.pushed);
      var j :| 0 <= j < |m.pushed| && m.pushed[j] == m.queue.items[i];
    }
  }

  lemma {:induction false} FailuresShrink(s: State, start: seq<Url>, u: Url)
    requires Ledger(s, start, u) && |s.roundFailures| <= ROUNDS
    ensures forall r, q | 0 <= q <= r < |s.roundFailures| :: s.roundFailures[r][u] <= s.roundFailures[q][u] <= multiset(start)[u]
  {
    var f := s.roundFailures;
    assert |f| > 0 ==> f[0][u] <= RoundInput(s, start, 0)[u];
    assert |f| > 1 ==> f[1][u] <= RoundInput(s, start, 1)[u];
    assert |f| > 2 ==> f[2][u] <= RoundInput(s, start, 2)[u];
  }
}
