/**
  The bounded, ordered, multi-producer queue. Each public operation is a
  lock-protected section that either completes, raises, or goes to sleep on a
  condition variable; after waking up, the section is re-entered at its wait
  loop. The functions give the effect of one section on the queue's data; the
  class performs it on the fields. QueueMonitor adds the sleeping threads.
 */
module BoundedQueue {
  import opened Wrappers
  import opened Ordering
  import opened Bytes

  datatype Entry<V> = Entry(key: string, value: V)

  // ---- the multimap --------------------------------------------------------

  ghost predicate Sorted<V>(items: seq<Entry<V>>) {
    forall i, j | 0 <= i < j < |items| :: !Less(items[j].key, items[i].key)
  }

  /** Insertion behind all entries of the same key. */
  function Inserted<V>(items: seq<Entry<V>>, e: Entry<V>): (r: seq<Entry<V>>)
    ensures |r| == |items| + 1 && multiset(r) == multiset(items) + multiset{e}
  {
    if items == [] || Less(e.key, items[0].key) then [e] + items
    else
      assert items == [items[0]] + items[1..];
      [items[0]] + Inserted(items[1..], e)
  }

  /** The entries of one key, in order. */
  function ByKey<V>(items: seq<Entry<V>>, k: string): seq<Entry<V>> {
    if items == [] then []
    else (if items[0].key == k then [items[0]] else []) + ByKey(items[1..], k)
  }

  lemma {:induction false} ByKeyAppend<V>(a: seq<Entry<V>>, b: seq<Entry<V>>, k: string)
    ensures ByKey(a + b, k) == ByKey(a, k) + ByKey(b, k)
  {
    if a == [] {
      assert a + b == b;
    } else {
      assert (a + b)[1..] == a[1..] + b;
      ByKeyAppend(a[1..], b, k);
    }
  }

  lemma {:induction false} ByKeyAbsent<V>(items: seq<Entry<V>>, k: string)
    requires forall i | 0 <= i < |items| :: items[i].key != k
    ensures ByKey(items, k) == []
  {
    if items != [] { ByKeyAbsent(items[1..], k); }
  }

  /** Insertion keeps the keys in order. */
  lemma {:induction false} InsertedSorted<V>(items: seq<Entry<V>>, e: Entry<V>)
    requires Sorted(items)
    ensures Sorted(Inserted(items, e))
  {
    if items != [] {
      if Less(e.key, items[0].key) {
        forall j | 0 <= j < |items| ensures !Less(items[j].key, e.key) { AboveHead(items, e, j); }
      } else {
        var t := Inserted(items[1..], e);
        InsertedSorted(items[1..], e);
        forall j | 0 <= j < |t| ensures !Less(t[j].key, items[0].key) {
          assert t[j] in multiset(t) && multiset(t) == multiset(items[1..]) + multiset{e};
          if t[j] != e {
            var i :| 0 <= i < |items[1..]| && items[1..][i] == t[j];
            assert !Less(items[i + 1].key, items[0].key);
          }
        }
      }
    }
  }

  lemma {:induction false} AboveHead<V>(items: seq<Entry<V>>, e: Entry<V>, j: nat)
    requires Sorted(items) && j < |items| && Less(e.key, items[0].key)
    ensures Less(e.key, items[j].key) && !Less(items[j].key, e.key) && items[j].key != e.key
  {
    LessTotal(items[0].key, items[j].key);
    assert j > 0 ==> !Less(items[j].key, items[0].key);
    if Less(items[0].key, items[j].key) { LessTransitive(e.key, items[0].key, items[j].key); }
    LessAsymmetric(e.key, items[j].key);
  }

  /** Insertion puts the entry last among those of its key, and moves no other. */
  lemma {:induction false} InsertedLast<V>(items: seq<Entry<V>>, e: Entry<V>, k: string)
    requires Sorted(items)
    ensures ByKey(Inserted(items, e), k) == ByKey(items, k) + (if e.key == k then [e] else [])
  {
    hide Less;
    if items == [] {
      assert Inserted(items, e) == [e] && [e][1..] == [];
      assert ByKey([e], k) == (if e.key == k then [e] else []) + ByKey([], k);
    } else if Less(e.key, items[0].key) {
      forall j | 0 <= j < |items| ensures items[j].key != e.key { AboveHead(items, e, j); }
      assert ([e] + items)[1..] == items;
      if e.key == k { ByKeyAbsent(items, k); }
    } else {
      InsertedLast(items[1..], e, k);
      var t := Inserted(items[1..], e);
      assert Inserted(items, e) == [items[0]] + t;
      assert ([items[0]] + t)[1..] == t;
      assert ByKey([items[0]] + t, k) == (if items[0].key == k then [items[0]] else []) + ByKey(t, k);
    }
  }

  // ---- the sections --------------------------------------------------------

  datatype Queue<V> = Queue(items: seq<Entry<V>>, capacity: nat, producers: nat)

  datatype PushOutcome = PushRaises | PushWaits | Pushed

  datatype PopOutcome<V> = PopWaits | PopFinished | Popped(entry: Entry<V>)

  /** From the wait loop of `push` on. */
  function PushLoop<V>(q: Queue<V>, e: Entry<V>): (Queue<V>, PushOutcome) {
    if |q.items| >= q.capacity then (q, PushWaits)
    else (q.(items := Inserted(q.items, e)), Pushed)
  }

  /** `push` from its start. */
  function PushStart<V>(q: Queue<V>, e: Entry<V>): (Queue<V>, PushOutcome) {
    if q.producers == 0 then (q, PushRaises) else PushLoop(q, e)
  }

  /** `pop` from its start or from its wait loop. */
  function PopLoop<V>(q: Queue<V>): (Queue<V>, PopOutcome<V>) {
    if q.items != [] then (q.(items := q.items[1..]), Popped(q.items[0]))
    else if q.producers > 0 then (q, PopWaits)
    else (q, PopFinished)
  }

  /** Incremented modulo 2^32; a wrap-around raises afterwards. */
  function ProducerAdded<V>(q: Queue<V>): (Queue<V>, bool) {
    var n := (q.producers + 1) % UNSIGNED_LIMIT;
    (q.(producers := n), n == 0)
  }

  function ProducerRemoved<V>(q: Queue<V>): (Queue<V>, bool) {
    if q.producers == 0 then (q, true) else (q.(producers := q.producers - 1), false)
  }

  class BoundedOrderedQueue<V> {
    var map_: seq<Entry<V>>
    const capacity_: nat
    var producers_: nat

    ghost predicate Valid()
      reads this
    {
      Sorted(map_) && |map_| <= capacity_ && producers_ < UNSIGNED_LIMIT
    }

    ghost function State(): Queue<V>
      reads this
    {
      Queue(map_, capacity_, producers_)
    }

    constructor (capacity: nat, producers: nat)
      requires producers < UNSIGNED_LIMIT
      ensures Valid() && State() == Queue([], capacity, producers)
    {
      map_ := [];
      capacity_ := capacity;
      producers_ := producers;
    }

    /** Construction, rejecting capacity zero. */
    static method Create(capacity: nat, producers: nat) returns (r: Option<BoundedOrderedQueue<V>>)
      requires producers < UNSIGNED_LIMIT
      ensures r.None? <==> capacity == 0
      ensures r.Some? ==> fresh(r.value) && r.value.Valid() && r.value.State() == Queue([], capacity, producers)
    {
      var q := new BoundedOrderedQueue<V>(capacity, producers);
      r := if capacity == 0 then None else Some(q);
    }

    method AddProducer() returns (raised: bool)
      requires Valid()
      modifies this
      ensures Valid() && (State(), raised) == ProducerAdded(old(State()))
    {
      producers_ := (producers_ + 1) % UNSIGNED_LIMIT;
      raised := producers_ == 0;
    }

    /** `wakeAll`: the readers are to be woken by a broadcast. */
    method RemoveProducer() returns (raised: bool, wakeAll: bool)
      requires Valid()
      modifies this
      ensures Valid() && (State(), raised) == ProducerRemoved(old(State()))
      ensures wakeAll <==> !raised && producers_ == 0
    {
      if producers_ == 0 { return true, false; }
      producers_ := producers_ - 1;
      return false, producers_ == 0;
    }

    method Push(key: string, value: V, resumed: bool) returns (outcome: PushOutcome)
      requires Valid()
      modifies this
      ensures Valid()
      ensures (State(), outcome) == if resumed then PushLoop(old(State()), Entry(key, value))
                                               else PushStart(old(State()), Entry(key, value))
    {
      if !resumed && producers_ == 0 { return PushRaises; }
      if |map_| >= capacity_ { return PushWaits; }
      InsertedSorted(map_, Entry(key, value));
      map_ := Inserted(map_, Entry(key, value));
      return Pushed;
    }

    method Pop() returns (outcome: PopOutcome<V>)
      requires Valid()
      modifies this
      ensures Valid() && (State(), outcome) == PopLoop(old(State()))
      ensures outcome.Popped? ==> forall e | e in old(map_) :: !Less(e.key, outcome.entry.key)
    {
      if |map_| == 0 && producers_ > 0 { return PopWaits; }
      if |map_| == 0 { return PopFinished; }
      outcome := Popped(map_[0]);
      LessIrreflexive(map_[0].key);
      map_ := map_[1..];
    }
  }
}
