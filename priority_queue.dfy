/**
 A priority queue that keeps its entries in one sequence ordered by
 priority, highest first.

 The first half of the module states what the queue holds as functions on
 values (where a new entry goes, what a run of enqueues builds) and proves
 their properties; the class `PriorityQueue` at the end is the mutable
 object, whose methods are proved against those functions.
 */
module PriorityQueue {

  import opened Wrappers

  /** One stored entry: the item and the priority it was enqueued with. */
  datatype Entry<T> = Entry(item: T, priority: int)

  /** Priorities never increase from the front of the queue to its back. */
  predicate Sorted<T>(s: seq<Entry<T>>) {
    forall i, j :: 0 <= i < j < |s| ==> s[i].priority >= s[j].priority
  }

  /**
   Where `enqueue` puts an entry of priority `p`: in front of the first entry
   whose priority is strictly lower, or at the end if there is none.
   */
  function InsertionIndex<T>(s: seq<Entry<T>>, p: int): (k: nat)
    ensures k <= |s|
    ensures forall j :: 0 <= j < k ==> s[j].priority >= p
    ensures k < |s| ==> s[k].priority < p
  {
    if s == [] then 0
    else if s[0].priority < p then 0
    else 1 + InsertionIndex(s[1..], p)
  }

  /** The queue after enqueueing `e`. */
  function Insert<T>(s: seq<Entry<T>>, e: Entry<T>): (r: seq<Entry<T>>)
    ensures |r| == |s| + 1
    // the new entry sits at the insertion index, and the old entries keep
    // their order around it: those in front stay put, the rest move back one
    ensures var k := InsertionIndex(s, e.priority);
      && r[k] == e
      && (forall j :: 0 <= j < k ==> r[j] == s[j])
      && (forall j :: k < j < |r| ==> r[j] == s[j - 1])
  {
    var k := InsertionIndex(s, e.priority);
    assert s == s[..k] + s[k..];
    s[..k] + [e] + s[k..]
  }

  /**
   The queue built by enqueueing the entries of `es`, first to last, into an
   empty queue. A new `PriorityQueue` holds `[]`, and each `Enqueue` replaces
   its contents by `Insert` of them, so after enqueueing `es` one by one its
   `items` are `Build(es)` (`RunScenario` below shows this for three
   enqueues); the lemmas about `Build` therefore speak about the class.
   */
  function Build<T>(es: seq<Entry<T>>): seq<Entry<T>> {
    if es == [] then [] else Insert(Build(es[..|es| - 1]), es[|es| - 1])
  }

  /** The entries of priority `q`, in the order in which `s` holds them. */
  function WithPriority<T>(s: seq<Entry<T>>, q: int): seq<Entry<T>> {
    if s == [] then []
    else (if s[0].priority == q then [s[0]] else []) + WithPriority(s[1..], q)
  }

  // ---------------------------------------------------------------------------
  // Properties of a single enqueue

  /** In a sorted queue, the new entry goes after exactly those entries whose priority is at least its own. */
  lemma InsertPlacement<T>(s: seq<Entry<T>>, p: int)
    requires Sorted(s)
    ensures forall j :: 0 <= j < |s| ==> (s[j].priority >= p <==> j < InsertionIndex(s, p))
  {
  }

  /** When no entry has a lower priority (the empty queue included), the new entry is appended. */
  lemma InsertAppends<T>(s: seq<Entry<T>>, e: Entry<T>)
    requires forall j :: 0 <= j < |s| ==> s[j].priority >= e.priority
    ensures Insert(s, e) == s + [e]
  {
  }

  /** Enqueueing keeps the queue sorted. */
  lemma InsertSorted<T>(s: seq<Entry<T>>, e: Entry<T>)
    requires Sorted(s)
    ensures Sorted(Insert(s, e))
  {
  }

  /** Enqueueing adds exactly the new entry and loses nothing. */
  lemma InsertMultiset<T>(s: seq<Entry<T>>, e: Entry<T>)
    ensures multiset(Insert(s, e)) == multiset(s) + multiset{e}
  {
    var k := InsertionIndex(s, e.priority);
    assert s == s[..k] + s[k..];
  }

  lemma {:induction false} WithPriorityConcat<T>(a: seq<Entry<T>>, b: seq<Entry<T>>, q: int)
    ensures WithPriority(a + b, q) == WithPriority(a, q) + WithPriority(b, q)
  {
    if a != [] {
      var head := if a[0].priority == q then [a[0]] else [];
      assert (a + b)[0] == a[0];
      assert (a + b)[1..] == a[1..] + b;
      WithPriorityConcat(a[1..], b, q);
      calc {
        WithPriority(a + b, q);
        head + WithPriority(a[1..] + b, q);
        head + (WithPriority(a[1..], q) + WithPriority(b, q));
        (head + WithPriority(a[1..], q)) + WithPriority(b, q);
        WithPriority(a, q) + WithPriority(b, q);
      }
    } else {
      assert a + b == b;
    }
  }

  lemma {:induction false} WithPriorityOfLower<T>(s: seq<Entry<T>>, q: int)
    requires forall j :: 0 <= j < |s| ==> s[j].priority < q
    ensures WithPriority(s, q) == []
  {
    if s != [] {
      WithPriorityOfLower(s[1..], q);
    }
  }

  lemma {:induction false} WithPriorityMember<T>(s: seq<Entry<T>>, q: int, x: Entry<T>)
    requires x in WithPriority(s, q)
    ensures x in s && x.priority == q
  {
    if s != [] && x in WithPriority(s[1..], q) {
      WithPriorityMember(s[1..], q, x);
      assert s == [s[0]] + s[1..];
    }
  }

  lemma WithPriorityHead<T>(s: seq<Entry<T>>)
    requires s != []
    ensures WithPriority(s, s[0].priority) != []
  {
  }

  lemma WithPrioritySingle<T>(e: Entry<T>, q: int)
    ensures WithPriority([e], q) == if e.priority == q then [e] else []
  {
  }

  lemma InsertSplit<T>(s: seq<Entry<T>>, e: Entry<T>)
    ensures var k := InsertionIndex(s, e.priority);
      Insert(s, e) == s[..k] + ([e] + s[k..])
  {
  }

  /**
   Stable tie-break, one step: enqueueing `e` into a sorted queue puts it behind
   every entry of the same priority and moves no other entry of any priority
   past another.
   */
  lemma InsertWithPriority<T>(s: seq<Entry<T>>, e: Entry<T>, q: int)
    requires Sorted(s)
    ensures WithPriority(Insert(s, e), q)
         == WithPriority(s, q) + (if e.priority == q then [e] else [])
  {
    var k := InsertionIndex(s, e.priority);
    var front, back := s[..k], s[k..];
    var mine := if e.priority == q then [e] else [];
    InsertSplit(s, e);
    assert s == front + back;
    WithPrioritySingle(e, q);
    WithPriorityConcat(front, back, q);
    WithPriorityConcat(front, [e] + back, q);
    WithPriorityConcat([e], back, q);
    if e.priority == q {
      BackIsLower(s, e.priority);
      WithPriorityOfLower(back, q);
    }
    calc {
      WithPriority(Insert(s, e), q);
      WithPriority(front, q) + (mine + WithPriority(back, q));
      WithPriority(front, q) + WithPriority(back, q) + mine;
      WithPriority(s, q) + mine;
    }
  }

  lemma BackIsLower<T>(s: seq<Entry<T>>, p: int)
    requires Sorted(s)
    ensures var k := InsertionIndex(s, p);
      forall j :: 0 <= j < |s[k..]| ==> s[k..][j].priority < p
  {
  }

  /** Dequeueing removes the head from its own priority's line and leaves every other line alone. */
  lemma DequeueWithPriority<T>(s: seq<Entry<T>>, q: int)
    requires s != []
    ensures WithPriority(s[1..], q)
         == if s[0].priority == q then WithPriority(s, q)[1..] else WithPriority(s, q)
  {
  }

  // ---------------------------------------------------------------------------
  // Properties of a run of enqueues

  lemma {:induction false} BuildSorted<T>(es: seq<Entry<T>>)
    ensures Sorted(Build(es))
  {
    if es != [] {
      BuildSorted(es[..|es| - 1]);
      InsertSorted(Build(es[..|es| - 1]), es[|es| - 1]);
    }
  }

  /** The queue holds exactly the entries that were enqueued. */
  lemma {:induction false} BuildMultiset<T>(es: seq<Entry<T>>)
    ensures multiset(Build(es)) == multiset(es)
  {
    if es != [] {
      var pre, last := es[..|es| - 1], es[|es| - 1];
      BuildMultiset(pre);
      InsertMultiset(Build(pre), last);
      assert es == pre + [last];
    }
  }

  /** Entries of equal priority are held, and so dequeued, in the order they were enqueued. */
  lemma {:induction false} BuildWithPriority<T>(es: seq<Entry<T>>, q: int)
    ensures WithPriority(Build(es), q) == WithPriority(es, q)
  {
    if es != [] {
      var pre, last := es[..|es| - 1], es[|es| - 1];
      BuildWithPriority(pre, q);
      BuildSorted(pre);
      InsertWithPriority(Build(pre), last, q);
      WithPrioritySingle(last, q);
      WithPriorityConcat(pre, [last], q);
      assert es == pre + [last];
    }
  }

  /** `r` holds, for every priority, the same entries in the same order as `es`. */
  ghost predicate SameLines<T>(r: seq<Entry<T>>, es: seq<Entry<T>>) {
    forall q :: WithPriority(r, q) == WithPriority(es, q)
  }

  /** Two sorted queues that hold the same line of entries for every priority are the same queue. */
  lemma {:induction false} SortedLinesDetermine<T>(a: seq<Entry<T>>, b: seq<Entry<T>>)
    requires Sorted(a) && Sorted(b)
    requires SameLines(a, b)
    ensures a == b
    decreases |a|
  {
    if a == [] || b == [] {
      if a != [] {
        WithPriorityHead(a);
        assert false;
      } else if b != [] {
        WithPriorityHead(b);
        assert false;
      }
    } else {
      var p, p' := a[0].priority, b[0].priority;
      assert WithPriority(a, p)[0] == a[0];
      WithPriorityMember(b, p, a[0]);
      assert WithPriority(b, p')[0] == b[0];
      WithPriorityMember(a, p', b[0]);
      assert p == p';
      assert a[0] == b[0];
      forall q
        ensures WithPriority(a[1..], q) == WithPriority(b[1..], q)
      {
        DequeueWithPriority(a, q);
        DequeueWithPriority(b, q);
      }
      SortedLinesDetermine(a[1..], b[1..]);
      assert a == [a[0]] + a[1..];
      assert b == [b[0]] + b[1..];
    }
  }

  /**
   What a run of enqueues builds is the stable sort of the entries by
   descending priority: the one sorted sequence that keeps the entries of
   each priority in enqueue order.
   */
  lemma BuildIsStableSort<T>(es: seq<Entry<T>>, r: seq<Entry<T>>)
    ensures r == Build(es) <==> Sorted(r) && SameLines(r, es)
  {
    var b := Build(es);
    BuildSorted(es);
    forall q ensures WithPriority(b, q) == WithPriority(es, q) {
      BuildWithPriority(es, q);
    }
    if Sorted(r) && SameLines(r, es) {
      SortedLinesDetermine(r, b);
    }
  }

  /**
   The first entry out of a run of enqueues has the highest priority enqueued
   and is the earliest enqueued entry of that priority.
   */
  lemma FirstOut<T>(es: seq<Entry<T>>)
    requires es != []
    ensures var h := Build(es)[0];
      && (forall j :: 0 <= j < |es| ==> es[j].priority <= h.priority)
      && h in es
      && WithPriority(es, h.priority) != []
      && WithPriority(es, h.priority)[0] == h
  {
    var b := Build(es);
    var h := b[0];
    BuildSorted(es);
    BuildMultiset(es);
    forall j | 0 <= j < |es|
      ensures es[j].priority <= h.priority
    {
      assert es[j] in multiset(b);
    }
    assert h in multiset(es);
    BuildWithPriority(es, h.priority);
  }

  // ---------------------------------------------------------------------------
  // The mutable queue

  /** For every two entries of equal priority, the one in front was enqueued earlier. */
  ghost predicate TiesInArrivalOrder<T>(s: seq<Entry<T>>, stamps: seq<nat>)
    requires |stamps| == |s|
  {
    forall i, j :: 0 <= i < j < |s| && s[i].priority == s[j].priority ==> stamps[i] < stamps[j]
  }

  lemma InsertKeepsArrivalOrder<T>(s: seq<Entry<T>>, stamps: seq<nat>, e: Entry<T>, now: nat)
    requires Sorted(s) && |stamps| == |s| && TiesInArrivalOrder(s, stamps)
    requires forall i :: 0 <= i < |stamps| ==> stamps[i] < now
    ensures var k := InsertionIndex(s, e.priority);
      TiesInArrivalOrder(Insert(s, e), stamps[..k] + [now] + stamps[k..])
  {
    var k := InsertionIndex(s, e.priority);
    InsertPlacement(s, e.priority);
    InsertSplit(s, e);
    SpliceKeepsArrivalOrder(s, stamps, k, e, now);
  }

  /**
   Splicing a newer entry in at index `k`, where everything in front has
   priority at least its own and everything behind has a lower one, keeps
   equal-priority entries in arrival order.
   */
  lemma SpliceKeepsArrivalOrder<T>(s: seq<Entry<T>>, stamps: seq<nat>, k: nat, e: Entry<T>, now: nat)
    requires |stamps| == |s| && TiesInArrivalOrder(s, stamps) && k <= |s|
    requires forall i :: 0 <= i < |stamps| ==> stamps[i] < now
    requires forall j :: 0 <= j < k ==> s[j].priority >= e.priority
    requires forall j :: k <= j < |s| ==> s[j].priority < e.priority
    ensures TiesInArrivalOrder(s[..k] + ([e] + s[k..]), stamps[..k] + [now] + stamps[k..])
  {
    var r, t := s[..k] + ([e] + s[k..]), stamps[..k] + [now] + stamps[k..];
    // no entry behind the new one has the priority of an entry in front of it or of the new one
    forall i, j | 0 <= i <= k < j < |r|
      ensures r[i].priority > r[j].priority
    {
      assert r[j] == s[j - 1];
      if i < k {
        assert r[i] == s[i];
      }
    }
    forall i, j | 0 <= i < j < |r| && r[i].priority == r[j].priority && !(i <= k < j)
      ensures t[i] < t[j]
    {
      if j < k {
        assert r[i] == s[i] && r[j] == s[j] && t[i] == stamps[i] && t[j] == stamps[j];
      } else if j == k {
        assert t[i] == stamps[i];
      } else {
        assert r[i] == s[i - 1] && r[j] == s[j - 1] && t[i] == stamps[i - 1] && t[j] == stamps[j - 1];
      }
    }
  }

  class PriorityQueue<T> {
    /** The stored entries, front (next to dequeue) first. */
    var items: seq<Entry<T>>
    /** For each stored entry, the number of enqueues that came before its own. */
    ghost var stamps: seq<nat>
    /** How many enqueues there have been. */
    ghost var clock: nat

    ghost predicate Valid()
      reads this
    {
      && |stamps| == |items|
      && Sorted(items)
      && TiesInArrivalOrder(items, stamps)
      && (forall i :: 0 <= i < |stamps| ==> stamps[i] < clock)
    }

    constructor ()
      ensures Valid()
      ensures items == [] && stamps == [] && clock == 0
    {
      items := [];
      stamps := [];
      clock := 0;
    }

    /** Inserts the entry in front of the first one of strictly lower priority, else at the end. */
    method Enqueue(item: T, priority: int)
      requires Valid()
      modifies this
      ensures Valid()
      ensures items == Insert(old(items), Entry(item, priority))
      ensures var k := InsertionIndex(old(items), priority);
        stamps == old(stamps)[..k] + [old(clock)] + old(stamps)[k..]
      ensures clock == old(clock) + 1
    {
      var newItem := Entry(item, priority);
      var added := false;
      ghost var k := InsertionIndex(items, priority);
      for i := 0 to |items|
        invariant !added && items == old(items)
        invariant forall j :: 0 <= j < i ==> items[j].priority >= priority
      {
        if items[i].priority < priority {
          assert i == k;
          items := items[..i] + [newItem] + items[i..];
          added := true;
          break;
        }
      }
      if !added {
        InsertAppends(items, newItem);
        items := items + [newItem];
      }
      InsertSorted(old(items), newItem);
      InsertKeepsArrivalOrder(old(items), stamps, newItem, clock);
      stamps := stamps[..k] + [clock] + stamps[k..];
      clock := clock + 1;
    }

    /**
     Removes and returns the item at the front: one of the highest priority
     held and, among those, the one enqueued first. An empty queue yields
     `None` and stays as it is.
     */
    method Dequeue() returns (r: Option<T>)
      requires Valid()
      modifies this
      ensures Valid()
      ensures old(items) == [] ==> r == None && items == [] && stamps == old(stamps)
      ensures old(items) != [] ==>
        && r == Some(old(items)[0].item)
        && items == old(items)[1..]
        && stamps == old(stamps)[1..]
        && (forall j :: 0 <= j < |old(items)| ==> old(items)[j].priority <= old(items)[0].priority)
        && (forall j :: 0 < j < |old(items)| && old(items)[j].priority == old(items)[0].priority
              ==> old(stamps)[0] < old(stamps)[j])
      ensures clock == old(clock)
    {
      if items == [] {
        r := None;
      } else {
        r := Some(items[0].item);
        items := items[1..];
        stamps := stamps[1..];
      }
    }

    method IsEmpty() returns (empty: bool)
      ensures empty <==> items == []
    {
      empty := |items| == 0;
    }
  }

  /** Enqueues at mixed priorities with exact ties come out highest first, ties in arrival order. */
  method TieBreakScenario() {
    var q := new PriorityQueue<string>();
    var e := q.IsEmpty();
    assert e;
    q.Enqueue("a", 1);
    q.Enqueue("b", 2);
    q.Enqueue("c", 1);
    q.Enqueue("d", 2);
    var x := q.Dequeue();
    assert x == Some("b");
    x := q.Dequeue();
    assert x == Some("d");
    x := q.Dequeue();
    assert x == Some("a");
    x := q.Dequeue();
    assert x == Some("c");
    x := q.Dequeue();
    assert x == None;
    e := q.IsEmpty();
    assert e;
  }

  /** A fresh queue after three enqueues holds exactly what `Build` gives for them. */
  method RunScenario<T>(e1: Entry<T>, e2: Entry<T>, e3: Entry<T>) {
    var q := new PriorityQueue<T>();
    q.Enqueue(e1.item, e1.priority);
    q.Enqueue(e2.item, e2.priority);
    q.Enqueue(e3.item, e3.priority);
    assert [e1, e2, e3][..2] == [e1, e2];
    assert [e1, e2][..1] == [e1];
    assert [e1][..0] == [];
    assert Build([e1]) == Insert([], e1);
    assert Build([e1, e2]) == Insert(Build([e1]), e2);
    assert q.items == Build([e1, e2, e3]);
  }
}
