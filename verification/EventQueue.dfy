/**
 The timed event queue: a binary heap of events ordered by due time, then by id.
 Time is an integer; the callback of an event matters only in being present or absent.
 */
module EventQueue {

  class Event {
    const id: nat
    const due: int
    const hasCallback: bool
    var cancelled: bool
    var index: int

    constructor (id: nat, due: int, hasCallback: bool)
      ensures this.id == id && this.due == due && this.hasCallback == hasCallback && !cancelled
    {
      this.id, this.due, this.hasCallback, cancelled, index := id, due, hasCallback, false, 0;
    }
  }

  predicate Less(a: Event, b: Event)
  {
    if a.due == b.due then a.id < b.id else a.due < b.due
  }

  // ---------- Heap order ----------

  function Parent(k: int): int
  {
    (k - 1) / 2
  }

  ghost predicate Above(s: seq<Event>, p: int, k: int)
    requires 0 <= p < |s| && 0 <= k < |s|
  {
    !Less(s[k], s[p])
  }

  /** Every event in `s[..n]` is no earlier than its parent, except perhaps between `gap` and its children. */
  ghost predicate HeapBelow(s: seq<Event>, gap: int, n: int)
    requires n <= |s|
  {
    && (forall k :: 0 < k < n && Parent(k) != gap ==> Above(s, Parent(k), k))
    && (forall k :: 0 < k < n && Parent(k) == gap > 0 ==> Above(s, Parent(gap), k))
  }

  /** Every event is no earlier than its parent, except perhaps at `gap`. */
  ghost predicate HeapAbove(s: seq<Event>, gap: int)
  {
    && (forall k :: 0 < k < |s| && k != gap ==> Above(s, Parent(k), k))
    && (forall k :: 0 < k < |s| && Parent(k) == gap > 0 ==> Above(s, Parent(gap), k))
  }

  ghost predicate Heap(s: seq<Event>)
  {
    forall k :: 0 < k < |s| ==> Above(s, Parent(k), k)
  }

  lemma {:induction false} RootIsLeast(s: seq<Event>, k: nat)
    requires Heap(s) && k < |s|
    ensures Above(s, 0, k)
  {
    if k > 0 {
      RootIsLeast(s, Parent(k));
      assert Above(s, Parent(k), k);
    }
  }

  function Swapped(s: seq<Event>, i: nat, j: nat): seq<Event>
    requires i < |s| && j < |s|
  {
    s[i := s[j]][j := s[i]]
  }

  /** Swapping a too early event with its parent moves the gap to the parent. */
  lemma RaisesGap(s: seq<Event>, j: nat)
    requires 0 < j < |s| && HeapAbove(s, j) && Less(s[j], s[Parent(j)])
    ensures HeapAbove(Swapped(s, Parent(j), j), Parent(j))
  {
    var i, t := Parent(j), Swapped(s, Parent(j), j);
    forall k | 0 < k < |t| && k != i ensures Above(t, Parent(k), k) {
      if k != j {
        assert Above(s, Parent(k), k);
        assert Parent(k) == j ==> Above(s, i, k);
      }
    }
    forall k | 0 < k < |t| && Parent(k) == i > 0 ensures Above(t, Parent(i), k) {
      assert Above(s, Parent(i), i);
      assert k != j ==> Above(s, i, k);
    }
  }

  /** `j` is the earlier child of `i`. */
  ghost predicate EarlierChild(s: seq<Event>, i: nat, j: nat, n: nat)
    requires n <= |s|
  {
    && i < j < n && Parent(j) == i
    && forall k :: 0 < k < n && Parent(k) == i ==> Above(s, j, k)
  }

  lemma TwoChildren(s: seq<Event>, i: nat, j: nat, n: nat)
    requires n <= |s| && 2 * i + 1 < n
    requires j == if 2 * i + 2 < n && Less(s[2 * i + 2], s[2 * i + 1]) then 2 * i + 2 else 2 * i + 1
    ensures EarlierChild(s, i, j, n)
  {
  }

  /** Swapping a too late event with its earlier child moves the gap to the child. */
  lemma LowersGap(s: seq<Event>, i: nat, j: nat, n: nat)
    requires n <= |s| && HeapBelow(s, i, n) && EarlierChild(s, i, j, n) && Less(s[j], s[i])
    ensures HeapBelow(Swapped(s, i, j), j, n)
  {
  }

  lemma HeapWhenChildless(s: seq<Event>, i: nat, n: nat)
    requires n <= |s| && HeapBelow(s, i, n) && 2 * i + 1 >= n
    ensures Heap(s[..n])
  {
  }

  lemma HeapWhenOrdered(s: seq<Event>, i: nat, j: nat, n: nat)
    requires n <= |s| && HeapBelow(s, i, n) && EarlierChild(s, i, j, n) && Above(s, i, j)
    ensures Heap(s[..n])
  {
  }

  ghost predicate NoDuplicates(s: seq<Event>)
  {
    forall i, j :: 0 <= i < j < |s| ==> s[i] != s[j]
  }

  ghost predicate Sorted(s: seq<Event>)
  {
    forall i, j :: 0 <= i < j < |s| ==> Less(s[i], s[j])
  }

  function Elements(s: seq<Event>): set<Event>
  {
    set e | e in s
  }

  lemma EmptyListing(s: seq<Event>)
    ensures s == [] <==> Elements(s) == {}
  {
    if s != [] {
      assert s[0] in Elements(s);
    }
  }

  /** A strictly sorted listing of a set of events is unique. */
  lemma {:induction false} SortedListingIsUnique(s: seq<Event>, t: seq<Event>)
    requires Sorted(s) && Sorted(t) && Elements(s) == Elements(t)
    ensures s == t
  {
    if s == [] {
      EmptyListing(t);
    } else {
      EmptyListing(s);
      EmptyListing(t);
      assert s[0] in Elements(t);
      assert t[0] in Elements(s);
      assert s[0] == t[0];
      forall e ensures e in Elements(s[1..]) <==> e in Elements(t[1..]) {
        assert e in Elements(s[1..]) <==> e in Elements(s) && e != s[0];
        assert e in Elements(t[1..]) <==> e in Elements(t) && e != t[0];
      }
      SortedListingIsUnique(s[1..], t[1..]);
    }
  }

  lemma SwapKeepsElements(s: seq<Event>, i: nat, j: nat)
    requires i < |s| && j < |s| && NoDuplicates(s)
    ensures NoDuplicates(Swapped(s, i, j)) && Elements(Swapped(s, i, j)) == Elements(s)
  {
    var t := Swapped(s, i, j);
    assert t[i] == s[j] && t[j] == s[i];
    forall e ensures e in Elements(t) <==> e in Elements(s) {
      if e in s {
        var k :| 0 <= k < |s| && s[k] == e;
        assert t[if k == i then j else if k == j then i else k] == e;
      }
    }
  }

  lemma SplitLast(s: seq<Event>)
    requires s != [] && NoDuplicates(s)
    ensures NoDuplicates(s[..|s| - 1]) && Elements(s[..|s| - 1]) == Elements(s) - {s[|s| - 1]}
  {
  }

  function Ids(s: seq<Event>): set<nat>
  {
    set e | e in s :: e.id
  }

  predicate Issued(ids: set<nat>, next: nat)
  {
    forall id :: id in ids ==> 1 <= id <= next
  }

  ghost predicate DistinctIds(s: seq<Event>)
  {
    forall i, j :: 0 <= i < j < |s| ==> s[i].id != s[j].id
  }

  lemma IdsGrow(s: seq<Event>, item: Event, t: seq<Event>)
    requires DistinctIds(s) && item.id !in Ids(s) && NoDuplicates(t) && Elements(t) == Elements(s) + {item}
    ensures DistinctIds(t) && Ids(t) == Ids(s) + {item.id}
  {
    assert item in Elements(t) && item.id in Ids(t);
    forall id ensures id in Ids(t) <==> id in Ids(s) + {item.id} {
      if id in Ids(s) {
        var e :| e in s && e.id == id;
        assert e in Elements(t);
      }
      if id in Ids(t) {
        var e :| e in t && e.id == id;
        assert e in Elements(t);
      }
    }
    forall i, j | 0 <= i < j < |t| ensures t[i].id != t[j].id {
      assert t[i] in Elements(t) && t[j] in Elements(t) && t[i] != t[j];
    }
  }

  lemma IdsShrink(s: seq<Event>, t: seq<Event>, item: Event)
    requires DistinctIds(s) && item in s && NoDuplicates(t) && Elements(t) == Elements(s) - {item}
    ensures DistinctIds(t) && Ids(t) == Ids(s) - {item.id}
  {
    forall id ensures id in Ids(t) <==> id in Ids(s) - {item.id} {
      if id in Ids(s) && id != item.id {
        var e :| e in s && e.id == id;
        assert e in Elements(t);
      }
      if id in Ids(t) {
        var e :| e in t && e.id == id;
        assert e in Elements(t) && e in Elements(s) && e != item;
      }
    }
    forall i, j | 0 <= i < j < |t| ensures t[i].id != t[j].id {
      assert t[i] in Elements(t) && t[j] in Elements(t) && t[i] != t[j];
      assert t[i] in Elements(s) && t[j] in Elements(s);
    }
  }

  lemma AppendId(s: seq<Event>, item: Event)
    requires DistinctIds(s) && item.id !in Ids(s)
    ensures DistinctIds(s + [item]) && Ids(s + [item]) == Ids(s) + {item.id}
  {
  }

  lemma AppendSorted(s: seq<Event>, item: Event)
    requires Sorted(s) && forall e :: e in Elements(s) ==> Less(e, item)
    ensures Sorted(s + [item]) && Elements(s + [item]) == Elements(s) + {item}
  {
  }

  /** With distinct ids the root precedes every other event. */
  lemma LeastComesFirst(s: seq<Event>)
    requires s != [] && Heap(s) && DistinctIds(s)
    ensures forall e :: e in Elements(s) && e != s[0] ==> Less(s[0], e)
  {
    forall e | e in Elements(s) && e != s[0] ensures Less(s[0], e) {
      var k :| 0 <= k < |s| && s[k] == e;
      RootIsLeast(s, k);
    }
  }

  /**
   `fired` lists every event ever handed out to run, in order, and `revoked` the ids whose cancellation succeeded:
   the object invariant says that no id is fired twice and that no revoked id is ever fired.
   */
  class EventQueue {
    var next: nat
    var events: seq<Event>
    ghost var fired: seq<Event>
    ghost var revoked: set<nat>

    ghost predicate Valid()
      reads this, events
    {
      && Indexed() && Heap(events)
      && DistinctIds(events) && DistinctIds(fired) && Ids(events) !! Ids(fired)
      && revoked !! Ids(fired)
      && Issued(Ids(events), next) && Issued(Ids(fired), next) && Issued(revoked, next)
      && (forall e :: e in Elements(events) ==> (e.cancelled <==> e.id in revoked))
    }

    constructor ()
      ensures Valid() && next == 0 && events == [] && fired == [] && revoked == {}
    {
      next, events, fired, revoked := 0, [], [], {};
    }

    ghost predicate Indexed()
      reads this, events
    {
      && NoDuplicates(events)
      && forall k :: 0 <= k < |events| ==> events[k].index == k
    }

    /** The heap holds the same events, with the same marks, possibly in another order. */
    twostate predicate Rearranged()
      reads this, events
    {
      && |events| == |old(events)| && Elements(events) == Elements(old(events))
      && forall e :: e in Elements(events) ==> e.cancelled == old(e.cancelled)
    }

    method Swap(i: nat, j: nat)
      requires i < |events| && j < |events| && NoDuplicates(events)
      modifies this`events, Elements(events)
      ensures events == Swapped(old(events), i, j)
      ensures NoDuplicates(events) && Rearranged()
      ensures events[i].index == i && events[j].index == j
      ensures forall k :: 0 <= k < |events| && k != i && k != j ==> events[k].index == old(events[k].index)
    {
      SwapKeepsElements(events, i, j);
      events := Swapped(events, i, j);
      events[i].index := i;
      events[j].index := j;
    }

    /** container/heap's `up`. */
    method Up(start: nat)
      requires start < |events| && Indexed() && HeapAbove(events, start)
      modifies this`events, Elements(events)
      ensures Indexed() && Heap(events) && Rearranged()
    {
      var j := start;
      while j > 0
        invariant 0 <= j < |events| && Indexed() && HeapAbove(events, j) && Rearranged()
      {
        var i := (j - 1) / 2;
        if !Less(events[j], events[i]) {
          break;
        }
        RaisesGap(events, j);
        Swap(i, j);
        j := i;
      }
    }

    /** container/heap's `down` on `events[..n]`, from the root. */
    method Down(n: nat)
      requires n <= |events| && Indexed() && HeapBelow(events, 0, n)
      modifies this`events, Elements(events)
      ensures Indexed() && Rearranged() && Heap(events[..n]) && events[n..] == old(events[n..])
    {
      var i := 0;
      while true
        invariant 0 <= i && n <= |events| && Indexed() && HeapBelow(events, i, n) && Rearranged()
        invariant events[n..] == old(events[n..])
        decreases n - i
      {
        var j1 := 2 * i + 1;
        if j1 >= n {
          HeapWhenChildless(events, i, n);
          return;
        }
        var j := j1;
        var j2 := j1 + 1;
        if j2 < n && Less(events[j2], events[j1]) {
          j := j2;
        }
        TwoChildren(events, i, j, n);
        if !Less(events[j], events[i]) {
          HeapWhenOrdered(events, i, j, n);
          return;
        }
        LowersGap(events, i, j, n);
        Swap(i, j);
        i := j;
      }
    }

    /** container/heap's `Push`. */
    method Push(item: Event)
      requires Indexed() && Heap(events) && item !in events
      modifies this`events, Elements(events), item
      ensures Indexed() && Heap(events)
      ensures |events| == |old(events)| + 1 && Elements(events) == old(Elements(events)) + {item}
      ensures forall e :: e in Elements(events) ==> e.cancelled == old(e.cancelled)
    {
      item.index := |events|;
      events := events + [item];
      assert Elements(events) == old(Elements(events)) + {item};
      assert HeapAbove(events, |events| - 1) by {
        forall k | 0 < k < |events| && k != |events| - 1 ensures Above(events, Parent(k), k) {
          assert Above(old(events), Parent(k), k);
        }
      }
      Up(|events| - 1);
    }

    /** container/heap's `Pop`: removes and returns the root. */
    method Pop() returns (item: Event)
      requires events != [] && Indexed() && Heap(events)
      modifies this`events, Elements(events)
      ensures item == old(events[0]) && item.index == -1
      ensures Indexed() && Heap(events)
      ensures |events| == |old(events)| - 1 && Elements(events) == old(Elements(events)) - {item}
      ensures forall e :: e in old(Elements(events)) ==> e.cancelled == old(e.cancelled)
    {
      var n := |events| - 1;
      ghost var before := events;
      Swap(0, n);
      assert HeapBelow(events, 0, n) by {
        forall k | 0 < k < n && Parent(k) != 0 ensures Above(events, Parent(k), k) {
          assert Above(before, Parent(k), k);
        }
      }
      Down(n);
      ghost var all := events;
      item := events[n];
      assert item == before[0] by {
        assert events[n..][0] == before[0];
      }
      item.index := -1;
      events := events[..n];
      SplitLast(all);
    }

    method Add(due: int, hasCallback: bool) returns (id: nat)
      requires Valid()
      modifies this`next, this`events, Elements(events)
      ensures Valid()
      ensures id == old(next) + 1 == next
      ensures exists item | item in Elements(events) ::
                && fresh(item) && item.id == id && item.due == due && item.hasCallback == hasCallback && !item.cancelled
                && Elements(events) == old(Elements(events)) + {item}
      ensures forall e :: e in old(Elements(events)) ==> e.cancelled == old(e.cancelled)
    {
      next := next + 1;
      var item := new Event(next, due, hasCallback);
      ghost var before := events;
      Push(item);
      id := item.id;
      IdsGrow(before, item, events);
    }

    method Cancel(id: nat) returns (ok: bool)
      requires Valid()
      modifies this`revoked, Elements(events)
      ensures Valid()
      ensures ok <==> id in old(Ids(events)) && id !in old(revoked)
      ensures revoked == if ok then old(revoked) + {id} else old(revoked)
      ensures forall e :: e in Elements(events) ==> e.cancelled == (old(e.cancelled) || (ok && e.id == id))
    {
      for k := 0 to |events|
        invariant forall j :: 0 <= j < k ==> events[j].id != id || events[j].cancelled
      {
        var item := events[k];
        if item.id == id && !item.cancelled {
          item.cancelled := true;
          revoked := revoked + {id};
          assert item.id in Ids(events);
          return true;
        }
      }
      return false;
    }

    /**
     Hands out exactly the due, uncancelled events that have a callback, in strict (due, id) order, and keeps exactly
     the events that are not due. By SortedListingIsUnique this determines `ready` completely.
     */
    method RunDue(now: int) returns (ready: seq<Event>)
      requires Valid()
      modifies this`events, this`fired, Elements(events)
      ensures Valid()
      ensures Sorted(ready)
      // the earlier due time first, and of equal ones the event that was added first
      ensures forall i, j :: 0 <= i < j < |ready| ==>
                ready[i].due < ready[j].due || (ready[i].due == ready[j].due && ready[i].id < ready[j].id)
      ensures Elements(ready) == set e | e in old(Elements(events)) && e.due <= now && !old(e.cancelled) &&
              e.hasCallback
      ensures Elements(events) == set e | e in old(Elements(events)) && e.due > now
      ensures fired == old(fired) + ready
      ensures forall e :: e in old(Elements(events)) ==> e.cancelled == old(e.cancelled)
    {
      ready := [];
      ghost var popped: set<Event> := {};
      while |events| > 0
        invariant Valid() && fired == old(fired) + ready
        invariant popped + Elements(events) == old(Elements(events)) && popped !! Elements(events)
        invariant forall e :: e in popped ==> e.due <= now
        invariant Elements(ready) == set e | e in popped && !old(e.cancelled) && e.hasCallback
        invariant Sorted(ready)
        invariant forall p, e :: p in popped && e in Elements(events) ==> Less(p, e)
        invariant forall e :: e in old(Elements(events)) ==> e.cancelled == old(e.cancelled)
      {
        var item := events[0];
        if item.due > now {
          break;
        }
        ghost var before := events;
        LeastComesFirst(before);
        assert item.id in Ids(before);
        assert Issued(Ids(fired) + {item.id}, next);
        var _ := Pop();
        IdsShrink(before, events, item);
        popped := popped + {item};
        if !item.cancelled && item.hasCallback {
          AppendSorted(ready, item);
          AppendId(fired, item);
          ready := ready + [item];
          fired := fired + [item];
        }
      }
      if |events| > 0 {
        LeastComesFirst(events);
      }
    }

    /** The least due time of the events that are not cancelled. */
    method NextDue() returns (due: int, ok: bool)
      requires Valid()
      modifies this`events, Elements(events)
      ensures Valid()
      ensures Elements(events) <= old(Elements(events))
      ensures forall e :: e in old(Elements(events)) && e !in Elements(events) ==> e.cancelled
      ensures forall e :: e in old(Elements(events)) ==> e.cancelled == old(e.cancelled)
      ensures ok <==> exists e :: e in old(Elements(events)) && !old(e.cancelled)
      ensures ok ==> exists e :: e in old(Elements(events)) && !old(e.cancelled) && e.due == due
      ensures ok ==> forall e :: e in old(Elements(events)) && !old(e.cancelled) ==> due <= e.due
    {
      while |events| > 0 && events[0].cancelled
        invariant Valid() && Elements(events) <= old(Elements(events))
        invariant forall e :: e in old(Elements(events)) && e !in Elements(events) ==> e.cancelled
        invariant forall e :: e in old(Elements(events)) ==> e.cancelled == old(e.cancelled)
        decreases |events|
      {
        ghost var before := events;
        var item := Pop();
        IdsShrink(before, events, item);
      }
      if |events| == 0 {
        return 0, false;
      }
      LeastComesFirst(events);
      assert events[0] in Elements(events);
      return events[0].due, true;
    }
  }
}
