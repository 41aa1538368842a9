/**
 * The search frontier: an array of (station, priority) entries that is pushed
 * onto and then stably sorted by priority, and read from the front.
 */
module Queue {
  import opened Common

  datatype Entry = Entry(element: StationId, priority: real)

  /** Priorities never decrease from front to back. */
  ghost predicate Sorted(s: seq<Entry>) {
    forall i, j :: 0 <= i < j < |s| ==> s[i].priority <= s[j].priority
  }

  /** The entries of priority p, in their order in s. */
  function WithPriority(s: seq<Entry>, p: real): seq<Entry> {
    if s == [] then []
    else
      var n := |s| - 1;
      WithPriority(s[..n], p) + (if s[n].priority == p then [s[n]] else [])
  }

  lemma {:induction false} WithPriorityAppend(s: seq<Entry>, t: seq<Entry>, p: real)
    ensures WithPriority(s + t, p) == WithPriority(s, p) + WithPriority(t, p)
    decreases |t|
  {
    if t == [] {
      assert s + t == s;
    } else {
      var n := |t| - 1;
      assert (s + t)[..|s + t| - 1] == s + t[..n];
      WithPriorityAppend(s, t[..n], p);
    }
  }

  /**
   * Places e into the sorted list s after every entry whose priority is at most
   * e's: what a stable sort does with an entry pushed at the back.
   */
  function Insert(s: seq<Entry>, e: Entry): (r: seq<Entry>)
    requires Sorted(s)
    ensures Sorted(r)
    ensures forall x :: x in r ==> x in s || x == e
  {
    if s == [] then [e]
    else
      var n := |s| - 1;
      if s[n].priority <= e.priority then s + [e]
      else
        var r' := Insert(s[..n], e);
        assert forall i :: 0 <= i < |r'| ==> r'[i] in r';
        r' + [s[n]]
  }

  /** Insert adds e and loses nothing. */
  lemma {:induction false} InsertMembers(s: seq<Entry>, e: Entry)
    requires Sorted(s)
    ensures multiset(Insert(s, e)) == multiset(s) + multiset{e}
  {
    if s != [] {
      var n := |s| - 1;
      if e.priority < s[n].priority {
        InsertMembers(s[..n], e);
        assert s == s[..n] + [s[n]];
      }
    }
  }

  lemma WithPrioritySingle(x: Entry, p: real)
    ensures WithPriority([x], p) == if x.priority == p then [x] else []
  {
    assert [x][..0] == [];
  }

  /**
   * (a + t) + b == (a + b) + t when one of t and b is empty. Kept as a named
   * step: inline, the last step of InsertStable runs out of resource.
   */
  lemma SwapEmpty(a: seq<Entry>, b: seq<Entry>, t: seq<Entry>, x: seq<Entry>, y: seq<Entry>, z: seq<Entry>)
    requires x == y + b && y == a + t && z == a + b && (b == [] || t == [])
    ensures x == z + t
  {
  }

  /** Entries of e's priority keep their order and e comes after them; other priorities are untouched. */
  lemma {:induction false} InsertStable(s: seq<Entry>, e: Entry, p: real)
    requires Sorted(s)
    ensures WithPriority(Insert(s, e), p) == WithPriority(s, p) + (if e.priority == p then [e] else [])
  {
    var tail := if e.priority == p then [e] else [];
    if s == [] {
      assert Insert(s, e) == [e];
      WithPrioritySingle(e, p);
    } else {
      var n := |s| - 1;
      if s[n].priority <= e.priority {
        assert Insert(s, e) == s + [e];
        WithPriorityAppend(s, [e], p);
        WithPrioritySingle(e, p);
      } else {
        var s' := s[..n];
        var a := WithPriority(s', p);
        var b := WithPriority([s[n]], p);
        assert Sorted(s');
        var r' := Insert(s', e);
        assert WithPriority(Insert(s, e), p) == WithPriority(r', p) + b by {
          assert Insert(s, e) == r' + [s[n]];
          WithPriorityAppend(r', [s[n]], p);
        }
        assert WithPriority(r', p) == a + tail by {
          InsertStable(s', e, p);
        }
        assert WithPriority(s, p) == a + b by {
          assert s == s' + [s[n]];
          WithPriorityAppend(s', [s[n]], p);
        }
        assert b == [] || tail == [] by {
          WithPrioritySingle(s[n], p);
        }
        SwapEmpty(a, b, tail, WithPriority(Insert(s, e), p), WithPriority(r', p), WithPriority(s, p));
      }
    }
  }

  /**
   * `Array.prototype.sort` with the comparator `(a, b) => a.priority - b.priority`:
   * a stable sort by priority.
   */
  function SortByPriority(s: seq<Entry>): (r: seq<Entry>)
    ensures Sorted(r)
  {
    if s == [] then []
    else
      var n := |s| - 1;
      assert s == s[..n] + [s[n]];
      Insert(SortByPriority(s[..n]), s[n])
  }

  /** The sort is a permutation: the same entries, as many times each. */
  lemma {:induction false} SortMembers(s: seq<Entry>)
    ensures multiset(SortByPriority(s)) == multiset(s)
  {
    if s != [] {
      var n := |s| - 1;
      SortMembers(s[..n]);
      InsertMembers(SortByPriority(s[..n]), s[n]);
      MultisetSnoc(s);
    }
  }

  /** The sort is stable: for every priority, the entries of that priority keep their relative order. */
  lemma {:induction false} SortStable(s: seq<Entry>, p: real)
    ensures WithPriority(SortByPriority(s), p) == WithPriority(s, p)
  {
    if s != [] {
      var n := |s| - 1;
      var s' := s[..n];
      var sorted' := SortByPriority(s');
      var tail := if s[n].priority == p then [s[n]] else [];
      assert WithPriority(SortByPriority(s), p) == WithPriority(s', p) + tail by {
        assert SortByPriority(s) == Insert(sorted', s[n]);
        InsertStable(sorted', s[n], p);
        SortStable(s', p);
      }
      assert WithPriority(s, p) == WithPriority(s', p) + tail by {
        assert s == s' + [s[n]];
        WithPriorityAppend(s', [s[n]], p);
        WithPrioritySingle(s[n], p);
      }
    }
  }

  /** Enqueuing e adds exactly e: the same entries as before, as many times each, plus e. */
  lemma EnqueueMembers(s: seq<Entry>, e: Entry)
    ensures multiset(SortByPriority(s + [e])) == multiset(s) + multiset{e}
    ensures forall x :: x in SortByPriority(s + [e]) <==> x in s || x == e
  {
    SortMembers(s + [e]);
    assert forall x :: x in SortByPriority(s + [e]) <==> x in multiset(s + [e]);
  }

  /**
   * Enqueuing is first-in first-out within a priority: the entries of each
   * priority keep their order, and e comes after those of its own priority.
   */
  lemma EnqueueFifo(s: seq<Entry>, e: Entry, p: real)
    ensures WithPriority(SortByPriority(s + [e]), p) == WithPriority(s, p) + (if e.priority == p then [e] else [])
  {
    SortStable(s + [e], p);
    WithPriorityAppend(s, [e], p);
    WithPrioritySingle(e, p);
  }

  class PriorityQueue {
    var collection: seq<Entry>

    /** The collection is kept sorted: every enqueue re-sorts it. */
    ghost predicate Valid()
      reads this
    {
      Sorted(collection)
    }

    constructor ()
      ensures Valid() && collection == []
    {
      collection := [];
    }

    /**
     * Pushes the entry and re-sorts. Among equal priorities the new entry comes
     * last, so entries of one priority leave in the order they came.
     */
    method Enqueue(element: StationId, priority: real)
      requires Valid()
      modifies this
      ensures Valid()
      ensures collection == SortByPriority(old(collection) + [Entry(element, priority)])
    {
      collection := collection + [Entry(element, priority)];
      Sort();
    }

    /** Removes and returns the front entry, `undefined` (None) when there is none. */
    method Dequeue() returns (front: Option<Entry>)
      requires Valid()
      modifies this
      ensures Valid()
      ensures old(collection) == [] ==> front == None && collection == []
      ensures old(collection) != [] ==> front == Some(old(collection)[0]) && collection == old(collection)[1..]
      ensures front.Some? ==> forall k :: 0 <= k < |old(collection)| ==> front.value.priority <= old(collection)[k].priority
    {
      if collection == [] {
        front := None;
      } else {
        front := Some(collection[0]);
        collection := collection[1..];
      }
    }

    method IsEmpty() returns (empty: bool)
      ensures empty <==> collection == []
    {
      empty := |collection| == 0;
    }

    method Sort()
      modifies this
      ensures collection == SortByPriority(old(collection))
    {
      collection := SortByPriority(collection);
    }
  }
}
