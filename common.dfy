/** Values shared by every part of the route planner. */
module Common {
  /** An optional value: JavaScript's `null`, or the `undefined` of a failed `Map.get`. */
  datatype Option<T> = None | Some(value: T)

  /** Station identifiers are the string keys of the station records. */
  type StationId = string

  /** JavaScript truthiness of a `string | null`: present and not the empty string. */
  predicate IsSet(id: Option<StationId>) {
    id.Some? && id.value != ""
  }

  /** `x || null` on a `string | null`: a falsy value (null or the empty string) becomes null. */
  function OrNull(id: Option<StationId>): (r: Option<StationId>)
    ensures r.Some? <==> IsSet(id)
    ensures r.Some? ==> r == id
  {
    if IsSet(id) then id else None
  }

  /**
   * Taking one more element of a sequence appends that element. Dafny proves
   * it alone, but the neighbour loop of the search needs the fact named to
   * stay within its resource limit.
   */
  lemma TakeOneMore<T>(s: seq<T>, k: nat)
    requires k < |s|
    ensures s[..k + 1] == s[..k] + [s[k]]
  {
  }

  /** The whole prefix is the sequence: the step from a loop invariant on s[..i] to s at the exit. */
  lemma TakeAll<T>(s: seq<T>)
    ensures s[..|s|] == s
  {
  }

  /** A prefix of a prefix: the loops over stations and connections need it named to carry their invariants. */
  lemma TakeTake<T>(s: seq<T>, i: nat)
    requires i < |s|
    ensures s[..i + 1][..i] == s[..i]
  {
  }

  /** Two maps with the same keys and the same value at every key are equal. */
  lemma MapsAgree<K, V>(a: map<K, V>, b: map<K, V>)
    requires a.Keys == b.Keys && forall k :: k in a ==> a[k] == b[k]
    ensures a == b
  {
  }

  /** Taking one more element of a out of consideration leaves fewer. */
  lemma RemoveOneMore<T>(a: set<T>, b: set<T>, x: T)
    requires x in a && x !in b
    ensures |a - (b + {x})| < |a - b|
  {
    assert a - b == (a - (b + {x})) + {x};
  }

  /** The multiset of a non-empty sequence: that of all but the last element, plus the last. */
  lemma MultisetSnoc<T>(s: seq<T>)
    requires s != []
    ensures multiset(s) == multiset(s[..|s| - 1]) + multiset{s[|s| - 1]}
  {
    assert s == s[..|s| - 1] + [s[|s| - 1]];
  }
}
