/** Sequence operations the repositories and streams are built from:
    filtering, sorting by a key, first match, and first extreme element. */
module Seqs {
  import opened Common

  /** `r` keeps exactly the elements of `s` that satisfy `p`, each as many
      times as it occurs in `s`. */
  ghost predicate Selects<T(!new)>(s: seq<T>, r: seq<T>, p: T -> bool) {
    forall x :: multiset(r)[x] == if p(x) then multiset(s)[x] else 0
  }

  lemma SelectsMembers<T(!new)>(s: seq<T>, r: seq<T>, p: T -> bool)
    requires Selects(s, r, p)
    ensures forall x :: x in r <==> x in s && p(x)
  {
    forall x ensures x in r <==> x in s && p(x) {
      assert x in r <==> multiset(r)[x] > 0;
      assert x in s <==> multiset(s)[x] > 0;
    }
  }

  /** Every selected element, by position, is an element of the source
      that the predicate accepts. */
  lemma SelectsPointwise<T(!new)>(s: seq<T>, r: seq<T>, p: T -> bool)
    requires Selects(s, r, p)
    ensures forall i :: 0 <= i < |r| ==> r[i] in s && p(r[i])
  {
    SelectsMembers(s, r, p);
    assert forall i :: 0 <= i < |r| ==> r[i] in r;
  }

  /** Selection depends only on which elements the predicate accepts. */
  lemma SelectsCongruent<T(!new)>(s: seq<T>, r: seq<T>, p: T -> bool, q: T -> bool)
    requires Selects(s, r, p)
    requires forall x :: p(x) == q(x)
    ensures Selects(s, r, q)
  {
  }

  /** `Stream.filter`: keeps the elements satisfying `p`, in order. */
  function Filter<T(!new)>(s: seq<T>, p: T -> bool): (r: seq<T>)
    ensures |r| <= |s|
    ensures forall i :: 0 <= i < |r| ==> p(r[i])
    ensures Selects(s, r, p)
  {
    if |s| == 0 then []
    else
      assert s == [s[0]] + s[1..];
      (if p(s[0]) then [s[0]] else []) + Filter(s[1..], p)
  }

  lemma {:induction false} FilterConcat<T(!new)>(a: seq<T>, b: seq<T>, p: T -> bool)
    ensures Filter(a + b, p) == Filter(a, p) + Filter(b, p)
  {
    if |a| == 0 {
      assert a + b == b;
    } else {
      assert (a + b)[1..] == a[1..] + b;
      FilterConcat(a[1..], b, p);
    }
  }

  ghost predicate SortedAsc<T>(s: seq<T>, key: T -> int) {
    forall i, j :: 0 <= i < j < |s| ==> key(s[i]) <= key(s[j])
  }

  ghost predicate SortedDesc<T>(s: seq<T>, key: T -> int) {
    forall i, j :: 0 <= i < j < |s| ==> key(s[i]) >= key(s[j])
  }

  function InsertAsc<T>(x: T, s: seq<T>, key: T -> int): (r: seq<T>)
    requires SortedAsc(s, key)
    ensures SortedAsc(r, key)
    ensures multiset(r) == multiset(s) + multiset{x}
    ensures |r| == |s| + 1
    ensures key(r[0]) == key(x) || (|s| > 0 && key(r[0]) == key(s[0]))
  {
    if |s| == 0 then [x]
    else if key(x) <= key(s[0]) then [x] + s
    else
      assert s == [s[0]] + s[1..];
      var rest := InsertAsc(x, s[1..], key);
      assert key(s[0]) <= key(rest[0]);
      [s[0]] + rest
  }

  /** An `order by key` (ascending): a sorted permutation of `s`. */
  function SortAsc<T>(s: seq<T>, key: T -> int): (r: seq<T>)
    ensures SortedAsc(r, key)
    ensures multiset(r) == multiset(s)
  {
    if |s| == 0 then []
    else
      assert s == [s[0]] + s[1..];
      InsertAsc(s[0], SortAsc(s[1..], key), key)
  }

  /** An `order by key desc`: a permutation of `s` sorted the other way. */
  function SortDesc<T>(s: seq<T>, key: T -> int): (r: seq<T>)
    ensures SortedDesc(r, key)
    ensures multiset(r) == multiset(s)
  {
    SortAsc(s, x => -key(x))
  }

  /** Index of the first element satisfying `p`, if any. */
  function FindIndex<T>(s: seq<T>, p: T -> bool): (r: Option<nat>)
    ensures r.None? <==> forall i :: 0 <= i < |s| ==> !p(s[i])
    ensures r.Some? ==> r.value < |s| && p(s[r.value])
    ensures r.Some? ==> forall j :: 0 <= j < r.value ==> !p(s[j])
  {
    if |s| == 0 then None
    else if p(s[0]) then Some(0)
    else
      match FindIndex(s[1..], p)
      case None => None
      case Some(i) => Some(i + 1)
  }

  /** `Stream.findFirst` after a filter. */
  function First<T>(s: seq<T>, p: T -> bool): (r: Option<T>)
    ensures r.None? <==> forall x :: x in s ==> !p(x)
    ensures r.Some? ==> r.value in s && p(r.value)
  {
    match FindIndex(s, p)
    case None => None
    case Some(i) => Some(s[i])
  }

  /** `filter(p).max(comparing(key))`: the reduction keeps the earlier
      element on a tie, so this is the first accepted element whose key is
      maximal among the accepted ones. */
  function MaxWhere<T>(s: seq<T>, p: T -> bool, key: T -> int): (r: Option<nat>)
    ensures r.None? <==> forall j :: 0 <= j < |s| ==> !p(s[j])
    ensures r.Some? ==> r.value < |s| && p(s[r.value])
    ensures r.Some? ==> forall j :: 0 <= j < |s| && p(s[j]) ==> key(s[j]) <= key(s[r.value])
    ensures r.Some? ==> forall j :: 0 <= j < r.value && p(s[j]) ==> key(s[j]) < key(s[r.value])
  {
    if |s| == 0 then None
    else
      var n := |s| - 1;
      var m := MaxWhere(s[..n], p, key);
      if !p(s[n]) then m
      else if m.Some? && key(s[m.value]) >= key(s[n]) then m
      else Some(n)
  }

  /** `filter(p).min(comparing(key))`: the first accepted element whose key
      is minimal among the accepted ones. */
  function MinWhere<T>(s: seq<T>, p: T -> bool, key: T -> int): (r: Option<nat>)
    ensures r.None? <==> forall j :: 0 <= j < |s| ==> !p(s[j])
    ensures r.Some? ==> r.value < |s| && p(s[r.value])
    ensures r.Some? ==> forall j :: 0 <= j < |s| && p(s[j]) ==> key(s[r.value]) <= key(s[j])
    ensures r.Some? ==> forall j :: 0 <= j < r.value && p(s[j]) ==> key(s[r.value]) < key(s[j])
  {
    if |s| == 0 then None
    else
      var n := |s| - 1;
      var m := MinWhere(s[..n], p, key);
      if !p(s[n]) then m
      else if m.Some? && key(s[m.value]) <= key(s[n]) then m
      else Some(n)
  }

  /** A non-empty set of ids has a member to pick. */
  lemma NonEmptyHasMember(left: set<int>)
    requires left != {}
    ensures exists k :: k in left
  {
    if !(exists k :: k in left) {
      assert false;
    }
  }

  /** Every value of a map keyed by id is stored under some id. */
  lemma ValuesHaveKeys<V>(m: map<int, V>)
    ensures forall v :: v in m.Values ==> exists k :: k in m && m[k] == v
  {
    forall v | v in m.Values ensures exists k :: k in m && m[k] == v {
      if !(exists k :: k in m && m[k] == v) {
        assert false;
      }
    }
  }
}
