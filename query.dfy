/** The set-level meaning of the SQL clauses the handlers use: `WHERE` as
    an order-preserving filter, `COUNT(*)` as its length, and `ORDER BY`
    as a sort on a two-part key (compared lexicographically, ascending;
    a descending column is keyed by its negation). */
module Query {

  /** `SELECT * FROM s WHERE p`, in the order of `s`. */
  function Filter<T>(s: seq<T>, p: T -> bool): (r: seq<T>)
    ensures |r| <= |s|
    ensures forall i :: 0 <= i < |r| ==> r[i] in s && p(r[i])
    ensures forall i :: 0 <= i < |s| && p(s[i]) ==> s[i] in r
  {
    if s == [] then []
    else (if p(s[0]) then [s[0]] else []) + Filter(s[1..], p)
  }

  /** A filtered table holds exactly the rows of the table that pass. */
  lemma FilterMembers<T>(s: seq<T>, p: T -> bool)
    ensures forall x :: x in Filter(s, p) <==> x in s && p(x)
  {
    forall x | x in Filter(s, p) ensures x in s && p(x) {
      var k :| 0 <= k < |Filter(s, p)| && Filter(s, p)[k] == x;
    }
  }

  lemma {:induction false} FilterAppend<T>(a: seq<T>, b: seq<T>, p: T -> bool)
    ensures Filter(a + b, p) == Filter(a, p) + Filter(b, p)
  {
    if a == [] {
      assert a + b == b;
    } else {
      assert (a + b)[1..] == a[1..] + b;
      FilterAppend(a[1..], b, p);
    }
  }

  /** A filter that every element passes keeps everything. */
  lemma {:induction false} FilterAll<T>(s: seq<T>, p: T -> bool)
    requires forall i :: 0 <= i < |s| ==> p(s[i])
    ensures Filter(s, p) == s
  {
    if s != [] {
      FilterAll(s[1..], p);
    }
  }

  /** A filter that no element passes keeps nothing. */
  lemma {:induction false} FilterNone<T>(s: seq<T>, p: T -> bool)
    requires forall i :: 0 <= i < |s| ==> !p(s[i])
    ensures Filter(s, p) == []
  {
    if s != [] {
      FilterNone(s[1..], p);
    }
  }

  /** `SELECT COUNT(*) FROM s WHERE p`. */
  function Count<T>(s: seq<T>, p: T -> bool): (n: nat)
    ensures n <= |s|
  {
    |Filter(s, p)|
  }

  /** Counting the rows of a filter that pass `q` is counting the rows
      that pass both. */
  lemma {:induction false} CountFiltered<T>(s: seq<T>, p: T -> bool, q: T -> bool, both: T -> bool)
    requires forall x :: both(x) == (p(x) && q(x))
    ensures Count(Filter(s, p), q) == Count(s, both)
  {
    if s != [] {
      var head := if p(s[0]) then [s[0]] else [];
      FilterAppend(head, Filter(s[1..], p), q);
      CountFiltered(s[1..], p, q, both);
    }
  }

  /** Every row is counted by exactly one of `p` and its negation. */
  lemma {:induction false} CountSplit<T>(s: seq<T>, p: T -> bool, q: T -> bool)
    requires forall x :: q(x) == !p(x)
    ensures Count(s, p) + Count(s, q) == |s|
  {
    if s != [] {
      CountSplit(s[1..], p, q);
    }
  }

  /** Exactly one element passing the filter makes the count one. */
  lemma {:induction false} CountOne<T>(s: seq<T>, k: nat, p: T -> bool)
    requires k < |s| && p(s[k])
    requires forall i :: 0 <= i < |s| && i != k ==> !p(s[i])
    ensures Count(s, p) == 1
  {
    if k == 0 {
      FilterNone(s[1..], p);
    } else {
      CountOne(s[1..], k - 1, p);
    }
  }

  /** Three filters no element passes two of count at most every element
      once. */
  lemma {:induction false} CountDisjoint<T>(s: seq<T>, p: T -> bool, q: T -> bool, r: T -> bool)
    requires forall x :: !(p(x) && q(x)) && !(p(x) && r(x)) && !(q(x) && r(x))
    ensures Count(s, p) + Count(s, q) + Count(s, r) <= |s|
  {
    if s != [] {
      CountDisjoint(s[1..], p, q, r);
    }
  }

  predicate KeyLeq(a: (int, int), b: (int, int)) {
    a.0 < b.0 || (a.0 == b.0 && a.1 <= b.1)
  }

  ghost predicate SortedBy<T>(s: seq<T>, key: T -> (int, int)) {
    forall i, j :: 0 <= i < j < |s| ==> KeyLeq(key(s[i]), key(s[j]))
  }

  function Insert<T>(x: T, s: seq<T>, key: T -> (int, int)): (r: seq<T>)
    requires SortedBy(s, key)
    ensures SortedBy(r, key)
    ensures multiset(r) == multiset(s) + multiset{x}
  {
    if s == [] then [x]
    else if KeyLeq(key(x), key(s[0])) then [x] + s
    else
      var t := Insert(x, s[1..], key);
      assert s == [s[0]] + s[1..];
      assert forall i :: 0 <= i < |t| ==> t[i] in multiset(s[1..]) + multiset{x};
      forall i | 0 <= i < |t| ensures KeyLeq(key(s[0]), key(t[i])) {
        if t[i] != x {
          assert t[i] in s[1..];
        }
      }
      SortedCons(s[0], t, key);
      [s[0]] + t
  }

  /** `ORDER BY key`: a sorted permutation of `s`; rows with equal keys
      keep their table order. */
  function SortBy<T>(s: seq<T>, key: T -> (int, int)): (r: seq<T>)
    ensures SortedBy(r, key)
    ensures multiset(r) == multiset(s)
    ensures |r| == |s|
  {
    if s == [] then []
    else
      assert s == [s[0]] + s[1..];
      Insert(s[0], SortBy(s[1..], key), key)
  }

  /** The elements of `s` as a set. */
  function ElemSet<T>(s: seq<T>): set<T> {
    set x | x in s
  }

  ghost predicate Distinct<T>(s: seq<T>) {
    forall i, j :: 0 <= i < j < |s| ==> s[i] != s[j]
  }

  /** JavaScript's `new Set(s).size === s.length` test: the set of the
      elements is as large as the sequence exactly when no element repeats. */
  lemma {:induction false} DistinctIffSetSize<T>(s: seq<T>)
    ensures |ElemSet(s)| <= |s|
    ensures |ElemSet(s)| == |s| <==> Distinct(s)
  {
    if s != [] {
      var t := s[1..];
      DistinctIffSetSize(t);
      assert s == [s[0]] + t;
      assert ElemSet(s) == {s[0]} + ElemSet(t);
      if s[0] in t {
        assert ElemSet(s) == ElemSet(t);
        var j :| 0 <= j < |t| && t[j] == s[0];
        assert s[0] == s[j + 1];
      } else {
        assert s[0] !in ElemSet(t);
        DistinctCons(s[0], t);
      }
    }
  }

  /** A new element in front keeps a sequence without repeats so. */
  lemma DistinctCons<T>(x: T, t: seq<T>)
    requires x !in t
    ensures Distinct([x] + t) <==> Distinct(t)
  {
    var s := [x] + t;
    if Distinct(t) {
      forall i, j | 0 <= i < j < |s| ensures s[i] != s[j] {
        assert s[j] == t[j - 1];
        if i > 0 {
          assert s[i] == t[i - 1];
        }
      }
    } else {
      var i, j :| 0 <= i < j < |t| && t[i] == t[j];
      assert s[i + 1] == s[j + 1];
    }
  }

  /** A subset is no larger than its superset, and equally large only
      when the two are equal. */
  lemma SubsetSize<T>(a: set<T>, b: set<T>)
    requires a <= b
    ensures |a| <= |b|
    ensures |a| == |b| ==> a == b
  {
    assert b == a + (b - a);
    assert a * (b - a) == {};
    if a != b {
      var x :| x in b - a;
    }
  }

  /** `s` with the element at `k` removed (a `DELETE` of one row). */
  function RemoveAt<T>(s: seq<T>, k: nat): (r: seq<T>)
    requires k < |s|
    ensures |r| == |s| - 1
    ensures forall i :: 0 <= i < k ==> r[i] == s[i]
    ensures forall i :: k <= i < |r| ==> r[i] == s[i + 1]
    ensures multiset(r) + multiset{s[k]} == multiset(s)
  {
    assert s == s[..k] + [s[k]] + s[k + 1..];
    s[..k] + s[k + 1..]
  }

  /** Removing the element between two parts joins the parts. */
  lemma RemoveAtJoin<T>(a: seq<T>, x: T, b: seq<T>)
    ensures RemoveAt(a + [x] + b, |a|) == a + b
  {
    var s := a + [x] + b;
    assert s[..|a|] == a && s[|a| + 1..] == b;
  }

  /** A bottom-up pass that deletes the elements failing `p`, one step:
      once the part below `i` is filtered, deleting a failing element `i`
      extends the filtered part. */
  lemma BottomUpDrop<T>(s: seq<T>, i: nat, p: T -> bool)
    requires i < |s| && !p(s[i])
    ensures RemoveAt(s[..i + 1] + Filter(s[i + 1..], p), i) == s[..i] + Filter(s[i..], p)
  {
    var rest := Filter(s[i + 1..], p);
    assert s[i..][1..] == s[i + 1..];
    assert Filter(s[i..], p) == rest;
    assert s[..i + 1] == s[..i] + [s[i]];
    RemoveAtJoin(s[..i], s[i], rest);
  }

  /** The same step keeping a passing element `i` where it is. */
  lemma BottomUpKeep<T>(s: seq<T>, i: nat, p: T -> bool)
    requires i < |s| && p(s[i])
    ensures s[..i + 1] + Filter(s[i + 1..], p) == s[..i] + Filter(s[i..], p)
  {
    var rest := Filter(s[i + 1..], p);
    assert s[i..][1..] == s[i + 1..];
    assert Filter(s[i..], p) == [s[i]] + rest;
    assert s[..i + 1] == s[..i] + [s[i]];
    assert s[..i] + [s[i]] + rest == s[..i] + ([s[i]] + rest);
  }

  /** Removing an element keeps a key that no two elements share unshared. */
  lemma RemoveAtKeepsKeysDistinct<T>(a: seq<T>, k: nat, f: T -> int)
    requires k < |a|
    requires forall i, j :: 0 <= i < j < |a| ==> f(a[i]) != f(a[j])
    ensures forall i, j :: 0 <= i < j < |RemoveAt(a, k)| ==> f(RemoveAt(a, k)[i]) != f(RemoveAt(a, k)[j])
    ensures forall m :: 0 <= m < |RemoveAt(a, k)| ==> f(RemoveAt(a, k)[m]) != f(a[k])
  {
    var r := RemoveAt(a, k);
    forall i, j | 0 <= i < j < |r| ensures f(r[i]) != f(r[j]) {
      var i' := if i < k then i else i + 1;
      var j' := if j < k then j else j + 1;
      assert r[i] == a[i'] && r[j] == a[j'] && i' < j';
    }
    forall m | 0 <= m < |r| ensures f(r[m]) != f(a[k]) {
      var m' := if m < k then m else m + 1;
      assert r[m] == a[m'] && m' != k;
    }
  }

  /** Putting in front an element whose key no other element has keeps the
      keys unshared. */
  lemma ConsKeysDistinct<T>(x: T, tail: seq<T>, f: T -> int)
    requires forall i, j :: 0 <= i < j < |tail| ==> f(tail[i]) != f(tail[j])
    requires forall j :: 0 <= j < |tail| ==> f(x) != f(tail[j])
    ensures forall i, j :: 0 <= i < j < |[x] + tail| ==> f(([x] + tail)[i]) != f(([x] + tail)[j])
  {
    var b := [x] + tail;
    forall i, j | 0 <= i < j < |b| ensures f(b[i]) != f(b[j]) {
      assert b[j] == tail[j - 1];
      if i > 0 {
        assert b[i] == tail[i - 1];
      }
    }
  }

  /** An element's key that no element of `a` has is not had by any element
      of a reordering of `a`. */
  lemma KeyAbsentFromPermutation<T>(a: seq<T>, b: seq<T>, f: T -> int, key: int)
    requires multiset(a) == multiset(b)
    requires forall m :: 0 <= m < |a| ==> f(a[m]) != key
    ensures forall j :: 0 <= j < |b| ==> f(b[j]) != key
  {
    forall j | 0 <= j < |b| ensures f(b[j]) != key {
      assert b[j] in multiset(a);
      var m :| 0 <= m < |a| && a[m] == b[j];
    }
  }

  /** Reordering a sequence keeps a key that no two of its elements share
      unshared. */
  lemma {:induction false} PermutationKeepsKeysDistinct<T>(a: seq<T>, b: seq<T>, f: T -> int)
    requires multiset(a) == multiset(b)
    requires forall i, j :: 0 <= i < j < |a| ==> f(a[i]) != f(a[j])
    ensures forall i, j :: 0 <= i < j < |b| ==> f(b[i]) != f(b[j])
  {
    if b != [] {
      var x := b[0];
      assert x in multiset(a);
      var k :| 0 <= k < |a| && a[k] == x;
      var rest := RemoveAt(a, k);
      var tail := b[1..];
      PermutationWithoutFront(a, b, k);
      RemoveAtKeepsKeysDistinct(a, k, f);
      PermutationKeepsKeysDistinct(rest, tail, f);
      KeyAbsentFromPermutation(rest, tail, f, f(x));
      ConsKeysDistinct(x, tail, f);
      assert b == [x] + tail;
    }
  }

  /** An element of a permutation sits at some index of the original. */
  lemma PermutedFrom<T>(a: seq<T>, b: seq<T>, i: nat) returns (t: nat)
    requires multiset(a) == multiset(b) && i < |a|
    ensures t < |b| && b[t] == a[i]
  {
    assert a[i] in multiset(b);
    t :| t < |b| && b[t] == a[i];
  }

  /** Taking the first element off a reordering, and the same element off
      the original, leaves a reordering. */
  lemma PermutationWithoutFront<T>(a: seq<T>, b: seq<T>, k: nat)
    requires multiset(a) == multiset(b)
    requires b != [] && k < |a| && a[k] == b[0]
    ensures multiset(RemoveAt(a, k)) == multiset(b[1..])
  {
    assert multiset(RemoveAt(a, k)) == multiset(a) - multiset{b[0]};
    assert b == [b[0]] + b[1..];
  }

  /** Filtering keeps a key that no two elements share unshared. */
  lemma {:induction false} FilterKeepsKeysDistinct<T>(s: seq<T>, p: T -> bool, f: T -> int)
    requires forall i, j :: 0 <= i < j < |s| ==> f(s[i]) != f(s[j])
    ensures forall i, j :: 0 <= i < j < |Filter(s, p)| ==> f(Filter(s, p)[i]) != f(Filter(s, p)[j])
  {
    if s != [] {
      var t := s[1..];
      FilterKeepsKeysDistinct(t, p, f);
      var ft := Filter(t, p);
      if p(s[0]) {
        forall j | 0 <= j < |ft| ensures f(s[0]) != f(ft[j]) {
          var m :| 0 <= m < |t| && t[m] == ft[j];
          assert s[m + 1] == t[m];
        }
        ConsKeysDistinct(s[0], ft, f);
      }
    }
  }

  /** A filter that rejects exactly the element at `k` removes just it. */
  lemma {:induction false} FilterDropsOne<T>(s: seq<T>, k: nat, p: T -> bool)
    requires k < |s| && !p(s[k])
    requires forall i :: 0 <= i < |s| && i != k ==> p(s[i])
    ensures Filter(s, p) == RemoveAt(s, k)
  {
    var front, back := s[..k], s[k + 1..];
    assert s == front + ([s[k]] + back);
    forall i | 0 <= i < |front| ensures p(front[i]) {
      assert front[i] == s[i];
    }
    forall i | 0 <= i < |back| ensures p(back[i]) {
      assert back[i] == s[k + 1 + i];
    }
    FilterAll(front, p);
    FilterAll(back, p);
    FilterAppend(front, [s[k]] + back, p);
    FilterAppend([s[k]], back, p);
    assert [s[k]][1..] == [];
    assert Filter([s[k]], p) == [];
    assert Filter(s, p) == front + back;
  }

  /** Appending one element extends the filter by that element when it
      passes. */
  lemma FilterSnoc<T>(s: seq<T>, x: T, p: T -> bool)
    ensures Filter(s + [x], p) == Filter(s, p) + (if p(x) then [x] else [])
  {
    FilterAppend(s, [x], p);
    assert Filter([x], p) == (if p(x) then [x] else []) + Filter([], p);
  }

  /** A filter of a sorted sequence is sorted: `WHERE` keeps the order of
      `ORDER BY`. */
  lemma {:induction false} FilterSorted<T>(s: seq<T>, p: T -> bool, key: T -> (int, int))
    requires SortedBy(s, key)
    ensures SortedBy(Filter(s, p), key)
  {
    if s != [] {
      var t := Filter(s[1..], p);
      FilterSorted(s[1..], p, key);
      if p(s[0]) {
        forall j | 0 <= j < |t| ensures KeyLeq(key(s[0]), key(t[j])) {
          var m :| 0 <= m < |s[1..]| && s[1..][m] == t[j];
          assert s[1..][m] == s[m + 1];
        }
        SortedCons(s[0], t, key);
        assert Filter(s, p) == [s[0]] + t;
      }
    }
  }

  /** An element no greater than any of a sorted sequence's may go in front. */
  lemma SortedCons<T>(x: T, t: seq<T>, key: T -> (int, int))
    requires SortedBy(t, key)
    requires forall j :: 0 <= j < |t| ==> KeyLeq(key(x), key(t[j]))
    ensures SortedBy([x] + t, key)
  {
    var r := [x] + t;
    forall i, j | 0 <= i < j < |r| ensures KeyLeq(key(r[i]), key(r[j])) {
      assert r[j] == t[j - 1];
      if i > 0 {
        assert r[i] == t[i - 1];
      }
    }
  }

  /** JavaScript's `s.map(f)`. */
  function Map<T, U>(s: seq<T>, f: T -> U): (r: seq<U>)
    ensures |r| == |s|
    ensures forall i :: 0 <= i < |s| ==> r[i] == f(s[i])
  {
    seq(|s|, i requires 0 <= i < |s| => f(s[i]))
  }
}
