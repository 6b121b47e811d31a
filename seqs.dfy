/** Sequence operations the repositories are built from: filtering, reversal,
    lookup by id, replacement by id, counting and sorting by a key. Tables are
    kept in insertion order, so a filter keeps the rows' relative order. */
module Seqs {
  import opened Common

  /** The elements of `s` that satisfy `p`, in their order in `s`. */
  function Filter<T(!new)>(s: seq<T>, p: T -> bool): (r: seq<T>)
    ensures |r| <= |s|
    ensures forall x :: x in r <==> x in s && p(x)
    ensures forall i :: 0 <= i < |r| ==> p(r[i])
    ensures multiset(r) <= multiset(s)
    decreases |s|
  {
    if s == [] then []
    else
      assert s == s[..|s| - 1] + [s[|s| - 1]];
      Filter(s[..|s| - 1], p) + (if p(s[|s| - 1]) then [s[|s| - 1]] else [])
  }

  lemma FilterAppend<T(!new)>(s: seq<T>, x: T, p: T -> bool)
    ensures Filter(s + [x], p) == Filter(s, p) + (if p(x) then [x] else [])
  {
    assert (s + [x])[..|s + [x]| - 1] == s;
  }

  /** Filtering by a weaker condition never yields fewer elements. */
  lemma {:induction false} FilterLengthMonotone<T(!new)>(s: seq<T>, p: T -> bool, q: T -> bool)
    requires forall x :: p(x) ==> q(x)
    ensures |Filter(s, p)| <= |Filter(s, q)|
    decreases |s|
  {
    if s != [] {
      FilterLengthMonotone(s[..|s| - 1], p, q);
    }
  }

  /** Filtering twice is filtering once by the conjunction. */
  lemma {:induction false} FilterFilter<T(!new)>(s: seq<T>, p: T -> bool, q: T -> bool, pq: T -> bool)
    requires forall x :: pq(x) == (p(x) && q(x))
    ensures Filter(Filter(s, p), q) == Filter(s, pq)
    decreases |s|
  {
    if s != [] {
      var init, last := s[..|s| - 1], s[|s| - 1];
      FilterFilter(init, p, q, pq);
      assert Filter(s, p) == Filter(init, p) + (if p(last) then [last] else []);
      assert Filter(s, pq) == Filter(init, pq) + (if pq(last) then [last] else []);
      assert pq(last) == (p(last) && q(last));
      if p(last) {
        FilterAppend(Filter(init, p), last, q);
        assert Filter(s, p) == Filter(init, p) + [last];
      } else {
        assert Filter(s, p) == Filter(init, p);
      }
    }
  }

  /** Filters by conditions that agree on every element of `s` are equal. */
  lemma {:induction false} FilterCongruent<T(!new)>(s: seq<T>, p: T -> bool, q: T -> bool)
    requires forall x :: x in s ==> p(x) == q(x)
    ensures Filter(s, p) == Filter(s, q)
    decreases |s|
  {
    if s != [] {
      FilterCongruent(s[..|s| - 1], p, q);
    }
  }

  /** `s` read back to front. */
  function Reverse<T(!new)>(s: seq<T>): (r: seq<T>)
    ensures |r| == |s|
    ensures forall i :: 0 <= i < |s| ==> r[i] == s[|s| - 1 - i]
    ensures forall x :: x in r <==> x in s
    ensures multiset(r) == multiset(s)
    decreases |s|
  {
    if s == [] then []
    else
      var n := |s| - 1;
      assert s == s[..n] + [s[n]];
      var r := [s[n]] + Reverse(s[..n]);
      assert multiset(r) == multiset(s);
      r
  }

  /** Filtering distributes over concatenation. */
  lemma {:induction false} FilterConcat<T(!new)>(a: seq<T>, b: seq<T>, p: T -> bool)
    ensures Filter(a + b, p) == Filter(a, p) + Filter(b, p)
    decreases |b|
  {
    if b == [] {
      assert a + b == a;
      assert Filter(b, p) == [];
    } else {
      var init, last := b[..|b| - 1], b[|b| - 1];
      var opt := if p(last) then [last] else [];
      assert b == init + [last];
      assert a + b == (a + init) + [last];
      calc {
        Filter(a + b, p);
        { FilterAppend(a + init, last, p); }
        Filter(a + init, p) + opt;
        { FilterConcat(a, init, p); }
        Filter(a, p) + Filter(init, p) + opt;
        { FilterAppend(init, last, p); }
        Filter(a, p) + Filter(b, p);
      }
    }
  }

  /** Reversal moves an appended element to the front. */
  lemma ReverseAppend<T(!new)>(s: seq<T>, x: T)
    ensures Reverse(s + [x]) == [x] + Reverse(s)
  {
    assert (s + [x])[..|s + [x]| - 1] == s;
  }

  /** Filtering commutes with reversal. */
  lemma {:induction false} FilterReverse<T(!new)>(s: seq<T>, p: T -> bool)
    ensures Filter(Reverse(s), p) == Reverse(Filter(s, p))
    decreases |s|
  {
    if s == [] {
      assert Reverse(s) == [];
    } else {
      var init, last := s[..|s| - 1], s[|s| - 1];
      var opt := if p(last) then [last] else [];
      assert Filter([last], p) == opt by {
        assert [last][..0] == [];
      }
      calc {
        Filter(Reverse(s), p);
        { assert Reverse(s) == [last] + Reverse(init); }
        Filter([last] + Reverse(init), p);
        { FilterConcat([last], Reverse(init), p); }
        opt + Filter(Reverse(init), p);
        { FilterReverse(init, p); }
        opt + Reverse(Filter(init, p));
        { if p(last) {
            ReverseAppend(Filter(init, p), last);
          } else {
            assert opt == [] && Filter(init, p) + opt == Filter(init, p);
          } }
        Reverse(Filter(init, p) + opt);
        { assert Filter(s, p) == Filter(init, p) + opt; }
        Reverse(Filter(s, p));
      }
    }
  }

  /** A condition split into three exclusive cases: the filtered lengths add up. */
  lemma {:induction false} FilterPartition3<T(!new)>(s: seq<T>, p: T -> bool, a: T -> bool, b: T -> bool, c: T -> bool)
    requires forall x :: p(x) == (a(x) || b(x) || c(x))
    requires forall x :: !(a(x) && b(x)) && !(a(x) && c(x)) && !(b(x) && c(x))
    ensures |Filter(s, a)| + |Filter(s, b)| + |Filter(s, c)| == |Filter(s, p)|
    decreases |s|
  {
    if s != [] {
      FilterPartition3(s[..|s| - 1], p, a, b, c);
    }
  }

  /** A sequence changed only at rows the filter rejects before and after,
      and at no row it keeps, filters to the same result. */
  lemma {:induction false} FilterPointwise<T(!new)>(s: seq<T>, r: seq<T>, p: T -> bool)
    requires |r| == |s|
    requires forall i :: 0 <= i < |s| ==> p(r[i]) == p(s[i]) && (p(s[i]) ==> r[i] == s[i])
    ensures Filter(r, p) == Filter(s, p)
    decreases |s|
  {
    if s != [] {
      FilterPointwise(s[..|s| - 1], r[..|r| - 1], p);
    }
  }

  /** Sequences whose elements agree on `p` position by position have
      equally long filters. */
  lemma {:induction false} FilterLengthPointwise<T(!new)>(s: seq<T>, r: seq<T>, p: T -> bool)
    requires |r| == |s|
    requires forall i :: 0 <= i < |s| ==> p(r[i]) == p(s[i])
    ensures |Filter(r, p)| == |Filter(s, p)|
    decreases |s|
  {
    if s != [] {
      FilterLengthPointwise(s[..|s| - 1], r[..|r| - 1], p);
    }
  }

  /** Turning `p` off at exactly one position shortens the filter by one. */
  lemma {:induction false} FilterOneFewer<T(!new)>(s: seq<T>, r: seq<T>, p: T -> bool, k: nat)
    requires |r| == |s| && k < |s| && p(s[k]) && !p(r[k])
    requires forall i :: 0 <= i < |s| && i != k ==> p(r[i]) == p(s[i])
    ensures |Filter(r, p)| + 1 == |Filter(s, p)|
    decreases |s|
  {
    var n := |s| - 1;
    var si, ri := s[..n], r[..n];
    assert s == si + [s[n]] && r == ri + [r[n]];
    FilterAppend(si, s[n], p);
    FilterAppend(ri, r[n], p);
    if k == n {
      FilterLengthPointwise(si, ri, p);
    } else {
      assert p(si[k]) && !p(ri[k]);
      FilterOneFewer(si, ri, p, k);
    }
  }

  /** How many elements of `s` satisfy `p`. */
  function Count<T(!new)>(s: seq<T>, p: T -> bool): nat {
    |Filter(s, p)|
  }

  // ---------------------------------------------------------------- ids

  /** Row ids strictly increase along the table: they are unique, and the
      table's order is the order of insertion (IDENTITY ids). */
  ghost predicate IdsIncreasing<T>(s: seq<T>, idOf: T -> Id) {
    forall i, j :: 0 <= i < j < |s| ==> idOf(s[i]) < idOf(s[j])
  }

  /** Every id in the table is below the next id to be handed out. */
  ghost predicate IdsBelow<T>(s: seq<T>, idOf: T -> Id, bound: Id) {
    forall i :: 0 <= i < |s| ==> idOf(s[i]) < bound
  }

  /** The set of ids present in the table. */
  function IdSet<T(==)>(s: seq<T>, idOf: T -> Id): set<Id> {
    set x | x in s :: idOf(x)
  }

  /** The position of the row with id `id`, if any. */
  function IndexOf<T>(s: seq<T>, idOf: T -> Id, id: Id): (r: Option<nat>)
    ensures r.Some? ==> r.value < |s| && idOf(s[r.value]) == id
    ensures r.None? <==> forall x :: x in s ==> idOf(x) != id
    decreases |s|
  {
    if s == [] then None
    else if idOf(s[|s| - 1]) == id then Some(|s| - 1)
    else
      var r := IndexOf(s[..|s| - 1], idOf, id);
      assert forall x :: x in s ==> x in s[..|s| - 1] || x == s[|s| - 1];
      r
  }

  /** `findById`: the row with id `id`, if any. */
  function Find<T>(s: seq<T>, idOf: T -> Id, id: Id): (r: Option<T>)
    ensures r.Some? ==> r.value in s && idOf(r.value) == id
    ensures r.None? <==> forall x :: x in s ==> idOf(x) != id
  {
    match IndexOf(s, idOf, id)
    case None => None
    case Some(i) => Some(s[i])
  }

  /** With unique ids, `Find` returns the row stored at any position carrying that id. */
  lemma FindAt<T>(s: seq<T>, idOf: T -> Id, i: nat)
    requires IdsIncreasing(s, idOf) && i < |s|
    ensures Find(s, idOf, idOf(s[i])) == Some(s[i])
  {
    var k := IndexOf(s, idOf, idOf(s[i])).value;
    assert idOf(s[k]) == idOf(s[i]);
  }

  /** With unique ids, a row in the table is the row `Find` returns for its id. */
  lemma FindMember<T>(s: seq<T>, idOf: T -> Id, x: T)
    requires IdsIncreasing(s, idOf) && x in s
    ensures Find(s, idOf, idOf(x)) == Some(x)
  {
    var i :| 0 <= i < |s| && s[i] == x;
    FindAt(s, idOf, i);
  }

  /** With unique ids, every row is what `Find` returns for its id. */
  lemma FindMembers<T>(s: seq<T>, idOf: T -> Id)
    requires IdsIncreasing(s, idOf)
    ensures forall x :: x in s ==> Find(s, idOf, idOf(x)) == Some(x)
  {
    forall x | x in s ensures Find(s, idOf, idOf(x)) == Some(x) {
      FindMember(s, idOf, x);
    }
  }

  /** The table with the row carrying `x`'s id replaced by `x` (a `save` of a loaded row). */
  function ReplaceById<T>(s: seq<T>, idOf: T -> Id, x: T): (r: seq<T>)
    ensures |r| == |s|
  {
    seq(|s|, i requires 0 <= i < |s| => if idOf(s[i]) == idOf(x) then x else s[i])
  }

  /** Updating the row at its position is replacing it by id. */
  lemma ReplaceAt<T>(s: seq<T>, idOf: T -> Id, i: nat, x: T)
    requires IdsIncreasing(s, idOf) && i < |s| && idOf(x) == idOf(s[i])
    ensures s[i := x] == ReplaceById(s, idOf, x)
    ensures IdsIncreasing(s[i := x], idOf)
    ensures forall b :: IdsBelow(s, idOf, b) ==> IdsBelow(s[i := x], idOf, b)
    ensures IdSet(s[i := x], idOf) == IdSet(s, idOf)
  {
    var r := ReplaceById(s, idOf, x);
    forall j | 0 <= j < |s| ensures s[i := x][j] == r[j] {
      if j < i { assert idOf(s[j]) < idOf(s[i]); }
      if i < j { assert idOf(s[i]) < idOf(s[j]); }
    }
    var t := s[i := x];
    forall y | y in IdSet(s, idOf) ensures y in IdSet(t, idOf) {
      var z :| z in s && idOf(z) == y;
      var k :| 0 <= k < |s| && s[k] == z;
      assert t[k] in t;
    }
    forall y | y in IdSet(t, idOf) ensures y in IdSet(s, idOf) {
      var z :| z in t && idOf(z) == y;
      var k :| 0 <= k < |t| && t[k] == z;
      assert s[k] in s;
    }
  }

  /** Appending a row with a fresh, larger id keeps the ids increasing. */
  lemma AppendFresh<T>(s: seq<T>, idOf: T -> Id, x: T, bound: Id)
    requires IdsIncreasing(s, idOf) && IdsBelow(s, idOf, bound) && idOf(x) == bound
    ensures IdsIncreasing(s + [x], idOf)
    ensures IdsBelow(s + [x], idOf, bound + 1)
    ensures IdSet(s + [x], idOf) == IdSet(s, idOf) + {bound}
    ensures bound !in IdSet(s, idOf)
  {
    var t := s + [x];
    assert forall i :: 0 <= i < |s| ==> t[i] == s[i];
  }

  /** A filtered table is a subsequence, so its ids still increase. */
  lemma {:induction false} FilterIncreasing<T(!new)>(s: seq<T>, idOf: T -> Id, p: T -> bool)
    requires IdsIncreasing(s, idOf)
    ensures IdsIncreasing(Filter(s, p), idOf)
    decreases |s|
  {
    if s != [] {
      var init, last := s[..|s| - 1], s[|s| - 1];
      FilterIncreasing(init, idOf, p);
      var f := Filter(init, p);
      forall i | 0 <= i < |f| ensures idOf(f[i]) < idOf(last) {
        assert f[i] in init;
        var k :| 0 <= k < |init| && init[k] == f[i];
      }
    }
  }

  /** Filtering keeps both table invariants on ids. */
  lemma FilterIds<T(!new)>(s: seq<T>, idOf: T -> Id, p: T -> bool, bound: Id)
    requires IdsIncreasing(s, idOf) && IdsBelow(s, idOf, bound)
    ensures IdsIncreasing(Filter(s, p), idOf) && IdsBelow(Filter(s, p), idOf, bound)
  {
    FilterIncreasing(s, idOf, p);
    var f := Filter(s, p);
    forall i | 0 <= i < |f| ensures idOf(f[i]) < bound {
      assert f[i] in s;
      var k :| 0 <= k < |s| && s[k] == f[i];
    }
  }

  /** Ids strictly decrease along `s`: the newest row comes first
      (`ORDER BY createdAt DESC` on a table whose ids follow creation order). */
  ghost predicate NewestFirst<T>(s: seq<T>, idOf: T -> Id) {
    forall i, j :: 0 <= i < j < |s| ==> idOf(s[j]) < idOf(s[i])
  }

  /** `SELECT x WHERE p(x) ORDER BY createdAt DESC` over a table in insertion order. */
  function Latest<T(!new)>(s: seq<T>, idOf: T -> Id, p: T -> bool): (r: seq<T>)
    ensures forall x :: x in r <==> x in s && p(x)
    ensures IdsIncreasing(s, idOf) ==> NewestFirst(r, idOf)
    ensures multiset(r) <= multiset(s)
  {
    var f := Filter(s, p);
    assert IdsIncreasing(s, idOf) ==> IdsIncreasing(f, idOf) by {
      if IdsIncreasing(s, idOf) {
        FilterIncreasing(s, idOf, p);
      }
    }
    Reverse(f)
  }

  /** Narrowing the newest-first selection by a further condition selects
      by both conditions. */
  lemma LatestRestrict<T(!new)>(s: seq<T>, idOf: T -> Id, p: T -> bool, q: T -> bool, pq: T -> bool)
    requires forall x :: pq(x) == (p(x) && q(x))
    ensures Latest(s, idOf, pq) == Filter(Latest(s, idOf, p), q)
  {
    FilterReverse(Filter(s, p), q);
    FilterFilter(s, p, q, pq);
  }

  /** Selects the rows whose id is not `id`. */
  function IdIsNot<T>(idOf: T -> Id, id: Id): T -> bool { x => idOf(x) != id }

  /** Selects the rows whose reference is not `parent`. */
  function RefIsNot<T>(ref: T -> Id, parent: Id): T -> bool { x => ref(x) != parent }

  /** Selects the rows whose reference is among `ids`. */
  function RefIsIn<T>(ref: T -> Id, ids: set<Id>): T -> bool { x => ref(x) in ids }

  /** `deleteById`: the table without the row carrying `id`. */
  function RemoveById<T(!new)>(s: seq<T>, idOf: T -> Id, id: Id): (r: seq<T>)
    ensures forall x :: x in r <==> x in s && idOf(x) != id
  {
    Filter(s, IdIsNot(idOf, id))
  }

  /** Removing a row removes exactly its id from the table's ids. */
  lemma RemoveByIdIds<T(!new)>(s: seq<T>, idOf: T -> Id, id: Id, bound: Id)
    requires IdsIncreasing(s, idOf) && IdsBelow(s, idOf, bound)
    ensures IdSet(RemoveById(s, idOf, id), idOf) == IdSet(s, idOf) - {id}
    ensures IdsIncreasing(RemoveById(s, idOf, id), idOf)
    ensures IdsBelow(RemoveById(s, idOf, id), idOf, bound)
  {
    FilterIds(s, idOf, IdIsNot(idOf, id), bound);
    var r := RemoveById(s, idOf, id);
    forall k | k in IdSet(s, idOf) - {id} ensures k in IdSet(r, idOf) {
      var x :| x in s && idOf(x) == k;
      assert x in r;
    }
  }

  /** The rows whose reference `ref` is not `parent`: the rows left after a
      cascading delete of the parent row. */
  function Detach<T(!new)>(s: seq<T>, ref: T -> Id, parent: Id): (r: seq<T>)
    ensures forall x :: x in r <==> x in s && ref(x) != parent
  {
    Filter(s, RefIsNot(ref, parent))
  }

  /** The rows whose reference `ref` is among `ids`. */
  function KeepRefsIn<T(!new)>(s: seq<T>, ref: T -> Id, ids: set<Id>): (r: seq<T>)
    ensures forall x :: x in r <==> x in s && ref(x) in ids
  {
    Filter(s, RefIsIn(ref, ids))
  }

  /** Every row's reference `ref` is the id of some row of the parent table. */
  ghost predicate RefsIn<T>(s: seq<T>, ref: T -> Id, ids: set<Id>) {
    forall x :: x in s ==> ref(x) in ids
  }

  /** With increasing ids, a row is determined by its id. */
  lemma IdsUnique<T>(s: seq<T>, idOf: T -> Id, x: T, y: T)
    requires IdsIncreasing(s, idOf) && x in s && y in s && idOf(x) == idOf(y)
    ensures x == y
  {
    var i :| 0 <= i < |s| && s[i] == x;
    var j :| 0 <= j < |s| && s[j] == y;
    assert !(i < j) && !(j < i);
  }

  /** `IdsBelow` is monotone in the bound. */
  lemma IdsBelowMonotone<T>(s: seq<T>, idOf: T -> Id, b: Id, b': Id)
    requires IdsBelow(s, idOf, b) && b <= b'
    ensures IdsBelow(s, idOf, b')
  {
  }

  /** An id at or above the bound is not in the table. */
  lemma IdsBelowFresh<T>(s: seq<T>, idOf: T -> Id, bound: Id)
    requires IdsBelow(s, idOf, bound)
    ensures bound !in IdSet(s, idOf)
    ensures forall x :: x in s ==> idOf(x) != bound
  {
    forall x | x in s ensures idOf(x) != bound {
      var k :| 0 <= k < |s| && s[k] == x;
    }
  }

  // ---------------------------------------------------------------- sorting

  /** `ORDER BY key ASC` holds of `s`. */
  ghost predicate SortedBy<T>(s: seq<T>, key: T -> int) {
    forall i, j :: 0 <= i < j < |s| ==> key(s[i]) <= key(s[j])
  }

  /** A sorted sequence stays sorted under a head no larger than any of its elements. */
  lemma PrependSorted<T>(h: T, s: seq<T>, key: T -> int)
    requires SortedBy(s, key)
    requires forall y :: y in s ==> key(h) <= key(y)
    ensures SortedBy([h] + s, key)
  {
    var r := [h] + s;
    forall i, j | 0 <= i < j < |r| ensures key(r[i]) <= key(r[j]) {
      assert r[j] == s[j - 1];
      if i > 0 { assert r[i] == s[i - 1]; }
    }
  }

  /** Every element of a permutation of `[x] + tail` is `x` or an element of the tail. */
  lemma PermutedMember<T>(r: seq<T>, x: T, tail: seq<T>, y: T)
    requires multiset(r) == multiset(tail) + multiset{x} && y in r
    ensures y == x || y in tail
  {
    assert y in multiset(r);
  }

  /** Inserts `x` into the sorted `s` before the first element with a larger key. */
  function InsertBy<T>(x: T, s: seq<T>, key: T -> int): (r: seq<T>)
    requires SortedBy(s, key)
    ensures multiset(r) == multiset(s) + multiset{x}
    ensures SortedBy(r, key)
    decreases |s|
  {
    if s == [] then [x]
    else if key(x) <= key(s[0]) then
      PrependSorted(x, s, key);
      [x] + s
    else
      var rest := InsertBy(x, s[1..], key);
      assert s == [s[0]] + s[1..];
      assert forall y :: y in rest ==> key(s[0]) <= key(y) by {
        forall y | y in rest ensures key(s[0]) <= key(y) {
          PermutedMember(rest, x, s[1..], y);
        }
      }
      PrependSorted(s[0], rest, key);
      [s[0]] + rest
  }

  /** A stable-enough insertion sort: the result is a permutation of `s`, ordered by `key`. */
  function SortBy<T>(s: seq<T>, key: T -> int): (r: seq<T>)
    ensures multiset(r) == multiset(s)
    ensures SortedBy(r, key)
    ensures |r| == |s|
    decreases |s|
  {
    if s == [] then []
    else
      assert s == [s[0]] + s[1..];
      InsertBy(s[0], SortBy(s[1..], key), key)
  }

  /** Sorting keeps exactly the elements of the input. */
  lemma SortByMembers<T>(s: seq<T>, key: T -> int)
    ensures forall x :: x in SortBy(s, key) <==> x in s
  {
    var r := SortBy(s, key);
    forall x ensures x in r <==> x in s {
      assert x in r <==> x in multiset(r);
      assert x in s <==> x in multiset(s);
    }
  }
}
