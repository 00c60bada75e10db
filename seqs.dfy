/**
 * Selection and ordering over tables held as sequences of rows: SQL `WHERE`
 * (Filter), `ORDER BY key DESC` (SortDesc) and `LIMIT n` (Top).
 */
module Seqs {

  /** The rows of `s` that satisfy `p`, in table order. */
  function Filter<T(==,!new)>(s: seq<T>, p: T -> bool): (r: seq<T>)
    ensures |r| <= |s|
    ensures forall x :: x in r <==> x in s && p(x)
    decreases |s|
  {
    if s == [] then [] else (if p(s[0]) then [s[0]] else []) + Filter(s[1..], p)
  }

  /** A filter that every row passes keeps the whole table, in order. */
  lemma {:induction false} FilterAll<T(!new)>(s: seq<T>, p: T -> bool)
    requires forall x :: x in s ==> p(x)
    ensures Filter(s, p) == s
    decreases |s|
  {
    if s != [] {
      FilterAll(s[1..], p);
    }
  }

  /** A filter that no row passes selects nothing. */
  lemma FilterNone<T(!new)>(s: seq<T>, p: T -> bool)
    requires forall x :: x in s ==> !p(x)
    ensures Filter(s, p) == []
  {
  }

  /** Filtering a table with one more row at the end. */
  lemma FilterSnoc<T(!new)>(s: seq<T>, y: T, p: T -> bool)
    ensures Filter(s + [y], p) == Filter(s, p) + (if p(y) then [y] else [])
  {
    FilterAppend(s, [y], p);
    assert [y][1..] == [];
    assert Filter([y], p) == (if p(y) then [y] else []) + [];
  }

  /** Replacing a row that the filter drops, by another row it drops, leaves the selection as it was. */
  lemma {:induction false} FilterUpdateDropped<T(!new)>(s: seq<T>, i: nat, x: T, p: T -> bool)
    requires i < |s| && !p(s[i]) && !p(x)
    ensures Filter(s[i := x], p) == Filter(s, p)
    decreases |s|
  {
    if i > 0 {
      assert s[i := x][1..] == s[1..][i - 1 := x];
      FilterUpdateDropped(s[1..], i - 1, x, p);
    } else {
      assert s[i := x][1..] == s[1..];
    }
  }

  /** Updating position `j` of the second part of a concatenation. */
  lemma UpdateInSuffix<T>(a: seq<T>, b: seq<T>, j: nat, x: T)
    requires j < |b|
    ensures (a + b)[|a| + j] == b[j]
    ensures (a + b)[|a| + j := x] == a + b[j := x]
  {
  }

  /** Replacing a kept row by another kept row replaces it in place in the filtered table. */
  lemma {:induction false} FilterUpdateKept<T(!new)>(s: seq<T>, i: nat, x: T, p: T -> bool) returns (k: nat)
    requires i < |s| && p(s[i]) && p(x)
    ensures k < |Filter(s, p)| && Filter(s, p)[k] == s[i]
    ensures Filter(s[i := x], p) == Filter(s, p)[k := x]
    decreases |s|
  {
    var t := s[i := x];
    var head := if p(s[0]) then [s[0]] else [];
    if i == 0 {
      assert t[1..] == s[1..];
      k := 0;
    } else {
      assert t[1..] == s[1..][i - 1 := x] && t[0] == s[0];
      var k' := FilterUpdateKept(s[1..], i - 1, x, p);
      assert Filter(t, p) == head + Filter(t[1..], p);
      UpdateInSuffix(head, Filter(s[1..], p), k', x);
      k := |head| + k';
    }
  }

  /** Two filters that agree on every row select the same rows. */
  lemma {:induction false} FilterExt<T(!new)>(s: seq<T>, p: T -> bool, q: T -> bool)
    requires forall x :: x in s ==> p(x) == q(x)
    ensures Filter(s, p) == Filter(s, q)
    decreases |s|
  {
    if s != [] {
      FilterExt(s[1..], p, q);
    }
  }

  /** Chained filters select what the conjunction of their conditions selects. */
  lemma {:induction false} FilterFilter<T(!new)>(s: seq<T>, p: T -> bool, q: T -> bool, both: T -> bool)
    requires forall x :: both(x) == (p(x) && q(x))
    ensures Filter(Filter(s, p), q) == Filter(s, both)
    decreases |s|
  {
    if s != [] {
      FilterFilter(s[1..], p, q, both);
      var head := if p(s[0]) then [s[0]] else [];
      assert Filter(s, p) == head + Filter(s[1..], p);
      FilterAppend(head, Filter(s[1..], p), q);
    }
  }

  /** Concatenation regroups freely; stated once for the merge and path proofs. */
  lemma AppendAssoc<T>(a: seq<T>, b: seq<T>, c: seq<T>)
    ensures (a + b) + c == a + (b + c)
  {
  }

  lemma {:induction false} FilterAppend<T(!new)>(a: seq<T>, b: seq<T>, p: T -> bool)
    ensures Filter(a + b, p) == Filter(a, p) + Filter(b, p)
    decreases |a|
  {
    if a == [] {
      assert a + b == b;
    } else {
      var head := if p(a[0]) then [a[0]] else [];
      assert (a + b)[1..] == a[1..] + b;
      FilterAppend(a[1..], b, p);
      assert head + (Filter(a[1..], p) + Filter(b, p)) == (head + Filter(a[1..], p)) + Filter(b, p);
    }
  }

  /** Rows ordered by `key`, largest first. */
  ghost predicate SortedDesc<T>(s: seq<T>, key: T -> real) {
    forall i, j :: 0 <= i < j < |s| ==> key(s[i]) >= key(s[j])
  }

  /** Places `x` ahead of the first row whose key is not larger than its own. */
  function Insert<T>(x: T, s: seq<T>, key: T -> real): seq<T>
    decreases |s|
  {
    if s == [] || key(x) >= key(s[0]) then [x] + s else [s[0]] + Insert(x, s[1..], key)
  }

  lemma {:induction false} InsertPerm<T>(x: T, s: seq<T>, key: T -> real)
    ensures multiset(Insert(x, s, key)) == multiset(s) + multiset{x}
    decreases |s|
  {
    if s != [] && key(x) < key(s[0]) {
      InsertPerm(x, s[1..], key);
      assert s == [s[0]] + s[1..];
    }
  }

  /** A row no smaller than every row of a sorted sequence may head it. */
  lemma SortedCons<T>(y: T, s: seq<T>, key: T -> real)
    requires SortedDesc(s, key)
    requires forall j :: 0 <= j < |s| ==> key(y) >= key(s[j])
    ensures SortedDesc([y] + s, key)
  {
    var r := [y] + s;
    forall i, j | 0 <= i < j < |r| ensures key(r[i]) >= key(r[j]) {
      assert r[j] == s[j - 1];
      if i > 0 {
        assert r[i] == s[i - 1];
      }
    }
  }

  /** A bound on `x` and on every row of `s` bounds every row of `Insert(x, s)`. */
  lemma InsertBound<T>(y: T, x: T, s: seq<T>, key: T -> real)
    requires key(y) >= key(x)
    requires forall j :: 0 <= j < |s| ==> key(y) >= key(s[j])
    ensures forall j :: 0 <= j < |Insert(x, s, key)| ==> key(y) >= key(Insert(x, s, key)[j])
  {
    var r := Insert(x, s, key);
    InsertPerm(x, s, key);
    forall j | 0 <= j < |r| ensures key(y) >= key(r[j]) {
      assert r[j] in multiset(r);
      if r[j] != x {
        assert r[j] in multiset(s);
        var k :| 0 <= k < |s| && s[k] == r[j];
      }
    }
  }

  lemma {:induction false} InsertSorted<T(!new)>(x: T, s: seq<T>, key: T -> real)
    requires SortedDesc(s, key)
    ensures SortedDesc(Insert(x, s, key), key)
    decreases |s|
  {
    if s != [] && key(x) < key(s[0]) {
      InsertSorted(x, s[1..], key);
      InsertBound(s[0], x, s[1..], key);
      SortedCons(s[0], Insert(x, s[1..], key), key);
    } else {
      SortedCons(x, s, key);
    }
  }

  /**
   * `ORDER BY key DESC`: a permutation of the table, largest key first. Rows with equal
   * keys keep their table order, the deterministic tie-break this model fixes.
   */
  function SortDesc<T(!new)>(s: seq<T>, key: T -> real): (r: seq<T>)
    ensures multiset(r) == multiset(s)
    ensures SortedDesc(r, key)
    decreases |s|
  {
    if s == [] then []
    else
      var rest := SortDesc(s[1..], key);
      InsertStep(s, rest, key);
      Insert(s[0], rest, key)
  }

  /** Inserting the head into the sorted tail sorts the whole sequence. */
  lemma InsertStep<T(!new)>(s: seq<T>, rest: seq<T>, key: T -> real)
    requires s != [] && multiset(rest) == multiset(s[1..]) && SortedDesc(rest, key)
    ensures multiset(Insert(s[0], rest, key)) == multiset(s)
    ensures SortedDesc(Insert(s[0], rest, key), key)
  {
    InsertPerm(s[0], rest, key);
    InsertSorted(s[0], rest, key);
    assert s == [s[0]] + s[1..];
  }

  /** `ORDER BY key DESC LIMIT n`. */
  function Top<T(!new)>(s: seq<T>, n: nat, key: T -> real): seq<T> {
    var t := SortDesc(s, key);
    if n <= |t| then t[..n] else t
  }

  /**
   * The top `n` rows: as many as the table allows up to `n`, ordered largest first,
   * drawn from the table, and no row left out has a larger key than a row kept.
   */
  lemma TopSpec<T(!new)>(s: seq<T>, n: nat, key: T -> real)
    ensures |Top(s, n, key)| == if n <= |s| then n else |s|
    ensures SortedDesc(Top(s, n, key), key)
    ensures multiset(Top(s, n, key)) <= multiset(s)
    ensures forall x :: x in Top(s, n, key) ==> x in s
    ensures forall x, y :: x in s && x !in Top(s, n, key) && y in Top(s, n, key) ==> key(x) <= key(y)
  {
    var t := SortDesc(s, key);
    assert |t| == |multiset(t)| == |multiset(s)| == |s|;
    TopDrawn(s, n, key);
    TopBest(s, n, key);
  }

  lemma TopDrawn<T(!new)>(s: seq<T>, n: nat, key: T -> real)
    ensures multiset(Top(s, n, key)) <= multiset(s)
    ensures forall x :: x in Top(s, n, key) ==> x in s
  {
    var t := SortDesc(s, key);
    var r := Top(s, n, key);
    if n <= |t| {
      assert t == r + t[n..];
      assert multiset(t) == multiset(r) + multiset(t[n..]);
    }
    forall x | x in r ensures x in s {
      assert x in multiset(r);
      assert x in multiset(s);
    }
  }

  lemma TopBest<T(!new)>(s: seq<T>, n: nat, key: T -> real)
    ensures forall x, y :: x in s && x !in Top(s, n, key) && y in Top(s, n, key) ==> key(x) <= key(y)
  {
    var t := SortDesc(s, key);
    var r := Top(s, n, key);
    forall x, y | x in s && x !in r && y in r ensures key(x) <= key(y) {
      assert x in multiset(t);
      var p :| 0 <= p < |t| && t[p] == x;
      var q :| 0 <= q < |r| && r[q] == y;
      assert q < p;
    }
  }
}
