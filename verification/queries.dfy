/**
  Sequence operations that stand for the database query builder and the array methods
  the application uses on fetched rows: `.eq(...)` filters and `Array.prototype.filter`,
  `.single()`, and `.order(column, { ascending: false })`.
 */
module Queries {
  import opened Wrappers

  /** `a` can be obtained from `b` by deleting elements: order is preserved. */
  predicate IsSubsequence<T(==)>(a: seq<T>, b: seq<T>)
    decreases |b|
  {
    if |a| == 0 then true
    else if |b| == 0 then false
    else (a[0] == b[0] && IsSubsequence(a[1..], b[1..])) || IsSubsequence(a, b[1..])
  }

  /** A `WHERE` clause or `rows.filter(p)`: the rows satisfying `p`, in their original order. */
  function Filter<T(==)>(rows: seq<T>, p: T -> bool): (r: seq<T>)
    ensures |r| <= |rows|
    ensures forall i :: 0 <= i < |r| ==> r[i] in rows && p(r[i])
    ensures forall i :: 0 <= i < |rows| && p(rows[i]) ==> rows[i] in r
    ensures IsSubsequence(r, rows)
  {
    if |rows| == 0 then []
    else if p(rows[0]) then [rows[0]] + Filter(rows[1..], p)
    else Filter(rows[1..], p)
  }

  /** Filtering with a predicate every row satisfies changes nothing. */
  lemma {:induction false} FilterAll<T>(rows: seq<T>, p: T -> bool)
    requires forall x :: x in rows ==> p(x)
    ensures Filter(rows, p) == rows
  {
    if |rows| > 0 {
      FilterAll(rows[1..], p);
    }
  }

  /** Filtering depends only on what the predicate says about the rows present. */
  lemma {:induction false} FilterSame<T>(rows: seq<T>, p: T -> bool, q: T -> bool)
    requires forall x :: x in rows ==> p(x) == q(x)
    ensures Filter(rows, p) == Filter(rows, q)
  {
    if |rows| > 0 {
      FilterSame(rows[1..], p, q);
    }
  }

  /** Two filters in a row select what their conjunction selects. */
  lemma {:induction false} FilterFilter<T>(rows: seq<T>, p: T -> bool, q: T -> bool, pq: T -> bool)
    requires forall x :: x in rows ==> pq(x) == (p(x) && q(x))
    ensures Filter(Filter(rows, p), q) == Filter(rows, pq)
  {
    if |rows| > 0 {
      FilterFilter(rows[1..], p, q, pq);
    }
  }

  /** Filters that never both hold split the rows either of them selects. */
  lemma {:induction false} FilterDisjointCount<T>(rows: seq<T>, p: T -> bool, q: T -> bool, pq: T -> bool)
    requires forall x :: x in rows ==> !(p(x) && q(x)) && pq(x) == (p(x) || q(x))
    ensures |Filter(rows, p)| + |Filter(rows, q)| == |Filter(rows, pq)|
  {
    if |rows| > 0 {
      FilterDisjointCount(rows[1..], p, q, pq);
    }
  }

  /** Filtering distributes over concatenation. */
  lemma {:induction false} FilterAppend<T>(a: seq<T>, b: seq<T>, p: T -> bool)
    ensures Filter(a + b, p) == Filter(a, p) + Filter(b, p)
  {
    if |a| == 0 {
      assert a + b == b;
    } else {
      assert (a + b)[0] == a[0] && (a + b)[1..] == a[1..] + b;
      FilterAppend(a[1..], b, p);
    }
  }

  /** One more row at the end adds one to a filter's count exactly when it is selected. */
  lemma FilterSnocCount<T>(a: seq<T>, x: T, p: T -> bool)
    ensures |Filter(a + [x], p)| == |Filter(a, p)| + (if p(x) then 1 else 0)
  {
    FilterAppend(a, [x], p);
    assert [x][1..] == [];
  }

  /** A filter keeps every copy of a row it selects and no copy of one it rejects. */
  lemma {:induction false} FilterMultiset<T>(rows: seq<T>, p: T -> bool, x: T)
    ensures multiset(Filter(rows, p))[x] == if p(x) then multiset(rows)[x] else 0
  {
    if |rows| > 0 {
      assert rows == [rows[0]] + rows[1..];
      FilterMultiset(rows[1..], p, x);
    }
  }

  /** Reordering the rows does not change how many of them a filter selects. */
  lemma FilterPermutationCount<T>(a: seq<T>, b: seq<T>, p: T -> bool)
    requires multiset(a) == multiset(b)
    ensures |Filter(a, p)| == |Filter(b, p)|
  {
    forall x ensures multiset(Filter(a, p))[x] == multiset(Filter(b, p))[x] {
      FilterMultiset(a, p, x);
      FilterMultiset(b, p, x);
    }
    assert multiset(Filter(a, p)) == multiset(Filter(b, p));
  }

  /** No two positions of `rows` both satisfy `p` (what a unique column guarantees for `.eq`). */
  predicate AtMostOne<T>(rows: seq<T>, p: T -> bool) {
    forall i, j :: 0 <= i < j < |rows| && p(rows[i]) ==> !p(rows[j])
  }

  lemma {:induction false} FilterAtMostOne<T>(rows: seq<T>, p: T -> bool)
    requires AtMostOne(rows, p)
    ensures |Filter(rows, p)| <= 1
    ensures |Filter(rows, p)| == 1 <==> exists x :: x in rows && p(x)
  {
    if |rows| > 0 {
      assert AtMostOne(rows[1..], p) by {
        forall i, j | 0 <= i < j < |rows[1..]| && p(rows[1..][i])
          ensures !p(rows[1..][j])
        {
          assert rows[1..][i] == rows[i + 1] && rows[1..][j] == rows[j + 1];
        }
      }
      FilterAtMostOne(rows[1..], p);
      if p(rows[0]) {
        forall x | x in rows[1..] ensures !p(x) {
          var k :| 0 <= k < |rows[1..]| && rows[1..][k] == x;
          assert rows[k + 1] == x;
        }
        assert Filter(rows[1..], p) == [];
      } else {
        assert forall x :: x in rows && p(x) ==> x in rows[1..];
      }
    }
  }

  /**
    PostgREST `.single()`: the row when exactly one row matches; with zero or several
    matches the query reports an error and yields no data.
   */
  function Single<T(==)>(rows: seq<T>, p: T -> bool): (r: Option<T>)
    ensures r.Some? <==> |Filter(rows, p)| == 1
    ensures r.Some? ==> r.value in rows && p(r.value)
  {
    var m := Filter(rows, p);
    if |m| == 1 then Some(m[0]) else None
  }

  /** Under a uniqueness guarantee, `.single()` finds a row exactly when one exists. */
  lemma SingleUnique<T>(rows: seq<T>, p: T -> bool)
    requires AtMostOne(rows, p)
    ensures Single(rows, p).Some? <==> exists x :: x in rows && p(x)
  {
    FilterAtMostOne(rows, p);
  }

  /** Non-increasing by `key`: the order `.order(column, { ascending: false })` returns. */
  predicate SortedDesc<T>(s: seq<T>, key: T -> int) {
    forall i, j :: 0 <= i < j < |s| ==> key(s[i]) >= key(s[j])
  }

  /** Inserts `x` after every element whose key is at least `key(x)` (stable insertion). */
  function InsertDesc<T>(s: seq<T>, x: T, key: T -> int): (r: seq<T>)
    ensures |r| == |s| + 1
    ensures multiset(r) == multiset(s) + multiset{x}
  {
    if |s| == 0 then [x]
    else if key(s[0]) >= key(x) then
      assert s == [s[0]] + s[1..];
      [s[0]] + InsertDesc(s[1..], x, key)
    else
      [x] + s
  }

  lemma {:induction false} InsertDescSorted<T>(s: seq<T>, x: T, key: T -> int)
    requires SortedDesc(s, key)
    ensures SortedDesc(InsertDesc(s, x, key), key)
  {
    if |s| > 0 && key(s[0]) >= key(x) {
      var rest := InsertDesc(s[1..], x, key);
      InsertDescSorted(s[1..], x, key);
      forall k | 0 <= k < |rest| ensures key(s[0]) >= key(rest[k]) {
        assert rest[k] in multiset(rest);
        if rest[k] != x {
          assert rest[k] in multiset(s[1..]);
          var m :| 0 <= m < |s[1..]| && s[1..][m] == rest[k];
          assert s[m + 1] == rest[k];
        }
      }
      var r := [s[0]] + rest;
      forall i, j | 0 <= i < j < |r| ensures key(r[i]) >= key(r[j]) {
        assert r[j] == rest[j - 1];
        if i > 0 {
          assert r[i] == rest[i - 1];
        }
      }
    } else if |s| > 0 {
      var r := [x] + s;
      forall i, j | 0 <= i < j < |r| ensures key(r[i]) >= key(r[j]) {
        assert r[j] == s[j - 1];
        if i > 0 {
          assert r[i] == s[i - 1];
        }
      }
    }
  }

  /** A stable sort by non-increasing `key`. */
  function SortDesc<T>(s: seq<T>, key: T -> int): (r: seq<T>)
    ensures |r| == |s|
    ensures multiset(r) == multiset(s)
    ensures SortedDesc(r, key)
  {
    if |s| == 0 then []
    else
      assert s == s[..|s| - 1] + [s[|s| - 1]];
      InsertDescSorted(SortDesc(s[..|s| - 1], key), s[|s| - 1], key);
      InsertDesc(SortDesc(s[..|s| - 1], key), s[|s| - 1], key)
  }

  /** Sorting neither invents nor drops rows. */
  lemma SortDescSameRows<T>(s: seq<T>, key: T -> int)
    ensures forall i :: 0 <= i < |SortDesc(s, key)| ==> SortDesc(s, key)[i] in s
    ensures forall i :: 0 <= i < |s| ==> s[i] in SortDesc(s, key)
  {
    var r := SortDesc(s, key);
    forall i | 0 <= i < |r| ensures r[i] in s {
      assert r[i] in multiset(r);
    }
    forall i | 0 <= i < |s| ensures s[i] in r {
      assert s[i] in multiset(s);
    }
  }

  /** `.slice(0, n)`: the first `n` elements, or all of them when there are fewer. */
  function Take<T>(s: seq<T>, n: nat): (r: seq<T>)
    ensures |r| == if |s| <= n then |s| else n
    ensures r == s[..|r|]
  {
    if |s| <= n then s else s[..n]
  }

  /** After sorting and taking the first `n`, an element left out ranks no higher than any kept. */
  lemma TakeSortedDominates<T>(s: seq<T>, key: T -> int, n: nat, e: T, j: nat)
    requires e in s && e !in Take(SortDesc(s, key), n) && j < |Take(SortDesc(s, key), n)|
    ensures key(e) <= key(Take(SortDesc(s, key), n)[j])
  {
    var sorted := SortDesc(s, key);
    var r := Take(sorted, n);
    assert e in multiset(sorted);
    var p :| 0 <= p < |sorted| && sorted[p] == e;
    assert r[j] == sorted[j];
  }
}
