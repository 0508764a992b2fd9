/**
  Counting into a JavaScript record: `record[k] = (record[k] || 0) + 1` for each fetched row,
  then `Object.entries(record)`. A record is modelled as its list of entries in insertion
  order, which is the order `Object.entries` reports for keys that are not array indices.
 */
module Tally {

  /** One `[key, count]` pair of `Object.entries(record)`. */
  datatype Entry<K> = Entry(key: K, count: nat)

  /** How many times `k` occurs in `xs`. */
  function Occurrences<K(==)>(xs: seq<K>, k: K): nat {
    if |xs| == 0 then 0 else Occurrences(xs[..|xs| - 1], k) + (if xs[|xs| - 1] == k then 1 else 0)
  }

  function Keys<K>(t: seq<Entry<K>>): (ks: seq<K>)
    ensures |ks| == |t| && forall i {:trigger ks[i]} :: 0 <= i < |t| ==> ks[i] == t[i].key
  {
    if |t| == 0 then [] else [t[0].key] + Keys(t[1..])
  }

  /** An entry whose key the record lacks is not one of its entries. */
  lemma AbsentKey<K>(t: seq<Entry<K>>, e: Entry<K>)
    requires e.key !in Keys(t)
    ensures e !in t
  {
    forall p | 0 <= p < |t| ensures t[p] != e {
      assert Keys(t)[p] == t[p].key;
    }
  }

  predicate DistinctKeys<K(==)>(t: seq<Entry<K>>) {
    forall i, j :: 0 <= i < j < |t| ==> t[i].key != t[j].key
  }

  /** A record with distinct keys holds each entry at most once. */
  lemma {:induction false} DistinctKeysOnce<K>(t: seq<Entry<K>>, e: Entry<K>)
    requires DistinctKeys(t)
    ensures multiset(t)[e] <= 1
  {
    if |t| > 0 {
      assert t == [t[0]] + t[1..];
      assert forall k :: 0 <= k < |t[1..]| ==> t[1..][k] == t[k + 1];
      assert t[0] == e ==> e !in t[1..];
      DistinctKeysOnce(t[1..], e);
    }
  }

  /** Reordering the entries of a record with distinct keys keeps its keys distinct. */
  lemma DistinctKeysPermutation<K>(t: seq<Entry<K>>, s: seq<Entry<K>>)
    requires DistinctKeys(t) && multiset(s) == multiset(t)
    ensures DistinctKeys(s)
  {
    forall i, j | 0 <= i < j < |s| ensures s[i].key != s[j].key {
      assert s == s[..j] + [s[j]] + s[j + 1..];
      assert s[i] in s[..j];
      assert multiset(s)[s[i]] >= 1 + (if s[j] == s[i] then 1 else 0);
      DistinctKeysOnce(t, s[i]);
      assert s[i] in multiset(t) && s[j] in multiset(t);
      var p :| 0 <= p < |t| && t[p] == s[i];
      var q :| 0 <= q < |t| && t[q] == s[j];
      assert p != q;
    }
  }

  /** `record[k] || 0`: the count stored under `k`, or 0 when there is none. */
  function CountOf<K(==)>(t: seq<Entry<K>>, k: K): nat {
    if |t| == 0 then 0 else if t[0].key == k then t[0].count else CountOf(t[1..], k)
  }

  /** The sum of all counts. */
  function Total<K>(t: seq<Entry<K>>): nat {
    if |t| == 0 then 0 else t[0].count + Total(t[1..])
  }

  /** Taking a record apart into its first entry and the rest. */
  lemma EntriesCons<K>(e: Entry<K>, t: seq<Entry<K>>)
    ensures ([e] + t)[0] == e && ([e] + t)[1..] == t
    ensures Keys([e] + t) == [e.key] + Keys(t)
    ensures DistinctKeys([e] + t) <==> DistinctKeys(t) && e.key !in Keys(t)
  {
    var u := [e] + t;
    assert u[1..] == t;
    assert Keys(u) == [e.key] + Keys(t);
    if DistinctKeys(t) && e.key !in Keys(t) {
      forall i, j | 0 <= i < j < |u| ensures u[i].key != u[j].key {
        assert u[j] == t[j - 1] && Keys(t)[j - 1] == t[j - 1].key;
        if i > 0 {
          assert u[i] == t[i - 1];
        }
      }
    }
    if DistinctKeys(u) {
      forall i | 0 <= i < |t| ensures Keys(t)[i] != e.key {
        assert u[i + 1] == t[i];
      }
    }
  }

  /** Bumping the first entry, which holds `k`. */
  lemma BumpHead<K>(e: Entry<K>, tail: seq<Entry<K>>, k: K)
    requires e.key == k
    ensures var t, r := [e] + tail, [Entry(k, e.count + 1)] + tail;
            && Keys(r) == Keys(t) && k in Keys(t)
            && (DistinctKeys(t) ==> DistinctKeys(r))
            && CountOf(r, k) == CountOf(t, k) + 1
            && Total(r) == Total(t) + 1
  {
    EntriesCons(e, tail);
    EntriesCons(Entry(k, e.count + 1), tail);
  }

  /** Bumping behind a first entry that holds another key: the keys. */
  lemma BumpBehindKeys<K>(e: Entry<K>, tail: seq<Entry<K>>, rest: seq<Entry<K>>, k: K)
    requires e.key != k
    requires Keys(rest) == if k in Keys(tail) then Keys(tail) else Keys(tail) + [k]
    requires DistinctKeys(tail) ==> DistinctKeys(rest)
    ensures Keys([e] + rest) == if k in Keys([e] + tail) then Keys([e] + tail) else Keys([e] + tail) + [k]
    ensures DistinctKeys([e] + tail) ==> DistinctKeys([e] + rest)
  {
    EntriesCons(e, tail);
    EntriesCons(e, rest);
    if k !in Keys(tail) {
      assert [e.key] + (Keys(tail) + [k]) == ([e.key] + Keys(tail)) + [k];
    }
  }

  /** Bumping behind a first entry that holds another key: the counts. */
  lemma BumpBehindCounts<K>(e: Entry<K>, tail: seq<Entry<K>>, rest: seq<Entry<K>>, k: K)
    requires e.key != k
    requires CountOf(rest, k) == CountOf(tail, k) + 1
    requires Total(rest) == Total(tail) + 1
    ensures CountOf([e] + rest, k) == CountOf([e] + tail, k) + 1
    ensures Total([e] + rest) == Total([e] + tail) + 1
  {
    assert ([e] + rest)[1..] == rest;
    assert ([e] + tail)[1..] == tail;
  }

  /** `record[k] = (record[k] || 0) + 1`: bump the entry of `k`, or append a new one. */
  function Bump<K(==)>(t: seq<Entry<K>>, k: K): (r: seq<Entry<K>>)
    ensures Keys(r) == if k in Keys(t) then Keys(t) else Keys(t) + [k]
    ensures DistinctKeys(t) ==> DistinctKeys(r)
    ensures CountOf(r, k) == CountOf(t, k) + 1
    ensures Total(r) == Total(t) + 1
  {
    if |t| == 0 then [Entry(k, 1)]
    else
      assert t == [t[0]] + t[1..];
      if t[0].key == k then
        BumpHead(t[0], t[1..], k);
        [Entry(k, t[0].count + 1)] + t[1..]
      else
        var rest := Bump(t[1..], k);
        BumpBehindKeys(t[0], t[1..], rest, k);
        BumpBehindCounts(t[0], t[1..], rest, k);
        [t[0]] + rest
  }

  lemma {:induction false} BumpOther<K>(t: seq<Entry<K>>, k: K, j: K)
    requires j != k
    ensures CountOf(Bump(t, k), j) == CountOf(t, j)
  {
    if |t| > 0 && t[0].key != k {
      BumpOther(t[1..], k, j);
    }
  }

  /** Counting `xs`, left to right, into a record that already holds `init`. */
  function TallyFrom<K(==)>(init: seq<Entry<K>>, xs: seq<K>): seq<Entry<K>> {
    if |xs| == 0 then init else Bump(TallyFrom(init, xs[..|xs| - 1]), xs[|xs| - 1])
  }

  /** Counting into an empty record `{}`. */
  function CountBy<K(==)>(xs: seq<K>): seq<Entry<K>> {
    TallyFrom([], xs)
  }

  /** Each key ends with its initial count plus its number of occurrences. */
  lemma {:induction false} TallyFromCounts<K>(init: seq<Entry<K>>, xs: seq<K>, k: K)
    ensures CountOf(TallyFrom(init, xs), k) == CountOf(init, k) + Occurrences(xs, k)
  {
    if |xs| > 0 {
      TallyFromCounts(init, xs[..|xs| - 1], k);
      if xs[|xs| - 1] != k {
        BumpOther(TallyFrom(init, xs[..|xs| - 1]), xs[|xs| - 1], k);
      }
    }
  }

  /** Keys stay distinct and the total grows by one per row. */
  lemma {:induction false} TallyFromTotal<K>(init: seq<Entry<K>>, xs: seq<K>)
    ensures DistinctKeys(init) ==> DistinctKeys(TallyFrom(init, xs))
    ensures Total(TallyFrom(init, xs)) == Total(init) + |xs|
  {
    if |xs| > 0 {
      TallyFromTotal(init, xs[..|xs| - 1]);
    }
  }

  /** The initial keys keep their positions; later keys are exactly the new values seen. */
  lemma {:induction false} TallyFromKeys<K>(init: seq<Entry<K>>, xs: seq<K>)
    ensures |init| <= |TallyFrom(init, xs)|
    ensures Keys(TallyFrom(init, xs))[..|init|] == Keys(init)
    ensures forall i :: 0 <= i < |TallyFrom(init, xs)| ==>
              Keys(TallyFrom(init, xs))[i] in Keys(init) || Keys(TallyFrom(init, xs))[i] in xs
    ensures forall i :: 0 <= i < |xs| ==> xs[i] in Keys(TallyFrom(init, xs))
  {
    if |xs| > 0 {
      var pre := xs[..|xs| - 1];
      TallyFromKeys(init, pre);
      var before := TallyFrom(init, pre);
      var after := TallyFrom(init, xs);
      assert after == Bump(before, xs[|xs| - 1]);
      forall i | 0 <= i < |xs| ensures xs[i] in Keys(after) {
        if i < |xs| - 1 {
          assert xs[i] == pre[i];
        }
      }
      forall i | 0 <= i < |after| ensures Keys(after)[i] in Keys(init) || Keys(after)[i] in xs {
        if i < |before| {
          assert Keys(after)[i] == Keys(before)[i];
          assert Keys(before)[i] in Keys(init) || Keys(before)[i] in pre;
        }
      }
    }
  }

  /** Rows whose keys were all pre-seeded add no entries. */
  lemma {:induction false} TallyFromKeysFixed<K>(init: seq<Entry<K>>, xs: seq<K>)
    requires forall i :: 0 <= i < |xs| ==> xs[i] in Keys(init)
    ensures Keys(TallyFrom(init, xs)) == Keys(init)
  {
    if |xs| > 0 {
      var pre := xs[..|xs| - 1];
      assert forall i :: 0 <= i < |pre| ==> pre[i] in Keys(init) by {
        forall i | 0 <= i < |pre| ensures pre[i] in Keys(init) {
          assert pre[i] == xs[i];
        }
      }
      TallyFromKeysFixed(init, pre);
    }
  }

  /** With distinct keys, an entry's count is the count stored under its key. */
  lemma {:induction false} EntryCount<K>(t: seq<Entry<K>>, i: nat)
    requires DistinctKeys(t) && i < |t|
    ensures CountOf(t, t[i].key) == t[i].count
  {
    if i > 0 {
      EntryCount(t[1..], i - 1);
    }
  }

  /**
    Counting into an empty record: one entry per distinct value, each with that value's
    frequency, and the counts add up to the number of rows.
   */
  lemma TallySpec<K>(xs: seq<K>)
    ensures DistinctKeys(CountBy(xs))
    ensures Total(CountBy(xs)) == |xs|
    ensures forall i :: 0 <= i < |CountBy(xs)| ==> CountBy(xs)[i].key in xs
    ensures forall i :: 0 <= i < |xs| ==> xs[i] in Keys(CountBy(xs))
    ensures forall i :: 0 <= i < |CountBy(xs)| ==> CountBy(xs)[i].count == Occurrences(xs, CountBy(xs)[i].key)
  {
    TallyFromTotal([], xs);
    TallyFromKeys([], xs);
    var t := CountBy(xs);
    forall i | 0 <= i < |t| ensures t[i].key in xs && t[i].count == Occurrences(xs, t[i].key) {
      assert Keys(t)[i] == t[i].key;
      EntryCount(t, i);
      TallyFromCounts([], xs, t[i].key);
    }
  }

  /** Every value counted has an entry holding its frequency. */
  lemma CountByEntry<K>(xs: seq<K>, i: nat)
    requires i < |xs|
    ensures Entry(xs[i], Occurrences(xs, xs[i])) in CountBy(xs)
  {
    TallySpec(xs);
    var t := CountBy(xs);
    var q :| 0 <= q < |Keys(t)| && Keys(t)[q] == xs[i];
    assert t[q] == Entry(xs[i], Occurrences(xs, xs[i]));
  }
}
