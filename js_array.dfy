/** `Array.prototype.sort` with a comparator, as the aggregator calls it.

    The comparator the aggregator passes is `(a, b) => rank(b) - rank(a)` on a
    pair of numbers compared first component first, so it orders by
    decreasing rank. ECMAScript requires the sort to be stable, and a stable
    sort by a consistent comparator has exactly one result: the one insertion
    in input order produces, which is what `StableSort` defines. */
module JsArray {
  import opened JsText

  /** The comparator is negative for `(a, b)`: `a` goes before `b`. */
  predicate Outranks<T>(rank: T -> (int, int), a: T, b: T) {
    rank(a).0 > rank(b).0 || (rank(a).0 == rank(b).0 && rank(a).1 > rank(b).1)
  }

  /** Sorted by the comparator: no element outranks one placed before it. */
  predicate Ranked<T>(s: seq<T>, rank: T -> (int, int)) {
    forall i, j :: 0 <= i < j < |s| ==> !Outranks(rank, s[j], s[i])
  }

  /** Inserts `x` after every element it does not outrank. */
  function Insert<T>(s: seq<T>, x: T, rank: T -> (int, int)): seq<T> {
    if s == [] then [x]
    else if Outranks(rank, x, s[0]) then [x] + s
    else [s[0]] + Insert(s[1..], x, rank)
  }

  /** The result of the stable sort of `s` by decreasing rank. */
  function StableSort<T>(s: seq<T>, rank: T -> (int, int)): seq<T> {
    if s == [] then [] else Insert(StableSort(s[..|s| - 1], rank), s[|s| - 1], rank)
  }

  /** Insertion places `x` somewhere and leaves the rest in order. */
  lemma {:induction false} InsertSplice<T>(s: seq<T>, x: T, rank: T -> (int, int))
    ensures exists k :: 0 <= k <= |s| && Insert(s, x, rank) == s[..k] + [x] + s[k..]
  {
    if s == [] || Outranks(rank, x, s[0]) {
      assert Insert(s, x, rank) == s[..0] + [x] + s[0..];
    } else {
      InsertSplice(s[1..], x, rank);
      var k :| 0 <= k <= |s[1..]| && Insert(s[1..], x, rank) == s[1..][..k] + [x] + s[1..][k..];
      assert s[1..][..k] == s[1..k + 1] && s[1..][k..] == s[k + 1..];
      assert [s[0]] + s[1..k + 1] == s[..k + 1];
    }
  }

  lemma {:induction false} InsertRanked<T>(s: seq<T>, x: T, rank: T -> (int, int))
    requires Ranked(s, rank)
    ensures Ranked(Insert(s, x, rank), rank)
  {
    if s != [] && !Outranks(rank, x, s[0]) {
      InsertRanked(s[1..], x, rank);
      var rest := Insert(s[1..], x, rank);
      InsertSplice(s[1..], x, rank);
      forall j | 0 <= j < |rest| ensures !Outranks(rank, rest[j], s[0]) {
        assert rest[j] in rest;
        assert rest[j] == x || rest[j] in s[1..];
      }
    }
  }

  /** The sorted list is ranked. */
  lemma {:induction false} StableSortRanked<T>(s: seq<T>, rank: T -> (int, int))
    ensures Ranked(StableSort(s, rank), rank)
  {
    if s != [] {
      StableSortRanked(s[..|s| - 1], rank);
      InsertRanked(StableSort(s[..|s| - 1], rank), s[|s| - 1], rank);
    }
  }

  /** Insertion adds exactly the inserted element. */
  lemma InsertPermutes<T>(s: seq<T>, x: T, rank: T -> (int, int))
    ensures multiset(Insert(s, x, rank)) == multiset(s) + multiset{x}
  {
    InsertSplice(s, x, rank);
    var k :| 0 <= k <= |s| && Insert(s, x, rank) == s[..k] + [x] + s[k..];
    assert s == s[..k] + s[k..];
  }

  /** The sort only reorders: the same elements, each as many times. */
  lemma {:induction false} StableSortPermutes<T>(s: seq<T>, rank: T -> (int, int))
    ensures multiset(StableSort(s, rank)) == multiset(s)
  {
    if s != [] {
      var init, x := s[..|s| - 1], s[|s| - 1];
      StableSortPermutes(init, rank);
      InsertPermutes(StableSort(init, rank), x, rank);
      assert s == init + [x];
    }
  }

  /** The elements of one rank, in list order. */
  function OfRank<T>(s: seq<T>, rank: T -> (int, int), r: (int, int)): seq<T> {
    if s == [] then []
    else (if rank(s[0]) == r then [s[0]] else []) + OfRank(s[1..], rank, r)
  }

  lemma OfRankCons<T>(x: T, s: seq<T>, rank: T -> (int, int), r: (int, int))
    ensures OfRank([x] + s, rank, r) == (if rank(x) == r then [x] else []) + OfRank(s, rank, r)
  {
    assert ([x] + s)[1..] == s;
  }

  lemma {:induction false} OfRankAppend<T>(a: seq<T>, b: seq<T>, rank: T -> (int, int), r: (int, int))
    ensures OfRank(a + b, rank, r) == OfRank(a, rank, r) + OfRank(b, rank, r)
  {
    if a == [] {
      assert a + b == b;
    } else {
      var x, rest := a[0], a[1..];
      OfRankAppend(rest, b, rank, r);
      assert a == [x] + rest && a + b == [x] + (rest + b);
      OfRankCons(x, rest + b, rank, r);
      OfRankCons(x, rest, rank, r);
    }
  }

  lemma {:induction false} InsertOfRank<T>(s: seq<T>, x: T, rank: T -> (int, int), r: (int, int))
    requires Ranked(s, rank)
    ensures OfRank(Insert(s, x, rank), rank, r) == OfRank(s, rank, r) + (if rank(x) == r then [x] else [])
  {
    if s == [] {
    } else if Outranks(rank, x, s[0]) {
      if rank(x) == r {
        OfRankOutranked(s, x, rank, r);
      }
    } else {
      InsertOfRank(s[1..], x, rank, r);
    }
  }

  lemma {:induction false} OfRankOutranked<T>(s: seq<T>, x: T, rank: T -> (int, int), r: (int, int))
    requires Ranked(s, rank) && s != [] && Outranks(rank, x, s[0]) && rank(x) == r
    ensures OfRank(s, rank, r) == []
  {
    if |s| > 1 {
      assert !Outranks(rank, s[1], s[0]);
      OfRankOutranked(s[1..], x, rank, r);
    }
  }

  /** The sort is stable: the elements of each rank keep their input order. */
  lemma {:induction false} StableSortStable<T>(s: seq<T>, rank: T -> (int, int), r: (int, int))
    ensures OfRank(StableSort(s, rank), rank, r) == OfRank(s, rank, r)
  {
    if s != [] {
      var init, x := s[..|s| - 1], s[|s| - 1];
      StableSortStable(init, rank, r);
      StableSortRanked(init, rank);
      InsertOfRank(StableSort(init, rank), x, rank, r);
      OfRankAppend(init, [x], rank, r);
      assert s == init + [x];
    }
  }

  /** No two elements share a key. */
  predicate DistinctBy<T>(s: seq<T>, key: T -> string) {
    forall i, j :: 0 <= i < j < |s| ==> key(s[i]) != key(s[j])
  }

  /** Sorting a list without duplicate keys leaves it without duplicate keys. */
  lemma {:induction false} StableSortDistinct<T>(s: seq<T>, rank: T -> (int, int), key: T -> string)
    requires DistinctBy(s, key)
    ensures DistinctBy(StableSort(s, rank), key)
  {
    if s != [] {
      var init, x := s[..|s| - 1], s[|s| - 1];
      StableSortDistinct(init, rank, key);
      StableSortPermutes(init, rank);
      var sorted := StableSort(init, rank);
      InsertSplice(sorted, x, rank);
      var k :| 0 <= k <= |sorted| && Insert(sorted, x, rank) == sorted[..k] + [x] + sorted[k..];
      var out := Insert(sorted, x, rank);
      forall m | 0 <= m < |sorted| ensures key(sorted[m]) != key(x) {
        assert sorted[m] in multiset(init);
        var n :| 0 <= n < |init| && init[n] == sorted[m];
        assert s[n] == init[n];
      }
      forall a, b | 0 <= a < b < |out| ensures key(out[a]) != key(out[b]) {
        if a < k && b > k {
          assert out[a] == sorted[a] && out[b] == sorted[b - 1];
        } else if a > k {
          assert out[a] == sorted[a - 1] && out[b] == sorted[b - 1];
        } else if a < k && b < k {
          assert out[a] == sorted[a] && out[b] == sorted[b];
        }
      }
    }
  }

  // ---------------------------------------------------------------------------
  // First-seen deduplication by key

  /** Some element of `s` has key `k`: the `allBooks.some(...)` test. */
  predicate HasKey<T(==)>(s: seq<T>, key: T -> string, k: string) {
    exists e | e in s :: key(e) == k
  }

  /** First-seen-wins deduplication: an element is appended only when no
      element kept so far has its key. */
  function Dedup<T(==)>(s: seq<T>, key: T -> string): seq<T> {
    if s == [] then []
    else
      var kept := Dedup(s[..|s| - 1], key);
      if HasKey(kept, key, key(s[|s| - 1])) then kept else kept + [s[|s| - 1]]
  }

  /** A key occurs in a list with one more element when it occurs in the list
      or is the new element's key. */
  lemma HasKeyAppend<T>(s: seq<T>, x: T, key: T -> string, k: string)
    ensures HasKey(s + [x], key, k) <==> HasKey(s, key, k) || key(x) == k
  {
  }

  /** The keys of the elements of `s`: a `Set` the caller adds each key to. */
  function KeySet<T>(s: seq<T>, key: T -> string): set<string> {
    if s == [] then {} else KeySet(s[..|s| - 1], key) + {key(s[|s| - 1])}
  }

  /** Adding an element adds its key. */
  lemma KeySetAppend<T>(s: seq<T>, x: T, key: T -> string)
    ensures KeySet(s + [x], key) == KeySet(s, key) + {key(x)}
  {
  }

  /** A key is in the key set exactly when some element has it. */
  lemma {:induction false} KeySetHasKey<T>(s: seq<T>, key: T -> string, k: string)
    ensures k in KeySet(s, key) <==> HasKey(s, key, k)
  {
    if s != [] {
      var init := s[..|s| - 1];
      KeySetHasKey(init, key, k);
      assert s == init + [s[|s| - 1]];
      HasKeyAppend(init, s[|s| - 1], key, k);
    }
  }

  /** Deduplicating one more element keeps it exactly when its key is new. */
  lemma DedupStep<T>(s: seq<T>, x: T, key: T -> string)
    ensures Dedup(s + [x], key)
         == if HasKey(Dedup(s, key), key, key(x)) then Dedup(s, key) else Dedup(s, key) + [x]
  {
  }

  /** No two kept elements share a key. */
  lemma {:induction false} DedupDistinct<T>(s: seq<T>, key: T -> string)
    ensures DistinctBy(Dedup(s, key), key)
  {
    if s != [] {
      DedupDistinct(s[..|s| - 1], key);
      var kept := Dedup(s[..|s| - 1], key);
      if !HasKey(kept, key, key(s[|s| - 1])) {
        var r := kept + [s[|s| - 1]];
        forall i, j | 0 <= i < j < |r|
          ensures key(r[i]) != key(r[j])
        {
          if j == |r| - 1 {
            assert r[i] in kept;
          }
        }
      }
    }
  }

  /** Every kept element is an element of the input. */
  lemma {:induction false} DedupSubset<T>(s: seq<T>, key: T -> string)
    ensures forall e :: e in Dedup(s, key) ==> e in s
  {
    if s != [] {
      DedupSubset(s[..|s| - 1], key);
      forall e | e in s[..|s| - 1] ensures e in s {
      }
    }
  }

  /** The kept list holds exactly the keys of the input: every key survives,
      and no other key appears. */
  lemma {:induction false} DedupKeys<T>(s: seq<T>, key: T -> string, k: string)
    ensures HasKey(Dedup(s, key), key, k) <==> HasKey(s, key, k)
  {
    if s != [] {
      var init := s[..|s| - 1];
      DedupKeys(init, key, k);
      DedupSubset(init, key);
      DedupSubset(s, key);
      if HasKey(s, key, k) && !HasKey(init, key, k) {
        var e :| e in s && key(e) == k;
        assert e == s[|s| - 1];
      }
      if HasKey(init, key, k) {
        var e :| e in init && key(e) == k;
        assert e in s;
      }
    }
  }

  /** First seen wins: each kept element is an input element with no element
      of the same key before it. */
  lemma {:induction false} DedupFirstSeen<T>(s: seq<T>, key: T -> string, e: T)
    requires e in Dedup(s, key)
    ensures exists i :: 0 <= i < |s| && s[i] == e && !HasKey(s[..i], key, key(e))
  {
    var init := s[..|s| - 1];
    if e in Dedup(init, key) {
      DedupFirstSeen(init, key, e);
      var i :| 0 <= i < |init| && init[i] == e && !HasKey(init[..i], key, key(e));
      assert s[..i] == init[..i];
    } else {
      assert e == s[|s| - 1];
      DedupKeys(init, key, key(e));
    }
  }

  /** The kept elements keep the order of their first occurrences: of two
      kept elements, the earlier one is met first in the input. */
  lemma {:induction false} DedupOrder<T>(s: seq<T>, key: T -> string, i: nat, j: nat)
    requires i < j < |Dedup(s, key)|
    ensures exists p, q ::
      && 0 <= p < q < |s|
      && s[p] == Dedup(s, key)[i] && s[q] == Dedup(s, key)[j]
      && !HasKey(s[..p], key, key(s[p])) && !HasKey(s[..q], key, key(s[q]))
  {
    var n := |s| - 1;
    var init := s[..n];
    var kept := Dedup(init, key);
    if j < |kept| {
      DedupOrder(init, key, i, j);
      var p, q :| 0 <= p < q < |init| && init[p] == kept[i] && init[q] == kept[j]
        && !HasKey(init[..p], key, key(init[p])) && !HasKey(init[..q], key, key(init[q]));
      assert s[..p] == init[..p] && s[..q] == init[..q];
    } else {
      assert Dedup(s, key)[j] == s[n] && !HasKey(kept, key, key(s[n]));
      DedupKeys(init, key, key(s[n]));
      assert kept[i] in kept;
      DedupFirstSeen(init, key, kept[i]);
      var p :| 0 <= p < |init| && init[p] == kept[i] && !HasKey(init[..p], key, key(kept[i]));
      assert s[..p] == init[..p];
    }
  }

  /** A key found in `a` is found in every prefix of `s` that contains `a`. */
  lemma HasKeyInPrefix<T>(a: seq<T>, s: seq<T>, i: int, key: T -> string, k: string)
    requires HasKey(a, key, k) && |a| <= i <= |s| && s[..|a|] == a
    ensures HasKey(s[..i], key, k)
  {
  }

  /** When a list is the concatenation of an earlier and a later part, a kept
      element whose key occurs in the earlier part comes from the earlier part. */
  lemma DedupPrefersEarlier<T>(a: seq<T>, b: seq<T>, key: T -> string, e: T)
    requires e in Dedup(a + b, key) && HasKey(a, key, key(e))
    ensures e in a
  {
    var s := a + b;
    assert s[..|a|] == a;
    DedupFirstSeen(s, key, e);
    var i :| 0 <= i < |s| && s[i] == e && !HasKey(s[..i], key, key(e));
    if i >= |a| {
      HasKeyInPrefix(a, s, i, key, key(e));
    } else {
      assert a[i] == e;
    }
  }

  // ---------------------------------------------------------------------------
  // Filtering and mapping in one pass

  /** The values `f` yields, in input order, skipping the elements it maps to None:
      a loop that pushes `f`'s value when there is one. */
  function Collect<A, B>(s: seq<A>, f: A -> Option<B>): seq<B> {
    if s == [] then []
    else
      var y := f(s[|s| - 1]);
      Collect(s[..|s| - 1], f) + (if y.Some? then [y.value] else [])
  }

  /** One more element adds its value, if any, at the end. */
  lemma CollectStep<A, B>(s: seq<A>, i: nat, f: A -> Option<B>)
    requires i < |s|
    ensures Collect(s[..i + 1], f) == Collect(s[..i], f) + (if f(s[i]).Some? then [f(s[i]).value] else [])
  {
    assert s[..i + 1][..i] == s[..i];
  }

  /** At most one value per element, and a value is collected exactly when some
      element yields it. */
  lemma {:induction false} CollectMembers<A, B>(s: seq<A>, f: A -> Option<B>)
    ensures |Collect(s, f)| <= |s|
    ensures forall y :: y in Collect(s, f) <==> exists k :: 0 <= k < |s| && f(s[k]) == Some(y)
  {
    if s != [] {
      var init := s[..|s| - 1];
      CollectMembers(init, f);
      forall y
        ensures y in Collect(s, f) <==> exists k :: 0 <= k < |s| && f(s[k]) == Some(y)
      {
        if y in Collect(init, f) {
          var k :| 0 <= k < |init| && f(init[k]) == Some(y);
          assert s[k] == init[k];
        }
        if exists k :: 0 <= k < |s| && f(s[k]) == Some(y) {
          var k :| 0 <= k < |s| && f(s[k]) == Some(y);
          if k < |init| {
            assert init[k] == s[k];
          }
        }
      }
    }
  }

  /** The `i`-th collected value comes from an element whose predecessors
      collect exactly the values before it. */
  lemma {:induction false} CollectPosition<A, B>(s: seq<A>, f: A -> Option<B>, i: nat)
    requires i < |Collect(s, f)|
    ensures exists k :: 0 <= k < |s| && f(s[k]) == Some(Collect(s, f)[i]) && Collect(s[..k], f) == Collect(s, f)[..i]
  {
    var init := s[..|s| - 1];
    if i < |Collect(init, f)| {
      CollectPosition(init, f, i);
      var k :| 0 <= k < |init| && f(init[k]) == Some(Collect(init, f)[i]) && Collect(init[..k], f) == Collect(init, f)[..i];
      assert init[..k] == s[..k];
      assert Collect(s, f)[..i] == Collect(init, f)[..i];
    } else {
      assert Collect(s, f)[..i] == Collect(init, f);
    }
  }
}
