/** The array and object idioms the views are built from, as functions over
    sequences: `filter`, a `reduce` that groups into an object (whose keys keep
    insertion order, as `Object.entries` reports them), a `reduce` that counts,
    and the stable `sort` of an array by a numeric key. */
module Collections {

  datatype Option<T> = None | Some(value: T)

  /** No element occurs twice. */
  predicate Distinct<T(==)>(s: seq<T>)
  {
    forall i, j :: 0 <= i < j < |s| ==> s[i] != s[j]
  }

  /** `s.filter(p)`. Built from the back, as `forEach`/`reduce` visit the
      elements and push. */
  function Filter<T>(s: seq<T>, p: T -> bool): (r: seq<T>)
    ensures |r| <= |s|
    ensures forall i :: 0 <= i < |r| ==> p(r[i]) && r[i] in s
    ensures forall i :: 0 <= i < |s| && p(s[i]) ==> s[i] in r
  {
    if |s| == 0 then []
    else
      var r0 := Filter(s[..|s| - 1], p);
      if p(s[|s| - 1]) then r0 + [s[|s| - 1]] else r0
  }

  /** Filtering one more element appends it exactly when it passes. */
  lemma FilterSnoc<T>(s: seq<T>, x: T, p: T -> bool)
    ensures Filter(s + [x], p) == if p(x) then Filter(s, p) + [x] else Filter(s, p)
  {
    assert (s + [x])[..|s|] == s;
  }

  /** Selecting by key over one more element appends it exactly when its key matches. */
  lemma HavingSnoc<T>(s: seq<T>, x: T, key: T -> string, k: string)
    ensures Having(s + [x], key, k) == if key(x) == k then Having(s, key, k) + [x] else Having(s, key, k)
  {
    assert (s + [x])[..|s|] == s;
  }

  /** One step of pushing the matching elements of `s` onto `acc`, as a loop over `s` does. */
  lemma HavingPushStep<T>(acc: seq<T>, s: seq<T>, j: nat, key: T -> string, k: string)
    requires j < |s|
    ensures acc + Having(s[..j + 1], key, k) ==
            if key(s[j]) == k then (acc + Having(s[..j], key, k)) + [s[j]] else acc + Having(s[..j], key, k)
  {
    assert s[..j + 1] == s[..j] + [s[j]];
    HavingSnoc(s[..j], s[j], key, k);
  }

  /** Two complementary filters split a sequence: every element lands in exactly one part. */
  lemma {:induction false} FilterPartition<T>(s: seq<T>, p: T -> bool, q: T -> bool)
    requires forall x :: p(x) <==> !q(x)
    ensures multiset(Filter(s, p)) + multiset(Filter(s, q)) == multiset(s)
  {
    if |s| > 0 {
      var s0 := s[..|s| - 1];
      var x := s[|s| - 1];
      FilterPartition(s0, p, q);
      assert s == s0 + [x];
      FilterSnoc(s0, x, p);
      FilterSnoc(s0, x, q);
    }
  }

  /** One step of a loop that filters `s` from the front. */
  lemma FilterPrefixStep<T>(s: seq<T>, j: nat, p: T -> bool)
    requires j < |s|
    ensures Filter(s[..j + 1], p) == if p(s[j]) then Filter(s[..j], p) + [s[j]] else Filter(s[..j], p)
  {
    assert s[..j + 1] == s[..j] + [s[j]];
    FilterSnoc(s[..j], s[j], p);
  }

  /** `s.map(key)`. */
  function KeySeq<T>(s: seq<T>, key: T -> string): (r: seq<string>)
    ensures |r| == |s|
    ensures forall i :: 0 <= i < |s| ==> r[i] == key(s[i])
  {
    if |s| == 0 then [] else KeySeq(s[..|s| - 1], key) + [key(s[|s| - 1])]
  }

  /** `s.filter(x => key(x) === k)`: the elements whose key is k, in order. */
  function Having<T>(s: seq<T>, key: T -> string, k: string): (r: seq<T>)
    ensures |r| <= |s|
    ensures forall i :: 0 <= i < |r| ==> key(r[i]) == k && r[i] in s
    ensures forall i :: 0 <= i < |s| && key(s[i]) == k ==> s[i] in r
  {
    if |s| == 0 then []
    else
      var r0 := Having(s[..|s| - 1], key, k);
      if key(s[|s| - 1]) == k then r0 + [s[|s| - 1]] else r0
  }

  /** The distinct elements of t in order of first appearance. */
  function Dedup(t: seq<string>): (d: seq<string>)
    ensures Distinct(d)
    ensures forall x :: x in d <==> x in t
    ensures |d| <= |t|
  {
    if |t| == 0 then []
    else
      var d0 := Dedup(t[..|t| - 1]);
      assert forall x :: x in t <==> x in t[..|t| - 1] || x == t[|t| - 1] by {
        assert t == t[..|t| - 1] + [t[|t| - 1]];
      }
      if t[|t| - 1] in d0 then d0 else d0 + [t[|t| - 1]]
  }

  /** Seeing one more key appends it exactly when it is new. */
  lemma DedupSnoc(t: seq<string>, x: string)
    ensures Dedup(t + [x]) == if x in t then Dedup(t) else Dedup(t) + [x]
  {
    assert (t + [x])[..|t|] == t;
  }

  /** The keys come in order of first appearance: a key listed before another
      occurs in t before every occurrence of the later one. */
  lemma {:induction false} DedupFirstAppearance(t: seq<string>)
    ensures var d := Dedup(t);
            forall i, j, m :: 0 <= i < j < |d| && 0 <= m < |t| && t[m] == d[j] ==> d[i] in t[..m]
  {
    if |t| > 0 {
      var t0 := t[..|t| - 1];
      var x := t[|t| - 1];
      DedupFirstAppearance(t0);
      DedupSnoc(t0, x);
      assert t == t0 + [x];
      var d0 := Dedup(t0);
      var d := Dedup(t);
      forall i, j, m | 0 <= i < j < |d| && 0 <= m < |t| && t[m] == d[j]
        ensures d[i] in t[..m]
      {
        if m < |t| - 1 {
          assert t[m] == t0[m] && t[..m] == t0[..m];
          assert j < |d0|;
        } else if j < |d0| {
          assert d0[j] in t0;
          var m' :| 0 <= m' < |t0| && t0[m'] == d0[j];
          assert d[i] in t0[..m'];
          assert t0[..m'] <= t[..m];
        } else {
          assert d[i] == d0[i] && d0[i] in t0;
          assert t[..m] == t0;
        }
      }
    }
  }

  /** A JavaScript object used as a dictionary: its keys in insertion order
      and the value stored under each. */
  datatype Dict<V> = Dict(keys: seq<string>, values: map<string, V>)

  ghost predicate ValidDict<V>(d: Dict<V>)
  {
    Distinct(d.keys) && (forall k :: k in d.values <==> k in d.keys)
  }

  /** `Object.entries(d)`. */
  function Entries<V>(d: Dict<V>): (es: seq<(string, V)>)
    requires forall k :: k in d.keys ==> k in d.values
    ensures |es| == |d.keys|
    ensures forall i :: 0 <= i < |es| ==> es[i] == (d.keys[i], d.values[d.keys[i]])
  {
    seq(|d.keys|, i requires 0 <= i < |d.keys| => (d.keys[i], d.values[d.keys[i]]))
  }

  /** One step of `reduce((acc, x) => { (acc[k] ||= []).push(x); return acc }, {})`. */
  function Push<T>(d: Dict<seq<T>>, k: string, x: T): Dict<seq<T>>
  {
    if k in d.values then Dict(d.keys, d.values[k := d.values[k] + [x]])
    else Dict(d.keys + [k], d.values[k := [x]])
  }

  /** Group-by into an object (see GroupByShape). */
  function GroupBy<T>(s: seq<T>, key: T -> string): (g: Dict<seq<T>>)
  {
    if |s| == 0 then Dict([], map[])
    else Push(GroupBy(s[..|s| - 1], key), key(s[|s| - 1]), s[|s| - 1])
  }

  /** One group per distinct key, in order of first appearance; each group is
      exactly the elements with that key, in input order, and is never empty. */
  lemma {:induction false} GroupByShape<T>(s: seq<T>, key: T -> string)
    ensures ValidDict(GroupBy(s, key))
    ensures GroupBy(s, key).keys == Dedup(KeySeq(s, key))
    ensures forall k :: k in GroupBy(s, key).values ==>
              GroupBy(s, key).values[k] == Having(s, key, k) && |GroupBy(s, key).values[k]| > 0
  {
    if |s| > 0 {
      var s0 := s[..|s| - 1];
      var x := s[|s| - 1];
      GroupByShape(s0, key);
      var g0 := GroupBy(s0, key);
      var g := GroupBy(s, key);
      assert g == Push(g0, key(x), x);
      assert KeySeq(s, key) == KeySeq(s0, key) + [key(x)];
      forall k | k in g.values
        ensures g.values[k] == Having(s, key, k) && |g.values[k]| > 0
      {
        if k != key(x) {
          assert g.values[k] == g0.values[k];
          assert Having(s, key, k) == Having(s0, key, k);
        } else if k in g0.values {
          assert g.values[k] == g0.values[k] + [x];
          assert Having(s, key, k) == Having(s0, key, k) + [x];
        } else {
          assert k !in KeySeq(s0, key);
          HavingAbsent(s0, key, k);
          assert Having(s, key, k) == [x];
        }
      }
    }
  }

  lemma {:induction false} HavingAbsent<T>(s: seq<T>, key: T -> string, k: string)
    requires k !in KeySeq(s, key)
    ensures Having(s, key, k) == []
  {
    if |s| > 0 {
      var s0 := s[..|s| - 1];
      assert KeySeq(s, key) == KeySeq(s0, key) + [key(s[|s| - 1])];
      HavingAbsent(s0, key, k);
    }
  }

  /** One step of `reduce((acc, x) => { acc[k] = (acc[k] || 0) + 1; return acc }, {})`. */
  function Bump(d: Dict<nat>, k: string): Dict<nat>
  {
    if k in d.values then Dict(d.keys, d.values[k := d.values[k] + 1])
    else Dict(d.keys + [k], d.values[k := 1])
  }

  /** Count-by-key into an object: one counter per distinct key, in order of
      first appearance, each equal to the number of elements with that key. */
  function Tally<T>(s: seq<T>, key: T -> string): (c: Dict<nat>)
    ensures ValidDict(c)
    ensures c.keys == Dedup(KeySeq(s, key))
    ensures forall k :: k in c.values ==> c.values[k] == |Having(s, key, k)| > 0
  {
    if |s| == 0 then Dict([], map[])
    else
      var s0 := s[..|s| - 1];
      var x := s[|s| - 1];
      var c0 := Tally(s0, key);
      TallyStep(s, key, c0);
      Bump(c0, key(x))
  }

  /** Counting one more element keeps the counters exact. */
  lemma TallyStep<T>(s: seq<T>, key: T -> string, c0: Dict<nat>)
    requires |s| > 0
    requires ValidDict(c0)
    requires c0.keys == Dedup(KeySeq(s[..|s| - 1], key))
    requires forall k :: k in c0.values ==> c0.values[k] == |Having(s[..|s| - 1], key, k)| > 0
    ensures var c := Bump(c0, key(s[|s| - 1]));
            && ValidDict(c)
            && c.keys == Dedup(KeySeq(s, key))
            && forall k :: k in c.values ==> c.values[k] == |Having(s, key, k)| > 0
  {
    var c := Bump(c0, key(s[|s| - 1]));
    TallyKeysStep(s, key, c0);
    forall k | k in c.values
      ensures c.values[k] == |Having(s, key, k)| > 0
    {
      TallyCountStep(s, key, c0, k);
    }
  }

  lemma TallyKeysStep<T>(s: seq<T>, key: T -> string, c0: Dict<nat>)
    requires |s| > 0
    requires ValidDict(c0)
    requires c0.keys == Dedup(KeySeq(s[..|s| - 1], key))
    ensures var c := Bump(c0, key(s[|s| - 1]));
            ValidDict(c) && c.keys == Dedup(KeySeq(s, key))
  {
    var s0 := s[..|s| - 1];
    assert KeySeq(s, key) == KeySeq(s0, key) + [key(s[|s| - 1])];
    DedupBump(c0, KeySeq(s0, key), key(s[|s| - 1]));
  }

  /** Bumping a key keeps the keys the distinct ones seen so far. */
  lemma DedupBump(c0: Dict<nat>, t0: seq<string>, k: string)
    requires ValidDict(c0) && c0.keys == Dedup(t0)
    ensures ValidDict(Bump(c0, k)) && Bump(c0, k).keys == Dedup(t0 + [k])
  {
    var t := t0 + [k];
    assert t[..|t| - 1] == t0;
  }

  lemma TallyCountStep<T>(s: seq<T>, key: T -> string, c0: Dict<nat>, k: string)
    requires |s| > 0
    requires ValidDict(c0)
    requires c0.keys == Dedup(KeySeq(s[..|s| - 1], key))
    requires forall k :: k in c0.values ==> c0.values[k] == |Having(s[..|s| - 1], key, k)| > 0
    requires k in Bump(c0, key(s[|s| - 1])).values
    ensures Bump(c0, key(s[|s| - 1])).values[k] == |Having(s, key, k)| > 0
  {
    var s0 := s[..|s| - 1];
    var x := s[|s| - 1];
    if k == key(x) && k !in c0.values {
      assert k !in KeySeq(s0, key);
      HavingAbsent(s0, key, k);
    }
  }

  /** Sum of the counters of the given keys. */
  function Total(keys: seq<string>, m: map<string, nat>): nat
    requires forall k :: k in keys ==> k in m
  {
    if |keys| == 0 then 0 else Total(keys[..|keys| - 1], m) + m[keys[|keys| - 1]]
  }

  lemma {:induction false} TotalUpdate(keys: seq<string>, m: map<string, nat>, k: string, v: nat)
    requires forall j :: j in keys ==> j in m
    requires Distinct(keys)
    ensures k in keys ==> Total(keys, m[k := v]) + m[k] == Total(keys, m) + v
    ensures k !in keys ==> Total(keys, m[k := v]) == Total(keys, m)
  {
    if |keys| > 0 {
      var ks := keys[..|keys| - 1];
      assert Distinct(ks);
      assert k in keys ==> k in ks || k == keys[|keys| - 1];
      TotalUpdate(ks, m, k, v);
    }
  }

  /** Bumping one counter raises the total by one. */
  lemma BumpTotal(c0: Dict<nat>, k: string)
    requires ValidDict(c0)
    ensures var c := Bump(c0, k);
            (forall j :: j in c.keys ==> j in c.values) && Total(c.keys, c.values) == Total(c0.keys, c0.values) + 1
  {
    var c := Bump(c0, k);
    if k in c0.values {
      TotalUpdate(c0.keys, c0.values, k, c0.values[k] + 1);
    } else {
      TotalUpdate(c0.keys, c0.values, k, 1);
      assert c.keys[..|c.keys| - 1] == c0.keys;
    }
  }

  /** The counters of a tally add up to the number of elements counted. */
  lemma {:induction false} TallyTotal<T>(s: seq<T>, key: T -> string)
    ensures Total(Tally(s, key).keys, Tally(s, key).values) == |s|
  {
    if |s| > 0 {
      var s0 := s[..|s| - 1];
      var c0 := Tally(s0, key);
      TallyTotal(s0, key);
      BumpTotal(c0, key(s[|s| - 1]));
      assert Tally(s, key) == Bump(c0, key(s[|s| - 1]));
    }
  }

  /** The groups of a group-by hold as many elements as the tally of the same
      key counts, so they too add up to the number of elements. */
  lemma GroupSizesAreTally<T>(s: seq<T>, key: T -> string, k: string)
    requires k in GroupBy(s, key).values
    ensures k in Tally(s, key).values
    ensures |GroupBy(s, key).values[k]| == Tally(s, key).values[k]
  {
    GroupByShape(s, key);
  }

  /** The map from each group to its size is the tally of the same key. */
  lemma GroupSizesMap<T>(s: seq<T>, key: T -> string)
    ensures (map k | k in GroupBy(s, key).values :: |GroupBy(s, key).values[k]|) == Tally(s, key).values
  {
    var g := GroupBy(s, key);
    var c := Tally(s, key);
    GroupByShape(s, key);
    forall k | k in g.values ensures k in c.values && |g.values[k]| == c.values[k] {
      GroupSizesAreTally(s, key, k);
    }
    SizesOfSameKeys(g, c);
  }

  lemma SizesOfSameKeys<T>(g: Dict<seq<T>>, c: Dict<nat>)
    requires ValidDict(g) && ValidDict(c) && g.keys == c.keys
    requires forall k :: k in g.values ==> k in c.values && |g.values[k]| == c.values[k]
    ensures (map k | k in g.values :: |g.values[k]|) == c.values
  {
    var sizes := map k | k in g.values :: |g.values[k]|;
    assert sizes.Keys == c.values.Keys;
  }

  /** The group sizes of a group-by add up to the number of elements. */
  lemma GroupSizesTotal<T>(s: seq<T>, key: T -> string)
    ensures var g := GroupBy(s, key);
            ValidDict(g) && Total(g.keys, map k | k in g.values :: |g.values[k]|) == |s|
  {
    GroupByShape(s, key);
    GroupSizesMap(s, key);
    TallyTotal(s, key);
  }

  /** One more element of a filtered group-by loop. */
  lemma GroupFilterStep<T>(s: seq<T>, p: T -> bool, key: T -> string, i: int)
    requires 0 <= i < |s|
    ensures GroupBy(Filter(s[..i + 1], p), key)
         == if p(s[i]) then Push(GroupBy(Filter(s[..i], p), key), key(s[i]), s[i])
            else GroupBy(Filter(s[..i], p), key)
  {
    var t := s[..i + 1];
    assert t[..i] == s[..i] && t[i] == s[i];
    var f := Filter(s[..i], p);
    if p(s[i]) {
      var g := f + [s[i]];
      assert Filter(t, p) == g;
      assert g[..|g| - 1] == f && g[|g| - 1] == s[i];
    } else {
      assert Filter(t, p) == f;
    }
  }

  /** A sequence without repetitions has as many elements as its set. */
  lemma {:induction false} DistinctCard<T>(s: seq<T>)
    requires Distinct(s)
    ensures |set x | x in s| == |s|
  {
    if |s| > 0 {
      var s0 := s[..|s| - 1];
      assert Distinct(s0);
      DistinctCard(s0);
      assert (set x | x in s) == (set x | x in s0) + {s[|s| - 1]} by {
        assert s == s0 + [s[|s| - 1]];
      }
      assert s[|s| - 1] !in s0;
    }
  }

  /** Sorted ascending by rank. */
  predicate SortedBy<T>(s: seq<T>, rank: T -> int)
  {
    forall i, j :: 0 <= i < j < |s| ==> rank(s[i]) <= rank(s[j])
  }

  /** Insert x before the first element of rank at least rank(x), so that x
      stays ahead of the equal-ranked elements that followed it. */
  function InsertBy<T>(x: T, s: seq<T>, rank: T -> int): (r: seq<T>)
    requires SortedBy(s, rank)
    ensures multiset(r) == multiset(s) + multiset{x}
    ensures |r| == |s| + 1
    ensures SortedBy(r, rank)
  {
    if |s| == 0 || rank(x) <= rank(s[0]) then [x] + s
    else
      var t := InsertBy(x, s[1..], rank);
      assert s == [s[0]] + s[1..];
      assert forall j :: 0 <= j < |t| ==> rank(s[0]) <= rank(t[j]) by {
        forall j | 0 <= j < |t| ensures rank(s[0]) <= rank(t[j]) {
          assert t[j] in multiset(s[1..]) + multiset{x};
          if t[j] != x {
            assert t[j] in s[1..];
          }
        }
      }
      [s[0]] + t
  }

  /** `s.slice().sort((a, b) => rank(a) - rank(b))`: the engine's sort is
      stable, so for a consistent comparator its result is this insertion sort. */
  function SortBy<T>(s: seq<T>, rank: T -> int): (r: seq<T>)
    ensures multiset(r) == multiset(s)
    ensures |r| == |s|
    ensures SortedBy(r, rank)
  {
    if |s| == 0 then []
    else
      assert s == [s[0]] + s[1..];
      InsertBy(s[0], SortBy(s[1..], rank), rank)
  }

  /** The elements of rank c, in order. */
  function WithRank<T>(s: seq<T>, rank: T -> int, c: int): seq<T>
  {
    if |s| == 0 then [] else (if rank(s[0]) == c then [s[0]] else []) + WithRank(s[1..], rank, c)
  }

  lemma {:induction false} WithRankInsert<T>(x: T, s: seq<T>, rank: T -> int, c: int)
    requires SortedBy(s, rank)
    ensures WithRank(InsertBy(x, s, rank), rank, c)
         == if rank(x) == c then [x] + WithRank(s, rank, c) else WithRank(s, rank, c)
  {
    if |s| == 0 || rank(x) <= rank(s[0]) {
      assert ([x] + s)[1..] == s;
    } else {
      var t := InsertBy(x, s[1..], rank);
      assert ([s[0]] + t)[1..] == t;
      WithRankInsert(x, s[1..], rank, c);
      if rank(x) == c {
        // s[0] ranks strictly below x, so it is not of rank c
        assert rank(s[0]) != c;
      }
    }
  }

  /** The sort is stable: the elements of any one rank keep their input order. */
  lemma {:induction false} SortStable<T>(s: seq<T>, rank: T -> int, c: int)
    ensures WithRank(SortBy(s, rank), rank, c) == WithRank(s, rank, c)
  {
    if |s| > 0 {
      SortStable(s[1..], rank, c);
      WithRankInsert(s[0], SortBy(s[1..], rank), rank, c);
    }
  }

  /** `s.slice(0, n)`. */
  function Take<T>(s: seq<T>, n: nat): (r: seq<T>)
    ensures |r| == (if n < |s| then n else |s|)
    ensures r == s[..|r|]
  {
    if n < |s| then s[..n] else s
  }

  /** Key of an `Object.entries` pair. */
  function Fst<V>(p: (string, V)): string
  {
    p.0
  }

  /** Sum of the counts of a list of (key, count) entries. */
  function SumCounts(es: seq<(string, nat)>): nat
  {
    if |es| == 0 then 0 else SumCounts(es[..|es| - 1]) + es[|es| - 1].1
  }

  lemma {:induction false} SumCountsAppend(u: seq<(string, nat)>, v: seq<(string, nat)>)
    ensures SumCounts(u + v) == SumCounts(u) + SumCounts(v)
    decreases |v|
  {
    if |v| > 0 {
      assert (u + v)[..|u + v| - 1] == u + v[..|v| - 1];
      SumCountsAppend(u, v[..|v| - 1]);
    } else {
      assert u + v == u;
    }
  }

  lemma SumCountsRemove(b: seq<(string, nat)>, j: nat)
    requires j < |b|
    ensures SumCounts(b) == SumCounts(b[..j] + b[j + 1..]) + b[j].1
  {
    var u, w := b[..j], b[j + 1..];
    var one: seq<(string, nat)> := [b[j]];
    assert b == u + (one + w);
    SumCountsAppend(u, one + w);
    SumCountsAppend(one, w);
    SumCountsAppend(u, w);
    assert SumCounts(one) == b[j].1 by { assert one[..0] == []; }
  }

  /** Reordering the entries does not change their sum. */
  lemma {:induction false} SumCountsPermutation(a: seq<(string, nat)>, b: seq<(string, nat)>)
    requires multiset(a) == multiset(b)
    ensures SumCounts(a) == SumCounts(b)
    decreases |a|
  {
    if |a| > 0 {
      var x := a[|a| - 1];
      var a0 := a[..|a| - 1];
      assert a == a0 + [x];
      assert x in multiset(b);
      var j :| 0 <= j < |b| && b[j] == x;
      var b0 := b[..j] + b[j + 1..];
      assert multiset(b0) == multiset(a0) by {
        assert b == b[..j] + [x] + b[j + 1..];
        assert multiset(b) == multiset(b[..j]) + multiset{x} + multiset(b[j + 1..]);
        assert multiset(b0) == multiset(b[..j]) + multiset(b[j + 1..]);
        assert multiset(a) == multiset(a0) + multiset{x};
        assert multiset(b0) == multiset(b) - multiset{x};
        assert multiset(a0) == multiset(a) - multiset{x};
      }
      SumCountsPermutation(a0, b0);
      SumCountsRemove(b, j);
    }
  }

  /** The entries of a counting object add up to the total of its counters. */
  lemma {:induction false} EntriesTotal(d: Dict<nat>)
    requires forall k :: k in d.keys ==> k in d.values
    ensures SumCounts(Entries(d)) == Total(d.keys, d.values)
    decreases |d.keys|
  {
    if |d.keys| > 0 {
      var d0 := Dict(d.keys[..|d.keys| - 1], d.values);
      assert Entries(d)[..|d.keys| - 1] == Entries(d0);
      EntriesTotal(d0);
    }
  }
}
