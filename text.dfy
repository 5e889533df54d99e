/**
 String helpers shared by the resource model and the parser: Python's ordering
 of `str` values, `sorted()` over a set of names, `startswith`/`endswith`,
 `str.partition`, and sums over name-keyed maps.
 */
module Text {
  import opened Wrappers

  // ---------------------------------------------------------------------------
  // Python's `<` on str: lexicographic by code point, a proper prefix first.
  // ---------------------------------------------------------------------------

  predicate Less(a: string, b: string)
    decreases |a|
  {
    if a == [] then b != []
    else if b == [] then false
    else a[0] < b[0] || (a[0] == b[0] && Less(a[1..], b[1..]))
  }

  lemma {:induction false} LessIrreflexive(a: string)
    ensures !Less(a, a)
    decreases |a|
  {
    if a != [] {
      LessIrreflexive(a[1..]);
    }
  }

  lemma {:induction false} LessAsymmetric(a: string, b: string)
    requires Less(a, b)
    ensures !Less(b, a)
    decreases |a|
  {
    if a != [] && b != [] && a[0] == b[0] {
      LessAsymmetric(a[1..], b[1..]);
    }
  }

  lemma {:induction false} LessTransitive(a: string, b: string, c: string)
    requires Less(a, b) && Less(b, c)
    ensures Less(a, c)
    decreases |a|
  {
    if a != [] && a[0] == b[0] && b[0] == c[0] {
      LessTransitive(a[1..], b[1..], c[1..]);
    }
  }

  lemma {:induction false} LessTotal(a: string, b: string)
    requires a != b
    ensures Less(a, b) || Less(b, a)
    decreases |a|
  {
    if a != [] && b != [] && a[0] == b[0] {
      assert a == [a[0]] + a[1..] && b == [b[0]] + b[1..];
      LessTotal(a[1..], b[1..]);
    }
  }

  // ---------------------------------------------------------------------------
  // sorted() over a set of str
  // ---------------------------------------------------------------------------

  /** Every element is strictly smaller than every later one (so no duplicates). */
  predicate StrictlyAscending(s: seq<string>)
  {
    forall i, j :: 0 <= i < j < |s| ==> Less(s[i], s[j])
  }

  function Elems(s: seq<string>): set<string>
  {
    set x | x in s
  }

  predicate IsLeast(m: string, s: set<string>)
  {
    m in s && forall y :: y in s ==> y == m || Less(m, y)
  }

  lemma {:induction false} LeastExists(s: set<string>)
    requires s != {}
    ensures exists m :: IsLeast(m, s)
    decreases s
  {
    var x :| x in s;
    if s == {x} {
      assert IsLeast(x, s);
    } else {
      LeastExists(s - {x});
      var m :| IsLeast(m, s - {x});
      if Less(x, m) {
        forall y | y in s && y != x
          ensures Less(x, y)
        {
          if y != m {
            LessTransitive(x, m, y);
          }
        }
        assert IsLeast(x, s);
      } else {
        LessTotal(x, m);
        assert IsLeast(m, s);
      }
    }
  }

  lemma LeastUnique(m1: string, m2: string, s: set<string>)
    requires IsLeast(m1, s) && IsLeast(m2, s)
    ensures m1 == m2
  {
    if m1 != m2 {
      LessAsymmetric(m1, m2);
      assert false;
    }
  }

  /** The strictly ascending sequence of the elements of `s`: Python's `sorted(s)`. */
  ghost function SortedSet(s: set<string>): (r: seq<string>)
    ensures |r| == |s|
    ensures forall x :: x in r <==> x in s
    ensures StrictlyAscending(r)
    decreases s
  {
    if s == {} then []
    else
      LeastExists(s);
      var m :| IsLeast(m, s);
      [m] + SortedSet(s - {m})
  }

  lemma {:induction false} AscendingCard(a: seq<string>)
    requires StrictlyAscending(a)
    ensures |Elems(a)| == |a|
    decreases |a|
  {
    if a != [] {
      forall k | 0 <= k < |a| - 1
        ensures a[1..][k] != a[0]
      {
        assert Less(a[0], a[k + 1]);
        LessIrreflexive(a[0]);
      }
      assert Elems(a) == {a[0]} + Elems(a[1..]);
      assert a[0] !in Elems(a[1..]);
      AscendingCard(a[1..]);
    }
  }

  /** A strictly ascending sequence is determined by its elements. */
  lemma {:induction false} SortedUnique(a: seq<string>, b: seq<string>)
    requires StrictlyAscending(a) && StrictlyAscending(b)
    requires forall x :: x in a <==> x in b
    ensures a == b
    decreases |a|
  {
    AscendingCard(a);
    AscendingCard(b);
    assert Elems(a) == Elems(b);
    if |a| > 0 {
      assert IsLeast(a[0], Elems(a)) by {
        forall y | y in Elems(a) ensures y == a[0] || Less(a[0], y) {
          var i :| 0 <= i < |a| && a[i] == y;
        }
      }
      assert IsLeast(b[0], Elems(a)) by {
        forall y | y in Elems(b) ensures y == b[0] || Less(b[0], y) {
          var i :| 0 <= i < |b| && b[i] == y;
        }
      }
      LeastUnique(a[0], b[0], Elems(a));
      forall x
        ensures x in a[1..] <==> x in b[1..]
      {
        if x in a[1..] {
          var i :| 0 <= i < |a| - 1 && a[1..][i] == x;
          assert Less(a[0], a[i + 1]);
          LessIrreflexive(a[0]);
          assert x in b && x != b[0];
        }
        if x in b[1..] {
          var i :| 0 <= i < |b| - 1 && b[1..][i] == x;
          assert Less(b[0], b[i + 1]);
          LessIrreflexive(b[0]);
          assert x in a && x != a[0];
        }
      }
      SortedUnique(a[1..], b[1..]);
      assert a == [a[0]] + a[1..] && b == [b[0]] + b[1..];
    }
  }

  /** `r` holds the elements of `s`, each once, in strictly ascending order. */
  ghost predicate IsSortedListing(r: seq<string>, s: set<string>)
  {
    StrictlyAscending(r) && forall x :: x in r <==> x in s
  }

  /** There is only one sorted listing of a set: `sorted(s)`. */
  lemma SortedListingUnique(r: seq<string>, s: set<string>)
    requires IsSortedListing(r, s)
    ensures r == SortedSet(s)
  {
    SortedUnique(r, SortedSet(s));
  }

  /** Computes `sorted(s)` by repeatedly taking the least remaining element. */
  method SortedKeys(s: set<string>) returns (r: seq<string>)
    ensures IsSortedListing(r, s)
    ensures |r| == |s|
  {
    r := [];
    var rest := s;
    while rest != {}
      invariant rest <= s
      invariant StrictlyAscending(r)
      invariant forall x :: x in r <==> x in s && x !in rest
      invariant forall i, y :: 0 <= i < |r| && y in rest ==> Less(r[i], y)
      decreases rest
    {
      LeastExists(rest);
      var m :| IsLeast(m, rest);
      r := r + [m];
      rest := rest - {m};
    }
    AscendingCard(r);
    assert Elems(r) == s;
  }

  /** The values of `m` in ascending order of their keys. */
  ghost function ValuesByKey<V>(m: map<string, V>): (r: seq<V>)
    ensures |r| == |m.Keys|
    ensures forall i :: 0 <= i < |r| ==> SortedSet(m.Keys)[i] in m && r[i] == m[SortedSet(m.Keys)[i]]
    ensures forall k :: k in m ==> m[k] in r
  {
    var ks := SortedSet(m.Keys);
    var r := seq(|ks|, i requires 0 <= i < |ks| => m[ks[i]]);
    assert forall k :: k in m ==> m[k] in r by {
      forall k | k in m ensures m[k] in r {
        var i :| 0 <= i < |ks| && ks[i] == k;
        assert r[i] == m[k];
      }
    }
    r
  }

  // ---------------------------------------------------------------------------
  // startswith / endswith / find / partition
  // ---------------------------------------------------------------------------

  predicate StartsWith(s: string, prefix: string)
  {
    |prefix| <= |s| && s[..|prefix|] == prefix
  }

  predicate EndsWith(s: string, suffix: string)
  {
    |suffix| <= |s| && s[|s| - |suffix|..] == suffix
  }

  predicate OccursAt(s: string, pat: string, j: int)
  {
    0 <= j && j + |pat| <= |s| && s[j..j + |pat|] == pat
  }

  /** Index of the first occurrence of `pat` in `s`, if any. */
  function Find(s: string, pat: string): (r: Option<nat>)
    ensures r.Some? ==> OccursAt(s, pat, r.value)
    ensures forall j :: 0 <= j && (r.None? || j < r.value) ==> !OccursAt(s, pat, j)
    decreases |s|
  {
    if |s| < |pat| then None
    else if s[..|pat|] == pat then Some(0)
    else
      match Find(s[1..], pat)
      case None =>
        assert forall j :: 1 <= j ==> (OccursAt(s, pat, j) <==> OccursAt(s[1..], pat, j - 1));
        None
      case Some(k) =>
        assert forall j :: 1 <= j ==> (OccursAt(s, pat, j) <==> OccursAt(s[1..], pat, j - 1));
        Some(k + 1)
  }

  /**
   Python's `s.partition(sep)`: the text before the first `sep`, the separator
   (or "" when there is none) and the text after it.
   */
  function Partition(s: string, sep: string): (r: (string, string, string))
    requires sep != []
    ensures r.0 + r.1 + r.2 == s
    ensures r.1 == [] <==> forall j :: !OccursAt(s, sep, j)
    ensures r.1 != [] ==> r.1 == sep && forall j :: 0 <= j < |r.0| ==> !OccursAt(s, sep, j)
    ensures r.1 == [] ==> r.0 == s && r.2 == []
  {
    match Find(s, sep)
    case None => (s, [], [])
    case Some(i) =>
      assert s == s[..i] + sep + s[i + |sep|..];
      (s[..i], sep, s[i + |sep|..])
  }

  // ---------------------------------------------------------------------------
  // Filling a dict in a loop: later entries overwrite earlier ones
  // ---------------------------------------------------------------------------

  /**
   The dict a loop builds with `d[key(x)] = val(x)` over `xs` in order,
   skipping the elements whose key is None.
   */
  function LastWins<T, V>(xs: seq<T>, key: T -> Option<string>, val: T -> V): map<string, V>
    decreases |xs|
  {
    if xs == [] then map[]
    else
      var prev := LastWins(xs[..|xs| - 1], key, val);
      match key(xs[|xs| - 1])
      case None => prev
      case Some(k) => prev[k := val(xs[|xs| - 1])]
  }

  /**
   When every element has a key and its value depends on the key alone, the
   order no longer matters: the dict maps each key that occurs to that value.
   */
  lemma {:induction false} LastWinsUniform<T, V>(xs: seq<T>, key: T -> Option<string>, val: T -> V, f: string -> V)
    requires forall j :: 0 <= j < |xs| ==> key(xs[j]).Some? && val(xs[j]) == f(key(xs[j]).value)
    ensures forall k :: k in LastWins(xs, key, val) <==> exists j :: 0 <= j < |xs| && key(xs[j]) == Some(k)
    ensures forall k :: k in LastWins(xs, key, val) ==> LastWins(xs, key, val)[k] == f(k)
    decreases |xs|
  {
    if xs != [] {
      var init := xs[..|xs| - 1];
      LastWinsUniform(init, key, val, f);
      assert forall j :: 0 <= j < |init| ==> init[j] == xs[j];
      forall k | exists j :: 0 <= j < |xs| && key(xs[j]) == Some(k)
        ensures k in LastWins(xs, key, val)
      {
        var j :| 0 <= j < |xs| && key(xs[j]) == Some(k);
        if j < |init| {
          assert key(init[j]) == Some(k);
        }
      }
    }
  }

  /** When element `j` has key `ks[j]` and a value that depends on the key alone, the dict holds the listed keys, each with its value. */
  lemma LastWinsListing<T, V>(xs: seq<T>, ks: seq<string>, key: T -> Option<string>, val: T -> V, f: string -> V)
    requires |xs| == |ks|
    requires forall j :: 0 <= j < |xs| ==> key(xs[j]) == Some(ks[j]) && val(xs[j]) == f(ks[j])
    ensures forall k :: k in LastWins(xs, key, val) <==> k in ks
    ensures forall k :: k in LastWins(xs, key, val) ==> LastWins(xs, key, val)[k] == f(k)
  {
    LastWinsUniform(xs, key, val, f);
    var m := LastWins(xs, key, val);
    forall k | k in ks
      ensures k in m
    {
      var j :| 0 <= j < |ks| && ks[j] == k;
      assert key(xs[j]) == Some(k);
    }
    forall k | k in m
      ensures k in ks
    {
      var j :| 0 <= j < |xs| && key(xs[j]) == Some(k);
      assert ks[j] == k;
    }
  }

  /** One more loop iteration: the dict after `j + 1` elements is the dict after `j`, updated by element `j`. */
  lemma LastWinsPrefix<T, V>(xs: seq<T>, key: T -> Option<string>, val: T -> V, j: nat)
    requires j < |xs|
    ensures LastWins(xs[..j + 1], key, val) ==
      match key(xs[j])
      case None => LastWins(xs[..j], key, val)
      case Some(k) => LastWins(xs[..j], key, val)[k := val(xs[j])]
  {
    assert xs[..j + 1][..j] == xs[..j];
  }

  /** `xs[i]` has key `k` and no later element has. */
  predicate IsLastWith<T>(xs: seq<T>, key: T -> Option<string>, k: string, i: int)
  {
    0 <= i < |xs| && key(xs[i]) == Some(k) && forall j :: i < j < |xs| ==> key(xs[j]) != Some(k)
  }

  /** A key is present iff some element has it, and it holds the value of the last such element. */
  lemma {:induction false} LastWinsSpec<T, V>(xs: seq<T>, key: T -> Option<string>, val: T -> V)
    ensures forall k :: k in LastWins(xs, key, val) <==> exists i :: 0 <= i < |xs| && key(xs[i]) == Some(k)
    ensures forall k :: k in LastWins(xs, key, val) ==>
      exists i :: IsLastWith(xs, key, k, i) && LastWins(xs, key, val)[k] == val(xs[i])
    decreases |xs|
  {
    if xs != [] {
      var prefix := xs[..|xs| - 1];
      var x := xs[|xs| - 1];
      var prev := LastWins(prefix, key, val);
      var r := LastWins(xs, key, val);
      LastWinsSpec(prefix, key, val);
      assert forall i :: 0 <= i < |prefix| ==> prefix[i] == xs[i];
      forall k
        ensures k in r <==> exists i :: 0 <= i < |xs| && key(xs[i]) == Some(k)
      {
        if k in prev {
          var i :| 0 <= i < |prefix| && key(prefix[i]) == Some(k);
          assert key(xs[i]) == Some(k);
        }
        if exists i :: 0 <= i < |xs| && key(xs[i]) == Some(k) {
          var i :| 0 <= i < |xs| && key(xs[i]) == Some(k);
          if i < |prefix| {
            assert key(prefix[i]) == Some(k);
          }
        }
      }
      forall k | k in r
        ensures exists i :: IsLastWith(xs, key, k, i) && r[k] == val(xs[i])
      {
        if key(x) == Some(k) {
          assert IsLastWith(xs, key, k, |xs| - 1);
        } else {
          var i :| IsLastWith(prefix, key, k, i) && prev[k] == val(prefix[i]);
          assert IsLastWith(xs, key, k, i);
        }
      }
    }
  }

  /** `d.update(part(x))` for each `x` of `xs` in order, starting from `{}`. */
  function UnionAll<T, V>(xs: seq<T>, part: T -> map<string, V>): map<string, V>
    decreases |xs|
  {
    if xs == [] then map[] else UnionAll(xs[..|xs| - 1], part) + part(xs[|xs| - 1])
  }

  /** `part(xs[i])` has key `k` and no later part has. */
  predicate IsLastHolding<T, V>(xs: seq<T>, part: T -> map<string, V>, k: string, i: int)
  {
    0 <= i < |xs| && k in part(xs[i]) && forall j :: i < j < |xs| ==> k !in part(xs[j])
  }

  /** A key is present iff some part has it. */
  lemma {:induction false} UnionAllKeys<T, V>(xs: seq<T>, part: T -> map<string, V>)
    ensures forall k :: k in UnionAll(xs, part) <==> exists i :: 0 <= i < |xs| && k in part(xs[i])
    decreases |xs|
  {
    if xs != [] {
      var prefix := xs[..|xs| - 1];
      UnionAllKeys(prefix, part);
      forall k
        ensures k in UnionAll(xs, part) <==> exists i :: 0 <= i < |xs| && k in part(xs[i])
      {
        if k in UnionAll(prefix, part) {
          var i :| 0 <= i < |prefix| && k in part(prefix[i]);
          assert prefix[i] == xs[i];
        }
        if exists i :: 0 <= i < |xs| && k in part(xs[i]) {
          var i :| 0 <= i < |xs| && k in part(xs[i]);
          if i < |prefix| {
            assert prefix[i] == xs[i];
          }
        }
      }
    }
  }

  /** A present key holds the value of the last part that has it. */
  lemma {:induction false} UnionAllLast<T, V>(xs: seq<T>, part: T -> map<string, V>)
    ensures forall k :: k in UnionAll(xs, part) ==>
      exists i :: IsLastHolding(xs, part, k, i) && UnionAll(xs, part)[k] == part(xs[i])[k]
    decreases |xs|
  {
    if xs != [] {
      var prefix := xs[..|xs| - 1];
      var x := xs[|xs| - 1];
      var prev := UnionAll(prefix, part);
      var r := UnionAll(xs, part);
      UnionAllLast(prefix, part);
      forall k | k in r
        ensures exists i :: IsLastHolding(xs, part, k, i) && r[k] == part(xs[i])[k]
      {
        if k in part(x) {
          assert IsLastHolding(xs, part, k, |xs| - 1);
        } else {
          var i :| IsLastHolding(prefix, part, k, i) && prev[k] == part(prefix[i])[k];
          forall j | i < j < |xs|
            ensures k !in part(xs[j])
          {
            if j < |prefix| {
              assert prefix[j] == xs[j];
            }
          }
          assert prefix[i] == xs[i];
          assert IsLastHolding(xs, part, k, i);
        }
      }
    }
  }

  /** `[x for x in xs if keep(x)]`. */
  function Filter<T>(xs: seq<T>, keep: T -> bool): (r: seq<T>)
    ensures forall x :: x in r ==> keep(x)
    decreases |xs|
  {
    if xs == [] then []
    else Filter(xs[..|xs| - 1], keep) + (if keep(xs[|xs| - 1]) then [xs[|xs| - 1]] else [])
  }

  /** Filtering out elements whose part is empty does not change the union. */
  lemma {:induction false} UnionAllFilter<T, V>(xs: seq<T>, keep: T -> bool, part: T -> map<string, V>)
    requires forall x :: !keep(x) ==> part(x) == map[]
    ensures UnionAll(Filter(xs, keep), part) == UnionAll(xs, part)
    decreases |xs|
  {
    if xs != [] {
      var prefix := xs[..|xs| - 1];
      var x := xs[|xs| - 1];
      var ys := Filter(prefix, keep);
      UnionAllFilter(prefix, keep, part);
      if keep(x) {
        assert (ys + [x])[..|ys|] == ys;
      } else {
        assert Filter(xs, keep) == ys + [];
        assert ys + [] == ys;
        assert UnionAll(xs, part) == UnionAll(prefix, part) + map[];
      }
    }
  }

  // ---------------------------------------------------------------------------
  // Sums over name-keyed maps of lengths
  // ---------------------------------------------------------------------------

  /** Python's `sum(...)` over the values of a name-keyed map. */
  ghost function SumValues(m: map<string, nat>): nat
    decreases m.Keys
  {
    if m == map[] then 0
    else
      var k :| k in m;
      m[k] + SumValues(m - {k})
  }

  lemma {:induction false} SumRemove(m: map<string, nat>, k: string)
    requires k in m
    ensures SumValues(m) == m[k] + SumValues(m - {k})
    decreases m.Keys
  {
    var j :| j in m && SumValues(m) == m[j] + SumValues(m - {j});
    if j != k {
      SumRemove(m - {j}, k);
      SumRemove(m - {k}, j);
      assert m - {j} - {k} == m - {k} - {j};
    }
  }

  /** Storing `v` under `k` replaces the old contribution of `k` by `v`. */
  lemma SumUpdate(m: map<string, nat>, k: string, v: nat)
    ensures SumValues(m[k := v]) == SumValues(m) - (if k in m then m[k] else 0) + v
  {
    SumRemove(m[k := v], k);
    if k in m {
      SumRemove(m, k);
      assert m[k := v] - {k} == m - {k};
    } else {
      assert m[k := v] - {k} == m;
    }
  }

  /** When every value is at least one, the sum is at least the number of keys. */
  lemma {:induction false} SumAtLeastSize(m: map<string, nat>)
    ensures (forall k :: k in m ==> m[k] >= 1) ==> SumValues(m) >= |m|
    decreases m.Keys
  {
    if m != map[] {
      var k :| k in m;
      SumRemove(m, k);
      SumAtLeastSize(m - {k});
      assert (m - {k}).Keys == m.Keys - {k};
    }
  }

  lemma DisjointIff<T>(a: set<T>, b: set<T>)
    ensures a !! b <==> a * b == {}
  {
    if a !! b {
      assert forall x :: x !in a * b;
    }
    if a * b == {} {
      forall x | x in a
        ensures x !in b
      {
        assert x !in a * b;
      }
    }
  }

  /** Sizes of three sets against the size of their union. */
  lemma CardUnion3<T>(a: set<T>, b: set<T>, c: set<T>)
    ensures |a| + |b| + |c| >= |a + b + c|
    ensures |a| + |b| + |c| == |a + b + c| <==> a !! b && a !! c && b !! c
  {
    assert |a + b| + |a * b| == |a| + |b|;
    assert |(a + b) + c| + |(a + b) * c| == |a + b| + |c|;
    assert (a + b) * c == a * c + b * c;
    DisjointIff(a, b);
    DisjointIff(a, c);
    DisjointIff(b, c);
    assert |a * b| == 0 <==> a * b == {};
    assert |(a + b) * c| == 0 <==> (a + b) * c == {};
  }
}
