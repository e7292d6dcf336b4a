/**
 * The home page's numbers: the metric cards and the "Top 10 Routes with Most
 * Buses" table (`value_counts().nlargest(10)` on `route_name`).
 */
module Home {
  import opened Text
  import opened Seqs
  import opened Listings

  /** `type.str.lower().str.contains('gov')`. */
  predicate IsGovt(r: Row)
  {
    Contains(Lower(r.listing.category), "gov")
  }

  /** `nunique()` of a column whose cells are never missing (`""` counts as a value). */
  function NUnique(xs: seq<string>): nat
  {
    |set x | x in xs|
  }

  /** There are never more distinct values than cells, and a non-empty column has at least one. */
  lemma {:induction false} NUniqueBounds(xs: seq<string>)
    ensures NUnique(xs) <= |xs|
    ensures xs != [] ==> 1 <= NUnique(xs)
  {
    if xs != [] {
      var init := xs[..|xs| - 1];
      NUniqueBounds(init);
      assert (set x | x in xs) == (set x | x in init) + {xs[|xs| - 1]} by {
        assert xs == init + [xs[|xs| - 1]];
      }
      assert xs[0] in (set x | x in xs);
    }
  }

  datatype Metrics = Metrics(
    totalBuses: nat,
    totalGovt: nat,
    totalPrivate: int,
    uniqueRoutes: nat,
    uniqueCorporations: nat)

  function Routes(table: seq<Row>): seq<string>
  {
    MapSeq(table, (r: Row) => r.listing.routeName)
  }

  function Corporations(table: seq<Row>): seq<string>
  {
    MapSeq(table, (r: Row) => r.corporation)
  }

  /** The five counting metric cards of the home page. */
  function Summarize(table: seq<Row>): (m: Metrics)
    ensures m.totalBuses == |table|
    ensures m.totalGovt <= m.totalBuses
    ensures m.totalGovt + m.totalPrivate == m.totalBuses
    ensures forall r :: r in Where(table, IsGovt) <==> r in table && IsGovt(r)
    ensures m.totalGovt == |Where(table, IsGovt)|
    ensures m.totalPrivate == |Where(table, Not(IsGovt))|
    ensures m.uniqueRoutes <= m.totalBuses && (table != [] ==> 1 <= m.uniqueRoutes)
    ensures m.uniqueCorporations <= m.totalBuses && (table != [] ==> 1 <= m.uniqueCorporations)
    ensures m.uniqueRoutes == NUnique(Routes(table)) && m.uniqueCorporations == NUnique(Corporations(table))
    ensures m.uniqueRoutes == |Ranked(Routes(table))|
  {
    DistinctCount(Routes(table));
    var totalBuses := |table|;
    var totalGovt := |Where(table, IsGovt)|;
    WherePartition(table, IsGovt);
    NUniqueBounds(Routes(table));
    NUniqueBounds(Corporations(table));
    Metrics(totalBuses, totalGovt, totalBuses - totalGovt, NUnique(Routes(table)), NUnique(Corporations(table)))
  }

  /** No value occurs twice. */
  ghost predicate NoDuplicates(xs: seq<string>)
  {
    forall i, j :: 0 <= i < j < |xs| ==> xs[i] != xs[j]
  }

  /** The distinct values of `xs` in order of first appearance (the grouping order). */
  function FirstAppearance(xs: seq<string>): (r: seq<string>)
    ensures NoDuplicates(r)
    ensures forall x :: x in r <==> x in xs
  {
    if xs == [] then []
    else
      var init := FirstAppearance(xs[..|xs| - 1]);
      assert forall x :: x in xs <==> x in xs[..|xs| - 1] || x == xs[|xs| - 1] by {
        assert xs == xs[..|xs| - 1] + [xs[|xs| - 1]];
      }
      if xs[|xs| - 1] in init then init else init + [xs[|xs| - 1]]
  }

  /** The number of rows of `names` equal to `x`: the `value_counts` entry of `x`. */
  function CountOf(names: seq<string>, x: string): nat
  {
    multiset(names)[x]
  }

  /** Counts never increase along `s`. */
  ghost predicate ByCountDesc(s: seq<string>, names: seq<string>)
  {
    forall i, j :: 0 <= i < j < |s| ==> CountOf(names, s[i]) >= CountOf(names, s[j])
  }

  /** Inserts `x` after every value whose count is at least that of `x`. */
  function InsertByCount(x: string, s: seq<string>, names: seq<string>): (r: seq<string>)
    requires ByCountDesc(s, names)
    ensures ByCountDesc(r, names)
    ensures multiset(r) == multiset(s) + multiset{x}
  {
    if s == [] then [x]
    else if CountOf(names, s[0]) < CountOf(names, x) then [x] + s
    else
      var rest := InsertByCount(x, s[1..], names);
      RestBelowHead(x, s, rest, names);
      assert s == [s[0]] + s[1..];
      [s[0]] + rest
  }

  /** What is inserted after a head of count at least `x`'s stays at or below the head's count. */
  lemma RestBelowHead(x: string, s: seq<string>, rest: seq<string>, names: seq<string>)
    requires s != [] && ByCountDesc(s, names) && CountOf(names, s[0]) >= CountOf(names, x)
    requires multiset(rest) == multiset(s[1..]) + multiset{x}
    ensures forall j :: 0 <= j < |rest| ==> CountOf(names, s[0]) >= CountOf(names, rest[j])
  {
    forall j | 0 <= j < |rest| ensures CountOf(names, s[0]) >= CountOf(names, rest[j]) {
      assert rest[j] in multiset(rest);
      if rest[j] != x {
        assert rest[j] in multiset(s[1..]);
        var k :| 0 <= k < |s[1..]| && s[1..][k] == rest[j];
        assert s[k + 1] == rest[j];
      }
    }
  }

  /** Orders `xs` by count, largest first; equal counts keep their order in `xs`. */
  function SortByCount(xs: seq<string>, names: seq<string>): (r: seq<string>)
    ensures ByCountDesc(r, names)
    ensures multiset(r) == multiset(xs)
  {
    if xs == [] then []
    else
      assert xs == xs[..|xs| - 1] + [xs[|xs| - 1]];
      InsertByCount(xs[|xs| - 1], SortByCount(xs[..|xs| - 1], names), names)
  }

  /** A rearrangement of a list without duplicates has none either. */
  lemma PermutationNoDuplicates(a: seq<string>, b: seq<string>)
    requires multiset(a) == multiset(b) && NoDuplicates(b)
    ensures NoDuplicates(a)
  {
    CountsAtMostOne(b);
    forall i, j | 0 <= i < j < |a| ensures a[i] != a[j] {
      RepeatCountsTwice(a, i, j);
    }
  }

  lemma RepeatCountsTwice(a: seq<string>, i: int, j: int)
    requires 0 <= i < j < |a|
    ensures a[i] == a[j] ==> multiset(a)[a[i]] >= 2
  {
    assert a == a[..j] + a[j..];
    assert a[i] in a[..j] && a[j] in a[j..];
    assert multiset(a) == multiset(a[..j]) + multiset(a[j..]);
  }

  lemma {:induction false} CountsAtMostOne(b: seq<string>)
    requires NoDuplicates(b)
    ensures forall x :: multiset(b)[x] <= 1
  {
    if b != [] {
      var init := b[..|b| - 1];
      assert b == init + [b[|b| - 1]];
      assert NoDuplicates(init);
      CountsAtMostOne(init);
      assert b[|b| - 1] !in init;
    }
  }

  /** One row of the "Top 10 Routes" table: the `Route` and `Bus Count` columns. */
  datatype RouteCount = RouteCount(route: string, busCount: nat)

  /** How many of the largest groups the chart keeps. */
  const TopN := 10

  /** Every distinct value of `names` once, largest count first (`value_counts()`). */
  function Ranked(names: seq<string>): (r: seq<string>)
    ensures ByCountDesc(r, names)
    ensures NoDuplicates(r)
    ensures forall x :: x in r <==> x in names
    ensures |r| == |FirstAppearance(names)|
  {
    var groups := FirstAppearance(names);
    var sorted := SortByCount(groups, names);
    assert |sorted| == |groups| by {
      assert |multiset(sorted)| == |multiset(groups)|;
    }
    assert forall x :: x in sorted <==> x in groups by {
      forall x ensures x in sorted <==> x in groups {
        assert x in sorted <==> x in multiset(sorted);
        assert x in groups <==> x in multiset(groups);
      }
    }
    PermutationNoDuplicates(sorted, groups);
    sorted
  }

  /**
   * `names.value_counts().nlargest(10)`: the values with the most rows,
   * largest count first. The source does not fix the order among equal
   * counts; here a value seen earlier comes first.
   */
  function TopCounts(names: seq<string>): (top: seq<RouteCount>)
    ensures |top| <= TopN
    ensures |top| == if |FirstAppearance(names)| < TopN then |FirstAppearance(names)| else TopN
  {
    var sorted := Ranked(names);
    var n := if |sorted| < TopN then |sorted| else TopN;
    seq(n, i requires 0 <= i < n => RouteCount(sorted[i], CountOf(names, sorted[i])))
  }

  /** Row `i` of the top table is the `i`-th ranked value with its count. */
  lemma TopCountsAt(names: seq<string>, i: int)
    requires 0 <= i < |TopCounts(names)|
    ensures i < |Ranked(names)|
    ensures TopCounts(names)[i] == RouteCount(Ranked(names)[i], CountOf(names, Ranked(names)[i]))
  {
  }

  /** Each listed count is the number of rows with that value, and the values are distinct. */
  lemma TopCountsExact(names: seq<string>)
    ensures forall i :: 0 <= i < |TopCounts(names)| ==>
              TopCounts(names)[i].route in names &&
              TopCounts(names)[i].busCount == CountOf(names, TopCounts(names)[i].route)
    ensures forall i, j :: 0 <= i < j < |TopCounts(names)| ==> TopCounts(names)[i].route != TopCounts(names)[j].route
  {
    var top := TopCounts(names);
    RankedPrefix(names, |top|);
    forall i | 0 <= i < |top| ensures top[i].route in names && top[i].busCount == CountOf(names, top[i].route) {
      TopCountsAt(names, i);
    }
    forall i, j | 0 <= i < j < |top| ensures top[i].route != top[j].route {
      TopCountsAt(names, i);
      TopCountsAt(names, j);
    }
  }

  /** The counts never increase down the table. */
  lemma TopCountsDescending(names: seq<string>)
    ensures forall i, j :: 0 <= i < j < |TopCounts(names)| ==> TopCounts(names)[i].busCount >= TopCounts(names)[j].busCount
  {
    var top := TopCounts(names);
    forall i, j | 0 <= i < j < |top| ensures top[i].busCount >= top[j].busCount {
      TopCountsAt(names, i);
      TopCountsAt(names, j);
    }
  }

  /** A value left out of the table has no more rows than any value in it. */
  lemma TopCountsLargest(names: seq<string>)
    ensures forall x :: x in names ==>
              (exists k :: 0 <= k < |TopCounts(names)| && TopCounts(names)[k].route == x) ||
              (forall i :: 0 <= i < |TopCounts(names)| ==> CountOf(names, x) <= TopCounts(names)[i].busCount)
  {
    var top := TopCounts(names);
    RankedPrefix(names, |top|);
    forall x | x in names
      ensures (exists k :: 0 <= k < |top| && top[k].route == x) ||
              (forall i :: 0 <= i < |top| ==> CountOf(names, x) <= top[i].busCount)
    {
      forall i | 0 <= i < |top| ensures top[i] == RouteCount(Ranked(names)[i], CountOf(names, Ranked(names)[i])) {
        TopCountsAt(names, i);
      }
    }
  }

  /** A route missing from the first `n` ranked routes has no more rows than any of them. */
  lemma RankedPrefix(names: seq<string>, n: int)
    requires 0 <= n <= |Ranked(names)|
    ensures forall i :: 0 <= i < n ==> Ranked(names)[i] in names
    ensures forall x :: x in names ==>
              (exists k :: 0 <= k < n && Ranked(names)[k] == x) ||
              (forall i :: 0 <= i < n ==> CountOf(names, x) <= CountOf(names, Ranked(names)[i]))
  {
    var sorted := Ranked(names);
    forall i | 0 <= i < n ensures sorted[i] in names {
      assert sorted[i] in sorted;
    }
    forall x | x in names
      ensures (exists k :: 0 <= k < n && sorted[k] == x) ||
              (forall i :: 0 <= i < n ==> CountOf(names, x) <= CountOf(names, sorted[i]))
    {
      var j :| 0 <= j < |sorted| && sorted[j] == x;
      if j < n {
        assert sorted[j] == x;
      }
    }
  }

  /** The "Top 10 Routes with Most Buses" table: `df_raw['route_name'].value_counts().nlargest(10)`. */
  function TopRoutes(table: seq<Row>): seq<RouteCount>
  {
    TopCounts(Routes(table))
  }

  /**
   * The top-routes table has at most ten rows, one per route, each with the
   * number of buses on that route, largest first, and no route left out has
   * more buses than one listed.
   */
  lemma TopRoutesSpec(table: seq<Row>)
    ensures |TopRoutes(table)| <= TopN
    ensures |TopRoutes(table)| == if NUnique(Routes(table)) < TopN then NUnique(Routes(table)) else TopN
    ensures forall i :: 0 <= i < |TopRoutes(table)| ==>
              TopRoutes(table)[i].route in Routes(table) &&
              TopRoutes(table)[i].busCount == CountOf(Routes(table), TopRoutes(table)[i].route)
    ensures forall i, j :: 0 <= i < j < |TopRoutes(table)| ==>
              TopRoutes(table)[i].busCount >= TopRoutes(table)[j].busCount &&
              TopRoutes(table)[i].route != TopRoutes(table)[j].route
    ensures forall x :: x in Routes(table) ==>
              (exists k :: 0 <= k < |TopRoutes(table)| && TopRoutes(table)[k].route == x) ||
              (forall i :: 0 <= i < |TopRoutes(table)| ==> CountOf(Routes(table), x) <= TopRoutes(table)[i].busCount)
  {
    var names := Routes(table);
    TopCountsExact(names);
    TopCountsDescending(names);
    TopCountsLargest(names);
    DistinctCount(names);
  }

  /** The number of groups is the number of distinct values. */
  lemma DistinctCount(names: seq<string>)
    ensures |FirstAppearance(names)| == NUnique(names)
  {
    var groups := FirstAppearance(names);
    assert (set x | x in groups) == (set x | x in names);
    DistinctSetSize(groups);
  }

  lemma {:induction false} DistinctSetSize(xs: seq<string>)
    requires NoDuplicates(xs)
    ensures |set x | x in xs| == |xs|
  {
    if xs != [] {
      var init := xs[..|xs| - 1];
      assert xs == init + [xs[|xs| - 1]];
      assert (set x | x in xs) == (set x | x in init) + {xs[|xs| - 1]};
      assert xs[|xs| - 1] !in init;
      DistinctSetSize(init);
    }
  }
}
