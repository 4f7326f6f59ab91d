/**
 * Q5 (analysis.py lines 151-156): the ten most recent incidents of every
 * street.
 *
 * `sort_values([STREET, OCCURRED_ON_DATE], ascending=False)` orders each
 * street's rows newest first (a multi-key sort is stable, so rows with the
 * same timestamp keep their table order), and `groupby(STREET).head(10)`
 * keeps the first ten rows of each street. A row is therefore kept exactly
 * when fewer than ten rows of its street come before it in that order.
 * Rows without a street belong to no group and are not kept.
 */
module RecentIncidents {
  import opened Wrappers
  import opened Incidents
  import opened Counting

  /** The `n` of `head(10)`. */
  const Limit: nat := 10

  /** Row `j` comes before row `i` in the newest-first order of one street. */
  predicate MoreRecent(t: Table, j: int, i: int)
    requires 0 <= i < |t| && 0 <= j < |t|
  {
    t[j].occurred > t[i].occurred || (t[j].occurred == t[i].occurred && j < i)
  }

  /** The rows of street `s`, by index. */
  function StreetRows(t: Table, s: string): set<int> {
    set i | 0 <= i < |t| && t[i].street == Some(s)
  }

  /** The rows of street `s` that come before row `i` in the newest-first order. */
  function Before(t: Table, s: string, i: int): set<int>
    requires 0 <= i < |t|
  {
    set j | 0 <= j < |t| && t[j].street == Some(s) && MoreRecent(t, j, i)
  }

  /** Position of row `i` within its street after the sort (0 for the newest). */
  function Rank(t: Table, i: int): nat
    requires 0 <= i < |t| && t[i].street.Some?
  {
    |Before(t, t[i].street.value, i)|
  }

  /** `head(10)` keeps row `i`. */
  predicate Kept(t: Table, i: int)
    requires 0 <= i < |t|
  {
    t[i].street.Some? && Rank(t, i) < Limit
  }

  /** The rows `i < n` that `keep` selects, in table order (a boolean mask over row labels). */
  function Select(t: Table, keep: int -> bool, n: nat): (r: Table)
    requires n <= |t|
    ensures multiset(r) <= multiset(t[..n])
  {
    if n == 0 then [] else
      var r := Select(t, keep, n - 1) + (if keep(n - 1) then [t[n - 1]] else []);
      assert t[..n] == t[..n - 1] + [t[n - 1]];
      r
  }

  function KeptP(t: Table): int -> bool {
    i => 0 <= i < |t| && Kept(t, i)
  }

  /** Q5: the rows `head(10)` keeps. Their order after the sort (street, then time, descending) is not modelled. */
  function Recent(t: Table): (r: Table)
    ensures multiset(r) <= multiset(t)
  {
    assert t[..|t|] == t;
    Select(t, KeptP(t), |t|)
  }

  function OnStreetP(s: string): Incident -> bool {
    (r: Incident) => r.street == Some(s)
  }

  // ------------------------------------------------------------ cardinality facts

  lemma StrictSubsetCard(a: set<int>, b: set<int>, x: int)
    requires a <= b && x in b && x !in a
    ensures |a| < |b|
  {
    assert b == a + (b - a);
    assert x in b - a;
  }

  /** Ranks grow along the newest-first order: a row before another has a smaller rank. */
  lemma RankMonotone(t: Table, j: int, i: int)
    requires 0 <= i < |t| && 0 <= j < |t| && t[i].street.Some? && t[j].street == t[i].street
    requires MoreRecent(t, j, i)
    ensures Rank(t, j) < Rank(t, i)
  {
    var s := t[i].street.value;
    assert Before(t, s, j) <= Before(t, s, i);
    StrictSubsetCard(Before(t, s, j), Before(t, s, i), j);
  }

  /** Every rank is below the number of rows of the street. */
  lemma RankBelowCount(t: Table, i: int)
    requires 0 <= i < |t| && t[i].street.Some?
    ensures Rank(t, i) < |StreetRows(t, t[i].street.value)|
  {
    var s := t[i].street.value;
    StrictSubsetCard(Before(t, s, i), StreetRows(t, s), i);
  }

  /** Rows of street `s` whose ranks lie in [lo, hi) number at most hi - lo, since ranks are distinct. */
  lemma {:induction false} RanksInRange(t: Table, s: string, a: set<int>, lo: nat, hi: nat)
    requires lo <= hi
    requires a <= StreetRows(t, s)
    requires forall i :: i in a ==> lo <= Rank(t, i) < hi
    ensures |a| <= hi - lo
    decreases hi - lo
  {
    if lo == hi {
      assert a == {};
    } else {
      var below := set i | i in a && Rank(t, i) < hi - 1;
      RanksInRange(t, s, below, lo, hi - 1);
      var top := a - below;
      OneAtRank(t, s, top, hi - 1);
      assert a == below + top && below !! top;
    }
  }

  /** At most one row of street `s` has a given rank, since ranks are distinct. */
  lemma OneAtRank(t: Table, s: string, top: set<int>, r: nat)
    requires top <= StreetRows(t, s)
    requires forall i :: i in top ==> Rank(t, i) == r
    ensures |top| <= 1
  {
    if top != {} {
      var x :| x in top;
      forall y | y in top ensures y == x {
        if y != x {
          if MoreRecent(t, x, y) { RankMonotone(t, x, y); } else { RankMonotone(t, y, x); }
        }
      }
      assert top == {x};
    }
  }

  // ------------------------------------------------------------ from indices to the output

  /** The rows of street `s` among the first `n` that `keep` selects, by index. */
  function SelectedRows(t: Table, keep: int -> bool, s: string, n: nat): set<int> {
    set i | 0 <= i < n && i < |t| && t[i].street == Some(s) && keep(i)
  }

  lemma SelectedRowsStep(t: Table, keep: int -> bool, s: string, n: nat)
    requires 0 < n <= |t|
    ensures SelectedRows(t, keep, s, n)
         == SelectedRows(t, keep, s, n - 1) + (if keep(n - 1) && t[n - 1].street == Some(s) then {n - 1} else {})
  {
  }

  lemma {:induction false} CountSelect(t: Table, keep: int -> bool, s: string, n: nat)
    requires n <= |t|
    ensures CountWhere(Select(t, keep, n), OnStreetP(s)) == |SelectedRows(t, keep, s, n)|
  {
    if n == 0 {
      assert SelectedRows(t, keep, s, n) == {};
    } else {
      var last := if keep(n - 1) then [t[n - 1]] else [];
      assert Select(t, keep, n) == Select(t, keep, n - 1) + last;
      CountSelect(t, keep, s, n - 1);
      CountConcat(Select(t, keep, n - 1), last, OnStreetP(s));
      SelectedRowsStep(t, keep, s, n);
    }
  }

  function StreetRowsUpTo(t: Table, s: string, n: nat): set<int> {
    set i | 0 <= i < n && i < |t| && t[i].street == Some(s)
  }

  lemma StreetRowsStep(t: Table, s: string, n: nat)
    requires 0 < n <= |t|
    ensures StreetRowsUpTo(t, s, n) == StreetRowsUpTo(t, s, n - 1) + (if t[n - 1].street == Some(s) then {n - 1} else {})
  {
  }

  lemma {:induction false} CountStreetRows(t: Table, s: string, n: nat)
    requires n <= |t|
    ensures CountWhere(t[..n], OnStreetP(s)) == |StreetRowsUpTo(t, s, n)|
  {
    if n == 0 {
      assert StreetRowsUpTo(t, s, n) == {};
    } else {
      CountStreetRows(t, s, n - 1);
      assert t[..n][..n - 1] == t[..n - 1];
      StreetRowsStep(t, s, n);
    }
  }

  // ------------------------------------------------------------ what Q5 promises

  /** The rows of street `s` that `head(10)` keeps number min(10, rows of the street). */
  lemma KeptRowCount(t: Table, s: string)
    ensures var n := |StreetRows(t, s)|;
      |SelectedRows(t, KeptP(t), s, |t|)| == if n <= Limit then n else Limit
  {
    var all := StreetRows(t, s);
    var kept := SelectedRows(t, KeptP(t), s, |t|);
    var n := |all|;
    forall i | i in all ensures Rank(t, i) < n {
      RankBelowCount(t, i);
    }
    if n <= Limit {
      assert kept == all;
    } else {
      RanksInRange(t, s, kept, 0, Limit);
      var dropped := all - kept;
      RanksInRange(t, s, dropped, Limit, n);
      assert all == kept + dropped;
    }
  }

  /**
   * Every street keeps exactly min(10, its number of incidents) rows: at
   * most ten, and all of them when it has ten or fewer.
   */
  lemma RecentPerStreet(t: Table, s: string)
    ensures var n := CountWhere(t, OnStreetP(s));
      CountWhere(Recent(t), OnStreetP(s)) == if n <= Limit then n else Limit
  {
    assert t[..|t|] == t;
    CountSelect(t, KeptP(t), s, |t|);
    CountStreetRows(t, s, |t|);
    assert StreetRowsUpTo(t, s, |t|) == StreetRows(t, s);
    KeptRowCount(t, s);
  }

  /** A street with at most ten incidents keeps all of them, each as often as it occurs. */
  lemma SmallStreetKeptWhole(t: Table, s: string)
    requires CountWhere(t, OnStreetP(s)) <= Limit
    ensures multiset(Filter(Recent(t), OnStreetP(s))) == multiset(Filter(t, OnStreetP(s)))
  {
    CountStreetRows(t, s, |t|);
    assert t[..|t|] == t;
    assert StreetRowsUpTo(t, s, |t|) == StreetRows(t, s);
    forall i | 0 <= i < |t| && t[i].street == Some(s) ensures KeptP(t)(i) {
      RankBelowCount(t, i);
    }
    FilterSelect(t, KeptP(t), s, |t|);
  }

  lemma {:induction false} FilterSelect(t: Table, keep: int -> bool, s: string, n: nat)
    requires n <= |t|
    requires forall i :: 0 <= i < n && t[i].street == Some(s) ==> keep(i)
    ensures Filter(Select(t, keep, n), OnStreetP(s)) == Filter(t[..n], OnStreetP(s))
  {
    if n > 0 {
      PrefixSnoc(t, n);
      FilterSelect(t, keep, s, n - 1);
      FilterStep(Select(t, keep, n - 1), t[..n - 1], t[n - 1], keep(n - 1), OnStreetP(s));
    }
  }

  /** Two sequences that filter alike still do after appending `x`, dropped from the first only where it fails the filter. */
  lemma FilterStep<T>(a: seq<T>, b: seq<T>, x: T, keep: bool, p: T -> bool)
    requires Filter(a, p) == Filter(b, p)
    requires keep || !p(x)
    ensures Filter(a + (if keep then [x] else []), p) == Filter(b + [x], p)
  {
    FilterSnoc(b, x, p);
    if keep {
      FilterSnoc(a, x, p);
    } else {
      assert a + [] == a;
    }
  }

  lemma PrefixSnoc<T>(t: seq<T>, n: nat)
    requires 0 < n <= |t|
    ensures t[..n] == t[..n - 1] + [t[n - 1]]
  {
  }

  /** Filtering a sequence extended by one element extends the filtered sequence by that element if it passes. */
  lemma FilterSnoc<T>(a: seq<T>, x: T, p: T -> bool)
    ensures Filter(a + [x], p) == Filter(a, p) + (if p(x) then [x] else [])
  {
    assert (a + [x])[..|a|] == a;
  }

  /** No dropped row of a street is more recent than a kept row of that street. */
  lemma KeptAreMostRecent(t: Table, i: int, j: int)
    requires 0 <= i < |t| && 0 <= j < |t|
    requires Kept(t, i) && !Kept(t, j) && t[j].street == t[i].street
    ensures t[j].occurred <= t[i].occurred
  {
    if t[j].occurred > t[i].occurred {
      RankMonotone(t, j, i);
    }
  }

  /** The rows of street `s` that `head(10)` keeps, by index. */
  function KeptOnStreetP(t: Table, s: string): int -> bool {
    i => 0 <= i < |t| && Kept(t, i) && t[i].street == Some(s)
  }

  /**
   * The output rows of street `s` are, as a multiset, exactly the table rows
   * of `s` that `head(10)` keeps: each kept row once, no other row.
   */
  lemma StreetOutputIsKept(t: Table, s: string)
    ensures multiset(Filter(Recent(t), OnStreetP(s))) == multiset(Select(t, KeptOnStreetP(t, s), |t|))
  {
    assert t[..|t|] == t;
    FilterOfSelect(t, KeptP(t), KeptOnStreetP(t, s), s, |t|);
  }

  lemma {:induction false} FilterOfSelect(t: Table, keep: int -> bool, both: int -> bool, s: string, n: nat)
    requires n <= |t|
    requires forall i :: 0 <= i < n ==> both(i) == (keep(i) && t[i].street == Some(s))
    ensures Filter(Select(t, keep, n), OnStreetP(s)) == Select(t, both, n)
  {
    if n > 0 {
      FilterOfSelect(t, keep, both, s, n - 1);
      FilterStepKeeps(Select(t, keep, n - 1), Select(t, both, n - 1), t[n - 1], keep(n - 1), both(n - 1), OnStreetP(s));
    }
  }

  /** Appending `x` (when `keep`) to a sequence that filters to `b` filters to `b` plus `x` when `both`, i.e. when kept and passing. */
  lemma FilterStepKeeps<T>(a: seq<T>, b: seq<T>, x: T, keep: bool, both: bool, p: T -> bool)
    requires Filter(a, p) == b
    requires both == (keep && p(x))
    ensures Filter(a + (if keep then [x] else []), p) == b + (if both then [x] else [])
  {
    if keep {
      FilterSnoc(a, x, p);
    } else {
      assert a + [] == a;
      assert b + [] == b;
    }
  }

  /** A row that `head(10)` keeps is in the output. */
  lemma KeptInRecent(t: Table, i: int)
    requires 0 <= i < |t| && Kept(t, i)
    ensures t[i] in Recent(t)
  {
    assert t[..|t|] == t;
    SelectKeeps(t, KeptP(t), |t|, i);
  }

  /** Every row of the output is a row of the table that `head(10)` keeps. */
  lemma RecentAreKept(t: Table, x: Incident)
    requires x in Recent(t)
    ensures exists i :: 0 <= i < |t| && Kept(t, i) && t[i] == x
  {
    assert t[..|t|] == t;
    SelectFrom(t, KeptP(t), |t|, x);
  }

  lemma {:induction false} SelectKeeps(t: Table, keep: int -> bool, n: nat, i: int)
    requires n <= |t| && 0 <= i < n && keep(i)
    ensures t[i] in Select(t, keep, n)
  {
    if i < n - 1 {
      SelectKeeps(t, keep, n - 1, i);
    }
  }

  lemma {:induction false} SelectFrom(t: Table, keep: int -> bool, n: nat, x: Incident)
    requires n <= |t| && x in Select(t, keep, n)
    ensures exists i :: 0 <= i < n && keep(i) && t[i] == x
  {
    var last := if keep(n - 1) then [t[n - 1]] else [];
    assert Select(t, keep, n) == Select(t, keep, n - 1) + last;
    if x in Select(t, keep, n - 1) {
      SelectFrom(t, keep, n - 1, x);
    } else {
      assert keep(n - 1) && t[n - 1] == x;
    }
  }

  /** A row of the output is a row of the table, and it has a street. */
  lemma RecentRowsHaveStreet(t: Table)
    ensures forall k :: 0 <= k < |Recent(t)| ==> Recent(t)[k] in t && Recent(t)[k].street.Some?
  {
    SelectedHaveStreet(t, KeptP(t), |t|);
    assert t[..|t|] == t;
  }

  lemma {:induction false} SelectedHaveStreet(t: Table, keep: int -> bool, n: nat)
    requires n <= |t|
    requires forall i :: 0 <= i < n && keep(i) ==> t[i].street.Some?
    ensures forall k :: 0 <= k < |Select(t, keep, n)| ==> Select(t, keep, n)[k] in t[..n] && Select(t, keep, n)[k].street.Some?
  {
    if n > 0 {
      SelectedHaveStreet(t, keep, n - 1);
      assert t[..n] == t[..n - 1] + [t[n - 1]];
    }
  }
}
