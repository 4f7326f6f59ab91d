/**
 * Q1 (analysis.py lines 62-77): Auto Theft and Towed incidents counted by
 * phase of day (rows) and month (columns).
 */
module CrimeSummary {
  import opened Wrappers
  import opened Incidents
  import opened Counting

  /** The offense groups Q1 selects (line 62). */
  const TargetedCrimes: seq<string> := ["Auto Theft", "Towed"]

  /** Line 63: `isin(targetted_crimes)` on OFFENSE_CODE_GROUP. */
  predicate IsTargeted(r: Incident) {
    r.group in TargetedCrimes
  }

  /** The rows kept by the mask: only Auto Theft and Towed rows, and every one of them. */
  function Crimes(t: Table): (c: Table)
    ensures forall k :: 0 <= k < |c| ==> c[k].group == "Auto Theft" || c[k].group == "Towed"
    ensures forall k :: 0 <= k < |t| && (t[k].group == "Auto Theft" || t[k].group == "Towed") ==> t[k] in c
    ensures |c| == CountWhere(t, IsTargeted)
    ensures multiset(c) <= multiset(t)
  {
    Filter(t, IsTargeted)
  }

  /** The phase categories; their display order (line 71) is `PhaseOrder`. */
  datatype Phase = Morning | Noon | Evening | Night

  const PhaseOrder: seq<Phase> := [Morning, Noon, Evening, Night]

  /** The bin edges and labels of the cut (lines 66-67). */
  const DayPhases: seq<int> := [0, 6, 11, 17, 20, 24]
  const PhaseLabels: seq<Phase> := [Night, Morning, Noon, Evening, Night]

  /**
   * Lines 68-70: `pd.cut(HOUR, bins=DayPhases, labels=PhaseLabels, right=False)`.
   * Bin `b` is the right-open interval [DayPhases[b], DayPhases[b+1]); an hour
   * in no bin (below 0, or 24 and above) gets no phase.
   */
  function PhaseOf(hour: int): (p: Option<Phase>)
    ensures p.None? <==> hour < DayPhases[0] || DayPhases[5] <= hour
    ensures forall b :: 0 <= b < 5 && DayPhases[b] <= hour < DayPhases[b + 1] ==> p == Some(PhaseLabels[b])
  {
    if 0 <= hour < 6 then Some(Night)
    else if 6 <= hour < 11 then Some(Morning)
    else if 11 <= hour < 17 then Some(Noon)
    else if 17 <= hour < 20 then Some(Evening)
    else if 20 <= hour < 24 then Some(Night)
    else None
  }

  /** The four phases split the hours 0..23 with no gap and no overlap; the two night bins wrap around midnight. */
  lemma PhasePartition(hour: int)
    ensures PhaseOf(hour) == Some(Night)   <==> (0 <= hour < 6 || 20 <= hour < 24)
    ensures PhaseOf(hour) == Some(Morning) <==> 6 <= hour < 11
    ensures PhaseOf(hour) == Some(Noon)    <==> 11 <= hour < 17
    ensures PhaseOf(hour) == Some(Evening) <==> 17 <= hour < 20
    ensures PhaseOf(hour).None?            <==> (hour < 0 || 24 <= hour)
  {
  }

  /** The examples of a night, a morning and an evening hour. */
  lemma PhaseExamples()
    ensures PhaseOf(2) == Some(Night) && PhaseOf(23) == Some(Night)
    ensures PhaseOf(10) == Some(Morning) && PhaseOf(17) == Some(Evening)
    ensures PhaseOf(24).None? && PhaseOf(-1).None?
  {
  }

  /** `calendar.month_abbr[1:]`, the new category names of line 75. */
  const MonthAbbrs: seq<string> := ["Jan", "Feb", "Mar", "Apr", "May", "Jun",
                                    "Jul", "Aug", "Sep", "Oct", "Nov", "Dec"]

  /** `calendar.month_name[1:]`: the full English month names. */
  const MonthNames: seq<string> := ["January", "February", "March", "April", "May", "June", "July",
                                    "August", "September", "October", "November", "December"]

  /** Line 75: month 1..12 renamed to its abbreviation, the first three letters of its name. */
  function MonthAbbr(month: int): (a: string)
    requires 1 <= month <= 12
    ensures |a| == 3
    ensures a in MonthAbbrs
    ensures a == MonthNames[month - 1][..3]
  {
    MonthAbbrs[month - 1]
  }

  /** January is "Jan" and December is "Dec". */
  lemma MonthAbbrExamples()
    ensures MonthAbbr(1) == "Jan" && MonthAbbr(6) == "Jun" && MonthAbbr(12) == "Dec"
  {
  }

  /** Distinct months get distinct names, so grouping by the name is grouping by the month. */
  lemma MonthAbbrInjective(m1: int, m2: int)
    requires 1 <= m1 <= 12 && 1 <= m2 <= 12
    ensures MonthAbbr(m1) == MonthAbbr(m2) <==> m1 == m2
  {
  }

  /** Every row that reaches the month renaming has a month 1..12. */
  predicate MonthsInRange(t: Table) {
    forall k :: 0 <= k < |t| ==> 1 <= t[k].month <= 12
  }

  /** The rows of `t` that fall in cell (`p`, `month`). */
  predicate InCell(p: Phase, month: int, r: Incident) {
    PhaseOf(r.hour) == Some(p) && r.month == month
  }

  function InCellP(p: Phase, month: int): Incident -> bool {
    r => InCell(p, month, r)
  }

  /** Number of rows of `t` in cell (`p`, `month`): the `count` aggregate of line 77. */
  function CellCount(t: Table, p: Phase, month: int): nat {
    CountWhere(t, InCellP(p, month))
  }

  function SummaryRow(c: Table, p: Phase): (row: seq<nat>)
    ensures |row| == 12
  {
    seq(12, j requires 0 <= j < 12 => CellCount(c, p, j + 1))
  }

  /**
   * Line 77: the pivot table. Row `i` is phase `PhaseOrder[i]`, column `j` is
   * month `j + 1` (named `MonthAbbr(j + 1)`); every cell is present, an empty
   * combination holding 0.
   */
  function Summary(t: Table): (m: seq<seq<nat>>)
    requires MonthsInRange(Crimes(t))
    ensures |m| == 4 && forall i :: 0 <= i < 4 ==> |m[i]| == 12
  {
    var c := Crimes(t);
    seq(4, i requires 0 <= i < 4 => SummaryRow(c, PhaseOrder[i]))
  }

  /**
   * Each cell is the number of rows of the whole table that are Auto Theft
   * or Towed and fall in that phase and month.
   */
  lemma SummaryCell(t: Table, i: int, j: int)
    requires MonthsInRange(Crimes(t))
    requires 0 <= i < 4 && 0 <= j < 12
    ensures Summary(t)[i][j] == CountWhere(t, r => IsTargeted(r) && InCell(PhaseOrder[i], j + 1, r))
  {
    CountOfFilter(t, IsTargeted, InCellP(PhaseOrder[i], j + 1),
                  r => IsTargeted(r) && InCell(PhaseOrder[i], j + 1, r));
  }

  function RowSum(row: seq<nat>): nat {
    if row == [] then 0 else RowSum(row[..|row| - 1]) + row[|row| - 1]
  }

  function MatrixSum(m: seq<seq<nat>>): nat {
    if m == [] then 0 else MatrixSum(m[..|m| - 1]) + RowSum(m[|m| - 1])
  }

  /** The rows with phase `p` and month 1..`k`. */
  predicate InPhaseUpTo(p: Phase, k: int, r: Incident) {
    PhaseOf(r.hour) == Some(p) && 1 <= r.month <= k
  }

  /** The first `k` cells of phase `p` add up to the rows of phase `p` in months 1..`k`. */
  lemma {:induction false} RowSumCounts(c: Table, p: Phase, k: nat)
    requires k <= 12
    ensures RowSum(seq(k, j requires 0 <= j < k => CellCount(c, p, j + 1)))
            == CountWhere(c, r => InPhaseUpTo(p, k, r))
  {
    var row := seq(k, j requires 0 <= j < k => CellCount(c, p, j + 1));
    if k == 0 {
      CountCongruent(c, r => InPhaseUpTo(p, k, r), r => false);
      assert CountWhere(c, r => false) == 0;
    } else {
      assert row[..k - 1] == seq(k - 1, j requires 0 <= j < k - 1 => CellCount(c, p, j + 1));
      RowSumCounts(c, p, k - 1);
      CountDisjoint(c, r => InPhaseUpTo(p, k - 1, r), InCellP(p, k), r => InPhaseUpTo(p, k, r));
    }
  }

  /** The rows whose phase is one of the first `n` phases of `PhaseOrder`, with a month 1..12. */
  predicate InFirstPhases(n: int, r: Incident) {
    PhaseOf(r.hour).Some? && 0 <= n <= 4 && PhaseOf(r.hour).value in PhaseOrder[..n] && 1 <= r.month <= 12
  }

  /** The first `n` phases are the first `n - 1` and, disjoint from them, phase `n - 1`. */
  lemma FirstPhasesStep(n: int)
    requires 0 < n <= 4
    ensures forall r :: InFirstPhases(n, r) == (InFirstPhases(n - 1, r) || InPhaseUpTo(PhaseOrder[n - 1], 12, r))
    ensures forall r {:trigger InFirstPhases(n - 1, r)} :: !(InFirstPhases(n - 1, r) && InPhaseUpTo(PhaseOrder[n - 1], 12, r))
  {
    assert PhaseOrder[..n] == PhaseOrder[..n - 1] + [PhaseOrder[n - 1]];
  }

  lemma {:induction false} MatrixSumCounts(c: Table, m: seq<seq<nat>>, n: nat)
    requires n <= 4 && |m| == n
    requires forall i :: 0 <= i < n ==> m[i] == SummaryRow(c, PhaseOrder[i])
    ensures MatrixSum(m) == CountWhere(c, r => InFirstPhases(n, r))
  {
    if n == 0 {
      CountCongruent(c, r => InFirstPhases(n, r), r => false);
      assert CountWhere(c, r => false) == 0;
    } else {
      MatrixSumCounts(c, m[..n - 1], n - 1);
      RowSumCounts(c, PhaseOrder[n - 1], 12);
      assert SummaryRow(c, PhaseOrder[n - 1]) == seq(12, j requires 0 <= j < 12 => CellCount(c, PhaseOrder[n - 1], j + 1));
      FirstPhasesStep(n);
      CountDisjoint(c, r => InFirstPhases(n - 1, r), r => InPhaseUpTo(PhaseOrder[n - 1], 12, r),
                    r => InFirstPhases(n, r));
    }
  }

  /**
   * The cells add up to the number of Auto Theft and Towed rows that have a
   * phase: every such row is counted in exactly one cell.
   */
  lemma SummaryTotal(t: Table)
    requires MonthsInRange(Crimes(t))
    ensures MatrixSum(Summary(t)) == CountWhere(Crimes(t), (r: Incident) => PhaseOf(r.hour).Some?)
  {
    var c := Crimes(t);
    MatrixSumCounts(c, Summary(t), 4);
    assert PhaseOrder[..4] == PhaseOrder;
    CountCongruent(c, r => InFirstPhases(4, r), (r: Incident) => PhaseOf(r.hour).Some?);
  }
}
