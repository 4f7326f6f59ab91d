/**
 * Q3 (analysis.py lines 115-121): the `last_incident_date` column.
 *
 * The table is sorted by (DISTRICT, OCCURRED_ON_DATE) ascending, shifted by
 * -1 within each district, and the result is assigned back to `df` by row
 * label, so every row receives the timestamp of the row that FOLLOWS it in
 * its district's chronological order, and the last row of each district
 * receives nothing. A multi-key `sort_values` is stable, so rows with equal
 * district and timestamp keep their table order; `Precedes` is that order.
 */
module LastIncident {
  import opened Wrappers
  import opened Incidents

  /** Row `j` comes before row `i` in the order of the sort within one district. */
  predicate Precedes(t: Table, j: int, i: int)
    requires 0 <= i < |t| && 0 <= j < |t|
  {
    t[j].occurred < t[i].occurred || (t[j].occurred == t[i].occurred && j < i)
  }

  /** Rows `i` and `j` fall in the same district group (pandas forms no group for a missing district). */
  predicate SameDistrict(t: Table, i: int, j: int)
    requires 0 <= i < |t| && 0 <= j < |t|
  {
    t[i].district.Some? && t[j].district == t[i].district
  }

  /**
   * The row right after row `i` in its district's order, looking only at
   * rows `0 .. n - 1`: the earliest of the rows that come after `i`.
   */
  function Successor(t: Table, i: int, n: nat): (s: Option<nat>)
    requires 0 <= i < |t| && n <= |t|
    ensures s.Some? ==> s.value < n && SameDistrict(t, i, s.value) && Precedes(t, i, s.value)
    ensures s.Some? ==> forall j :: 0 <= j < n && SameDistrict(t, i, j) && Precedes(t, i, j) ==> !Precedes(t, j, s.value)
    ensures s.None? <==> forall j :: 0 <= j < n && SameDistrict(t, i, j) ==> !Precedes(t, i, j)
  {
    if n == 0 then None else
      var s := Successor(t, i, n - 1);
      var j := n - 1;
      if SameDistrict(t, i, j) && Precedes(t, i, j) && (s.None? || Precedes(t, j, s.value)) then Some(j) else s
  }

  /** The new column: `shift(-1)` of the sorted timestamps, aligned back to the rows of `t`. */
  function LastIncidentDates(t: Table): (col: seq<Option<int>>)
    ensures |col| == |t|
  {
    seq(|t|, i requires 0 <= i < |t| =>
      match Successor(t, i, |t|)
      case Some(j) => Some(t[j].occurred)
      case None => None)
  }

  /**
   * A present value is the timestamp of another incident of the same
   * district that is not earlier, and no incident of the district lies
   * strictly between the row and that value.
   */
  lemma NextIsFollowing(t: Table, i: int)
    requires 0 <= i < |t| && LastIncidentDates(t)[i].Some?
    ensures var v := LastIncidentDates(t)[i].value;
      && v >= t[i].occurred
      && (exists j :: 0 <= j < |t| && j != i && SameDistrict(t, i, j) && t[j].occurred == v)
      && (forall j :: 0 <= j < |t| && j != i && SameDistrict(t, i, j) && t[j].occurred >= t[i].occurred ==>
            t[j].occurred == t[i].occurred || v <= t[j].occurred)
  {
    var s := Successor(t, i, |t|);
    var v := t[s.value].occurred;
    forall j | 0 <= j < |t| && j != i && SameDistrict(t, i, j) && t[j].occurred >= t[i].occurred
      ensures t[j].occurred == t[i].occurred || v <= t[j].occurred
    {
      if t[j].occurred > t[i].occurred {
        assert Precedes(t, i, j);
      }
    }
  }

  /** The column is missing exactly on the rows that have no later row in their district. */
  lemma NoneIsLast(t: Table, i: int)
    requires 0 <= i < |t|
    ensures LastIncidentDates(t)[i].None? <==>
              forall j :: 0 <= j < |t| && SameDistrict(t, i, j) ==> j == i || Precedes(t, j, i)
  {
    if LastIncidentDates(t)[i].None? {
      forall j | 0 <= j < |t| && SameDistrict(t, i, j) ensures j == i || Precedes(t, j, i) {
        assert !Precedes(t, i, j);
      }
    }
  }

  /** Two different rows of one district never both miss the value. */
  lemma AtMostOneLast(t: Table, i: int, k: int)
    requires 0 <= i < |t| && 0 <= k < |t| && i != k && SameDistrict(t, i, k)
    ensures LastIncidentDates(t)[i].Some? || LastIncidentDates(t)[k].Some?
  {
    if Precedes(t, i, k) {
      assert Successor(t, i, |t|).Some?;
    } else {
      assert Precedes(t, k, i);
      assert Successor(t, k, |t|).Some?;
    }
  }

  /** The last row, in the district's order, among rows `0 .. n - 1` of the district of `i` (and `i` itself). */
  function LastOfDistrict(t: Table, i: int, n: nat): (l: nat)
    requires 0 <= i < |t| && n <= |t|
    ensures l < |t| && (l == i || (l < n && SameDistrict(t, i, l)))
    ensures forall j :: 0 <= j < n && SameDistrict(t, i, j) ==> j == l || Precedes(t, j, l)
    ensures l == i || Precedes(t, i, l)
  {
    if n == 0 then i else
      var l := LastOfDistrict(t, i, n - 1);
      var j := n - 1;
      if SameDistrict(t, i, j) && Precedes(t, l, j) then j else l
  }

  /** Every district that occurs has a row, its last one, that misses the value. */
  lemma SomeLast(t: Table, i: int)
    requires 0 <= i < |t| && t[i].district.Some?
    ensures exists l :: 0 <= l < |t| && SameDistrict(t, i, l) && LastIncidentDates(t)[l].None?
  {
    var l := LastOfDistrict(t, i, |t|);
    assert SameDistrict(t, i, l);
    forall j | 0 <= j < |t| && SameDistrict(t, l, j) ensures j == l || Precedes(t, j, l) {
      assert SameDistrict(t, i, j);
    }
    NoneIsLast(t, l);
  }

  /** A row without a district gets no value (pandas forms no group for it). */
  lemma MissingDistrictGetsNone(t: Table, i: int)
    requires 0 <= i < |t| && t[i].district.None?
    ensures LastIncidentDates(t)[i].None?
  {
  }

  /** Three incidents T1 < T2 < T3 of one district: the first gets T2, the second T3, the third nothing. */
  lemma ThreeIncidents(a: Incident, b: Incident, c: Incident)
    requires a.district.Some? && b.district == a.district && c.district == a.district
    requires a.occurred < b.occurred < c.occurred
    ensures LastIncidentDates([a, b, c]) == [Some(b.occurred), Some(c.occurred), None]
  {
    var t := [a, b, c];
    assert Successor(t, 0, 3) == Some(1);
    assert Successor(t, 1, 3) == Some(2);
    assert Successor(t, 2, 3).None?;
  }
}
