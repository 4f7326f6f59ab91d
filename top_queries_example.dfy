/** A worked instance of Q2. */
module TopQueriesExample {
  import opened Wrappers
  import opened Incidents
  import opened Counting
  import opened TopPerDistrict
  import opened TopQueries

  const Larceny: (int, string) := (619, "LARCENY ALL OTHERS")
  const Tow: (int, string) := (3410, "TOWED MOTOR VEHICLE")

  function Row(number: string, offense: (int, string)): Incident {
    Incident(number, offense.0, "Other", Some(offense.1), Some("A"), None, 0, 1, 1)
  }

  /** Three incidents of district "A": two larcenies and one tow. */
  function Sample(): Table {
    [Row("I1", Larceny), Row("I2", Larceny), Row("I3", Tow)]
  }

  lemma SampleCounts()
    ensures CountWhere(Sample(), HasOffenseP("A", Larceny)) == 2
    ensures CountWhere(Sample(), HasOffenseP("A", Tow)) == 1
  {
    var t := Sample();
    var p, q := HasOffenseP("A", Larceny), HasOffenseP("A", Tow);
    assert OffenseKey(t[0]) == OffenseKey(t[1]) == Some(("A", Larceny));
    assert OffenseKey(t[2]) == Some(("A", Tow)) && Tow != Larceny;
    assert p == MapsToP(OffenseKey, ("A", Larceny)) && q == MapsToP(OffenseKey, ("A", Tow));
    assert p(t[0]) && p(t[1]) && !p(t[2]);
    assert !q(t[0]) && !q(t[1]) && q(t[2]);
    assert t[..2] == [t[0], t[1]];
    assert t[..2][..1] == [t[0]];
    assert [t[0]][..0] == [];
    assert CountWhere([t[0]], p) == 1 && CountWhere([t[0]], q) == 0;
    assert CountWhere([t[0], t[1]], p) == 2 && CountWhere([t[0], t[1]], q) == 0;
  }

  /** The premises of `LarcenyWins`: district "A", larceny and tow keys only, two larcenies and one tow. */
  predicate LarcenyAndTow(t: Table) {
    && (forall k :: 0 <= k < |t| ==> OffenseKey(t[k]) == Some(("A", Larceny)) || OffenseKey(t[k]) == Some(("A", Tow)))
    && CountWhere(t, HasOffenseP("A", Larceny)) == 2
    && CountWhere(t, HasOffenseP("A", Tow)) == 1
  }

  /** A row with a positive count for its key shows that key on some row of `t`. */
  lemma KeyOfWinner(t: Table, g: Group<(int, string)>)
    requires forall k :: 0 <= k < |t| ==> OffenseKey(t[k]) == Some(("A", Larceny)) || OffenseKey(t[k]) == Some(("A", Tow))
    requires CountWhere(t, HasOffenseP(g.district, g.key)) > 0
    ensures g.district == "A" && (g.key == Larceny || g.key == Tow)
  {
    var p := HasOffenseP(g.district, g.key);
    var k :| 0 <= k < |t| && p(t[k]);
    assert OffenseKey(t[k]) == Some((g.district, g.key));
  }

  lemma WinnerRow(t: Table, i: int)
    requires LarcenyAndTow(t)
    requires 0 <= i < |TopOffenses(t)|
    ensures TopOffenses(t)[i] == Group("A", Larceny, 2)
  {
    var g := TopOffenses(t)[i];
    TopSizes(t, OffenseKey, i);
    assert g.size == CountWhere(t, HasOffenseP(g.district, g.key)) > 0;
    KeyOfWinner(t, g);
    var k0 :| 0 <= k0 < |t| && HasOffenseP("A", Larceny)(t[k0]);
    TopMaximal(t, OffenseKey, i, k0);
    assert HasOffenseP("A", Larceny) == MapsToP(OffenseKey, OffenseKey(t[k0]).value);
  }

  /** Such a table yields the single Q2 row (A, larceny, 2). */
  lemma LarcenyWins(t: Table)
    requires LarcenyAndTow(t)
    ensures |TopOffenses(t)| == 1 && TopOffenses(t)[0] == Group("A", Larceny, 2)
  {
    var top := TopOffenses(t);
    var k0 :| 0 <= k0 < |t| && HasOffenseP("A", Larceny)(t[k0]);
    TopCovers(t, OffenseKey, k0);
    if |top| > 1 {
      WinnerRow(t, 0);
      WinnerRow(t, 1);
    }
    WinnerRow(t, 0);
  }

  /** Q2 on the sample: exactly one row, the larceny with count 2. */
  lemma ThreeRowDistrict()
    ensures |TopOffenses(Sample())| == 1 && TopOffenses(Sample())[0] == Group("A", Larceny, 2)
  {
    var t := Sample();
    SampleCounts();
    assert OffenseKey(t[0]) == OffenseKey(t[1]) == Some(("A", Larceny));
    assert OffenseKey(t[2]) == Some(("A", Tow));
    LarcenyWins(t);
  }
}
