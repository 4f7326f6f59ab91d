/**
 * Q2 (analysis.py lines 96-103): the offense with the most incidents in each
 * district, and Q4 (lines 133-140): the street with the most incidents in
 * each district. Both are `TopByCount` over the table's grouping keys.
 */
module TopQueries {
  import opened Wrappers
  import opened Incidents
  import opened Counting
  import opened TopPerDistrict

  /** The values `f` gives the elements of `s`, in order, leaving out the missing ones. */
  function Collect<X, Y>(s: seq<X>, f: X -> Option<Y>): (ys: seq<Y>)
    ensures forall k :: 0 <= k < |s| && f(s[k]).Some? ==> f(s[k]).value in ys
  {
    if s == [] then [] else
      var init, last := s[..|s| - 1], s[|s| - 1];
      var ys := Collect(init, f) + (if f(last).Some? then [f(last).value] else []);
      assert forall k :: 0 <= k < |init| ==> init[k] == s[k];
      ys
  }

  function MapsToP<X, Y(==)>(f: X -> Option<Y>, y: Y): X -> bool {
    x => f(x) == Some(y)
  }

  /** A key occurs in the collected column as often as there are rows with that key. */
  lemma {:induction false} OccurrencesOfCollect<X, Y>(s: seq<X>, f: X -> Option<Y>, y: Y)
    ensures Occurrences(Collect(s, f), y) == CountWhere(s, MapsToP(f, y))
  {
    if s != [] {
      var init, last := s[..|s| - 1], s[|s| - 1];
      OccurrencesOfCollect(init, f, y);
      CountConcat(Collect(init, f), if f(last).Some? then [f(last).value] else [], EqualsP(y));
    }
  }

  /** `TopByCount` over the keys `f` gives the rows: each chosen group's size counts its rows of `t`. */
  lemma TopSizes<K>(t: Table, f: Incident -> Option<(string, K)>, i: int)
    requires 0 <= i < |TopByCount(Collect(t, f))|
    ensures var g := TopByCount(Collect(t, f))[i];
      g.size == CountWhere(t, MapsToP(f, (g.district, g.key))) && g.size > 0
  {
    var keys := Collect(t, f);
    var g := TopByCount(keys)[i];
    OccurrencesOfCollect(t, f, (g.district, g.key));
    OccurrencesPositive(keys, (g.district, g.key));
  }

  /** No key of the chosen group's district has more rows of `t`. */
  lemma TopMaximal<K>(t: Table, f: Incident -> Option<(string, K)>, i: int, k: int)
    requires 0 <= i < |TopByCount(Collect(t, f))| && 0 <= k < |t|
    requires f(t[k]).Some? && f(t[k]).value.0 == TopByCount(Collect(t, f))[i].district
    ensures CountWhere(t, MapsToP(f, f(t[k]).value)) <= TopByCount(Collect(t, f))[i].size
  {
    var keys := Collect(t, f);
    var n :| 0 <= n < |keys| && keys[n] == f(t[k]).value;
    OccurrencesOfCollect(t, f, f(t[k]).value);
  }

  /** Every row with a complete key has its district among the chosen groups. */
  lemma TopCovers<K>(t: Table, f: Incident -> Option<(string, K)>, k: int)
    requires 0 <= k < |t| && f(t[k]).Some?
    ensures f(t[k]).value.0 in Districts(TopByCount(Collect(t, f)))
  {
    var keys := Collect(t, f);
    var n :| 0 <= n < |keys| && keys[n] == f(t[k]).value;
  }

  // ---------------------------------------------------------------- Q2

  /** The Q2 grouping key (DISTRICT, OFFENSE_CODE, OFFENSE_DESCRIPTION); missing when a part is missing. */
  function OffenseKey(r: Incident): Option<(string, (int, string))> {
    if r.district.Some? && r.description.Some? then Some((r.district.value, (r.code, r.description.value)))
    else None
  }

  /** Q2: one most frequent (code, description) per district, with its incident count. */
  function TopOffenses(t: Table): (top: seq<Group<(int, string)>>)
    ensures forall i, j :: 0 <= i < j < |top| ==> top[i].district != top[j].district
  {
    TopByCount(Collect(t, OffenseKey))
  }

  /** The rows of `t` in the Q2 group (`district`, `offense`). */
  function HasOffenseP(district: string, offense: (int, string)): Incident -> bool {
    MapsToP(OffenseKey, (district, offense))
  }

  /**
   * Q2 on the table, sizes: each chosen row's size is the number of incidents
   * of its district with its offense, and is positive.
   */
  lemma TopOffensesSizes(t: Table)
    ensures var top := TopOffenses(t);
      forall i :: 0 <= i < |top| ==>
        top[i].size == CountWhere(t, HasOffenseP(top[i].district, top[i].key)) && top[i].size > 0
  {
    var top := TopOffenses(t);
    forall i | 0 <= i < |top|
      ensures top[i].size == CountWhere(t, HasOffenseP(top[i].district, top[i].key)) && top[i].size > 0
    {
      TopSizes(t, OffenseKey, i);
    }
  }

  /** Q2 on the table, maximality: no offense of a chosen row's district has more incidents. */
  lemma TopOffensesMaximal(t: Table)
    ensures var top := TopOffenses(t);
      forall i, k :: 0 <= i < |top| && 0 <= k < |t| && OffenseKey(t[k]).Some? && t[k].district == Some(top[i].district) ==>
        CountWhere(t, HasOffenseP(top[i].district, OffenseKey(t[k]).value.1)) <= top[i].size
  {
    var top := TopOffenses(t);
    forall i, k | 0 <= i < |top| && 0 <= k < |t| && OffenseKey(t[k]).Some? && t[k].district == Some(top[i].district)
      ensures CountWhere(t, HasOffenseP(top[i].district, OffenseKey(t[k]).value.1)) <= top[i].size
    {
      TopMaximal(t, OffenseKey, i, k);
    }
  }

  /**
   * Q2 on the table, coverage: every district with a complete key gets a row
   * (and, by `TopByCount`, only one).
   */
  lemma TopOffensesCover(t: Table)
    ensures var top := TopOffenses(t);
      forall k :: 0 <= k < |t| && OffenseKey(t[k]).Some? ==> t[k].district.value in Districts(top)
  {
    var top := TopOffenses(t);
    forall k | 0 <= k < |t| && OffenseKey(t[k]).Some? ensures t[k].district.value in Districts(top) {
      TopCovers(t, OffenseKey, k);
    }
  }

  // ---------------------------------------------------------------- Q4

  /** The Q4 grouping key (DISTRICT, STREET); missing when a part is missing. */
  function StreetKey(r: Incident): Option<(string, string)> {
    if r.district.Some? && r.street.Some? then Some((r.district.value, r.street.value)) else None
  }

  /** Q4: one street with the most incidents per district, with its incident count. */
  function WorstStreets(t: Table): (top: seq<Group<string>>)
    ensures forall i, j :: 0 <= i < j < |top| ==> top[i].district != top[j].district
  {
    TopByCount(Collect(t, StreetKey))
  }

  /** The rows of `t` in the Q4 group (`district`, `street`). */
  function HasStreetP(district: string, street: string): Incident -> bool {
    MapsToP(StreetKey, (district, street))
  }

  /**
   * Q4 on the table, sizes: each chosen row's size is the number of incidents
   * of its district on its street, and is positive.
   */
  lemma WorstStreetsSizes(t: Table)
    ensures var top := WorstStreets(t);
      forall i :: 0 <= i < |top| ==>
        top[i].size == CountWhere(t, HasStreetP(top[i].district, top[i].key)) && top[i].size > 0
  {
    var top := WorstStreets(t);
    forall i | 0 <= i < |top|
      ensures top[i].size == CountWhere(t, HasStreetP(top[i].district, top[i].key)) && top[i].size > 0
    {
      TopSizes(t, StreetKey, i);
    }
  }

  /** Q4 on the table, maximality: no street of a chosen row's district has more incidents. */
  lemma WorstStreetsMaximal(t: Table)
    ensures var top := WorstStreets(t);
      forall i, k :: 0 <= i < |top| && 0 <= k < |t| && StreetKey(t[k]).Some? && t[k].district == Some(top[i].district) ==>
        CountWhere(t, HasStreetP(top[i].district, t[k].street.value)) <= top[i].size
  {
    var top := WorstStreets(t);
    forall i, k | 0 <= i < |top| && 0 <= k < |t| && StreetKey(t[k]).Some? && t[k].district == Some(top[i].district)
      ensures CountWhere(t, HasStreetP(top[i].district, t[k].street.value)) <= top[i].size
    {
      TopMaximal(t, StreetKey, i, k);
    }
  }

  /**
   * Q4 on the table, coverage: every district with a complete key gets a row
   * (and, by `TopByCount`, only one).
   */
  lemma WorstStreetsCover(t: Table)
    ensures var top := WorstStreets(t);
      forall k :: 0 <= k < |t| && StreetKey(t[k]).Some? ==> t[k].district.value in Districts(top)
  {
    var top := WorstStreets(t);
    forall k | 0 <= k < |t| && StreetKey(t[k]).Some? ensures t[k].district.value in Districts(top) {
      TopCovers(t, StreetKey, k);
    }
  }
}
