/**
 * The group-then-rank-then-head pattern shared by Q2 (analysis.py lines
 * 96-103) and Q4 (lines 133-140):
 *
 *   groupby([DISTRICT, ...], sort=False).size()      -- `GroupSizes`
 *   .sort_values([DISTRICT, size], ascending=False)
 *   .groupby(DISTRICT).head(1)                       -- `TopPerDistrict`
 *
 * A grouping key is a district and the rest of the key (`K`); rows whose key
 * has a missing part never reach this module (pandas drops NaN keys).
 */
module TopPerDistrict {
  import opened Counting

  /** One row of the `size()` table: a group key and its row count. */
  datatype Group<K> = Group(district: string, key: K, size: nat)

  /** The distinct elements of `s`, in the order of their first occurrence. */
  function Distinct<T(==)>(s: seq<T>): (d: seq<T>)
    ensures forall i :: 0 <= i < |d| ==> d[i] in s
    ensures forall i :: 0 <= i < |s| ==> s[i] in d
    ensures forall i, j :: 0 <= i < j < |d| ==> d[i] != d[j]
  {
    if s == [] then [] else
      var d := Distinct(s[..|s| - 1]);
      if s[|s| - 1] in d then d else d + [s[|s| - 1]]
  }

  function EqualsP<T(==)>(x: T): T -> bool {
    y => y == x
  }

  /** Number of occurrences of `x` in `s`: the `size()` of group `x`. */
  function Occurrences<T(==)>(s: seq<T>, x: T): nat {
    CountWhere(s, EqualsP(x))
  }

  lemma OccurrencesPositive<T>(s: seq<T>, x: T)
    ensures Occurrences(s, x) > 0 <==> x in s
  {
  }

  /** The key column(s) of a `size()` table. */
  function KeysOf<K>(gs: seq<Group<K>>): seq<(string, K)> {
    seq(|gs|, i requires 0 <= i < |gs| => (gs[i].district, gs[i].key))
  }

  /** `groupby(keys, sort=False).size()`: one row per distinct key, in order of first appearance. */
  function GroupSizes<K(==)>(keys: seq<(string, K)>): (gs: seq<Group<K>>)
    ensures forall i :: 0 <= i < |gs| ==> (gs[i].district, gs[i].key) in keys
    ensures forall i :: 0 <= i < |gs| ==> gs[i].size == Occurrences(keys, (gs[i].district, gs[i].key))
    ensures forall n :: 0 <= n < |keys| ==> keys[n] in KeysOf(gs)
    ensures forall i, j :: 0 <= i < j < |gs| ==> KeysOf(gs)[i] != KeysOf(gs)[j]
  {
    var d := Distinct(keys);
    var gs := seq(|d|, i requires 0 <= i < |d| => Group(d[i].0, d[i].1, Occurrences(keys, d[i])));
    assert KeysOf(gs) == d;
    gs
  }

  /** The district column of a `size()` table. */
  function Districts<K>(gs: seq<Group<K>>): (ds: seq<string>)
    ensures |ds| == |gs|
    ensures forall i :: 0 <= i < |gs| ==> ds[i] == gs[i].district
  {
    if gs == [] then [] else Districts(gs[..|gs| - 1]) + [gs[|gs| - 1].district]
  }

  /**
   * The group of district `d` that `head(1)` takes after the descending sort
   * by size: one with the largest size (among equal sizes, the first).
   */
  function Best<K>(gs: seq<Group<K>>, d: string): (b: Group<K>)
    requires d in Districts(gs)
    ensures b in gs && b.district == d
    ensures forall k :: 0 <= k < |gs| && gs[k].district == d ==> gs[k].size <= b.size
  {
    var init, last := gs[..|gs| - 1], gs[|gs| - 1];
    assert gs == init + [last];
    if last.district != d then Best(init, d)
    else if d !in Districts(init) then last
    else
      var b := Best(init, d);
      if b.size >= last.size then b else last
  }

  /** `.sort_values([DISTRICT, size], ascending=False).groupby(DISTRICT).head(1)`. */
  function TopPerDistrict<K>(gs: seq<Group<K>>): (top: seq<Group<K>>)
    ensures forall i :: 0 <= i < |top| ==> top[i] in gs
    ensures forall i, k :: 0 <= i < |top| && 0 <= k < |gs| && gs[k].district == top[i].district ==> gs[k].size <= top[i].size
    ensures forall i, j :: 0 <= i < j < |top| ==> top[i].district != top[j].district
    ensures forall k :: 0 <= k < |gs| ==> gs[k].district in Districts(top)
  {
    var ds := Distinct(Districts(gs));
    var top := seq(|ds|, i requires 0 <= i < |ds| => Best(gs, ds[i]));
    assert Districts(top) == ds;
    top
  }

  /**
   * The shared primitive, and what Q2 and Q4 promise of it: one row per
   * district that occurs among the keys; that row's key occurs in the input,
   * its size is the number of its occurrences, and no key of the same
   * district occurs more often.
   */
  function TopByCount<K(==)>(keys: seq<(string, K)>): (top: seq<Group<K>>)
    ensures forall i :: 0 <= i < |top| ==> (top[i].district, top[i].key) in keys
    ensures forall i :: 0 <= i < |top| ==> top[i].size == Occurrences(keys, (top[i].district, top[i].key))
    ensures forall i, n :: 0 <= i < |top| && 0 <= n < |keys| && keys[n].0 == top[i].district ==>
              Occurrences(keys, keys[n]) <= top[i].size
    ensures forall i, j :: 0 <= i < j < |top| ==> top[i].district != top[j].district
    ensures forall n :: 0 <= n < |keys| ==> keys[n].0 in Districts(top)
  {
    var gs := GroupSizes(keys);
    var top := TopPerDistrict(gs);
    top
  }
}
