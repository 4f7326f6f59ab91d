/**
 * Data cleaning (analysis.py lines 41-42): a missing DISTRICT becomes the
 * sentinel "not available", and STREET loses its leading and trailing
 * whitespace (pandas `.str.strip()`, which applies Python's `str.strip()` to
 * every present value and leaves a missing value missing).
 */
module Cleaning {
  import opened Wrappers
  import opened Incidents

  const NotAvailable: string := "not available"

  /** Python's `str.isspace` for one character. */
  predicate IsSpace(c: char) {
    || ('\U{0009}' <= c <= '\U{000D}')
    || ('\U{001C}' <= c <= '\U{0020}')
    || c == '\U{0085}' || c == '\U{00A0}' || c == '\U{1680}'
    || ('\U{2000}' <= c <= '\U{200A}')
    || c == '\U{2028}' || c == '\U{2029}' || c == '\U{202F}' || c == '\U{205F}' || c == '\U{3000}'
  }

  /** Neither end of `s` is a whitespace character. */
  predicate Trimmed(s: string) {
    s == [] || (!IsSpace(s[0]) && !IsSpace(s[|s| - 1]))
  }

  /** Length of the run of whitespace at the start of `s`. */
  function LeadingSpaces(s: string): (i: nat)
    ensures i <= |s|
    ensures forall k :: 0 <= k < i ==> IsSpace(s[k])
    ensures i == |s| || !IsSpace(s[i])
  {
    if s != [] && IsSpace(s[0]) then 1 + LeadingSpaces(s[1..]) else 0
  }

  /** Length of `s` without the run of whitespace at its end. */
  function TrailingStart(s: string): (j: nat)
    ensures j <= |s|
    ensures forall k :: j <= k < |s| ==> IsSpace(s[k])
    ensures j == 0 || !IsSpace(s[j - 1])
  {
    if s != [] && IsSpace(s[|s| - 1]) then TrailingStart(s[..|s| - 1]) else |s|
  }

  /** Python's `str.strip()`: drop the whitespace at the start, then at the end. */
  function Strip(s: string): (r: string)
    ensures |r| <= |s|
    ensures Trimmed(r)
  {
    var l := s[LeadingSpaces(s)..];
    l[..TrailingStart(l)]
  }

  /**
   * What `Strip` promises: the result is the middle part of `s` that is left
   * when whitespace is removed from both ends, and the result has no
   * whitespace at either end.
   */
  lemma StripSpec(s: string)
    ensures Trimmed(Strip(s))
    ensures exists i, j :: 0 <= i <= j <= |s| && Strip(s) == s[i..j]
                        && (forall k :: 0 <= k < i ==> IsSpace(s[k]))
                        && (forall k :: j <= k < |s| ==> IsSpace(s[k]))
  {
    var i := LeadingSpaces(s);
    var l := s[i..];
    var j := TrailingStart(l);
    assert Strip(s) == s[i..i + j];
    forall k | i + j <= k < |s| ensures IsSpace(s[k]) {
      assert s[k] == l[k - i];
    }
  }

  /** Stripping leaves a string that has no whitespace at its ends unchanged. */
  lemma StripOfTrimmed(s: string)
    requires Trimmed(s)
    ensures Strip(s) == s
  {
  }

  /** Stripping twice is stripping once. */
  lemma StripIdempotent(s: string)
    ensures Strip(Strip(s)) == Strip(s)
  {
    StripSpec(s);
    StripOfTrimmed(Strip(s));
  }

  /** Line 41: `fillna("not available")` on DISTRICT, for one row. */
  function FillDistrict(r: Incident): Incident {
    r.(district := Some(r.district.GetOr(NotAvailable)))
  }

  /** Line 42: `.str.strip()` on STREET, for one row; a missing street stays missing. */
  function StripStreet(r: Incident): Incident {
    r.(street := if r.street.Some? then Some(Strip(r.street.value)) else None)
  }

  /** Line 41 over the whole table. */
  function FillDistricts(t: Table): (r: Table)
    ensures |r| == |t|
    ensures forall k :: 0 <= k < |t| ==>
      && r[k].district == (if t[k].district.None? then Some(NotAvailable) else t[k].district)
      && r[k] == t[k].(district := r[k].district)
  {
    seq(|t|, k requires 0 <= k < |t| => FillDistrict(t[k]))
  }

  /** Line 42 over the whole table. */
  function StripStreets(t: Table): (r: Table)
    ensures |r| == |t|
    ensures forall k :: 0 <= k < |t| ==>
      && r[k].street.Some? == t[k].street.Some?
      && (t[k].street.Some? ==> r[k].street.value == Strip(t[k].street.value) && Trimmed(r[k].street.value))
      && r[k] == t[k].(street := r[k].street)
  {
    var r := seq(|t|, k requires 0 <= k < |t| => StripStreet(t[k]));
    assert forall k :: 0 <= k < |t| && t[k].street.Some? ==> Trimmed(r[k].street.value) by {
      forall k | 0 <= k < |t| && t[k].street.Some? ensures Trimmed(r[k].street.value) {
        StripSpec(t[k].street.value);
      }
    }
    r
  }

  /** The table after both cleaning steps (lines 41 and 42 in order). */
  function Clean(t: Table): (r: Table)
    ensures |r| == |t|
    ensures IsClean(r)
  {
    StripStreets(FillDistricts(t))
  }

  /** The cleaning invariant: every district is present and every present street is trimmed. */
  predicate IsClean(t: Table) {
    forall k :: 0 <= k < |t| ==> t[k].district.Some? && (t[k].street.Some? ==> Trimmed(t[k].street.value))
  }

  /**
   * Cleaning keeps the rows and their order, gives every row a district (the
   * sentinel exactly where it was missing), trims every present street, and
   * changes no other column.
   */
  lemma CleanSpec(t: Table)
    ensures |Clean(t)| == |t|
    ensures IsClean(Clean(t))
    ensures forall k :: 0 <= k < |t| ==>
      var r, c := t[k], Clean(t)[k];
      && c.district == (if r.district.None? then Some(NotAvailable) else r.district)
      && c.street.Some? == r.street.Some?
      && (r.street.Some? ==> c.street.value == Strip(r.street.value))
      && c == r.(district := c.district, street := c.street)
  {
    forall k | 0 <= k < |t| ensures Clean(t)[k].street.Some? ==> Trimmed(Clean(t)[k].street.value) {
      if t[k].street.Some? {
        StripSpec(t[k].street.value);
      }
    }
  }

  /** Cleaning an already clean table changes nothing, so cleaning twice is cleaning once. */
  lemma CleanIdempotent(t: Table)
    ensures Clean(Clean(t)) == Clean(t)
  {
    CleanSpec(t);
    var c := Clean(t);
    forall k | 0 <= k < |c| ensures Clean(c)[k] == c[k] {
      if c[k].street.Some? {
        StripOfTrimmed(c[k].street.value);
      }
    }
  }
}
