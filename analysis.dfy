/**
 * The script's table `df` and its top-level flow (analysis.py lines 36-156):
 * the table is cleaned in place (lines 41-42), the five questions are
 * answered from it, and Q3 adds a column to it (line 115).
 */
module Analysis {
  import opened Wrappers
  import opened Incidents
  import Cleaning
  import CrimeSummary
  import TopPerDistrict
  import TopQueries
  import LastIncident
  import RecentIncidents

  /** The dataframe `df`: its rows, and the `last_incident_date` column once Q3 has added it. */
  class CrimeFrame {
    var rows: Table
    var lastIncidentDate: Option<seq<Option<int>>>

    /** Line 36: the table as read from the file (reading and decoding are not modelled). */
    constructor (raw: Table)
      ensures rows == raw && lastIncidentDate.None?
    {
      rows := raw;
      lastIncidentDate := None;
    }

    /** Line 41: `df["DISTRICT"] = df["DISTRICT"].fillna("not available")`. */
    method FillDistrict()
      modifies this
      ensures rows == Cleaning.FillDistricts(old(rows))
      ensures lastIncidentDate == old(lastIncidentDate)
      ensures forall k :: 0 <= k < |rows| ==> rows[k].district.Some?
    {
      rows := Cleaning.FillDistricts(rows);
    }

    /** Line 42: `df["STREET"] = df["STREET"].str.strip()`. */
    method StripStreet()
      modifies this
      ensures rows == Cleaning.StripStreets(old(rows))
      ensures lastIncidentDate == old(lastIncidentDate)
      ensures forall k :: 0 <= k < |rows| ==> rows[k].street.Some? ==> Cleaning.Trimmed(rows[k].street.value)
    {
      rows := Cleaning.StripStreets(rows);
    }

    /** Line 115: `df['last_incident_date'] = ...`; the rows themselves do not change. */
    method AddLastIncidentDate()
      modifies this
      ensures rows == old(rows)
      ensures lastIncidentDate == Some(LastIncident.LastIncidentDates(rows))
    {
      lastIncidentDate := Some(LastIncident.LastIncidentDates(rows));
    }
  }

  /** What the script computes and prints. */
  datatype Report = Report(
    summary: seq<seq<nat>>,                                  // Q1, line 77
    topOffenses: seq<TopPerDistrict.Group<(int, string)>>,   // Q2, lines 96-103
    lastIncidentDate: seq<Option<int>>,                      // Q3, lines 115-121
    worstStreets: seq<TopPerDistrict.Group<string>>,         // Q4, lines 133-140
    recent: Table                                            // Q5, lines 151-156
  )

  /**
   * The script from line 41 to line 156, in its order. Each answer is the
   * query of its module on the cleaned table; the Q3 column has one cell
   * per row.
   */
  method Analyze(raw: Table) returns (report: Report)
    requires CrimeSummary.MonthsInRange(CrimeSummary.Crimes(Cleaning.Clean(raw)))
    ensures var df := Cleaning.Clean(raw);
      && report.summary == CrimeSummary.Summary(df)
      && report.topOffenses == TopQueries.TopOffenses(df)
      && report.lastIncidentDate == LastIncident.LastIncidentDates(df)
      && report.worstStreets == TopQueries.WorstStreets(df)
      && report.recent == RecentIncidents.Recent(df)
    ensures Cleaning.IsClean(Cleaning.Clean(raw))
    ensures |report.lastIncidentDate| == |raw|
  {
    var df := new CrimeFrame(raw);
    df.FillDistrict();
    df.StripStreet();
    assert df.rows == Cleaning.Clean(raw);
    Cleaning.CleanSpec(raw);
    var summary := CrimeSummary.Summary(df.rows);
    var topOffenses := TopQueries.TopOffenses(df.rows);
    df.AddLastIncidentDate();
    var worstStreets := TopQueries.WorstStreets(df.rows);
    var recent := RecentIncidents.Recent(df.rows);
    report := Report(summary, topOffenses, df.lastIncidentDate.value, worstStreets, recent);
  }
}
