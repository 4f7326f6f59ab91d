/**
 * One row of the crime-incident table: the columns the analysis script reads.
 * Timestamps are already parsed into integers (seconds, say); the script's
 * parsing of the date column is not part of this model.
 */
module Incidents {
  import opened Wrappers

  datatype Incident = Incident(
    number: string,                // INCIDENT_NUMBER
    code: int,                     // OFFENSE_CODE
    group: string,                 // OFFENSE_CODE_GROUP
    description: Option<string>,  // OFFENSE_DESCRIPTION
    district: Option<string>,     // DISTRICT, missing in the raw file for some rows
    street: Option<string>,       // STREET, missing in the raw file for some rows
    occurred: int,                 // OCCURRED_ON_DATE
    hour: int,                     // HOUR
    month: int                     // MONTH
  )

  /** The in-memory table `df`: its rows in their order in the file. */
  type Table = seq<Incident>
}
