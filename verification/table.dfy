/** One row of the input spreadsheet, as both scripts read it: the
    `Company` cell and the `Website` cell, which may be missing (NaN). */
module Table {

  import opened Wrappers

  datatype CompanyRow = CompanyRow(company: string, website: Option<string>)
}
