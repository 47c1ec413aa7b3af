/** Literal values of integrations/linkedin/constants.py used by the crawler. */
module Constants {
  const SEARCH_BASE_URL: string := "https://www.linkedin.com/jobs/search"

  /** The "date posted" search filter; each value is the token LinkedIn expects in f_TPR. */
  datatype LinkedinPostDateRange = LastWeek | LastMonth {
    function Value(): string {
      match this
      case LastWeek => "r86400"
      case LastMonth => "r2592000"
    }
  }
}
