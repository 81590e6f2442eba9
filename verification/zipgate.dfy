/** The zip-code gate of the search page (app.py:27-31): a warning for a
    non-empty entry that is not five digits, and a search only when the
    form is submitted with five digits. */
module ZipGate {
  import opened Numerals

  /** Python's `s.isdigit()` over ASCII digits: non-empty and all digits. */
  predicate IsDigitString(s: string) {
    |s| > 0 && AllDigits(s)
  }

  /** A five-digit zip code. */
  predicate ValidZip(zip: string) {
    IsDigitString(zip) && |zip| == 5
  }

  /** The warning of app.py:27-28: shown for an entry that is non-empty but
      not five digits. */
  function ShowsWarning(zip: string): (r: bool)
    ensures r <==> |zip| > 0 && !(|zip| == 5 && AllDigits(zip))
  {
    |zip| > 0 && !ValidZip(zip)
  }

  /** The search of app.py:31: run when the button was pressed and the entry
      is five digits. */
  function RunsSearch(submitted: bool, zip: string): (r: bool)
    ensures r <==> submitted && |zip| == 5 && AllDigits(zip)
  {
    submitted && |zip| > 0 && ValidZip(zip)
  }

  /** The warning and the search never both happen. */
  lemma WarningExcludesSearch(submitted: bool, zip: string)
    ensures !(ShowsWarning(zip) && RunsSearch(submitted, zip))
  {
  }

  /** An empty entry triggers neither. */
  lemma EmptyTriggersNeither(submitted: bool)
    ensures !ShowsWarning("") && !RunsSearch(submitted, "")
  {
  }

  /** A submitted non-empty entry triggers exactly one of the two. */
  lemma SubmittedTriggersOne(zip: string)
    requires |zip| > 0
    ensures ShowsWarning(zip) != RunsSearch(true, zip)
  {
  }
}
