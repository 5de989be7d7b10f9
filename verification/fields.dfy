/**
 * The cells the dashboard reads from a sheet row: a trimmed text cell such as the mode or
 * month, the amount through `toNumber`, and the date through `parseDateValue`.
 */
module Fields {
  import opened Wrappers
  import opened Text
  import opened Assoc
  import opened Rows
  import opened Amounts
  import opened Dates

  /** `(r[k] || "").trim()`. */
  function Key(r: Row, k: string): string {
    Trim(Field(r, k))
  }

  /** `toNumber(r.Amount)`; a row without an Amount cell reads as 0. */
  function Amount(r: Row): real {
    ToNumber(Get(r, "Amount"))
  }

  /** `parseDateValue(r.Date)` as a time value. */
  function RowDate(instant: string -> int, r: Row): real {
    DateOrdinal(instant, Field(r, "Date")) as real
  }
}
