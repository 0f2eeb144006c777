/**
 * The records the router works on: the parsed CSV rows (`item.tx` of a match
 * result), the ledger's simplified transactions, and the match results that
 * pair the two. Their producers (the CSV reader, the ledger client and the
 * matcher) are not part of this model.
 */
module Records {

  /** A calendar date as (year, month, day). */
  datatype Date = Date(year: int, month: int, day: int)

  /** The `"%Y-%m"` month a date falls in, kept as a pair rather than as text. */
  datatype MonthKey = MonthKey(year: int, month: int)

  function MonthOf(d: Date): MonthKey
  {
    MonthKey(d.year, d.month)
  }

  /** One parsed CSV row; `id` is its 0-based position in the file. Amounts are in minor units. */
  datatype BankRecord = BankRecord(id: int, date: Date, amount: int, description: string)

  /** The ledger's simplified projection of a transaction. */
  datatype SimplifiedTx = SimplifiedTx(id: string, date: Date, amount: int, description: string, tags: seq<string>)

  /** One CSV row with every ledger transaction the matcher paired it with, in the matcher's order. */
  datatype MatchResult = MatchResult(tx: BankRecord, matches: seq<SimplifiedTx>)
}
