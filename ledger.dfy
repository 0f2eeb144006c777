/**
 * The ledger side of `TransactionProcessor.apply_match`: one remote mutation
 * per call that either takes effect or raises `RuntimeError`. Which calls fail
 * is not something the router can see, so the ledger is given a failure oracle
 * indexed by the attempt's position in the ledger's lifetime; any failure
 * pattern the remote service can produce is one such oracle.
 */
module FireflyLedger {
  import opened Results
  import opened Records

  /** One call `apply_match(record, candidate)`. */
  datatype Attempt = Attempt(record: BankRecord, candidate: SimplifiedTx)

  /** For attempt number `n`: `None` when it succeeds, `Some(message)` when it raises. */
  type FailureOracle = (nat, Attempt) -> Option<string>

  class Ledger {
    /** Every mutation attempted, in call order. */
    var attempts: seq<Attempt>
    /** The mutations that took effect (category set, reconciliation tag added), in call order. */
    var applied: seq<Attempt>
    const failure: FailureOracle

    constructor (failure: FailureOracle)
      ensures attempts == [] && applied == [] && this.failure == failure
    {
      attempts := [];
      applied := [];
      this.failure := failure;
    }

    /** A single mutation: always recorded as attempted, applied only when it does not fail. */
    method ApplyMatch(record: BankRecord, candidate: SimplifiedTx) returns (err: Option<string>)
      modifies this
      ensures err == failure(|old(attempts)|, Attempt(record, candidate))
      ensures attempts == old(attempts) + [Attempt(record, candidate)]
      ensures applied == if err.None? then old(applied) + [Attempt(record, candidate)] else old(applied)
    {
      var a := Attempt(record, candidate);
      err := failure(|attempts|, a);
      attempts := attempts + [a];
      if err.None? {
        applied := applied + [a];
      }
    }
  }
}
