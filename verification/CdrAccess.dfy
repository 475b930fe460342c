/** What every CDR writer grants to a request for recent records. */
module CdrAccess {
  const READ_CDR_LIMIT: nat := 100

  function Min(a: nat, b: nat): nat {
    if a < b then a else b
  }

  /** How many records a request for `limit` gets out of `count`. */
  function Granted(limit: nat, count: nat): nat {
    Min(Min(limit, READ_CDR_LIMIT), count)
  }

  /** The last records of a log, in write order. */
  function Recent<T>(log: seq<T>, limit: nat): seq<T> {
    log[|log| - Granted(limit, |log|)..]
  }

  /** No more than asked for, than 100 and than there are, but as many as one of these,
      from the end of the log in its order. */
  predicate LastOnes<T(==)>(log: seq<T>, limit: nat, records: seq<T>) {
    var n := |records|;
    && n <= limit && n <= 100 && n <= |log| && (n == limit || n == 100 || n == |log|)
    && forall j :: 0 <= j < n ==> records[j] == log[|log| - n + j]
  }

  /** These are the records a request gets. */
  lemma RecentAreLast<T>(log: seq<T>, limit: nat)
    ensures LastOnes(log, limit, Recent(log, limit))
  {
  }
}
