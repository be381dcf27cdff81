/** Optional values, the error outcomes the modelled Python code can raise, and a fact about lists. */
module Results {

  datatype Option<+T> = None | Some(value: T) {
    function GetOr(default: T): T {
      match this
      case Some(v) => v
      case None => default
    }
  }

  /** The exceptions the modelled code raises or lets escape. */
  datatype Error =
    | InvalidMonthFormat(input: string)  // ValueError raised by parse_month
    | DateOutOfRange                      // ValueError from datetime(...) outside years 1..9999
    | IntegerOverflow                     // OverflowError: a datetime argument does not fit a C int
    | MissingMonthlyAmounts               // IndexError: an empty 'monthlyAmounts' list indexed at [0]

  datatype Result<+T> = Ok(value: T) | Err(error: Error)

  /** Concatenation regroups freely; the order-keeping proofs of the list filters use it. */
  lemma Regroup<T>(x: seq<T>, y: seq<T>, z: seq<T>)
    ensures x + (y + z) == (x + y) + z
  {
  }
}
