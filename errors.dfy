/** The Python exceptions that the data pipeline can raise, and the order in
    which a loop meets them. A Python loop stops at the first exception it
    raises; `FirstFault` picks that exception out of a sequence of per-step
    outcomes listed in the order the loop visits them. */
module Errors {

  datatype Option<T> = None | Some(value: T)

  /** The exceptions the model distinguishes. `KeyError` carries the missing
      key (a character is carried as a one-character string). */
  datatype PyError =
    | KeyError(key: string)
    | IndexError
    | ValueError
    | AssertionError
    | ZeroDivisionError

  datatype Result<T> = Ok(value: T) | Err(error: PyError)

  /** The first `Some` in `faults`, or `None` if every step succeeds.
      Defined from the back so that extending a scanned prefix by one step
      is one unfolding. */
  function FirstFault(faults: seq<Option<PyError>>): (r: Option<PyError>)
    ensures r.None? <==> forall k :: 0 <= k < |faults| ==> faults[k].None?
  {
    if |faults| == 0 then None
    else
      var front := FirstFault(faults[..|faults| - 1]);
      if front.Some? then front else faults[|faults| - 1]
  }

  /** A scan whose first `k` steps succeed and whose step `k` fails reports
      the fault of step `k`, whatever the later steps do. */
  lemma {:induction false} FirstFaultAt(faults: seq<Option<PyError>>, k: nat)
    requires k < |faults| && faults[k].Some?
    requires forall j :: 0 <= j < k ==> faults[j].None?
    ensures FirstFault(faults) == faults[k]
  {
    var front := faults[..|faults| - 1];
    if k < |faults| - 1 {
      FirstFaultAt(front, k);
    } else {
      assert forall j :: 0 <= j < |front| ==> front[j].None?;
    }
  }

  /** Extending a fault-free prefix by one step reports that step's outcome. */
  lemma FirstFaultOfPrefix(faults: seq<Option<PyError>>, k: nat)
    requires k < |faults|
    requires FirstFault(faults[..k]).None?
    ensures FirstFault(faults[..k + 1]) == faults[k]
  {
    assert faults[..k + 1][..k] == faults[..k];
  }
}
