/**
 * The `_check_params` loop shared by both factories: walk the required
 * keys in order and stop at the first one the caller did not supply.
 */
module ParamCheck {

  /**
   * The position of the first required key absent from `provided`, or
   * |required| when every one of them is present.
   */
  function FirstMissing(required: seq<string>, provided: set<string>): (i: nat)
    ensures i <= |required|
    ensures forall j :: 0 <= j < i ==> required[j] in provided
    ensures i < |required| ==> required[i] !in provided
  {
    if required == [] then 0
    else if required[0] !in provided then 0
    else 1 + FirstMissing(required[1..], provided)
  }

  /** Only whether the required keys are present matters; any other key is ignored. */
  lemma {:induction false} FirstMissingIgnoresOtherKeys(required: seq<string>, p1: set<string>, p2: set<string>)
    requires forall j :: 0 <= j < |required| ==> (required[j] in p1 <==> required[j] in p2)
    ensures FirstMissing(required, p1) == FirstMissing(required, p2)
  {
    if required != [] && required[0] in p1 {
      FirstMissingIgnoresOtherKeys(required[1..], p1, p2);
    }
  }
}
