/** A validation written as a sequence of guards that each throw their own
    message: the first guard that fails decides the error, and later guards are
    not looked at. */
module Validation {
  import opened Wrappers

  /** One guard: whether the value passes it, and the message it throws if not. */
  datatype Check = Check(passes: bool, message: string)

  /** Check `i` is the first guard that fails. */
  predicate FailsFirst(checks: seq<Check>, i: int) {
    && 0 <= i < |checks|
    && !checks[i].passes
    && forall j | 0 <= j < i :: checks[j].passes
  }

  /** Runs the guards in order and reports the message of the first that fails. */
  function FirstFailure(checks: seq<Check>): (r: Option<string>)
    ensures r.None? <==> forall i | 0 <= i < |checks| :: checks[i].passes
    decreases |checks|
  {
    if checks == [] then None
    else if !checks[0].passes then Some(checks[0].message)
    else FirstFailure(checks[1..])
  }

  /** The reported message is the one of the first failing guard. */
  lemma {:induction false} FirstFailureAt(checks: seq<Check>, i: int)
    requires FailsFirst(checks, i)
    ensures FirstFailure(checks) == Some(checks[i].message)
    decreases i
  {
    if i > 0 {
      assert checks[0].passes;
      FirstFailureAt(checks[1..], i - 1);
    }
  }
}
