/** Calls to the cluster that may fail. */
module Calls {
  /** A call succeeds, or is refused without effect, or takes effect although the
      caller sees an error. A controller that stops sees refusals from then on. */
  datatype Fault = Fine | Refused | Unacknowledged

  /** The fault of each call, by its number. */
  type Faults = nat -> Fault

  /** From this call on nothing fails. */
  ghost predicate FineFrom(f: Faults, calls: nat) {
    forall i :: calls <= i ==> f(i) == Fine
  }

  /** The calls from number `a` to before number `b` all succeeded. */
  ghost predicate FineIn(f: Faults, a: nat, b: nat) {
    forall i: nat :: a <= i < b ==> f(i) == Fine
  }
}
