/** The lifecycle states of a scan (pkg/scan/state.go). */
module ScanState {

  /** A status text. Blank is the empty string; Other is any text that names no lifecycle state. */
  datatype State =
    | Blank
    | PENDING
    | RUNNING
    | SUCCESS
    | FAILED
    | TIMEOUT
    | UNREACHABLE
    | Other(text: string)

  predicate IsTerminal(s: State) {
    s.SUCCESS? || s.FAILED? || s.TIMEOUT? || s.UNREACHABLE?
  }

  /** A blank status means that the scan is still pending. */
  function Logical(s: State): State {
    if s == Blank then PENDING else s
  }

  predicate ValidTransition(fromState: State, toState: State) {
    match toState
    case RUNNING => Logical(fromState) == PENDING
    case SUCCESS | FAILED | TIMEOUT | UNREACHABLE =>
      Logical(fromState) == RUNNING || Logical(fromState) == PENDING
    case _ => false
  }

  /** PENDING < RUNNING < terminal. Text outside the lifecycle ranks with the terminal states. */
  function Rank(s: State): nat {
    match s
    case Blank | PENDING => 0
    case RUNNING => 1
    case _ => 2
  }

  /** A transition is allowed exactly when it starts from a pending or running scan and raises the rank. */
  lemma AllowedMeansRising(fromState: State, toState: State)
    requires !toState.Other?
    ensures ValidTransition(fromState, toState) <==>
              !IsTerminal(fromState) && !fromState.Other? && Rank(fromState) < Rank(toState)
  {
  }
}
