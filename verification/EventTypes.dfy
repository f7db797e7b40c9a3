/** The records that cross the event-locator ABI, and the small arithmetic helpers
    shared by the scan and by the root finders.  Doubles are modelled as reals. */
module EventTypes {
  import opened Options

  datatype RootMethod = Brent | Bisection | Illinois

  datatype RootStatus =
    | Converged
    | MaxIterations
    | FlatBracket
    | Discontinuous
    | Truncated
    | EpochResolutionLimited

  /** How smooth a component's event function is declared to be. */
  datatype Continuity = Smooth | Piecewise | Discrete

  datatype EventError =
    | NotConfigured
    | BadObjectIndex
    | BadInput
    | NotStarted
    | UnknownComponent
    | BufferTooSmall
    | ProtocolOrder
    | SupplyCountMismatch

  datatype RootPolicy = RootPolicy(
    scanStep: real,
    epochTolerance: real,
    valueTolerance: real,
    maxIterations: nat,
    finder: RootMethod)

  /** `component == None` stands for the ALL_COMPONENTS sentinel; a zero
      `maxEvents`, `maxEvaluations` or `occurrence` means "no limit". */
  datatype EventInterval = EventInterval(
    startJdDay: real,
    startSeconds: real,
    stopJdDay: real,
    stopSeconds: real,
    maxEvents: nat,
    maxEvaluations: nat,
    occurrence: nat,
    component: Option<nat>,
    direction: int)

  /** One reported crossing.  The three booleans are the flag bits the runner sets. */
  datatype Hit = Hit(
    jdDay: real,
    seconds: real,
    value: real,
    component: nat,
    iterations: nat,
    evaluations: nat,
    direction: int,
    status: RootStatus,
    backward: bool,
    stopCondition: bool,
    tangential: bool)

  datatype ScanSummary = ScanSummary(
    initialValue: real,
    finalValue: real,
    component: nat,
    crossingCount: nat,
    evaluationCount: nat,
    initialSign: int,
    finalSign: int)

  function Abs(v: real): (r: real)
    ensures r >= 0.0
    ensures r == v || r == -v
  {
    if v < 0.0 then -v else v
  }

  function Sign(v: real): (r: int)
    ensures -1 <= r <= 1
  {
    if v > 0.0 then 1 else if v < 0.0 then -1 else 0
  }

  /** The arithmetic mean of the two ends. */
  function Midpoint(x: real, y: real): real {
    0.5 * (x + y)
  }

  /** `x` lies in the closed interval whose ends, in either order, are `p` and `q`. */
  ghost predicate Within(x: real, p: real, q: real) {
    p <= x <= q || q <= x <= p
  }

  /** `x` lies strictly inside the interval whose ends, in either order, are `p` and `q`. */
  ghost predicate Inside(x: real, p: real, q: real) {
    p < x < q || q < x < p
  }

  /** Both numbers are nonzero and of the same sign. */
  ghost predicate SameSign(x: real, y: real) {
    (x > 0.0 && y > 0.0) || (x < 0.0 && y < 0.0)
  }

  /** Both numbers are nonzero and of opposite sign. */
  ghost predicate OppositeSign(x: real, y: real) {
    (x > 0.0 && y < 0.0) || (x < 0.0 && y > 0.0)
  }
}
