/** The error values of the library that the modelled operations can return. */
module Errors {
  const U64_MAX: nat := 0xFFFF_FFFF_FFFF_FFFF

  /** What an `InvalidState` error complains about; the source carries a message. */
  datatype Fault =
    | NotSquare
    | NotPositiveDefinite
    | NotSymmetric
    | ArmLengths
    | ArmDimensions
    | NegativeVariance
    | DenominatorNotPositive
    | DiagonalNotPositive
    | CounterOverflow
    | LedgerFailure(error: LedgerError)
    | UnknownDelayedDecision
    | ReplayCapacityExceeded
    | LatencyCapacityExceeded
    | ExpiryOverflow
    | OutcomeRewardMismatch
    | OutcomePrecedesDecision
    | InvalidReplayState
    | DetectorNameLength
    | UnavailableDetectorVoted
    | DuplicateDetector
    | VoteThresholds
    | WindowCounts
    | SchemaInvalid
    | PortableWindowTooLong
    | PortableSamplesTooFew
    | PortableTotalMismatch
    | PortableLevelTooEarly
    | PortableConfigMismatch
    | NegativeSpread
    | WeightedCounts

  /** Validation and capacity failures of the decision ledger. */
  datatype LedgerError =
    | InvalidLedgerCapacity
    | InvalidTimeRange
    | PendingCapacityExceeded
    | CompletedCapacityExceeded
    | ValueTooLarge
    | DecisionConflict
    | UnknownDecision
    | DuplicateFeedback
    | FeedbackBeforeDecision
    | FeedbackExpired
    | GenerationMismatch
    | ActionMismatch

  datatype Error =
    | InvalidArmCount(actual: nat)
    | InvalidFeatureCount(actual: nat)
    | InvalidParameter(value: real)
    | InvalidArm(expected: nat, actual: nat)
    | DimensionMismatch(expected: nat, actual: nat)
    | InvalidState(fault: Fault)
    | InvalidCapacity(actual: nat)
    | InvalidSignificanceLevel(value: real)
    | IncompatibleStateVersion(expected: nat, actual: nat)

  datatype Result<+T> = Ok(value: T) | Err(error: Error)

  /** Increments a long-running counter without wraparound. */
  function CheckedIncrement(n: nat): Result<nat> {
    if n >= U64_MAX then Err(InvalidState(CounterOverflow)) else Ok(n + 1)
  }

  datatype Option<+T> = None | Some(value: T)
}
