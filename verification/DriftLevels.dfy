/** The levels a drift detector reports. */
module DriftLevels {
  datatype Level = NoDrift | Warning | Drift

  predicate IsChange(level: Level) {
    level != NoDrift
  }

  function Rank(level: Level): nat {
    match level
    case NoDrift => 0
    case Warning => 1
    case Drift => 2
  }
}
