/** `apply_contextual_outcome` on the two objects: ledger and model change together or not at all. */
module DelayedOutcome {
  import opened Errors
  import opened RidgeBandit
  import opened LinUcb
  import opened LedgerObject
  import Ledger
  import Replay

  method ApplyContextualOutcome(ledger: DecisionLedger, model: StableBandit, outcome: Ledger.Outcome)
    returns (r: Result<()>)
    requires ledger.Valid() && model.Valid()
    modifies ledger, model
    ensures ledger.Valid() && model.Valid()
    ensures match Replay.ApplyContextualOutcome(old(ledger.View()), old(model.View()), outcome, model.sqrt)
      case Ok(pair) => r == Ok(()) && ledger.View() == pair.0 && model.View() == pair.1
      case Err(e) => r == Err(e) && ledger.View() == old(ledger.View()) && model.View() == old(model.View())
  {
    if outcome.decisionId !in ledger.pending {
      return Err(InvalidState(UnknownDelayedDecision));
    }
    var context := ledger.pending[outcome.decisionId].context;
    if |context| != model.featureCount {
      return Err(DimensionMismatch(model.featureCount, |context|));
    }
    var nextLedger := new DecisionLedger.FromState(Ledger.LedgerState(ledger.config, ledger.pending, ledger.completed));
    var nextModel := new StableBandit(
      Stable(model.armCount, model.featureCount, model.alpha, model.aMatrices, model.bVectors, model.samplesSeen),
      model.sqrt);
    var reply := nextLedger.ApplyFeedback(outcome);
    if reply.Rejected? {
      return Err(InvalidState(LedgerFailure(reply.error)));
    }
    var result := nextModel.Update(outcome.action, context, outcome.reward);
    if result.Err? {
      return result;
    }
    ledger.pending, ledger.completed := nextLedger.pending, nextLedger.completed;
    model.aMatrices, model.bVectors := nextModel.aMatrices, nextModel.bVectors;
    model.samplesSeen := nextModel.samplesSeen;
    r := Ok(());
  }
}
