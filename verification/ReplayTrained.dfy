/** Replay over a model that has already learned: which chunks a harness built on it can commit. */
module ReplayTrained {
  import opened Errors
  import opened LinearAlgebra
  import opened Cholesky
  import opened RidgeBandit
  import opened Replay
  import opened ReplayInvariants

  /** What the state check asks of the configuration besides the ledger capacities. */
  predicate Legal(config: ReplayConfig) {
    config.maxRecords > 0 && 0 < |config.schemaHash| <= 128
  }

  /** A new harness over a valid model fails the state check for its configuration or its samples only. */
  lemma NewStructured(model: Stable, config: ReplayConfig)
    requires StableValid(model) && NewHarness(model, config).Ok?
    ensures var h := NewHarness(model, config).value;
      && (Structured(h) <==> Legal(config)) && Resets(h) == 0 && TotalPulls(h.perArmPulls) == 0
  {
    ZeroPulls(model.armCount);
  }

  /**
   From a new harness over a trained model a chunk commits exactly when the configuration is legal, the chunk
   is admitted, its events succeed, and one of them resets the model at a generation or drift boundary. Every
   other chunk is refused and leaves the harness as it was, so the same holds of the next one.
   */
  lemma TrainedChunk(model: Stable, config: ReplayConfig, records: seq<Record>, env: Env)
    requires StableValid(model) && model.samplesSeen > 0 && NewHarness(model, config).Ok? && IsSqrt(env.sqrt)
    requires config.maxRecords <= U64_MAX && config.maxCompleted <= U64_MAX
    ensures var h := NewHarness(model, config).value;
      ReplayChunk(h, records, env).Ok? <==>
        && Legal(config) && Admitted(h, records) && ReplayInPlace(Start(h, records), records, env).Ok?
        && Resets(ReplayInPlace(Start(h, records), records, env).value) > 0
  {
    var h := NewHarness(model, config).value;
    NewStructured(model, config);
    AdmitIs(h, records);
    if Admitted(h, records) && ReplayInPlace(Start(h, records), records, env).Ok? && Legal(config) {
      EventsIndexed(records);
      EventsKeep(Start(h, records), records, Sort(EventsOf(records)), env);
    }
  }

  /** A model that has learned from one sample of one arm. */
  const LEARNED: Stable := Stable(1, 1, 1.0, [Identity(1)], [Zero(1)], 1)

  /** Such a model makes a harness that fails its own state check: one sample and no pull. */
  lemma LearnedHarnessInvalid()
    ensures var config := ReplayConfig(10, 5, 0, "h", 10, 10);
      StableValid(LEARNED) && NewHarness(LEARNED, config).Ok? && !HarnessValid(NewHarness(LEARNED, config).value)
  {
    IdentityRepresents(1);
    NewHarnessValid(LEARNED, ReplayConfig(10, 5, 0, "h", 10, 10));
  }
}
