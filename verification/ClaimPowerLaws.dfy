/**
 Laws of the claim-power table over whole pools: a closed form of the
 outcome, and what added or relaxed evidence does to it.
 */
module ClaimPowerLaws {
  import opened ClaimPower
  import opened Counting
  import opened GateFindings
  import opened Ordering
  import opened ProofConfig
  import opened ProofFormat
  import opened Wrappers

  // ----- The closed form

  ghost predicate FailsAnExample(predicate_: DiscriminatingPower) {
    exists run | run in predicate_.examples :: !run.passed
  }

  function PoolRows(config: Config, predicate_: DiscriminatingPower, row: Row): nat {
    Rows(config, predicate_, TaintedBy(predicate_.mutants), predicate_.mutants, row)
  }

  /** Executed evidence against the criterion. */
  ghost predicate DpBlocks(config: Config, predicate_: DiscriminatingPower) {
    !predicate_.correctCodePasses || FailsAnExample(predicate_) || PoolRows(config, predicate_, Blocks) > 0
  }

  /** Something the evidence does not settle. */
  ghost predicate DpEscalates(config: Config, predicate_: DiscriminatingPower) {
    || TaintedBy(predicate_.mutants) != {}
    || PoolRows(config, predicate_, Escalates) > 0
    || PoolRows(config, predicate_, HostEligible) > Max(0, config.maxHostExclusions)
    || ValidMutants(predicate_.mutants) == 0
    || (PoolRows(config, predicate_, Credits) == 0 && PoolRows(config, predicate_, Blocks) == 0)
  }

  ghost function DpOutcome(config: Config, predicate_: DiscriminatingPower): Outcome {
    if DpBlocks(config, predicate_) then Block else if DpEscalates(config, predicate_) then Escalate else Pass
  }

  lemma {:induction false} ExampleFindingsEffect(id: string, examples: seq<ExampleRun>)
    ensures HasEffect(ExampleFindings(id, examples), EffectBlock) <==> exists run | run in examples :: !run.passed
    ensures !HasEffect(ExampleFindings(id, examples), EffectEscalate)
  {
    if examples == [] {
    } else {
      var last := |examples| - 1;
      ExampleFindingsEffect(id, examples[..last]);
      assert examples == examples[..last] + [examples[last]];
      var added := if examples[last].passed then []
                   else [DpFinding(ExampleFails, EffectBlock, id, OfExample(examples[last].index))];
      HasEffectConcat(ExampleFindings(id, examples[..last]), added, EffectBlock);
      HasEffectConcat(ExampleFindings(id, examples[..last]), added, EffectEscalate);
      if !examples[last].passed {
        assert added[0] in added;
      }
    }
  }

  lemma {:induction false} FirstKillsEffect(id: string, tests: seq<string>, seen: set<string>)
    ensures !HasEffect(FirstKills(id, tests, seen), EffectBlock)
    ensures HasEffect(FirstKills(id, tests, seen), EffectEscalate) <==> exists test | test in tests :: test !in seen
  {
    if tests == [] {
    } else {
      var last := |tests| - 1;
      var earlier, test := tests[..last], tests[last];
      FirstKillsEffect(id, earlier, seen);
      assert tests == earlier + [test];
      var added := if test in seen || test in earlier then []
                   else [DpFinding(MutationSensitiveTest, EffectEscalate, id, OfTest(test))];
      HasEffectConcat(FirstKills(id, earlier, seen), added, EffectBlock);
      HasEffectConcat(FirstKills(id, earlier, seen), added, EffectEscalate);
      if !(test in seen || test in earlier) {
        assert added[0] in added;
      }
    }
  }

  lemma {:induction false} TaintFindingsEffect(id: string, mutants: seq<Mutant>)
    ensures !HasEffect(TaintFindings(id, mutants), EffectBlock)
    ensures HasEffect(TaintFindings(id, mutants), EffectEscalate) <==> TaintedBy(mutants) != {}
  {
    if mutants == [] {
    } else {
      var last := |mutants| - 1;
      TaintFindingsEffect(id, mutants[..last]);
      TaintedByStep(mutants, last);
      assert mutants[..last + 1] == mutants;
      var killers, before := Killers(mutants[last].results), TaintedBy(mutants[..last]);
      var added := if mutants[last].sentinel then FirstKills(id, killers, before) else [];
      FirstKillsEffect(id, killers, before);
      HasEffectConcat(TaintFindings(id, mutants[..last]), added, EffectBlock);
      HasEffectConcat(TaintFindings(id, mutants[..last]), added, EffectEscalate);
      if before == {} && mutants[last].sentinel {
        if test :| test in killers {
          assert test in TaintedBy(mutants);
        }
        if test :| test in TaintedBy(mutants) {
          assert test in killers;
        }
      }
    }
  }

  lemma {:induction false} MutantFindingsEffect(config: Config, id: string, predicate_: DiscriminatingPower,
                                                tainted: set<string>, mutants: seq<Mutant>)
    ensures HasEffect(MutantFindings(config, id, predicate_, tainted, mutants), EffectBlock)
            <==> Rows(config, predicate_, tainted, mutants, Blocks) > 0
    ensures HasEffect(MutantFindings(config, id, predicate_, tainted, mutants), EffectEscalate)
            <==> || Rows(config, predicate_, tainted, mutants, Escalates) > 0
                 || Rows(config, predicate_, tainted, mutants, HostEligible) > Max(0, config.maxHostExclusions)
  {
    if mutants == [] {
    } else {
      var last := |mutants| - 1;
      var earlier := mutants[..last];
      MutantFindingsEffect(config, id, predicate_, tainted, earlier);
      RowsStep(config, predicate_, tainted, mutants, last);
      assert mutants[..last + 1] == mutants;
      var row, rank := RowOf(config, predicate_, tainted, mutants[last]),
                       Rows(config, predicate_, tainted, earlier, HostEligible);
      var added := MutantFinding(id, mutants[last], row, rank, config.maxHostExclusions);
      HasEffectConcat(MutantFindings(config, id, predicate_, tainted, earlier), added, EffectBlock);
      HasEffectConcat(MutantFindings(config, id, predicate_, tainted, earlier), added, EffectEscalate);
      if added != [] {
        assert added[0] in added;
      }
    }
  }

  lemma HasEffectOne(finding: Finding, effect: Effect)
    ensures HasEffect([finding], effect) <==> finding.effect == effect
  {
    assert finding in [finding];
  }

  lemma ReferenceFindingsEffect(id: string, predicate_: DiscriminatingPower)
    ensures HasEffect(ReferenceFindings(id, predicate_), EffectBlock)
            <==> !predicate_.correctCodePasses || FailsAnExample(predicate_)
    ensures !HasEffect(ReferenceFindings(id, predicate_), EffectEscalate)
  {
    ExampleFindingsEffect(id, predicate_.examples);
    var first := DpFinding(CorrectCodeFails, EffectBlock, id, NoTopic);
    HasEffectOne(first, EffectBlock);
    HasEffectOne(first, EffectEscalate);
    var head := if predicate_.correctCodePasses then [] else [first];
    HasEffectConcat(head, ExampleFindings(id, predicate_.examples), EffectBlock);
    HasEffectConcat(head, ExampleFindings(id, predicate_.examples), EffectEscalate);
  }

  lemma PoolFindingsEffect(config: Config, id: string, predicate_: DiscriminatingPower)
    ensures HasEffect(PoolFindings(config, id, predicate_), EffectBlock) <==> PoolRows(config, predicate_, Blocks) > 0
    ensures HasEffect(PoolFindings(config, id, predicate_), EffectEscalate)
            <==> || TaintedBy(predicate_.mutants) != {}
                 || PoolRows(config, predicate_, Escalates) > 0
                 || PoolRows(config, predicate_, HostEligible) > Max(0, config.maxHostExclusions)
  {
    var sorted, tainted := InDigestOrder(predicate_.mutants), TaintedBy(predicate_.mutants);
    SortPermutes(predicate_.mutants, ByDigest);
    TaintedPermutes(sorted, predicate_.mutants);
    CountsPermute(config, predicate_, tainted, sorted, predicate_.mutants);
    TaintFindingsEffect(id, sorted);
    MutantFindingsEffect(config, id, predicate_, tainted, sorted);
    HasEffectConcat(TaintFindings(id, sorted), MutantFindings(config, id, predicate_, tainted, sorted), EffectBlock);
    HasEffectConcat(TaintFindings(id, sorted), MutantFindings(config, id, predicate_, tainted, sorted), EffectEscalate);
  }

  lemma OutcomeOfFindings(config: Config, id: string, predicate_: DiscriminatingPower)
    ensures Strongest(DpFindings(config, id, predicate_)) == DpOutcome(config, predicate_)
  {
    var reference, pool := ReferenceFindings(id, predicate_), PoolFindings(config, id, predicate_);
    var power := PowerFindings(id, ValidMutants(predicate_.mutants), PoolRows(config, predicate_, Credits),
                               PoolRows(config, predicate_, Blocks) > 0);
    ReferenceFindingsEffect(id, predicate_);
    PoolFindingsEffect(config, id, predicate_);
    HasEffectOne(DpFinding(NoValidMutant, EffectEscalate, id, NoTopic), EffectEscalate);
    HasEffectOne(DpFinding(NoKilledValidMutant, EffectEscalate, id, NoTopic), EffectEscalate);
    HasEffectConcat(reference, pool, EffectBlock);
    HasEffectConcat(reference, pool, EffectEscalate);
    HasEffectConcat(reference + pool, power, EffectBlock);
    HasEffectConcat(reference + pool, power, EffectEscalate);
    assert DpFindings(config, id, predicate_) == reference + pool + power;
  }

  /** Every finding blocks or escalates, and none is a question. */
  ghost predicate NoneInforms(findings: seq<Finding>) {
    forall finding | finding in findings :: finding.effect != EffectInform && finding.category != CompletenessQuestion
  }

  lemma {:induction false} ExamplesInform(id: string, examples: seq<ExampleRun>)
    ensures NoneInforms(ExampleFindings(id, examples))
  {
    if examples != [] {
      ExamplesInform(id, examples[..|examples| - 1]);
    }
  }

  lemma {:induction false} KillsInform(id: string, tests: seq<string>, seen: set<string>)
    ensures NoneInforms(FirstKills(id, tests, seen))
  {
    if tests != [] {
      KillsInform(id, tests[..|tests| - 1], seen);
    }
  }

  lemma {:induction false} TaintsInform(id: string, mutants: seq<Mutant>)
    ensures NoneInforms(TaintFindings(id, mutants))
  {
    if mutants != [] {
      var last := |mutants| - 1;
      TaintsInform(id, mutants[..last]);
      KillsInform(id, Killers(mutants[last].results), TaintedBy(mutants[..last]));
    }
  }

  lemma {:induction false} MutantsInform(config: Config, id: string, predicate_: DiscriminatingPower,
                                         tainted: set<string>, mutants: seq<Mutant>)
    ensures NoneInforms(MutantFindings(config, id, predicate_, tainted, mutants))
  {
    if mutants != [] {
      MutantsInform(config, id, predicate_, tainted, mutants[..|mutants| - 1]);
    }
  }

  lemma NoneInformsConcat(front: seq<Finding>, back: seq<Finding>)
    requires NoneInforms(front) && NoneInforms(back)
    ensures NoneInforms(front + back)
  {
  }

  lemma ReferenceInforms(id: string, predicate_: DiscriminatingPower)
    ensures NoneInforms(ReferenceFindings(id, predicate_))
  {
    ExamplesInform(id, predicate_.examples);
  }

  lemma PoolInforms(config: Config, id: string, predicate_: DiscriminatingPower)
    ensures NoneInforms(PoolFindings(config, id, predicate_))
  {
    var sorted, tainted := InDigestOrder(predicate_.mutants), TaintedBy(predicate_.mutants);
    TaintsInform(id, sorted);
    MutantsInform(config, id, predicate_, tainted, sorted);
    NoneInformsConcat(TaintFindings(id, sorted), MutantFindings(config, id, predicate_, tainted, sorted));
  }

  lemma NothingInforms(config: Config, id: string, predicate_: DiscriminatingPower)
    ensures NoneInforms(DpFindings(config, id, predicate_))
  {
    ReferenceInforms(id, predicate_);
    PoolInforms(config, id, predicate_);
    NoneInformsConcat(ReferenceFindings(id, predicate_), PoolFindings(config, id, predicate_));
  }

  lemma SilenceIsPass(findings: seq<Finding>)
    requires NoneInforms(findings)
    ensures findings == [] <==> Strongest(findings) == Pass
  {
    if findings != [] {
      assert findings[0] in findings;
    }
  }

  /** The outcome of the findings the evaluation emits is the closed form, whatever the digest order. */
  lemma ClosedForm(config: Config, id: string, predicate_: DiscriminatingPower)
    ensures Strongest(DpFindings(config, id, predicate_)) == DpOutcome(config, predicate_)
    ensures DpFindings(config, id, predicate_) == [] <==> DpOutcome(config, predicate_) == Pass
  {
    OutcomeOfFindings(config, id, predicate_);
    NothingInforms(config, id, predicate_);
    SilenceIsPass(DpFindings(config, id, predicate_));
  }

  // ----- What was run and what was claimed

  lemma {:induction false} KillersAre(results: seq<TestResult>, test: string)
    ensures test in Killers(results) <==> exists result | result in results ::
              result.test == test && result.outcome.value == Killed
  {
    if results == [] {
    } else {
      var last := |results| - 1;
      KillersAre(results[..last], test);
      assert results == results[..last] + [results[last]];
    }
  }

  ghost predicate KilledByATest(mutant: Mutant) {
    exists result | result in mutant.results :: result.outcome.value == Killed
  }

  /** A mutant that is no sentinel ran against some test, and no test killed it or failed to run. */
  ghost predicate SurvivedEveryTest(mutant: Mutant) {
    && !mutant.sentinel && mutant.results != []
    && !exists result | result in mutant.results :: result.outcome.value == Killed || result.outcome.value == Errored
  }

  /** The confidence, none counting as zero, reaches the threshold of its source. */
  predicate Reaches(threshold: Threshold, confidence: Option<real>, source: string) {
    match confidence
    case Some(sure) => sure >= threshold.For(source)
    case None => 0.0 >= threshold.For(source)
  }

  /** Where the confidence came from: as the mutant's own decision says, else as that of the matrix does. */
  function SourceOfValidity(predicate_: DiscriminatingPower, mutant: Mutant): string {
    match mutant.decision
    case Some(own) => own.confidenceSource
    case None => match predicate_.decision case Some(shared) => shared.confidenceSource case None => ""
  }

  predicate SureOfValidity(config: Config, predicate_: DiscriminatingPower, mutant: Mutant) {
    Reaches(config.validity, mutant.validity.confidence, SourceOfValidity(predicate_, mutant))
  }

  /** Who answered the claim, itself or else for the whole proof, was kept apart as far as the policy asks. */
  predicate IsolatedEnough(config: Config, own: Option<Executor>, shared: Executor) {
    match own
    case Some(executor) => executor.isolation.AtLeast(config.minIsolation)
    case None => shared.isolation.AtLeast(config.minIsolation)
  }

  /** A pass may rest on a judgment alone. */
  predicate JudgmentSuffices(config: Config) {
    config.trust == Local || config.signedPassBasis == JudgedBasis
  }

  /** A judgment counts for nothing where only execution does, and where evidence is asked for, together with that. */
  predicate JudgmentAdmitted(config: Config, validity: Claim<Validity>) {
    || JudgmentSuffices(config)
    || (config.signedPassBasis == Corroborated
        && validity.Corroborates(SpecificKill) && validity.Corroborates(Builds)
        && validity.Corroborates(OtherCriteriaPass) && validity.Corroborates(Witness))
  }

  /** A non-sentinel mutant judged VALID that a test killed, on evidence the basis admits. */
  ghost predicate AdmittedKill(config: Config, predicate_: DiscriminatingPower, mutant: Mutant) {
    && !mutant.sentinel && mutant.validity.value == Valid && KilledByATest(mutant)
    && (|| mutant.validity.Corroborates(ExampleFailed)
        || (&& JudgmentAdmitted(config, mutant.validity)
            && SureOfValidity(config, predicate_, mutant)
            && IsolatedEnough(config, mutant.validity.executor, predicate_.executor)))
  }

  /** A survivor shown to violate the criterion: by an example of its own, or by a trusted judgment with a witness. */
  ghost predicate ShownToViolate(config: Config, predicate_: DiscriminatingPower, mutant: Mutant) {
    && SurvivedEveryTest(mutant) && mutant.validity.value == Valid
    && (|| mutant.validity.Corroborates(ExampleFailed)
        || (&& SureOfValidity(config, predicate_, mutant) && mutant.validity.Corroborates(Witness)
            && mutant.validity.Corroborates(Builds) && mutant.validity.Corroborates(OtherCriteriaPass)))
  }

  /** A survivor set aside on executed evidence. */
  ghost predicate ExcludedOnExecution(mutant: Mutant) {
    || (mutant.validity.value == Equivalent && mutant.validity.Corroborates(NoDiffFound))
    || (mutant.validity.value == NotViolating && mutant.validity.Corroborates(OtherExampleFailed))
  }

  /** A survivor a judgment alone may set aside, while the budget lasts. */
  ghost predicate ExcludableByJudgment(config: Config, predicate_: DiscriminatingPower, mutant: Mutant) {
    && SurvivedEveryTest(mutant)
    && mutant.validity.value == NotViolating && !mutant.validity.Corroborates(OtherExampleFailed)
    && JudgmentSuffices(config) && SureOfValidity(config, predicate_, mutant)
    && IsolatedEnough(config, mutant.validity.executor, predicate_.executor)
  }

  ghost function JudgmentExclusions(config: Config, predicate_: DiscriminatingPower): nat {
    Count(predicate_.mutants, (mutant: Mutant) => ExcludableByJudgment(config, predicate_, mutant))
  }

  /** The evidence a pass of a discriminating-power proof needs, member by member. */
  ghost predicate Discriminates(config: Config, predicate_: DiscriminatingPower) {
    && predicate_.correctCodePasses
    && (forall run | run in predicate_.examples :: run.passed)
    && (forall mutant | mutant in predicate_.mutants && mutant.sentinel :: !KilledByATest(mutant))
    && (exists mutant | mutant in predicate_.mutants :: AdmittedKill(config, predicate_, mutant))
    && (forall mutant | mutant in predicate_.mutants && SurvivedEveryTest(mutant) ::
          ExcludedOnExecution(mutant) || ExcludableByJudgment(config, predicate_, mutant))
    && JudgmentExclusions(config, predicate_) <= Max(0, config.maxHostExclusions)
  }

  /** Some test killed the mutant that killed no sentinel. */
  ghost predicate KilledOutside(tainted: set<string>, mutant: Mutant) {
    exists result | result in mutant.results :: result.outcome.value == Killed && result.test !in tainted
  }

  lemma KilledOutsideIff(tainted: set<string>, mutant: Mutant)
    ensures KilledOutside(tainted, mutant) <==> exists test | test in Killers(mutant.results) :: test !in tainted
  {
    if result :| result in mutant.results && result.outcome.value == Killed && result.test !in tainted {
      KillersAre(mutant.results, result.test);
    }
    if test :| test in Killers(mutant.results) && test !in tainted {
      KillersAre(mutant.results, test);
    }
  }

  lemma EvidenceIs(config: Config, predicate_: DiscriminatingPower, mutant: Mutant)
    ensures var validity, who := mutant.validity, ValidityAnswerer(mutant, predicate_);
            && (validity.Has(OWN_EXAMPLE) <==> validity.Corroborates(ExampleFailed))
            && (validity.Has(EXCLUSION_EXAMPLE) <==> validity.Corroborates(OtherExampleFailed))
            && (validity.Has(EQUIVALENT_PROOF) <==> validity.Corroborates(NoDiffFound))
            && (validity.Has(BLOCK_WITNESS) <==> validity.Corroborates(Witness) && validity.Corroborates(Builds)
                                                 && validity.Corroborates(OtherCriteriaPass))
            && (config.Basis() == JudgedBasis <==> JudgmentSuffices(config))
            && (config.Basis() != ExecutedOnly && (config.Basis() == Corroborated ==> validity.Has(CREDIT_EVIDENCE))
                <==> JudgmentAdmitted(config, validity))
            && (validity.ConfidenceOrZero() >= config.validity.For(who.source)
                <==> SureOfValidity(config, predicate_, mutant))
            && (config.AboveFloor(who.executor) <==> IsolatedEnough(config, validity.executor, predicate_.executor))
  {
    var validity := mutant.validity;
    assert validity.Has(CREDIT_EVIDENCE) <==> && validity.Corroborates(SpecificKill) && validity.Corroborates(Builds)
                                              && validity.Corroborates(OtherCriteriaPass)
                                              && validity.Corroborates(Witness);
  }

  lemma SurvivorMeans(config: Config, predicate_: DiscriminatingPower, mutant: Mutant)
    requires SurvivedEveryTest(mutant)
    ensures var row := SurvivorRow(config, mutant.validity, ValidityAnswerer(mutant, predicate_));
            && (row == Blocks <==> ShownToViolate(config, predicate_, mutant))
            && (row == HostEligible <==> ExcludableByJudgment(config, predicate_, mutant))
            && (row == ExcludedExecuted <==> ExcludedOnExecution(mutant))
            && (row == Blocks || row == Escalates || row == HostEligible || row == ExcludedExecuted)
  {
    EvidenceIs(config, predicate_, mutant);
  }

  lemma KillMeans(config: Config, predicate_: DiscriminatingPower, tainted: set<string>, mutant: Mutant)
    requires !mutant.sentinel && mutant.validity.value == Valid && KilledByATest(mutant)
    ensures var row := KillRow(config, mutant, ValidityAnswerer(mutant, predicate_), tainted);
            && (row == Credits <==> AdmittedKill(config, predicate_, mutant) && KilledOutside(tainted, mutant))
            && (row == Credits || row == EarnsNothing)
  {
    EvidenceIs(config, predicate_, mutant);
    KilledOutsideIff(tainted, mutant);
  }

  lemma WhatTestsDid(mutant: Mutant)
    ensures SurvivedEveryTest(mutant) <==> !mutant.sentinel && Survives(mutant)
    ensures KilledByATest(mutant) <==> Killers(mutant.results) != []
    ensures KilledByATest(mutant) ==> !Survives(mutant)
  {
    KilledOutsideIff({}, mutant);
    assert Killers(mutant.results) != [] ==> Killers(mutant.results)[0] in Killers(mutant.results);
  }

  /** What each row of the table says of a mutant, in terms of what was run and what was claimed. */
  lemma RowMeans(config: Config, predicate_: DiscriminatingPower, tainted: set<string>, mutant: Mutant)
    ensures var row := RowOf(config, predicate_, tainted, mutant);
            && (row == Blocks <==> ShownToViolate(config, predicate_, mutant))
            && (row == Credits <==> AdmittedKill(config, predicate_, mutant) && KilledOutside(tainted, mutant))
            && (row == HostEligible <==> ExcludableByJudgment(config, predicate_, mutant))
            && (row == ExcludedExecuted <==> SurvivedEveryTest(mutant) && ExcludedOnExecution(mutant))
            && (row in {Blocks, Escalates, HostEligible, ExcludedExecuted} <==> SurvivedEveryTest(mutant))
  {
    WhatTestsDid(mutant);
    if SurvivedEveryTest(mutant) {
      SurvivorMeans(config, predicate_, mutant);
    } else if !mutant.sentinel && mutant.validity.value == Valid && KilledByATest(mutant) {
      KillMeans(config, predicate_, tainted, mutant);
    }
  }

  // ----- Order of the mutants

  /** The outcome and the counts of a pool do not depend on the order of its mutants. */
  lemma PoolOrderIsIrrelevant(config: Config, predicate_: DiscriminatingPower, mutants: seq<Mutant>)
    requires multiset(mutants) == multiset(predicate_.mutants)
    ensures DpOutcome(config, predicate_.(mutants := mutants)) == DpOutcome(config, predicate_)
    ensures TaintedBy(mutants) == TaintedBy(predicate_.mutants)
    ensures ValidMutants(mutants) == ValidMutants(predicate_.mutants)
    ensures forall row :: PoolRows(config, predicate_.(mutants := mutants), row) == PoolRows(config, predicate_, row)
  {
    var other := predicate_.(mutants := mutants);
    TaintedPermutes(mutants, predicate_.mutants);
    CountsPermute(config, predicate_, TaintedBy(mutants), mutants, predicate_.mutants);
    forall row ensures PoolRows(config, other, row) == PoolRows(config, predicate_, row) {
      SamePredicateRows(config, other, predicate_, TaintedBy(mutants), mutants, row);
    }
  }

  /** The rows of a slice of mutants depend on the proof only through who answered by default. */
  lemma SamePredicateRows(config: Config, one: DiscriminatingPower, other: DiscriminatingPower, tainted: set<string>,
                          mutants: seq<Mutant>, row: Row)
    requires one.executor == other.executor && one.decision == other.decision
    ensures Rows(config, one, tainted, mutants, row) == Rows(config, other, tainted, mutants, row)
  {
    var p := (mutant: Mutant) => RowOf(config, one, tainted, mutant) == row;
    var q := (mutant: Mutant) => RowOf(config, other, tainted, mutant) == row;
    CountWeakens(mutants, p, q);
    CountWeakens(mutants, q, p);
  }

  lemma ByDigestIsTotal()
    ensures TotalPreorder(ByDigest)
  {
    forall a: Mutant ensures ByDigest(a, a) {
      CompareStringsIdentifies(a.digest, a.digest);
    }
    forall a, b ensures ByDigest(a, b) || ByDigest(b, a) {
      CompareStringsIdentifies(a.digest, b.digest);
    }
    forall a, b, c | ByDigest(a, b) && ByDigest(b, c) ensures ByDigest(a, c) {
      CompareStringsTransitive(a.digest, b.digest, c.digest);
    }
  }

  /** With distinct digests even the list of findings is the same for every order of the mutants. */
  lemma FindingsForgetOrder(config: Config, id: string, predicate_: DiscriminatingPower, mutants: seq<Mutant>)
    requires multiset(mutants) == multiset(predicate_.mutants)
    requires forall a, b | a in predicate_.mutants && b in predicate_.mutants && a.digest == b.digest :: a == b
    ensures DpFindings(config, id, predicate_.(mutants := mutants)) == DpFindings(config, id, predicate_)
  {
    var other := predicate_.(mutants := mutants);
    ByDigestIsTotal();
    assert Separates(multiset(mutants), ByDigest) by {
      forall a, b | a in multiset(mutants) && b in multiset(mutants) && ByDigest(a, b) && ByDigest(b, a)
        ensures a == b
      {
        CompareStringsIdentifies(a.digest, b.digest);
        assert a in multiset(predicate_.mutants) && b in multiset(predicate_.mutants);
      }
    }
    SortForgetsOrder(mutants, predicate_.mutants, ByDigest);
    PoolOrderIsIrrelevant(config, predicate_, mutants);
    SameMutantFindings(config, id, other, predicate_, TaintedBy(mutants), InDigestOrder(mutants));
    assert PoolFindings(config, id, other) == PoolFindings(config, id, predicate_);
    assert ReferenceFindings(id, other) == ReferenceFindings(id, predicate_);
    assert PoolRows(config, other, Credits) == PoolRows(config, predicate_, Credits);
    assert PoolRows(config, other, Blocks) == PoolRows(config, predicate_, Blocks);
  }

  lemma {:induction false} SameMutantFindings(config: Config, id: string, one: DiscriminatingPower,
                                              other: DiscriminatingPower, tainted: set<string>, mutants: seq<Mutant>)
    requires one.executor == other.executor && one.decision == other.decision
    ensures MutantFindings(config, id, one, tainted, mutants) == MutantFindings(config, id, other, tainted, mutants)
  {
    if mutants != [] {
      SameMutantFindings(config, id, one, other, tainted, mutants[..|mutants| - 1]);
      SamePredicateRows(config, one, other, tainted, mutants[..|mutants| - 1], HostEligible);
    }
  }

  // ----- Adding a response

  function WithMutant(predicate_: DiscriminatingPower, at: nat, mutant: Mutant): DiscriminatingPower
    requires at <= |predicate_.mutants|
  {
    predicate_.(mutants := predicate_.mutants[..at] + [mutant] + predicate_.mutants[at..])
  }

  lemma TaintAfterInsert(mutants: seq<Mutant>, at: nat, mutant: Mutant)
    requires at <= |mutants|
    ensures TaintedBy(mutants[..at] + [mutant] + mutants[at..])
            == TaintedBy(mutants) + if mutant.sentinel then set test | test in Killers(mutant.results) else {}
  {
    var after := mutants[..at] + [mutant] + mutants[at..];
    assert mutants == mutants[..at] + mutants[at..];
    forall m ensures m in after <==> m == mutant || m in mutants {
    }
  }

  lemma RowsAfterInsert(config: Config, predicate_: DiscriminatingPower, at: nat, mutant: Mutant, tainted: set<string>)
    requires at <= |predicate_.mutants|
    ensures forall row ::
              Rows(config, WithMutant(predicate_, at, mutant), tainted, WithMutant(predicate_, at, mutant).mutants, row)
                          == Rows(config, predicate_, tainted, predicate_.mutants, row)
                             + if RowOf(config, predicate_, tainted, mutant) == row then 1 else 0
    ensures ValidMutants(WithMutant(predicate_, at, mutant).mutants)
            == ValidMutants(predicate_.mutants) + if !mutant.sentinel && mutant.validity.value == Valid then 1 else 0
  {
    var after := WithMutant(predicate_, at, mutant);
    forall row
      ensures Rows(config, after, tainted, after.mutants, row)
              == Rows(config, predicate_, tainted, predicate_.mutants, row)
                 + if RowOf(config, predicate_, tainted, mutant) == row then 1 else 0
    {
      SamePredicateRows(config, after, predicate_, tainted, after.mutants, row);
      CountInsert(predicate_.mutants, at, mutant, (m: Mutant) => RowOf(config, predicate_, tainted, m) == row);
    }
    CountInsert(predicate_.mutants, at, mutant, (m: Mutant) => !m.sentinel && m.validity.value == Valid);
  }

  /** More tainted tests can only turn credit into no credit. */
  lemma RowsUnderTaint(config: Config, predicate_: DiscriminatingPower, tainted: set<string>, more: set<string>,
                       mutants: seq<Mutant>)
    requires tainted <= more
    ensures Rows(config, predicate_, more, mutants, Credits) <= Rows(config, predicate_, tainted, mutants, Credits)
    ensures forall row | row != Credits && row != EarnsNothing ::
              Rows(config, predicate_, more, mutants, row) == Rows(config, predicate_, tainted, mutants, row)
  {
    CountWeakens(mutants, (m: Mutant) => RowOf(config, predicate_, more, m) == Credits,
                 (m: Mutant) => RowOf(config, predicate_, tainted, m) == Credits);
    forall row | row != Credits && row != EarnsNothing
      ensures Rows(config, predicate_, more, mutants, row) == Rows(config, predicate_, tainted, mutants, row)
    {
      var p := (m: Mutant) => RowOf(config, predicate_, more, m) == row;
      var q := (m: Mutant) => RowOf(config, predicate_, tainted, m) == row;
      CountWeakens(mutants, p, q);
      CountWeakens(mutants, q, p);
    }
  }

  lemma CreditedAreValid(config: Config, predicate_: DiscriminatingPower, tainted: set<string>, mutants: seq<Mutant>)
    ensures Rows(config, predicate_, tainted, mutants, Credits) <= ValidMutants(mutants)
  {
    CountWeakens(mutants, (m: Mutant) => RowOf(config, predicate_, tainted, m) == Credits,
                 (m: Mutant) => !m.sentinel && m.validity.value == Valid);
  }

  /** The mutant earns pass credit among the mutants of the proof. */
  predicate EarnsCredit(config: Config, predicate_: DiscriminatingPower, mutant: Mutant) {
    RowOf(config, predicate_, TaintedBy(predicate_.mutants), mutant) == Credits
  }

  /** Whatever mutant is inserted anywhere, only one that earns credit can weaken the outcome. */
  lemma InsertionNeverWeakens(config: Config, predicate_: DiscriminatingPower, at: nat, mutant: Mutant)
    requires at <= |predicate_.mutants| && !EarnsCredit(config, predicate_, mutant)
    ensures DpOutcome(config, predicate_).Rank() <= DpOutcome(config, WithMutant(predicate_, at, mutant)).Rank()
    ensures TaintedBy(predicate_.mutants) <= TaintedBy(WithMutant(predicate_, at, mutant).mutants)
  {
    var after := WithMutant(predicate_, at, mutant);
    var before, more := TaintedBy(predicate_.mutants), TaintedBy(after.mutants);
    TaintAfterInsert(predicate_.mutants, at, mutant);
    RowsAfterInsert(config, predicate_, at, mutant, before);
    RowsUnderTaint(config, after, before, more, after.mutants);
    CreditedAreValid(config, predicate_, before, predicate_.mutants);
  }

  /** A mutant that earns credit never strengthens the outcome. */
  lemma CreditNeverStrengthens(config: Config, predicate_: DiscriminatingPower, at: nat, mutant: Mutant)
    requires at <= |predicate_.mutants| && EarnsCredit(config, predicate_, mutant)
    ensures DpOutcome(config, WithMutant(predicate_, at, mutant)).Rank() <= DpOutcome(config, predicate_).Rank()
    ensures TaintedBy(predicate_.mutants) == TaintedBy(WithMutant(predicate_, at, mutant).mutants)
  {
    var after := WithMutant(predicate_, at, mutant);
    TaintAfterInsert(predicate_.mutants, at, mutant);
    assert TaintedBy(after.mutants) == TaintedBy(predicate_.mutants);
    RowsAfterInsert(config, predicate_, at, mutant, TaintedBy(predicate_.mutants));
  }

  /** A response that blocks or escalates. */
  datatype Response =
    | AddMutant(at: nat, mutant: Mutant)
    | FailReference
    | AddFailingExample(at: nat, index: int)
    | FailListedExample(at: nat)

  function Respond(predicate_: DiscriminatingPower, response: Response): DiscriminatingPower {
    match response
    case AddMutant(at, mutant) => WithMutant(predicate_, Min(at, |predicate_.mutants|), mutant)
    case FailReference => predicate_.(correctCodePasses := false)
    case AddFailingExample(at, index) =>
      var k := Min(at, |predicate_.examples|);
      predicate_.(examples := predicate_.examples[..k] + [ExampleRun(index, false)] + predicate_.examples[k..])
    case FailListedExample(at) =>
      if at >= |predicate_.examples| then predicate_
      else predicate_.(examples := predicate_.examples[at := predicate_.examples[at].(passed := false)])
  }

  function RespondAll(predicate_: DiscriminatingPower, responses: seq<Response>): DiscriminatingPower
    decreases |responses|
  {
    if responses == [] then predicate_ else RespondAll(Respond(predicate_, responses[0]), responses[1..])
  }

  /** No mutant of the list is one that tests killed on a VALID judgment. */
  predicate Unfavourable(responses: seq<Response>) {
    forall response | response in responses && response.AddMutant? ::
      response.mutant.sentinel || Survives(response.mutant) || response.mutant.validity.value != Valid
  }

  lemma RespondNeverWeakens(config: Config, predicate_: DiscriminatingPower, response: Response)
    requires Unfavourable([response])
    ensures DpOutcome(config, predicate_).Rank() <= DpOutcome(config, Respond(predicate_, response)).Rank()
    ensures TaintedBy(predicate_.mutants) <= TaintedBy(Respond(predicate_, response).mutants)
  {
    match response
    case AddMutant(at, mutant) =>
      assert response in [response];
      InsertionNeverWeakens(config, predicate_, Min(at, |predicate_.mutants|), mutant);
    case FailReference =>
    case FailListedExample(at) =>
      if at < |predicate_.examples| {
        var after := Respond(predicate_, response);
        assert after.examples[at] in after.examples;
        assert FailsAnExample(after);
      }
    case AddFailingExample(at, index) =>
      var after := Respond(predicate_, response);
      assert ExampleRun(index, false) in after.examples;
      assert FailsAnExample(after);
  }

  /** Any list of surviving mutants, killed sentinels and failures leaves the outcome at least as strong. */
  lemma {:induction false} ResponsesNeverWeaken(config: Config, predicate_: DiscriminatingPower,
                                                responses: seq<Response>)
    requires Unfavourable(responses)
    ensures DpOutcome(config, predicate_).Rank() <= DpOutcome(config, RespondAll(predicate_, responses)).Rank()
    ensures TaintedBy(predicate_.mutants) <= TaintedBy(RespondAll(predicate_, responses).mutants)
    decreases |responses|
  {
    if responses == [] {
    } else {
      assert responses[0] in responses;
      RespondNeverWeakens(config, predicate_, responses[0]);
      ResponsesNeverWeaken(config, Respond(predicate_, responses[0]), responses[1..]);
    }
  }

  // ----- Relaxing the policy

  lemma RelaxedRow(strict: Config, relaxed: Config, predicate_: DiscriminatingPower, tainted: set<string>,
                   mutant: Mutant)
    requires Relaxes(strict, relaxed)
    ensures RowOf(strict, predicate_, tainted, mutant) == Credits
            ==> RowOf(relaxed, predicate_, tainted, mutant) == Credits
    ensures RowOf(strict, predicate_, tainted, mutant) in {NoPower, ExcludedExecuted, HostEligible, Blocks}
            ==> RowOf(relaxed, predicate_, tainted, mutant) == RowOf(strict, predicate_, tainted, mutant)
    ensures RowOf(relaxed, predicate_, tainted, mutant) in {Blocks, Escalates}
            ==> RowOf(strict, predicate_, tainted, mutant) in {Blocks, Escalates}
  {
    RowMeans(strict, predicate_, tainted, mutant);
    RowMeans(relaxed, predicate_, tainted, mutant);
    assert relaxed.validity.For(SourceOfValidity(predicate_, mutant))
           <= strict.validity.For(SourceOfValidity(predicate_, mutant));
  }

  /** A relaxed policy keeps every pass of a strict one, and every block. */
  lemma RelaxingKeepsPassAndBlock(strict: Config, relaxed: Config, predicate_: DiscriminatingPower)
    requires Relaxes(strict, relaxed)
    ensures DpOutcome(strict, predicate_) == Pass ==> DpOutcome(relaxed, predicate_) == Pass
    ensures DpOutcome(strict, predicate_) == Block ==> DpOutcome(relaxed, predicate_) == Block
  {
    var tainted, mutants := TaintedBy(predicate_.mutants), predicate_.mutants;
    forall m ensures var s, r := RowOf(strict, predicate_, tainted, m), RowOf(relaxed, predicate_, tainted, m);
                     && (s == Credits ==> r == Credits)
                     && (s in {NoPower, ExcludedExecuted, HostEligible, Blocks} ==> r == s)
                     && (r in {Blocks, Escalates} ==> s in {Blocks, Escalates})
    {
      RelaxedRow(strict, relaxed, predicate_, tainted, m);
    }
    CountWeakens(mutants, (m: Mutant) => RowOf(strict, predicate_, tainted, m) == Credits,
                 (m: Mutant) => RowOf(relaxed, predicate_, tainted, m) == Credits);
    CountWeakens(mutants, (m: Mutant) => RowOf(strict, predicate_, tainted, m) == Blocks,
                 (m: Mutant) => RowOf(relaxed, predicate_, tainted, m) == Blocks);
    if DpOutcome(strict, predicate_) == Pass {
      CountPositive(mutants, (m: Mutant) => RowOf(strict, predicate_, tainted, m) == Blocks);
      CountPositive(mutants, (m: Mutant) => RowOf(strict, predicate_, tainted, m) == Escalates);
      CountPositive(mutants, (m: Mutant) => RowOf(relaxed, predicate_, tainted, m) == Blocks);
      CountPositive(mutants, (m: Mutant) => RowOf(relaxed, predicate_, tainted, m) == Escalates);
      forall m | m in mutants
        ensures RowOf(strict, predicate_, tainted, m) !in {Blocks, Escalates}
        ensures RowOf(relaxed, predicate_, tainted, m) == HostEligible
                ==> RowOf(strict, predicate_, tainted, m) == HostEligible
      {
        assert RowOf(strict, predicate_, tainted, m) != Blocks;
        assert RowOf(strict, predicate_, tainted, m) != Escalates;
      }
      CountWeakens(mutants, (m: Mutant) => RowOf(relaxed, predicate_, tainted, m) == HostEligible,
                   (m: Mutant) => RowOf(strict, predicate_, tainted, m) == HostEligible);
    }
  }

  /**
   A survivor whose judgment only the lowered threshold trusts, with
   witnessed evidence that it violates the criterion.
   */
  ghost predicate NewlyTrusted(strict: Config, relaxed: Config, predicate_: DiscriminatingPower, mutant: Mutant) {
    var validity := mutant.validity;
    && SurvivedEveryTest(mutant) && validity.value == Valid && !validity.Corroborates(ExampleFailed)
    && validity.Corroborates(Witness) && validity.Corroborates(Builds) && validity.Corroborates(OtherCriteriaPass)
    && SureOfValidity(relaxed, predicate_, mutant) && !SureOfValidity(strict, predicate_, mutant)
  }

  /**
   Relaxing makes a block of an outcome that was none: no executed
   evidence blocks already, and a survivor becomes trusted.
   */
  ghost predicate RelaxingBlocks(strict: Config, relaxed: Config, predicate_: DiscriminatingPower) {
    DpOutcome(strict, predicate_) != Block && exists mutant | mutant in predicate_.mutants ::
      NewlyTrusted(strict, relaxed, predicate_, mutant)
  }

  lemma NewlyTrustedRow(strict: Config, relaxed: Config, predicate_: DiscriminatingPower, tainted: set<string>,
                        mutant: Mutant)
    requires Relaxes(strict, relaxed)
    ensures RowOf(relaxed, predicate_, tainted, mutant) == Blocks
            <==> RowOf(strict, predicate_, tainted, mutant) == Blocks
                 || NewlyTrusted(strict, relaxed, predicate_, mutant)
  {
    RowMeans(strict, predicate_, tainted, mutant);
    RowMeans(relaxed, predicate_, tainted, mutant);
    assert relaxed.validity.For(SourceOfValidity(predicate_, mutant))
           <= strict.validity.For(SourceOfValidity(predicate_, mutant));
  }

  /** A relaxed policy strengthens the outcome of a proof exactly then, and always to a block. */
  lemma RelaxingStrengthensIff(strict: Config, relaxed: Config, predicate_: DiscriminatingPower)
    requires Relaxes(strict, relaxed)
    ensures DpOutcome(relaxed, predicate_).Rank() > DpOutcome(strict, predicate_).Rank()
            <==> RelaxingBlocks(strict, relaxed, predicate_)
    ensures RelaxingBlocks(strict, relaxed, predicate_)
            ==> DpOutcome(strict, predicate_) == Escalate && DpOutcome(relaxed, predicate_) == Block
  {
    var tainted, mutants := TaintedBy(predicate_.mutants), predicate_.mutants;
    RelaxingKeepsPassAndBlock(strict, relaxed, predicate_);
    CountPositive(mutants, (m: Mutant) => RowOf(strict, predicate_, tainted, m) == Blocks);
    CountPositive(mutants, (m: Mutant) => RowOf(relaxed, predicate_, tainted, m) == Blocks);
    forall m
      ensures RowOf(relaxed, predicate_, tainted, m) == Blocks
              <==> RowOf(strict, predicate_, tainted, m) == Blocks || NewlyTrusted(strict, relaxed, predicate_, m)
    {
      NewlyTrustedRow(strict, relaxed, predicate_, tainted, m);
    }
  }

  lemma PassEarnsCredit(config: Config, predicate_: DiscriminatingPower)
    requires DpOutcome(config, predicate_) == Pass
    ensures PoolRows(config, predicate_, Credits) > 0
  {
  }

  // ----- What a pass and a block rest on

  lemma TaintIsAKilledSentinel(mutants: seq<Mutant>)
    ensures TaintedBy(mutants) == {} <==> forall mutant | mutant in mutants && mutant.sentinel :: !KilledByATest(mutant)
  {
    if mutant :| mutant in mutants && mutant.sentinel && KilledByATest(mutant) {
      var result :| result in mutant.results && result.outcome.value == Killed;
      KillersAre(mutant.results, result.test);
      assert result.test in TaintedBy(mutants);
    }
    if test :| test in TaintedBy(mutants) {
      var mutant :| mutant in mutants && mutant.sentinel && test in Killers(mutant.results);
      KillersAre(mutant.results, test);
    }
  }

  lemma UntaintedRow(config: Config, predicate_: DiscriminatingPower, mutant: Mutant)
    ensures RowOf(config, predicate_, {}, mutant) == Credits <==> AdmittedKill(config, predicate_, mutant)
    ensures RowOf(config, predicate_, {}, mutant) == HostEligible <==> ExcludableByJudgment(config, predicate_, mutant)
    ensures RowOf(config, predicate_, {}, mutant) in {Blocks, Escalates}
            <==> SurvivedEveryTest(mutant) && !ExcludedOnExecution(mutant)
                 && !ExcludableByJudgment(config, predicate_, mutant)
  {
    RowMeans(config, predicate_, {}, mutant);
    assert AdmittedKill(config, predicate_, mutant) ==> KilledOutside({}, mutant);
  }

  lemma SomeCredited(config: Config, predicate_: DiscriminatingPower, mutants: seq<Mutant>)
    ensures Rows(config, predicate_, {}, mutants, Credits) > 0 <==> exists m | m in mutants ::
              AdmittedKill(config, predicate_, m)
  {
    CountPositive(mutants, (m: Mutant) => RowOf(config, predicate_, {}, m) == Credits);
    forall m ensures RowOf(config, predicate_, {}, m) == Credits <==> AdmittedKill(config, predicate_, m) {
      UntaintedRow(config, predicate_, m);
    }
  }

  lemma NoneLeftOpen(config: Config, predicate_: DiscriminatingPower, mutants: seq<Mutant>)
    ensures Rows(config, predicate_, {}, mutants, Blocks) == 0 && Rows(config, predicate_, {}, mutants, Escalates) == 0
            <==> forall m | m in mutants && SurvivedEveryTest(m) ::
                   ExcludedOnExecution(m) || ExcludableByJudgment(config, predicate_, m)
  {
    CountPositive(mutants, (m: Mutant) => RowOf(config, predicate_, {}, m) == Blocks);
    CountPositive(mutants, (m: Mutant) => RowOf(config, predicate_, {}, m) == Escalates);
    SplitRows(config, predicate_, mutants);
    forall m
      ensures RowOf(config, predicate_, {}, m) in {Blocks, Escalates}
              <==> SurvivedEveryTest(m) && !ExcludedOnExecution(m) && !ExcludableByJudgment(config, predicate_, m)
    {
      UntaintedRow(config, predicate_, m);
    }
  }

  lemma EligibleAreExcludable(config: Config, predicate_: DiscriminatingPower)
    ensures Rows(config, predicate_, {}, predicate_.mutants, HostEligible) == JudgmentExclusions(config, predicate_)
  {
    var eligible := (m: Mutant) => RowOf(config, predicate_, {}, m) == HostEligible;
    var excludable := (m: Mutant) => ExcludableByJudgment(config, predicate_, m);
    forall m ensures eligible(m) <==> excludable(m) {
      UntaintedRow(config, predicate_, m);
    }
    CountWeakens(predicate_.mutants, eligible, excludable);
    CountWeakens(predicate_.mutants, excludable, eligible);
  }

  /** A discriminating-power proof passes exactly on that evidence. */
  lemma PassIffDiscriminates(config: Config, predicate_: DiscriminatingPower)
    ensures DpOutcome(config, predicate_) == Pass <==> Discriminates(config, predicate_)
  {
    TaintIsAKilledSentinel(predicate_.mutants);
    if TaintedBy(predicate_.mutants) == {} {
      SomeCredited(config, predicate_, predicate_.mutants);
      NoneLeftOpen(config, predicate_, predicate_.mutants);
      EligibleAreExcludable(config, predicate_);
      CreditedAreValid(config, predicate_, {}, predicate_.mutants);
    }
  }

  /**
   A proof blocks exactly on a failing reference or example, or on a survivor
   that is shown to violate the criterion; everything else escalates.
   */
  lemma BlockIffViolated(config: Config, predicate_: DiscriminatingPower)
    ensures DpOutcome(config, predicate_) == Block
            <==> || !predicate_.correctCodePasses
                 || (exists run | run in predicate_.examples :: !run.passed)
                 || (exists mutant | mutant in predicate_.mutants :: ShownToViolate(config, predicate_, mutant))
  {
    var tainted := TaintedBy(predicate_.mutants);
    CountPositive(predicate_.mutants, (m: Mutant) => RowOf(config, predicate_, tainted, m) == Blocks);
    forall m ensures RowOf(config, predicate_, tainted, m) == Blocks <==> ShownToViolate(config, predicate_, m) {
      RowMeans(config, predicate_, tainted, m);
    }
  }

  lemma NothingExcludable(config: Config, power: DiscriminatingPower)
    requires forall mutant | mutant in power.mutants :: !Survives(mutant)
    ensures JudgmentExclusions(config, power) == 0
  {
    CountPositive(power.mutants, (m: Mutant) => ExcludableByJudgment(config, power, m));
  }

  /** The survivors that block or escalate, told apart by their rows. */
  lemma SplitRows(config: Config, predicate_: DiscriminatingPower, mutants: seq<Mutant>)
    ensures (exists m | m in mutants :: RowOf(config, predicate_, {}, m) in {Blocks, Escalates})
            <==> (exists m | m in mutants :: RowOf(config, predicate_, {}, m) == Blocks)
                 || (exists m | m in mutants :: RowOf(config, predicate_, {}, m) == Escalates)
  {
  }

  // ----- A judgment alone

  /** No judged validity of the pool lists executed evidence. */
  ghost predicate Uncorroborated(predicate_: DiscriminatingPower) {
    forall mutant | mutant in predicate_.mutants && !mutant.sentinel :: mutant.validity.corroboratedBy == []
  }

  /** Judgments alone never block, and pass only where the basis is judged. */
  lemma JudgmentAloneHasNoPower(config: Config, predicate_: DiscriminatingPower)
    requires Uncorroborated(predicate_)
    ensures PoolRows(config, predicate_, Blocks) == 0
    ensures config.Basis() != JudgedBasis ==> DpOutcome(config, predicate_) != Pass
    ensures DpOutcome(config, predicate_) == Block <==> !predicate_.correctCodePasses || FailsAnExample(predicate_)
  {
    var mutants, tainted := predicate_.mutants, TaintedBy(predicate_.mutants);
    CountPositive(mutants, (m: Mutant) => RowOf(config, predicate_, tainted, m) == Blocks);
    CountPositive(mutants, (m: Mutant) => RowOf(config, predicate_, tainted, m) == Credits);
    forall m | m in mutants
      ensures RowOf(config, predicate_, tainted, m) != Blocks
      ensures config.Basis() != JudgedBasis ==> RowOf(config, predicate_, tainted, m) != Credits
    {
      if !m.sentinel {
        assert !m.validity.Has(OWN_EXAMPLE) by { assert ExampleFailed in OWN_EXAMPLE; }
        assert !m.validity.Has(BLOCK_WITNESS) by { assert Witness in BLOCK_WITNESS; }
        assert !m.validity.Has(CREDIT_EVIDENCE) by { assert Witness in CREDIT_EVIDENCE; }
      }
    }
  }
}
