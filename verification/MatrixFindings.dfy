/** Which findings a matrix brings about: each is made exactly where what was run and claimed warrants it. */
module MatrixFindings {
  import opened ClaimPower
  import opened ClaimPowerLaws
  import opened Counting
  import opened GateFindings
  import opened Ordering
  import opened ProofConfig
  import opened ProofFormat

  // ----- The reference and the examples

  lemma {:induction false} ExampleFindingsAre(id: string, examples: seq<ExampleRun>, finding: Finding)
    ensures finding in ExampleFindings(id, examples)
            <==> exists run | run in examples ::
                   !run.passed && finding == Finding(ExampleFails, EffectBlock, "musthold-dp", id, OfExample(run.index))
  {
    if examples != [] {
      var last := |examples| - 1;
      ExampleFindingsAre(id, examples[..last], finding);
      assert examples == examples[..last] + [examples[last]];
      assert finding in ExampleFindings(id, examples) <==>
        || finding in ExampleFindings(id, examples[..last])
        || (!examples[last].passed
            && finding == Finding(ExampleFails, EffectBlock, "musthold-dp", id, OfExample(examples[last].index)));
    }
  }

  // ----- Tainted tests

  lemma {:induction false} FirstKillsAre(id: string, tests: seq<string>, seen: set<string>, finding: Finding)
    ensures finding in FirstKills(id, tests, seen)
            <==> exists test | test in tests :: test !in seen && finding == TaintFinding(id, test)
  {
    if tests != [] {
      var last := |tests| - 1;
      FirstKillsAre(id, tests[..last], seen, finding);
      assert tests == tests[..last] + [tests[last]];
    }
  }

  function TaintFinding(id: string, test: string): Finding {
    Finding(MutationSensitiveTest, EffectEscalate, "musthold-dp", id, OfTest(test))
  }

  /** The test killed a mutant that is equivalent by construction. */
  ghost predicate KilledASentinel(mutants: seq<Mutant>, test: string) {
    exists mutant, result | mutant in mutants && result in mutant.results ::
      mutant.sentinel && result.outcome.value == Killed && result.test == test
  }

  lemma TaintedIff(mutants: seq<Mutant>, test: string)
    ensures test in TaintedBy(mutants) <==> KilledASentinel(mutants, test)
  {
    if test in TaintedBy(mutants) {
      var mutant :| mutant in mutants && mutant.sentinel && test in Killers(mutant.results);
      KillersAre(mutant.results, test);
    }
    if KilledASentinel(mutants, test) {
      var mutant, result :| mutant in mutants && result in mutant.results && mutant.sentinel
                            && result.outcome.value == Killed && result.test == test;
      KillersAre(mutant.results, test);
    }
  }

  lemma {:induction false} TaintFindingsAre(id: string, mutants: seq<Mutant>, finding: Finding)
    ensures finding in TaintFindings(id, mutants)
            <==> exists test | test in TaintedBy(mutants) :: finding == TaintFinding(id, test)
  {
    if mutants != [] {
      var last := |mutants| - 1;
      var tests := if mutants[last].sentinel then Killers(mutants[last].results) else [];
      TaintFindingsAre(id, mutants[..last], finding);
      FirstKillsAre(id, tests, TaintedBy(mutants[..last]), finding);
      TaintedByStep(mutants, last);
      assert mutants[..last + 1] == mutants;
      assert forall test :: test in TaintedBy(mutants) <==> test in TaintedBy(mutants[..last]) || test in tests;
    }
  }

  // ----- Survivors

  /** How many of the mutants a judgment alone may set aside. */
  ghost function Excludables(config: Config, power: DiscriminatingPower, mutants: seq<Mutant>): nat {
    Count(mutants, (mutant: Mutant) => ExcludableByJudgment(config, power, mutant))
  }

  /**
   The mutant survived, is not shown to violate, and nothing sets it
   aside that the earlier ones left a budget for.
   */
  ghost predicate LeftOpen(config: Config, power: DiscriminatingPower, earlier: seq<Mutant>, mutant: Mutant) {
    && SurvivedEveryTest(mutant) && !ShownToViolate(config, power, mutant) && !ExcludedOnExecution(mutant)
    && (ExcludableByJudgment(config, power, mutant) ==> Excludables(config, power, earlier) >= config.maxHostExclusions)
  }

  function SurvivorFinding(id: string, mutant: Mutant): Finding {
    Finding(SurvivingValidMutant, EffectBlock, "musthold-dp", id, OfMutant(mutant.digest))
  }

  function OpenFinding(id: string, mutant: Mutant): Finding {
    Finding(EscalatedMutant, EffectEscalate, "musthold-dp", id, OfMutant(mutant.digest))
  }

  lemma ExcludablesAreEligible(config: Config, power: DiscriminatingPower, tainted: set<string>, mutants: seq<Mutant>)
    ensures Rows(config, power, tainted, mutants, HostEligible) == Excludables(config, power, mutants)
  {
    var eligible := (mutant: Mutant) => RowOf(config, power, tainted, mutant) == HostEligible;
    var excludable := (mutant: Mutant) => ExcludableByJudgment(config, power, mutant);
    forall mutant ensures eligible(mutant) <==> excludable(mutant) {
      RowMeans(config, power, tainted, mutant);
    }
    CountWeakens(mutants, eligible, excludable);
    CountWeakens(mutants, excludable, eligible);
  }

  ghost predicate AboutSurvivor(config: Config, id: string, power: DiscriminatingPower, earlier: seq<Mutant>,
                                mutant: Mutant, finding: Finding)
  {
    || (ShownToViolate(config, power, mutant) && finding == SurvivorFinding(id, mutant))
    || (LeftOpen(config, power, earlier, mutant) && finding == OpenFinding(id, mutant))
  }

  lemma OneMutantFinding(config: Config, id: string, power: DiscriminatingPower, tainted: set<string>,
                         earlier: seq<Mutant>, mutant: Mutant, finding: Finding)
    ensures finding in MutantFinding(id, mutant, RowOf(config, power, tainted, mutant),
                                     Rows(config, power, tainted, earlier, HostEligible), config.maxHostExclusions)
            <==> AboutSurvivor(config, id, power, earlier, mutant, finding)
  {
    RowMeans(config, power, tainted, mutant);
    ExcludablesAreEligible(config, power, tainted, earlier);
  }

  ghost predicate AboutSome(config: Config, id: string, power: DiscriminatingPower, mutants: seq<Mutant>,
                            finding: Finding)
  {
    exists i: nat | i < |mutants| :: AboutSurvivor(config, id, power, mutants[..i], mutants[i], finding)
  }

  lemma AboutSomeStep(config: Config, id: string, power: DiscriminatingPower, mutants: seq<Mutant>, finding: Finding)
    requires mutants != []
    ensures var last := |mutants| - 1;
            AboutSome(config, id, power, mutants, finding)
            <==> || AboutSome(config, id, power, mutants[..last], finding)
                 || AboutSurvivor(config, id, power, mutants[..last], mutants[last], finding)
  {
    var last := |mutants| - 1;
    forall i: nat | i < last ensures mutants[..last][..i] == mutants[..i] && mutants[..last][i] == mutants[i] {
    }
    if AboutSome(config, id, power, mutants[..last], finding) {
      var i: nat :| i < last && AboutSurvivor(config, id, power, mutants[..last][..i], mutants[..last][i], finding);
      assert AboutSurvivor(config, id, power, mutants[..i], mutants[i], finding);
    }
    if AboutSome(config, id, power, mutants, finding) {
      var i: nat :| i < |mutants| && AboutSurvivor(config, id, power, mutants[..i], mutants[i], finding);
      assert i < last ==> AboutSurvivor(config, id, power, mutants[..last][..i], mutants[..last][i], finding);
    }
  }

  lemma {:induction false} MutantFindingsAre(config: Config, id: string, power: DiscriminatingPower,
                                             tainted: set<string>, mutants: seq<Mutant>, finding: Finding)
    ensures finding in MutantFindings(config, id, power, tainted, mutants)
            <==> AboutSome(config, id, power, mutants, finding)
  {
    if mutants != [] {
      var last := |mutants| - 1;
      MutantFindingsAre(config, id, power, tainted, mutants[..last], finding);
      OneMutantFinding(config, id, power, tainted, mutants[..last], mutants[last], finding);
      AboutSomeStep(config, id, power, mutants, finding);
    }
  }

  // ----- The pool as a whole

  ghost predicate SomeValid(power: DiscriminatingPower) {
    exists mutant | mutant in power.mutants :: !mutant.sentinel && mutant.validity.value == Valid
  }

  /** Some kill earns credit: on admitted evidence, and by a test that killed no sentinel. */
  ghost predicate SomeCredit(config: Config, power: DiscriminatingPower) {
    exists mutant, result | mutant in power.mutants && result in mutant.results ::
      && AdmittedKill(config, power, mutant)
      && result.outcome.value == Killed && !KilledASentinel(power.mutants, result.test)
  }

  ghost predicate SomeViolation(config: Config, power: DiscriminatingPower) {
    exists mutant | mutant in power.mutants :: ShownToViolate(config, power, mutant)
  }

  lemma PoolCounts(config: Config, power: DiscriminatingPower)
    ensures ValidMutants(power.mutants) > 0 <==> SomeValid(power)
    ensures PoolRows(config, power, Blocks) > 0 <==> SomeViolation(config, power)
  {
    var tainted := TaintedBy(power.mutants);
    CountPositive(power.mutants, (mutant: Mutant) => !mutant.sentinel && mutant.validity.value == Valid);
    CountPositive(power.mutants, (mutant: Mutant) => RowOf(config, power, tainted, mutant) == Blocks);
    forall mutant
      ensures RowOf(config, power, tainted, mutant) == Blocks <==> ShownToViolate(config, power, mutant)
    {
      RowMeans(config, power, tainted, mutant);
    }
  }

  lemma CreditsIff(config: Config, power: DiscriminatingPower)
    ensures PoolRows(config, power, Credits) > 0 <==> SomeCredit(config, power)
  {
    var tainted := TaintedBy(power.mutants);
    CountPositive(power.mutants, (mutant: Mutant) => RowOf(config, power, tainted, mutant) == Credits);
    forall mutant | mutant in power.mutants
      ensures RowOf(config, power, tainted, mutant) == Credits
              <==> AdmittedKill(config, power, mutant) && KilledOutside(tainted, mutant)
    {
      RowMeans(config, power, tainted, mutant);
    }
    forall test ensures test in tainted <==> KilledASentinel(power.mutants, test) {
      TaintedIff(power.mutants, test);
    }
  }

  // ----- All of them

  /** What warrants a finding about a matrix, category by category. */
  ghost predicate WarrantedByMatrix(config: Config, id: string, power: DiscriminatingPower, finding: Finding) {
    match finding.category
    case CorrectCodeFails =>
      !power.correctCodePasses && finding == Finding(CorrectCodeFails, EffectBlock, "musthold-dp", id, NoTopic)
    case ExampleFails =>
      exists run | run in power.examples ::
        !run.passed && finding == Finding(ExampleFails, EffectBlock, "musthold-dp", id, OfExample(run.index))
    case MutationSensitiveTest =>
      exists test :: KilledASentinel(power.mutants, test) && finding == TaintFinding(id, test)
    case SurvivingValidMutant =>
      exists mutant | mutant in power.mutants ::
        ShownToViolate(config, power, mutant) && finding == SurvivorFinding(id, mutant)
    case EscalatedMutant =>
      var sorted := InDigestOrder(power.mutants);
      exists i: nat | i < |sorted| ::
        LeftOpen(config, power, sorted[..i], sorted[i]) && finding == OpenFinding(id, sorted[i])
    case NoValidMutant =>
      !SomeValid(power) && finding == Finding(NoValidMutant, EffectEscalate, "musthold-dp", id, NoTopic)
    case NoKilledValidMutant =>
      && SomeValid(power) && !SomeCredit(config, power) && !SomeViolation(config, power)
      && finding == Finding(NoKilledValidMutant, EffectEscalate, "musthold-dp", id, NoTopic)
    case _ => false
  }

  lemma ReferenceWarranted(config: Config, id: string, power: DiscriminatingPower, finding: Finding)
    ensures finding in ReferenceFindings(id, power)
            <==> (finding.category.CorrectCodeFails? || finding.category.ExampleFails?)
                 && WarrantedByMatrix(config, id, power, finding)
  {
    ExampleFindingsAre(id, power.examples, finding);
  }

  lemma TaintsWarranted(config: Config, id: string, power: DiscriminatingPower, finding: Finding)
    ensures finding in TaintFindings(id, InDigestOrder(power.mutants))
            <==> finding.category.MutationSensitiveTest? && WarrantedByMatrix(config, id, power, finding)
  {
    var sorted := InDigestOrder(power.mutants);
    SortPermutes(power.mutants, ByDigest);
    TaintedPermutes(sorted, power.mutants);
    TaintFindingsAre(id, sorted, finding);
    forall test ensures test in TaintedBy(power.mutants) <==> KilledASentinel(power.mutants, test) {
      TaintedIff(power.mutants, test);
    }
  }

  lemma SurvivorIsWarranted(config: Config, id: string, power: DiscriminatingPower, finding: Finding)
    requires AboutSome(config, id, power, InDigestOrder(power.mutants), finding)
    ensures finding.category.SurvivingValidMutant? || finding.category.EscalatedMutant?
    ensures WarrantedByMatrix(config, id, power, finding)
  {
    var sorted := InDigestOrder(power.mutants);
    SortPermutes(power.mutants, ByDigest);
    SameMembers(sorted, power.mutants);
    var i: nat :| i < |sorted| && AboutSurvivor(config, id, power, sorted[..i], sorted[i], finding);
    assert sorted[i] in power.mutants;
  }

  lemma WarrantedIsSurvivor(config: Config, id: string, power: DiscriminatingPower, finding: Finding)
    requires finding.category.SurvivingValidMutant? || finding.category.EscalatedMutant?
    requires WarrantedByMatrix(config, id, power, finding)
    ensures AboutSome(config, id, power, InDigestOrder(power.mutants), finding)
  {
    var sorted := InDigestOrder(power.mutants);
    if finding.category.SurvivingValidMutant? {
      SortPermutes(power.mutants, ByDigest);
      SameMembers(sorted, power.mutants);
      var mutant :| mutant in power.mutants && ShownToViolate(config, power, mutant)
                    && finding == SurvivorFinding(id, mutant);
      var i: nat :| i < |sorted| && sorted[i] == mutant;
      assert AboutSurvivor(config, id, power, sorted[..i], sorted[i], finding);
    } else {
      var i: nat :| i < |sorted| && LeftOpen(config, power, sorted[..i], sorted[i])
                    && finding == OpenFinding(id, sorted[i]);
      assert AboutSurvivor(config, id, power, sorted[..i], sorted[i], finding);
    }
  }

  lemma PoolWarranted(config: Config, id: string, power: DiscriminatingPower, finding: Finding)
    ensures finding in PoolFindings(config, id, power)
            <==> (|| finding.category.MutationSensitiveTest? || finding.category.SurvivingValidMutant?
                  || finding.category.EscalatedMutant?)
                 && WarrantedByMatrix(config, id, power, finding)
  {
    TaintsWarranted(config, id, power, finding);
    MutantFindingsAre(config, id, power, TaintedBy(power.mutants), InDigestOrder(power.mutants), finding);
    if AboutSome(config, id, power, InDigestOrder(power.mutants), finding) {
      SurvivorIsWarranted(config, id, power, finding);
    } else if (finding.category.SurvivingValidMutant? || finding.category.EscalatedMutant?)
              && WarrantedByMatrix(config, id, power, finding) {
      WarrantedIsSurvivor(config, id, power, finding);
    }
  }

  lemma PowerWarranted(config: Config, id: string, power: DiscriminatingPower, finding: Finding)
    ensures finding in PowerFindings(id, ValidMutants(power.mutants), PoolRows(config, power, Credits),
                                     PoolRows(config, power, Blocks) > 0)
            <==> (finding.category.NoValidMutant? || finding.category.NoKilledValidMutant?)
                 && WarrantedByMatrix(config, id, power, finding)
  {
    PoolCounts(config, power);
    CreditsIff(config, power);
  }

  /** The findings of a matrix are those the evidence warrants, and no others. */
  lemma MatrixFindingsExactly(config: Config, id: string, power: DiscriminatingPower, finding: Finding)
    ensures finding in DpFindings(config, id, power) <==> WarrantedByMatrix(config, id, power, finding)
  {
    ReferenceWarranted(config, id, power, finding);
    PoolWarranted(config, id, power, finding);
    PowerWarranted(config, id, power, finding);
  }
}
