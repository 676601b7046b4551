/**
 What evidence that validation accepts can bring about: a pass, and
 the cases in which a promise of the gate fails.
 */
module Attainability {
  import opened ClaimPower
  import opened ClaimPowerLaws
  import opened Classification
  import opened Composition
  import opened Counting
  import opened GateFindings
  import opened GateInput
  import opened GateLaws
  import opened Invariants
  import opened Ordering
  import opened ProofConfig
  import opened ProofFormat
  import opened ReportLaws
  import opened StatementIdentity
  import opened Wrappers

  function Digest(): (text: string)
    ensures IsSha256Hex(text)
  {
    seq(64, _ => 'a')
  }

  lemma OneMutantIsAPool(mutant: Mutant)
    requires WellFormedMutant(mutant)
    ensures WellFormedPool([mutant])
  {
  }

  // ----- Relaxing can block

  function BlockWitness(): seq<Corroboration> {
    [Corroboration(Builds, Digest()), Corroboration(Witness, Digest()), Corroboration(OtherCriteriaPass, Digest())]
  }

  lemma BlockWitnessIsWellFormed()
    ensures WellFormedCorroborations(BlockWitness())
  {
    var items := BlockWitness();
    assert CompareStrings(KindName(Builds), KindName(Witness)) < 0;
    assert CompareStrings(KindName(Witness), KindName(OtherCriteriaPass)) < 0;
    assert CompareCorroborations(items[0], items[1]) < 0 && CompareCorroborations(items[1], items[2]) < 0;
  }

  /** A survivor with witnessed evidence that it violates the criterion. */
  function WitnessedSurvivor(confidence: real): Mutant {
    Mutant(Digest(), Claim(Valid, Judged, Some(confidence), None, BlockWitness()), false,
           [TestResult("t", Claim(Survived, Executed, None, None, []))], None)
  }

  lemma WitnessedSurvivorIsWellFormed(confidence: real)
    requires 0.0 <= confidence <= 1.0
    ensures WellFormedMutant(WitnessedSurvivor(confidence))
  {
    BlockWitnessIsWellFormed();
  }

  lemma WitnessedSurvivorRow(config: Config, power: DiscriminatingPower, confidence: real)
    requires power.decision.None?
    ensures RowOf(config, power, {}, WitnessedSurvivor(confidence))
            == if confidence < config.validity.For("") then Escalates else Blocks
  {
    var mutant := WitnessedSurvivor(confidence);
    var evidence := mutant.validity.corroboratedBy;
    assert evidence[0] in evidence && evidence[1] in evidence && evidence[2] in evidence;
    assert mutant.validity.Has(BLOCK_WITNESS) && !mutant.validity.Has(OWN_EXAMPLE) by {
      assert ExampleFailed in OWN_EXAMPLE;
    }
  }

  /** The outcome of a matrix whose one mutant is such a survivor. */
  lemma OneSurvivorOutcome(config: Config, power: DiscriminatingPower, confidence: real)
    requires power.mutants == [WitnessedSurvivor(confidence)] && power.decision.None?
    requires power.correctCodePasses && power.examples == []
    ensures DpOutcome(config, power) == if confidence < config.validity.For("") then Escalate else Block
  {
    var mutant := WitnessedSurvivor(confidence);
    WitnessedSurvivorRow(config, power, confidence);
    assert TaintedBy(power.mutants) == {} && mutant in power.mutants;
    CountPositive(power.mutants, (m: Mutant) => RowOf(config, power, {}, m) == Blocks);
    CountPositive(power.mutants, (m: Mutant) => RowOf(config, power, {}, m) == Escalates);
  }

  /** Relaxing is not a weakening for everything: a lower threshold can turn an escalation into a block. */
  lemma RelaxingCanBlock() returns (strict: Config, relaxed: Config, power: DiscriminatingPower)
    ensures Relaxes(strict, relaxed) && InBounds(strict.validity) && InBounds(relaxed.validity)
    ensures WellFormedRequirement(power.requirement) && WellFormedPower(power)
    ensures DpOutcome(strict, power) == Escalate && DpOutcome(relaxed, power) == Block
  {
    strict :=
      Config([], Signed, Threshold(0.7, map[]), Threshold(0.7, map[]), EscalateToError, Corroborated, Restricted, 2);
    relaxed := strict.(validity := Threshold(0.5, map[]));
    power := DiscriminatingPower(Requirement("R-1", 1), true, [WitnessedSurvivor(0.6)],
                                 Executor(HostSubagent, Restricted),
                                 [], None, 0);
    WitnessedSurvivorIsWellFormed(0.6);
    OneMutantIsAPool(WitnessedSurvivor(0.6));
    OneSurvivorOutcome(strict, power, 0.6);
    OneSurvivorOutcome(relaxed, power, 0.6);
  }

  // ----- No policy is out of reach

  /** One mutant that violates its own example, killed by a test. */
  function KilledByOwnExample(test: string): Mutant {
    Mutant(Digest(), Claim(Valid, Judged, Some(0.0), None, [Corroboration(ExampleFailed, Digest())]), false,
           [TestResult(test, Claim(Killed, Executed, None, None, []))], None)
  }

  /** Such a matrix is accepted and passes under every configuration. */
  lemma EveryPolicyCanPass(config: Config, requirement: Requirement, test: string) returns (power: DiscriminatingPower)
    requires test != ""
    ensures power.requirement == requirement && WellFormedPower(power) && Discriminates(config, power)
  {
    var mutant := KilledByOwnExample(test);
    power := DiscriminatingPower(requirement, true, [mutant], Executor(HostSubagent, Restricted), [], None, 0);
    OneMutantIsAPool(mutant);
    assert mutant.validity.corroboratedBy[0] in mutant.validity.corroboratedBy;
    assert mutant.results[0] in mutant.results && mutant in power.mutants;
    assert AdmittedKill(config, power, mutant);
    NothingExcludable(config, power);
  }

  predicate Reportable(source: string) {
    source == "" || IsKnownSource(source)
  }

  /** Some confidence source, or none at all, has a threshold that a confidence can reach. */
  ghost predicate Attainable(threshold: Threshold) {
    exists source :: Reportable(source) && threshold.For(source) <= 1.0
  }

  /** Every threshold the loader of configurations lets through can be reached. */
  lemma InBoundsIsAttainable(threshold: Threshold)
    requires InBounds(threshold)
    ensures Attainable(threshold)
  {
    assert Reportable("") && threshold.For("") <= 1.0;
  }

  /** A verdict of full confidence from the source, about the test by the name. */
  function SureVerdict(ref: Requirement, name: string, source: string): Alignment {
    Alignment(ref, name, Claim(ProofFormat.Aligned, Judged, Some(1.0), None, [Corroboration(SpecificMatrix, Digest())]),
              Executor(HostSubagent, RestrictedAttested), if source == "" then None else Some(Decision(source)))
  }

  lemma SureVerdictClears(config: Config, ref: Requirement, test: TestName, name: string, source: string)
    requires name != "" && Matches(name, test) && Reportable(source) && config.alignment.For(source) <= 1.0
    ensures var alignment := SureVerdict(ref, name, source);
            WellFormedAlignment(alignment) && name in NamesOf(test) && Vindicates(config, alignment, test, {})
  {
    var alignment := SureVerdict(ref, name, source);
    assert alignment.verdict.corroboratedBy[0] in alignment.verdict.corroboratedBy;
    MatchesIff(name, test);
  }

  /** A proof can name the test. */
  predicate Nameable(test: TestName) {
    test.name != "" || test.className != ""
  }

  function ProofName(test: TestName): string {
    if test.name != "" then test.name else test.className + "." + test.name
  }

  /** Validation accepts the matrices and the verdicts, and all are about the reference. */
  ghost predicate AcceptedEvidence(ref: Requirement, powers: seq<DiscriminatingPower>, alignments: seq<Alignment>) {
    && (forall power | power in powers :: power.requirement == ref && WellFormedPower(power))
    && forall alignment | alignment in alignments :: alignment.requirement == ref && WellFormedAlignment(alignment)
  }

  ghost predicate AcceptedPass(input: Input, criterion: Criterion, powers: seq<DiscriminatingPower>,
                               alignments: seq<Alignment>)
  {
    && AcceptedEvidence(criterion.ref, powers, alignments)
    && CriterionOutcome(input, criterion, powers, alignments) == Pass
  }

  lemma PassNeedsAName(input: Input, criterion: Criterion, powers: seq<DiscriminatingPower>, alignments: seq<Alignment>,
                       test: TestName)
    requires input.config.Requires(AlignmentKind) && test in criterion.passingTests
    requires AcceptedPass(input, criterion, powers, alignments)
    ensures Nameable(test) && Attainable(input.config.alignment)
  {
    PassIffProven(input, criterion, powers, alignments);
    assert GateLaws.Aligned(input.config, alignments, test, TaintedTests(powers));
    var alignment :| OnlyVerdict(alignments, test, alignment)
                     && Vindicates(input.config, alignment, test, TaintedTests(powers));
    OnlyVerdictIsOne(alignments, test, alignment);
    var source := DecisionSource(alignment.decision);
    assert Reportable(source) && input.config.alignment.For(source) <= 1.0;
  }

  lemma MatrixAlonePasses(input: Input, criterion: Criterion, power: DiscriminatingPower)
    requires !input.config.Requires(AlignmentKind) && Discriminates(input.config, power)
    requires power.requirement == criterion.ref && WellFormedPower(power)
    ensures AcceptedPass(input, criterion, [power], [])
  {
    PassIffProven(input, criterion, [power], []);
  }

  lemma OnePairIsAccepted(ref: Requirement, power: DiscriminatingPower, alignment: Alignment)
    requires power.requirement == alignment.requirement == ref && WellFormedPower(power)
             && WellFormedAlignment(alignment)
    ensures AcceptedEvidence(ref, [power], [alignment])
  {
  }

  lemma SureEvidencePasses(input: Input, criterion: Criterion, power: DiscriminatingPower, test: TestName,
                           source: string)
    requires criterion.passingTests == [test] && Nameable(test)
    requires Reportable(source) && input.config.alignment.For(source) <= 1.0
    requires power.requirement == criterion.ref && WellFormedPower(power) && Discriminates(input.config, power)
    ensures AcceptedPass(input, criterion, [power], [SureVerdict(criterion.ref, ProofName(test), source)])
  {
    var alignment := SureVerdict(criterion.ref, ProofName(test), source);
    SureVerdictClears(input.config, criterion.ref, test, ProofName(test), source);
    OneVerdictProves(input, criterion, power, alignment, test);
    OnePairIsAccepted(criterion.ref, power, alignment);
  }

  ghost predicate SomePass(input: Input, criterion: Criterion) {
    exists powers, alignments :: AcceptedPass(input, criterion, powers, alignments)
  }

  lemma OnePassIsSome(input: Input, criterion: Criterion, powers: seq<DiscriminatingPower>,
                      alignments: seq<Alignment>)
    requires AcceptedPass(input, criterion, powers, alignments)
    ensures SomePass(input, criterion)
  {
  }

  lemma SomeEvidencePasses(input: Input, criterion: Criterion, power: DiscriminatingPower)
    requires |criterion.passingTests| == 1
    requires power.requirement == criterion.ref && WellFormedPower(power) && Discriminates(input.config, power)
    requires input.config.Requires(AlignmentKind) ==>
               Nameable(criterion.passingTests[0]) && Attainable(input.config.alignment)
    ensures SomePass(input, criterion)
  {
    if !input.config.Requires(AlignmentKind) {
      MatrixAlonePasses(input, criterion, power);
      OnePassIsSome(input, criterion, [power], []);
    } else {
      var source :| Reportable(source) && input.config.alignment.For(source) <= 1.0;
      var test := criterion.passingTests[0];
      SureEvidencePasses(input, criterion, power, test, source);
      OnePassIsSome(input, criterion, [power], [SureVerdict(criterion.ref, ProofName(test), source)]);
    }
  }

  /**
   Accepted evidence lets a criterion with one test pass exactly where alignment is
   not required, or the test has a name and some threshold can be reached.
   */
  lemma AcceptedEvidencePassesIff(input: Input, criterion: Criterion)
    requires |criterion.passingTests| == 1
    ensures (exists powers, alignments :: AcceptedPass(input, criterion, powers, alignments))
            <==> (input.config.Requires(AlignmentKind)
                  ==> Nameable(criterion.passingTests[0]) && Attainable(input.config.alignment))
  {
    if powers, alignments :| AcceptedPass(input, criterion, powers, alignments) {
      if input.config.Requires(AlignmentKind) {
        PassNeedsAName(input, criterion, powers, alignments, criterion.passingTests[0]);
      }
    } else if !input.config.Requires(AlignmentKind)
              || (Nameable(criterion.passingTests[0]) && Attainable(input.config.alignment)) {
      var power := EveryPolicyCanPass(input.config, criterion.ref, "t");
      SomeEvidencePasses(input, criterion, power);
    }
  }

  // ----- A pass the report does not show

  function SpecInput(ref: Requirement): Descriptor {
    Descriptor(RoleSpec, SubjectName(ref.id, ref.revision), Digest(), None)
  }

  function StatementOf(ref: Requirement, proof: Predicate): Statement {
    Statement(Subject(SubjectName(ref.id, ref.revision), Digest()), [SpecInput(ref)], true, proof)
  }

  function FileOf(path: string, ref: Requirement, proof: Predicate): LoadedStatement {
    LoadedStatement(path, Digest(), Parsed(StatementOf(ref, proof)))
  }

  /** A verified set of a matrix and a verdict that consume no other proof, about the one known requirement. */
  function TwoProofs(config: Config, criterion: Criterion, power: DiscriminatingPower, alignment: Alignment): Input {
    Input(config, map[criterion.ref.id := KnownRequirement(criterion.ref.revision, Digest())], [criterion],
          (_, _) => true,
          Evidence(true, "", ManifestIdentity("manifest.json", Digest(), "", "", ""), Signed, [],
                   [FileOf("matrix", criterion.ref, OfPower(power)),
                    FileOf("verdict", criterion.ref, OfAlignment(alignment))],
                   map[], map[]))
  }

  lemma StatementIsAccepted(ref: Requirement, proof: Predicate)
    requires WellFormedRequirement(ref) && StatementOf(ref, proof).About() == Some(ref)
    requires WellFormedPredicate(StatementOf(ref, proof))
    ensures Accepted(StatementOf(ref, proof))
  {
    assert WellFormedInput(SpecInput(ref), StatementOf(ref, proof));
  }

  lemma StatementIsCurrent(input: Input, ref: Requirement, proof: Predicate)
    requires StatementOf(ref, proof).About() == Some(ref)
    requires input.config.trust == Signed ==> input.evidence.trust == Signed
    requires ref.id in input.known && input.known[ref.id] == KnownRequirement(ref.revision, Digest())
    requires ListsRequiredTestFiles(input, StatementOf(ref, proof))
    ensures StaleCauseOf(input, StatementOf(ref, proof)) == None
  {
    var statement := StatementOf(ref, proof);
    assert statement.inputs[1..] == [];
    assert InputCause(input, statement, SpecInput(ref)) == None;
    assert InputsCause(input, statement, statement.inputs) == None;
  }

  lemma NothingConsumed(all: seq<Classified>, candidate: Classified, ref: Requirement)
    requires candidate.loaded.content.Parsed? && candidate.loaded.content.statement.inputs == [SpecInput(ref)]
    ensures AfterRound(all, candidate) == candidate
  {
    var inputs := candidate.loaded.content.statement.inputs;
    assert inputs[1..] == [];
    assert FirstMissing(all, inputs) == None;
  }

  lemma TwoProofsCount(config: Config, criterion: Criterion, power: DiscriminatingPower, alignment: Alignment)
    returns (statements: seq<Classified>)
    requires power.requirement == criterion.ref && alignment.requirement == criterion.ref
    requires criterion.testFiles == [] && forall test | test in criterion.passingTests :: test.file == ""
    ensures ClassifiedAs(TwoProofs(config, criterion, power, alignment), statements)
    ensures Powers(statements, criterion.ref) == [power] && Alignments(statements, criterion.ref) == [alignment]
  {
    var input := TwoProofs(config, criterion, power, alignment);
    var files := input.evidence.statements;
    statements := InitialStates(input);
    StatementIsCurrent(input, criterion.ref, OfPower(power));
    StatementIsCurrent(input, criterion.ref, OfAlignment(alignment));
    assert statements == [Classified(files[0], StateValid, None), Classified(files[1], StateValid, None)];
    NothingConsumed(statements, statements[0], criterion.ref);
    NothingConsumed(statements, statements[1], criterion.ref);
    assert Round(statements) == statements;
    TwoProofsFound(statements, criterion.ref, power, alignment);
  }

  lemma TwoProofsFound(statements: seq<Classified>, ref: Requirement, power: DiscriminatingPower, alignment: Alignment)
    requires power.requirement == ref && alignment.requirement == ref
    requires statements == [Classified(FileOf("matrix", ref, OfPower(power)), StateValid, None),
                            Classified(FileOf("verdict", ref, OfAlignment(alignment)), StateValid, None)]
    ensures Powers(statements, ref) == [power] && Alignments(statements, ref) == [alignment]
  {
    var matrix, verdict := statements[0].loaded.content.statement, statements[1].loaded.content.statement;
    assert statements[..1] == [statements[0]] && statements[..1][..0] == [];
    assert ValidProofs(statements[..1], DiscriminatingPowerKind, ref) == [matrix];
    assert ValidProofs(statements[..1], AlignmentKind, ref) == [];
    assert ValidProofs(statements, DiscriminatingPowerKind, ref) == [matrix];
    assert ValidProofs(statements, AlignmentKind, ref) == [verdict];
  }

  /** Validation accepts every statement of the verified set. */
  ghost predicate AllAccepted(statements: seq<LoadedStatement>) {
    forall loaded | loaded in statements :: loaded.content.Parsed? && Accepted(loaded.content.statement)
  }

  lemma TwoProofsAreAccepted(config: Config, criterion: Criterion, power: DiscriminatingPower, alignment: Alignment)
    requires WellFormedRequirement(criterion.ref) && power.requirement == criterion.ref
             && alignment.requirement == criterion.ref
    requires WellFormedPower(power) && WellFormedAlignment(alignment)
    ensures AllAccepted(TwoProofs(config, criterion, power, alignment).evidence.statements)
  {
    StatementIsAccepted(criterion.ref, OfPower(power));
    StatementIsAccepted(criterion.ref, OfAlignment(alignment));
  }

  lemma SureProofsAreAccepted(config: Config, criterion: Criterion, power: DiscriminatingPower, test: TestName,
                              source: string)
    requires WellFormedRequirement(criterion.ref) && power.requirement == criterion.ref && WellFormedPower(power)
    requires test.name != "" && Reportable(source) && config.alignment.For(source) <= 1.0
    ensures var input := TwoProofs(config, criterion, power, SureVerdict(criterion.ref, test.name, source));
            AllAccepted(input.evidence.statements)
  {
    SureVerdictClears(config, criterion.ref, test, test.name, source);
    TwoProofsAreAccepted(config, criterion, power, SureVerdict(criterion.ref, test.name, source));
  }

  /** Two tests, told apart by their names. */
  function TwoTests(): seq<TestName> {
    [TestName("a", "", ""), TestName("b", "", "")]
  }

  lemma SecondTestIsUnmatched(alignment: Alignment)
    requires alignment.test == "a"
    ensures Unnamed([alignment], TwoTests()[1]) && SomeUnmatched(TwoTests(), [alignment])
  {
    assert TwoTests()[1] in TwoTests();
  }

  /** A matrix and a verdict about the first of two tests prove the criterion where alignment is optional. */
  lemma PartlyAlignedPasses(input: Input, criterion: Criterion, power: DiscriminatingPower, source: string)
    requires !input.config.Requires(AlignmentKind) && Discriminates(input.config, power)
    requires criterion.passingTests == TwoTests()
    requires Reportable(source) && input.config.alignment.For(source) <= 1.0
    ensures var alignment := SureVerdict(criterion.ref, "a", source);
            && CriterionOutcome(input, criterion, [power], [alignment]) == Pass
            && PartlyAligned(input, criterion, [alignment])
  {
    var alignment := SureVerdict(criterion.ref, "a", source);
    SureVerdictClears(input.config, criterion.ref, TwoTests()[0], "a", source);
    SecondTestIsUnmatched(alignment);
    OneVerdictProves(input, criterion, power, alignment, TwoTests()[0]);
  }

  lemma TwoProofsPass(config: Config, criterion: Criterion, power: DiscriminatingPower, source: string)
    returns (statements: seq<Classified>)
    requires !config.Requires(AlignmentKind) && power.requirement == criterion.ref && Discriminates(config, power)
    requires criterion.passingTests == TwoTests() && criterion.testFiles == []
    requires Reportable(source) && config.alignment.For(source) <= 1.0
    ensures var input := TwoProofs(config, criterion, power, SureVerdict(criterion.ref, "a", source));
            && ClassifiedAs(input, statements) && OutcomeUnder(input, statements, criterion) == Pass
            && PartlyAligned(input, criterion, Alignments(statements, criterion.ref))
  {
    var alignment := SureVerdict(criterion.ref, "a", source);
    statements := TwoProofsCount(config, criterion, power, alignment);
    PartlyAlignedPasses(TwoProofs(config, criterion, power, alignment), criterion, power, source);
  }

  lemma PartlyAlignedIsNotReported(input: Input, statements: seq<Classified>, criterion: Criterion)
    requires PartlyAligned(input, criterion, Alignments(statements, criterion.ref))
    ensures forall report | ReportedAs(input, statements, criterion, report) :: !ReportsPass(report)
  {
    forall report | ReportedAs(input, statements, criterion, report) ensures !ReportsPass(report) {
      ReportAgreesWithOutcome(input, statements, criterion, report);
    }
  }

  /**
   Under every policy that does not require alignment, a criterion with
   two tests can pass while its report says it does not.
   */
  lemma SomePassIsNotReported(config: Config) returns (input: Input, statements: seq<Classified>, criterion: Criterion)
    requires !config.Requires(AlignmentKind) && Attainable(config.alignment)
    ensures input.config == config && criterion in input.criteria && WellFormedRequirement(criterion.ref)
    ensures AllAccepted(input.evidence.statements) && ClassifiedAs(input, statements)
    ensures OutcomeUnder(input, statements, criterion) == Pass
    ensures PartlyAligned(input, criterion, Alignments(statements, criterion.ref))
    ensures forall report | ReportedAs(input, statements, criterion, report) :: !ReportsPass(report)
  {
    criterion := Criterion(Requirement("R", 1), TwoTests(), []);
    var power := EveryPolicyCanPass(config, criterion.ref, "a");
    var source :| Reportable(source) && config.alignment.For(source) <= 1.0;
    SureProofsAreAccepted(config, criterion, power, TwoTests()[0], source);
    input := TwoProofs(config, criterion, power, SureVerdict(criterion.ref, "a", source));
    statements := TwoProofsPass(config, criterion, power, source);
    PartlyAlignedIsNotReported(input, statements, criterion);
  }
}
