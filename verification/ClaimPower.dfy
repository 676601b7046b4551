/**
 The claim-power table: what each judged mutant of a criterion's matrix may do to
 the outcome, and the evaluation of a whole discriminating-power proof.
 */
module ClaimPower {
  import opened Counting
  import opened GateFindings
  import opened Ordering
  import opened ProofConfig
  import opened ProofFormat

  // ----- Evidence the table names

  const BLOCK_WITNESS := [Witness, Builds, OtherCriteriaPass]
  const CREDIT_EVIDENCE := [SpecificKill, Builds, OtherCriteriaPass, Witness]
  const EQUIVALENT_PROOF := [NoDiffFound]
  const EXCLUSION_EXAMPLE := [OtherExampleFailed]
  const OWN_EXAMPLE := [ExampleFailed]
  const ALIGNMENT_MATRIX := [SpecificMatrix]

  /** Who answered a judged claim: which executor it was and where its confidence came from. */
  datatype Answerer = Answerer(executor: Executor, source: string)

  /** A mutant's own decision, if it has one, stands before that of the whole matrix. */
  function ValidityAnswerer(mutant: Mutant, predicate_: DiscriminatingPower): Answerer {
    Answerer(mutant.validity.ExecutorOf(predicate_.executor),
             DecisionSource(if mutant.decision.Some? then mutant.decision else predicate_.decision))
  }

  // ----- What the tests did to a mutant

  /** The tests that killed the mutant, in the order of its results. */
  function Killers(results: seq<TestResult>): seq<string> {
    if results == [] then []
    else
      var last := results[|results| - 1];
      Killers(results[..|results| - 1]) + (if last.outcome.value == Killed then [last.test] else [])
  }

  /** The mutant has results, and every one of them says that it survived. */
  predicate Survives(mutant: Mutant) {
    mutant.results != [] && forall result | result in mutant.results :: result.outcome.value == Survived
  }

  datatype Facts = Facts(survived: bool, killedBy: seq<string>)

  method FactsOf(mutant: Mutant) returns (facts: Facts)
    ensures facts == Facts(Survives(mutant), Killers(mutant.results))
  {
    var survived, killedBy := |mutant.results| > 0, [];
    for i := 0 to |mutant.results|
      invariant survived <==> |mutant.results| > 0 && forall j | 0 <= j < i ::
                  mutant.results[j].outcome.value == Survived
      invariant killedBy == Killers(mutant.results[..i])
    {
      var result := mutant.results[i];
      TakeOneMore(mutant.results, i);
      match result.outcome.value {
        case Killed =>
          killedBy := killedBy + [result.test];
          survived := false;
        case Errored =>
          survived := false;
        case Survived =>
      }
    }
    assert mutant.results[..|mutant.results|] == mutant.results;
    facts := Facts(survived, killedBy);
  }

  /** The tests with a kill among the results of some sentinel. */
  function TaintedBy(mutants: seq<Mutant>): set<string> {
    set mutant, test | mutant in mutants && mutant.sentinel && test in Killers(mutant.results) :: test
  }

  // ----- The rows of the table

  /** What the table says of one mutant. A host-eligible survivor is excluded while the budget lasts. */
  datatype Row = NoPower | Blocks | Escalates | ExcludedExecuted | HostEligible | Credits | EarnsNothing

  function SurvivorRow(config: Config, validity: Claim<Validity>, who: Answerer): Row {
    var confident := validity.ConfidenceOrZero() >= config.validity.For(who.source);
    match validity.value
    case Valid =>
      if validity.Has(OWN_EXAMPLE) || (confident && validity.Has(BLOCK_WITNESS)) then Blocks else Escalates
    case Equivalent =>
      if validity.Has(EQUIVALENT_PROOF) then ExcludedExecuted else Escalates
    case NotViolating =>
      if validity.Has(EXCLUSION_EXAMPLE) then ExcludedExecuted
      else if config.Basis() == JudgedBasis && confident && config.AboveFloor(who.executor) then HostEligible
      else Escalates
    case Undetermined => Escalates
  }

  function KillRow(config: Config, mutant: Mutant, who: Answerer, tainted: set<string>): Row {
    var validity := mutant.validity;
    if forall test | test in Killers(mutant.results) :: test in tainted then EarnsNothing
    else if validity.Has(OWN_EXAMPLE) then Credits
    else if config.Basis() == ExecutedOnly then EarnsNothing
    else if validity.ConfidenceOrZero() < config.validity.For(who.source) then EarnsNothing
    else if !config.AboveFloor(who.executor) then EarnsNothing
    else if config.Basis() == Corroborated && !validity.Has(CREDIT_EVIDENCE) then EarnsNothing
    else Credits
  }

  function RowOf(config: Config, predicate_: DiscriminatingPower, tainted: set<string>, mutant: Mutant): Row {
    var who := ValidityAnswerer(mutant, predicate_);
    if mutant.sentinel then NoPower
    else if Survives(mutant) then SurvivorRow(config, mutant.validity, who)
    else if Killers(mutant.results) != [] && mutant.validity.value == Valid then KillRow(config, mutant, who, tainted)
    else NoPower
  }

  function Rows(config: Config, predicate_: DiscriminatingPower, tainted: set<string>, mutants: seq<Mutant>,
                row: Row): nat
  {
    Count(mutants, (mutant: Mutant) => RowOf(config, predicate_, tainted, mutant) == row)
  }

  function ValidMutants(mutants: seq<Mutant>): nat {
    Count(mutants, (mutant: Mutant) => !mutant.sentinel && mutant.validity.value == Valid)
  }

  function AnsweredOver(predicate_: DiscriminatingPower, mutants: seq<Mutant>, channel: Channel): nat {
    Count(mutants,
          (mutant: Mutant) => !mutant.sentinel && ValidityAnswerer(mutant, predicate_).executor.channel == channel)
  }

  function AnsweredAt(predicate_: DiscriminatingPower, mutants: seq<Mutant>, isolation: Isolation): nat {
    Count(mutants,
          (mutant: Mutant) => !mutant.sentinel && ValidityAnswerer(mutant, predicate_).executor.isolation == isolation)
  }

  // ----- What the evaluation reports

  function DpFinding(category: Category, effect: Effect, id: string, topic: Topic): Finding {
    Finding(category, effect, ModuleName(DiscriminatingPowerKind), id, topic)
  }

  predicate ByDigest(a: Mutant, b: Mutant) {
    CompareStrings(a.digest, b.digest) <= 0
  }

  function InDigestOrder(mutants: seq<Mutant>): seq<Mutant> {
    StableSort(mutants, ByDigest)
  }

  function ExampleFindings(id: string, examples: seq<ExampleRun>): seq<Finding> {
    if examples == [] then []
    else
      var last := examples[|examples| - 1];
      ExampleFindings(id, examples[..|examples| - 1])
      + (if last.passed then [] else [DpFinding(ExampleFails, EffectBlock, id, OfExample(last.index))])
  }

  /** One escalation for each of the tests outside seen, at its first place. */
  function FirstKills(id: string, tests: seq<string>, seen: set<string>): seq<Finding> {
    if tests == [] then []
    else
      var earlier := tests[..|tests| - 1];
      var test := tests[|tests| - 1];
      FirstKills(id, earlier, seen)
      + (if test in seen || test in earlier then []
         else [DpFinding(MutationSensitiveTest, EffectEscalate, id, OfTest(test))])
  }

  function TaintFindings(id: string, mutants: seq<Mutant>): seq<Finding> {
    if mutants == [] then []
    else
      var earlier := mutants[..|mutants| - 1];
      var last := mutants[|mutants| - 1];
      TaintFindings(id, earlier)
      + (if last.sentinel then FirstKills(id, Killers(last.results), TaintedBy(earlier)) else [])
  }

  /** The finding of a mutant that rank host-eligible survivors precede in digest order. */
  function MutantFinding(id: string, mutant: Mutant, row: Row, rank: nat, budget: int): seq<Finding> {
    if row == Blocks then [DpFinding(SurvivingValidMutant, EffectBlock, id, OfMutant(mutant.digest))]
    else if row == Escalates || (row == HostEligible && rank >= budget) then
      [DpFinding(EscalatedMutant, EffectEscalate, id, OfMutant(mutant.digest))]
    else []
  }

  function MutantFindings(config: Config, id: string, predicate_: DiscriminatingPower, tainted: set<string>,
                          mutants: seq<Mutant>): seq<Finding>
  {
    if mutants == [] then []
    else
      var earlier := mutants[..|mutants| - 1];
      var last := mutants[|mutants| - 1];
      MutantFindings(config, id, predicate_, tainted, earlier)
      + MutantFinding(id, last, RowOf(config, predicate_, tainted, last),
                      Rows(config, predicate_, tainted, earlier, HostEligible), config.maxHostExclusions)
  }

  /** What is missing for the pool to show that the tests discriminate. */
  function PowerFindings(id: string, validMutants: nat, credited: nat, blocked: bool): seq<Finding> {
    if validMutants == 0 then [DpFinding(NoValidMutant, EffectEscalate, id, NoTopic)]
    else if credited == 0 && !blocked then [DpFinding(NoKilledValidMutant, EffectEscalate, id, NoTopic)]
    else []
  }

  function ReferenceFindings(id: string, predicate_: DiscriminatingPower): seq<Finding> {
    (if predicate_.correctCodePasses then [] else [DpFinding(CorrectCodeFails, EffectBlock, id, NoTopic)])
    + ExampleFindings(id, predicate_.examples)
  }

  function PoolFindings(config: Config, id: string, predicate_: DiscriminatingPower): seq<Finding> {
    var sorted := InDigestOrder(predicate_.mutants);
    TaintFindings(id, sorted)
    + MutantFindings(config, id, predicate_, TaintedBy(predicate_.mutants), sorted)
  }

  function DpFindings(config: Config, id: string, predicate_: DiscriminatingPower): seq<Finding> {
    var tainted := TaintedBy(predicate_.mutants);
    ReferenceFindings(id, predicate_)
    + PoolFindings(config, id, predicate_)
    + PowerFindings(id, ValidMutants(predicate_.mutants),
                    Rows(config, predicate_, tainted, predicate_.mutants, Credits),
                    Rows(config, predicate_, tainted, predicate_.mutants, Blocks) > 0)
  }

  // ----- The evaluation

  datatype Disposition = DispositionNone | DispositionBlock | DispositionEscalate | DispositionExcludedExecuted
                       | DispositionExcludedHost | DispositionCredit | DispositionNoCredit

  /** The disposition of a row, given how much of the exclusion budget is spent. */
  function Settle(row: Row, used: int, budget: int): Disposition {
    match row
    case NoPower => DispositionNone
    case Blocks => DispositionBlock
    case Escalates => DispositionEscalate
    case ExcludedExecuted => DispositionExcludedExecuted
    case HostEligible => if used >= budget then DispositionEscalate else DispositionExcludedHost
    case Credits => DispositionCredit
    case EarnsNothing => DispositionNoCredit
  }

  function Get<K>(counts: map<K, int>, key: K): int {
    if key in counts then counts[key] else 0
  }

  /** What a discriminating-power proof concluded. */
  class DpEvaluation {
    var findings: seq<Finding>
    var credited: int
    var validMutants: int
    var hostExclusions: int
    var screenExclusions: int
    var tainted: set<string>
    var channels: map<Channel, int>
    var isolation: map<Isolation, int>

    constructor ()
      ensures findings == [] && credited == validMutants == hostExclusions == screenExclusions == 0
      ensures tainted == {} && channels == map[] && isolation == map[]
    {
      findings, tainted, channels, isolation := [], {}, map[], map[];
      credited, validMutants, hostExclusions, screenExclusions := 0, 0, 0, 0;
    }

    method Emit(category: Category, effect: Effect, id: string, topic: Topic)
      modifies this`findings
      ensures findings == old(findings) + [DpFinding(category, effect, id, topic)]
    {
      findings := findings + [Finding(category, effect, ModuleName(DiscriminatingPowerKind), id, topic)];
    }
  }

  lemma TaintedByStep(mutants: seq<Mutant>, i: nat)
    requires i < |mutants|
    ensures TaintedBy(mutants[..i + 1]) == TaintedBy(mutants[..i])
            + if mutants[i].sentinel then set test | test in Killers(mutants[i].results) else {}
  {
    TakeOneMore(mutants, i);
  }

  lemma FirstKillsStep(id: string, tests: seq<string>, k: nat, seen: set<string>)
    requires k < |tests|
    ensures FirstKills(id, tests[..k + 1], seen) == FirstKills(id, tests[..k], seen)
            + if tests[k] in seen || tests[k] in tests[..k] then []
              else [DpFinding(MutationSensitiveTest, EffectEscalate, id, OfTest(tests[k]))]
    ensures forall test :: test in tests[..k + 1] <==> test in tests[..k] || test == tests[k]
  {
    TakeOneMore(tests, k);
  }

  method TaintKillers(evaluation: DpEvaluation, id: string, tests: seq<string>)
    modifies evaluation`tainted, evaluation`findings
    ensures evaluation.tainted == old(evaluation.tainted) + set test | test in tests
    ensures evaluation.findings == old(evaluation.findings) + FirstKills(id, tests, old(evaluation.tainted))
  {
    ghost var seen := evaluation.tainted;
    for k := 0 to |tests|
      invariant forall test :: test in evaluation.tainted <==> test in seen || test in tests[..k]
      invariant evaluation.findings == old(evaluation.findings) + FirstKills(id, tests[..k], seen)
    {
      var test := tests[k];
      FirstKillsStep(id, tests, k, seen);
      if test in evaluation.tainted {
        continue;
      }
      evaluation.tainted := evaluation.tainted + {test};
      evaluation.Emit(MutationSensitiveTest, EffectEscalate, id, OfTest(test));
    }
    assert tests[..|tests|] == tests;
  }

  method TaintSentinelKillers(evaluation: DpEvaluation, id: string, mutants: seq<Mutant>)
    requires evaluation.tainted == {}
    modifies evaluation`tainted, evaluation`findings
    ensures evaluation.tainted == TaintedBy(mutants)
    ensures evaluation.findings == old(evaluation.findings) + TaintFindings(id, mutants)
  {
    for i := 0 to |mutants|
      invariant evaluation.tainted == TaintedBy(mutants[..i])
      invariant evaluation.findings == old(evaluation.findings) + TaintFindings(id, mutants[..i])
    {
      TakeOneMore(mutants, i);
      TaintedByStep(mutants, i);
      if !mutants[i].sentinel {
        continue;
      }
      var facts := FactsOf(mutants[i]);
      ConcatAssociates(old(evaluation.findings), TaintFindings(id, mutants[..i]),
                       FirstKills(id, facts.killedBy, evaluation.tainted));
      TaintKillers(evaluation, id, facts.killedBy);
    }
    assert mutants[..|mutants|] == mutants;
  }

  method JudgeMutant(config: Config, mutant: Mutant, who: Answerer, evaluation: DpEvaluation,
                     ghost predicate_: DiscriminatingPower)
    returns (disposition: Disposition)
    requires !mutant.sentinel && who == ValidityAnswerer(mutant, predicate_)
    modifies evaluation`hostExclusions
    ensures disposition
            == Settle(RowOf(config, predicate_, evaluation.tainted, mutant), old(evaluation.hostExclusions),
                      config.maxHostExclusions)
    ensures evaluation.hostExclusions
            == old(evaluation.hostExclusions) + if disposition == DispositionExcludedHost then 1 else 0
  {
    var facts := FactsOf(mutant);
    if facts.survived {
      disposition := JudgeSurvivor(config, mutant.validity, who, evaluation);
    } else if |facts.killedBy| > 0 && mutant.validity.value == Valid {
      disposition := JudgeKill(config, mutant, facts, who, evaluation.tainted);
    } else {
      disposition := DispositionNone;
    }
  }

  method JudgeSurvivor(config: Config, validity: Claim<Validity>, who: Answerer, evaluation: DpEvaluation)
    returns (disposition: Disposition)
    modifies evaluation`hostExclusions
    ensures disposition
            == Settle(SurvivorRow(config, validity, who), old(evaluation.hostExclusions), config.maxHostExclusions)
    ensures evaluation.hostExclusions
            == old(evaluation.hostExclusions) + if disposition == DispositionExcludedHost then 1 else 0
  {
    var confidence, threshold := validity.ConfidenceOrZero(), config.validity.For(who.source);
    match validity.value {
      case Valid =>
        if validity.Has(OWN_EXAMPLE) {
          return DispositionBlock;
        } else if confidence >= threshold && validity.Has(BLOCK_WITNESS) {
          return DispositionBlock;
        }
        return DispositionEscalate;
      case Equivalent =>
        return if validity.Has(EQUIVALENT_PROOF) then DispositionExcludedExecuted else DispositionEscalate;
      case NotViolating =>
        disposition := JudgeNotViolatingSurvivor(config, validity, who, evaluation);
      case Undetermined =>
        return DispositionEscalate;
    }
  }

  /**
   One corroboration by another criterion's example sets the survivor
   aside; a judgment alone does while the budget lasts.
   */
  method JudgeNotViolatingSurvivor(config: Config, validity: Claim<Validity>, who: Answerer, evaluation: DpEvaluation)
    returns (disposition: Disposition)
    requires validity.value == NotViolating
    modifies evaluation`hostExclusions
    ensures disposition
            == Settle(SurvivorRow(config, validity, who), old(evaluation.hostExclusions), config.maxHostExclusions)
    ensures evaluation.hostExclusions
            == old(evaluation.hostExclusions) + if disposition == DispositionExcludedHost then 1 else 0
  {
    if validity.Has(EXCLUSION_EXAMPLE) {
      return DispositionExcludedExecuted;
    } else if config.Basis() != JudgedBasis {
      return DispositionEscalate;
    } else if validity.ConfidenceOrZero() < config.validity.For(who.source) {
      return DispositionEscalate;
    } else if !config.AboveFloor(who.executor) {
      return DispositionEscalate;
    } else if evaluation.hostExclusions >= config.maxHostExclusions {
      return DispositionEscalate;
    }
    evaluation.hostExclusions := evaluation.hostExclusions + 1;
    return DispositionExcludedHost;
  }

  /** The disposition of a killed mutant judged Valid. Only killers outside the tainted set speak for it. */
  method JudgeKill(config: Config, mutant: Mutant, facts: Facts, who: Answerer, tainted: set<string>)
    returns (disposition: Disposition)
    requires facts.killedBy == Killers(mutant.results)
    ensures disposition == Settle(KillRow(config, mutant, who, tainted), 0, 0)
  {
    var earning := 0;
    for i := 0 to |facts.killedBy|
      invariant 0 <= earning
      invariant earning == 0 <==> forall j | 0 <= j < i :: facts.killedBy[j] in tainted
    {
      if facts.killedBy[i] !in tainted {
        earning := earning + 1;
      }
    }
    var validity := mutant.validity;
    if earning == 0 {
      return DispositionNoCredit;
    } else if validity.Has(OWN_EXAMPLE) {
      return DispositionCredit;
    } else if config.Basis() == ExecutedOnly {
      return DispositionNoCredit;
    } else if validity.ConfidenceOrZero() < config.validity.For(who.source) {
      return DispositionNoCredit;
    } else if !config.AboveFloor(who.executor) {
      return DispositionNoCredit;
    } else if config.Basis() == Corroborated && !validity.Has(CREDIT_EVIDENCE) {
      return DispositionNoCredit;
    }
    return DispositionCredit;
  }

  ghost predicate CountsAnswerers(evaluation: DpEvaluation, predicate_: DiscriminatingPower, mutants: seq<Mutant>)
    reads evaluation
  {
    && (forall channel :: Get(evaluation.channels, channel) == AnsweredOver(predicate_, mutants, channel))
    && (forall level :: Get(evaluation.isolation, level) == AnsweredAt(predicate_, mutants, level))
  }

  /** The counters after the mutants in digest order, whose host exclusions spend the budget first come first served. */
  ghost predicate Judged(evaluation: DpEvaluation, config: Config, predicate_: DiscriminatingPower,
                         mutants: seq<Mutant>)
    reads evaluation
  {
    && evaluation.validMutants == ValidMutants(mutants)
    && evaluation.credited == Rows(config, predicate_, evaluation.tainted, mutants, Credits)
    && evaluation.hostExclusions
       == Min(Rows(config, predicate_, evaluation.tainted, mutants, HostEligible), Max(0, config.maxHostExclusions))
    && CountsAnswerers(evaluation, predicate_, mutants)
  }

  lemma RowsStep(config: Config, predicate_: DiscriminatingPower, tainted: set<string>, mutants: seq<Mutant>, i: nat)
    requires i < |mutants|
    ensures forall row :: Rows(config, predicate_, tainted, mutants[..i + 1], row)
                          == Rows(config, predicate_, tainted, mutants[..i], row)
                             + if RowOf(config, predicate_, tainted, mutants[i]) == row then 1 else 0
    ensures ValidMutants(mutants[..i + 1]) == ValidMutants(mutants[..i])
            + if !mutants[i].sentinel && mutants[i].validity.value == Valid then 1 else 0
  {
    forall row
      ensures Rows(config, predicate_, tainted, mutants[..i + 1], row)
              == Rows(config, predicate_, tainted, mutants[..i], row)
                 + if RowOf(config, predicate_, tainted, mutants[i]) == row then 1 else 0
    {
      CountStep(mutants, i, (mutant: Mutant) => RowOf(config, predicate_, tainted, mutant) == row);
    }
    CountStep(mutants, i, (mutant: Mutant) => !mutant.sentinel && mutant.validity.value == Valid);
  }

  lemma AnswerersStep(predicate_: DiscriminatingPower, mutants: seq<Mutant>, i: nat)
    requires i < |mutants|
    ensures forall channel :: AnsweredOver(predicate_, mutants[..i + 1], channel)
                              == AnsweredOver(predicate_, mutants[..i], channel)
                                 + if !mutants[i].sentinel
                                   && ValidityAnswerer(mutants[i], predicate_).executor.channel == channel then 1 else 0
    ensures forall level :: AnsweredAt(predicate_, mutants[..i + 1], level)
                            == AnsweredAt(predicate_, mutants[..i], level)
                               + if !mutants[i].sentinel
                                 && ValidityAnswerer(mutants[i], predicate_).executor.isolation == level then 1 else 0
  {
    forall channel
      ensures AnsweredOver(predicate_, mutants[..i + 1], channel) == AnsweredOver(predicate_, mutants[..i], channel)
              + if !mutants[i].sentinel && ValidityAnswerer(mutants[i], predicate_).executor.channel == channel then 1
                else 0
    {
      CountStep(mutants, i,
                (mutant: Mutant) => !mutant.sentinel
                && ValidityAnswerer(mutant, predicate_).executor.channel == channel);
    }
    forall level
      ensures AnsweredAt(predicate_, mutants[..i + 1], level) == AnsweredAt(predicate_, mutants[..i], level)
              + if !mutants[i].sentinel && ValidityAnswerer(mutants[i], predicate_).executor.isolation == level then 1
                else 0
    {
      CountStep(mutants, i,
                (mutant: Mutant) => !mutant.sentinel
                && ValidityAnswerer(mutant, predicate_).executor.isolation == level);
    }
  }

  method CountAnswerer(evaluation: DpEvaluation, who: Answerer, ghost predicate_: DiscriminatingPower,
                       ghost mutants: seq<Mutant>, ghost i: nat)
    requires i < |mutants| && !mutants[i].sentinel && who == ValidityAnswerer(mutants[i], predicate_)
    requires CountsAnswerers(evaluation, predicate_, mutants[..i])
    modifies evaluation`channels, evaluation`isolation
    ensures CountsAnswerers(evaluation, predicate_, mutants[..i + 1])
  {
    AnswerersStep(predicate_, mutants, i);
    evaluation.channels :=
      evaluation.channels[who.executor.channel := Get(evaluation.channels, who.executor.channel) + 1];
    evaluation.isolation :=
      evaluation.isolation[who.executor.isolation := Get(evaluation.isolation, who.executor.isolation) + 1];
    assert forall channel :: Get(evaluation.channels, channel)
                             == Get(old(evaluation.channels), channel)
                                + if who.executor.channel == channel then 1 else 0;
    assert forall level :: Get(evaluation.isolation, level)
                           == Get(old(evaluation.isolation), level) + if who.executor.isolation == level then 1 else 0;
  }

  /** Judges one mutant after some were eligible for the budget, and acts on the disposition. */
  method JudgeAndAct(config: Config, id: string, mutant: Mutant, who: Answerer, evaluation: DpEvaluation,
                     ghost predicate_: DiscriminatingPower, ghost eligible: nat)
    returns (blocks: bool)
    requires !mutant.sentinel && who == ValidityAnswerer(mutant, predicate_)
    requires evaluation.hostExclusions == Min(eligible, Max(0, config.maxHostExclusions))
    modifies evaluation`hostExclusions, evaluation`credited, evaluation`findings
    ensures var row := RowOf(config, predicate_, evaluation.tainted, mutant);
            && blocks == (row == Blocks)
            && evaluation.credited == old(evaluation.credited) + (if row == Credits then 1 else 0)
            && evaluation.hostExclusions
               == Min(eligible + (if row == HostEligible then 1 else 0), Max(0, config.maxHostExclusions))
            && evaluation.findings
               == old(evaluation.findings) + MutantFinding(id, mutant, row, eligible, config.maxHostExclusions)
  {
    var disposition := JudgeMutant(config, mutant, who, evaluation, predicate_);
    blocks := Act(evaluation, id, mutant.digest, disposition);
  }

  /** One turn of the loop over the mutants: judge the i-th and act on the disposition. */
  method JudgeNext(config: Config, id: string, predicate_: DiscriminatingPower, mutants: seq<Mutant>, i: nat,
                   evaluation: DpEvaluation, wasBlocked: bool)
    returns (blocked: bool)
    requires i < |mutants| && Judged(evaluation, config, predicate_, mutants[..i])
    modifies evaluation
    ensures evaluation.tainted == old(evaluation.tainted)
            && evaluation.screenExclusions == old(evaluation.screenExclusions)
    ensures Judged(evaluation, config, predicate_, mutants[..i + 1])
    ensures blocked == (wasBlocked || RowOf(config, predicate_, evaluation.tainted, mutants[i]) == Blocks)
    ensures evaluation.findings == old(evaluation.findings)
            + MutantFinding(id, mutants[i], RowOf(config, predicate_, evaluation.tainted, mutants[i]),
                            Rows(config, predicate_, evaluation.tainted, mutants[..i], HostEligible),
                            config.maxHostExclusions)
  {
    blocked := wasBlocked;
    var mutant := mutants[i];
    RowsStep(config, predicate_, evaluation.tainted, mutants, i);
    if mutant.sentinel {
      AnswerersStep(predicate_, mutants, i);
      return;
    }
    var who := ValidityAnswerer(mutant, predicate_);
    CountAnswerer(evaluation, who, predicate_, mutants, i);
    if mutant.validity.value == Valid {
      evaluation.validMutants := evaluation.validMutants + 1;
    }
    var blocks := JudgeAndAct(config, id, mutant, who, evaluation, predicate_,
                              Rows(config, predicate_, evaluation.tainted, mutants[..i], HostEligible));
    blocked := blocked || blocks;
  }

  method Act(evaluation: DpEvaluation, id: string, digest: string, disposition: Disposition) returns (blocks: bool)
    modifies evaluation`findings, evaluation`credited
    ensures blocks == (disposition == DispositionBlock)
    ensures evaluation.credited == old(evaluation.credited) + if disposition == DispositionCredit then 1 else 0
    ensures evaluation.findings == old(evaluation.findings)
            + if disposition == DispositionBlock then
              [DpFinding(SurvivingValidMutant, EffectBlock, id, OfMutant(digest))]
              else if disposition == DispositionEscalate then
                [DpFinding(EscalatedMutant, EffectEscalate, id, OfMutant(digest))]
              else []
  {
    blocks := false;
    match disposition {
      case DispositionBlock =>
        blocks := true;
        evaluation.Emit(SurvivingValidMutant, EffectBlock, id, OfMutant(digest));
      case DispositionEscalate =>
        evaluation.Emit(EscalatedMutant, EffectEscalate, id, OfMutant(digest));
      case DispositionCredit =>
        evaluation.credited := evaluation.credited + 1;
      case _ =>
    }
  }

  lemma TaintedPermutes(mutants: seq<Mutant>, others: seq<Mutant>)
    requires multiset(mutants) == multiset(others)
    ensures TaintedBy(mutants) == TaintedBy(others)
  {
    assert forall mutant :: mutant in mutants <==> mutant in multiset(mutants);
    assert forall mutant :: mutant in others <==> mutant in multiset(others);
  }

  /** No count the evaluation reports depends on the order of the mutants. */
  lemma CountsPermute(config: Config, predicate_: DiscriminatingPower, tainted: set<string>, mutants: seq<Mutant>,
                      others: seq<Mutant>)
    requires multiset(mutants) == multiset(others)
    ensures forall row ::
              Rows(config, predicate_, tainted, mutants, row) == Rows(config, predicate_, tainted, others, row)
    ensures ValidMutants(mutants) == ValidMutants(others)
    ensures forall channel :: AnsweredOver(predicate_, mutants, channel) == AnsweredOver(predicate_, others, channel)
    ensures forall level :: AnsweredAt(predicate_, mutants, level) == AnsweredAt(predicate_, others, level)
  {
    forall row
      ensures Rows(config, predicate_, tainted, mutants, row) == Rows(config, predicate_, tainted, others, row)
    {
      CountPermutes(mutants, others, (mutant: Mutant) => RowOf(config, predicate_, tainted, mutant) == row);
    }
    CountPermutes(mutants, others, (mutant: Mutant) => !mutant.sentinel && mutant.validity.value == Valid);
    forall channel
      ensures AnsweredOver(predicate_, mutants, channel) == AnsweredOver(predicate_, others, channel)
    {
      CountPermutes(mutants, others,
                    (mutant: Mutant) => !mutant.sentinel
                    && ValidityAnswerer(mutant, predicate_).executor.channel == channel);
    }
    forall level
      ensures AnsweredAt(predicate_, mutants, level) == AnsweredAt(predicate_, others, level)
    {
      CountPermutes(mutants, others,
                    (mutant: Mutant) => !mutant.sentinel
                    && ValidityAnswerer(mutant, predicate_).executor.isolation == level);
    }
  }

  method ReportReference(evaluation: DpEvaluation, id: string, predicate_: DiscriminatingPower)
    modifies evaluation`findings
    ensures evaluation.findings == old(evaluation.findings) + ReferenceFindings(id, predicate_)
  {
    if !predicate_.correctCodePasses {
      evaluation.Emit(CorrectCodeFails, EffectBlock, id, NoTopic);
    }
    ghost var before := evaluation.findings;
    for i := 0 to |predicate_.examples|
      invariant evaluation.findings == before + ExampleFindings(id, predicate_.examples[..i])
    {
      TakeOneMore(predicate_.examples, i);
      if !predicate_.examples[i].passed {
        evaluation.Emit(ExampleFails, EffectBlock, id, OfExample(predicate_.examples[i].index));
      }
    }
    assert predicate_.examples[..|predicate_.examples|] == predicate_.examples;
  }

  /** The loop over the mutants in digest order. */
  method JudgeAll(config: Config, id: string, predicate_: DiscriminatingPower, mutants: seq<Mutant>,
                  evaluation: DpEvaluation) returns (blocked: bool)
    requires Judged(evaluation, config, predicate_, [])
    modifies evaluation
    ensures evaluation.tainted == old(evaluation.tainted)
            && evaluation.screenExclusions == old(evaluation.screenExclusions)
    ensures Judged(evaluation, config, predicate_, mutants)
    ensures blocked <==> Rows(config, predicate_, evaluation.tainted, mutants, Blocks) > 0
    ensures evaluation.findings
            == old(evaluation.findings) + MutantFindings(config, id, predicate_, evaluation.tainted, mutants)
  {
    blocked := false;
    assert mutants[..0] == [];
    for i := 0 to |mutants|
      invariant evaluation.tainted == old(evaluation.tainted)
                && evaluation.screenExclusions == old(evaluation.screenExclusions)
      invariant Judged(evaluation, config, predicate_, mutants[..i])
      invariant blocked <==> Rows(config, predicate_, evaluation.tainted, mutants[..i], Blocks) > 0
      invariant evaluation.findings
                == old(evaluation.findings) + MutantFindings(config, id, predicate_, evaluation.tainted, mutants[..i])
    {
      RowsStep(config, predicate_, evaluation.tainted, mutants, i);
      TakeOneMore(mutants, i);
      blocked := JudgeNext(config, id, predicate_, mutants, i, evaluation, blocked);
    }
    assert mutants[..|mutants|] == mutants;
  }

  method ReportPower(evaluation: DpEvaluation, id: string, blocked: bool)
    requires 0 <= evaluation.validMutants && 0 <= evaluation.credited
    modifies evaluation`findings
    ensures evaluation.findings
            == old(evaluation.findings) + PowerFindings(id, evaluation.validMutants, evaluation.credited, blocked)
  {
    if evaluation.validMutants == 0 {
      evaluation.Emit(NoValidMutant, EffectEscalate, id, NoTopic);
    } else if evaluation.credited == 0 && !blocked {
      evaluation.Emit(NoKilledValidMutant, EffectEscalate, id, NoTopic);
    }
  }

  lemma JudgedPermutes(evaluation: DpEvaluation, config: Config, predicate_: DiscriminatingPower, mutants: seq<Mutant>,
                       others: seq<Mutant>)
    requires multiset(mutants) == multiset(others)
    requires Judged(evaluation, config, predicate_, mutants)
    ensures Judged(evaluation, config, predicate_, others)
  {
    CountsPermute(config, predicate_, evaluation.tainted, mutants, others);
  }

  /** The mutants in digest order: sentinels first, then one judgment each. */
  method EvaluatePool(evaluation: DpEvaluation, config: Config, id: string, predicate_: DiscriminatingPower)
    returns (blocked: bool)
    requires evaluation.tainted == {} && Judged(evaluation, config, predicate_, [])
    modifies evaluation
    ensures evaluation.tainted == TaintedBy(predicate_.mutants)
    ensures evaluation.screenExclusions == old(evaluation.screenExclusions)
    ensures Judged(evaluation, config, predicate_, predicate_.mutants)
    ensures blocked <==> Rows(config, predicate_, TaintedBy(predicate_.mutants), predicate_.mutants, Blocks) > 0
    ensures evaluation.findings == old(evaluation.findings) + PoolFindings(config, id, predicate_)
  {
    var mutants := InDigestOrder(predicate_.mutants);
    SortPermutes(predicate_.mutants, ByDigest);
    TaintedPermutes(mutants, predicate_.mutants);
    TaintSentinelKillers(evaluation, id, mutants);
    assert Judged(evaluation, config, predicate_, []);
    blocked := JudgeAll(config, id, predicate_, mutants, evaluation);
    JudgedPermutes(evaluation, config, predicate_, mutants, predicate_.mutants);
    assert blocked <==> Rows(config, predicate_, evaluation.tainted, predicate_.mutants, Blocks) > 0 by {
      CountsPermute(config, predicate_, evaluation.tainted, mutants, predicate_.mutants);
    }
    ConcatAssociates(old(evaluation.findings), TaintFindings(id, mutants),
                     MutantFindings(config, id, predicate_, evaluation.tainted, mutants));
  }

  /** Judges every mutant of a matrix in digest order and reports what the whole comes to. */
  method EvaluateDiscriminatingPower(config: Config, id: string, predicate_: DiscriminatingPower)
    returns (evaluation: DpEvaluation)
    ensures fresh(evaluation)
    ensures evaluation.findings == DpFindings(config, id, predicate_)
    ensures evaluation.tainted == TaintedBy(predicate_.mutants)
    ensures evaluation.screenExclusions == predicate_.screenedOut
    ensures Judged(evaluation, config, predicate_, predicate_.mutants)
  {
    evaluation := new DpEvaluation();
    evaluation.screenExclusions := predicate_.screenedOut;
    ReportReference(evaluation, id, predicate_);
    assert evaluation.findings == ReferenceFindings(id, predicate_);
    var blocked := EvaluatePool(evaluation, config, id, predicate_);
    ReportPower(evaluation, id, blocked);
  }
}
