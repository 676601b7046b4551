/**
 The invariants a decoded matrix and a decoded verdict must hold: sort orders, claim
 rules, known confidence sources and the corroboration invariant.
 */
module Invariants {
  import opened ClaimPower
  import opened ClaimPowerLaws
  import opened GateFindings
  import opened Ordering
  import opened ProofConfig
  import opened ProofFormat
  import opened Wrappers

  datatype Code =
    | BadDigest
    | MissingField
    | Unsorted
    | WrongClass
    | JudgedWithoutConfidence
    | ConfidenceRange
    | ExecutedWithConfidence
    | ExecutedWithCorroboration
    | ExecutedWithExecutor
    | SentinelNotEquivalent
    | UncorroboratedClaim
    | BadRequirement
    | BadSubject
    | BadInputDescriptor
    | UnknownValue

  class Collector {
    var violations: seq<Code>

    constructor ()
      ensures violations == []
    {
      violations := [];
    }

    method Check(holds: bool, code: Code)
      modifies this
      ensures violations == if holds then old(violations) else old(violations) + [code]
    {
      if !holds {
        violations := violations + [code];
      }
    }
  }

  /** The check added violations exactly when the invariant does not hold. */
  twostate predicate Reports(sink: Collector, holds: bool)
    reads sink
  {
    old(sink.violations) <= sink.violations && (sink.violations == old(sink.violations) <==> holds)
  }

  // ----- Sort orders

  /** Each element comes strictly after the one before it. */
  predicate AscendingNeighbours<T>(items: seq<T>, compare: (T, T) -> int) {
    forall i | 0 < i < |items| :: compare(items[i - 1], items[i]) < 0
  }

  ghost predicate StrictTransitive<T(!new)>(compare: (T, T) -> int) {
    forall a, b, c | compare(a, b) < 0 && compare(b, c) < 0 :: compare(a, c) < 0
  }

  /** At most one violation, however many neighbours are out of order. */
  method CheckAscending<T>(sink: Collector, items: seq<T>, compare: (T, T) -> int)
    modifies sink
    ensures sink.violations == old(sink.violations) + if AscendingNeighbours(items, compare) then [] else [Unsorted]
  {
    var index := 1;
    while index < |items|
      invariant 1 <= index && sink.violations == old(sink.violations)
      invariant forall i | 0 < i < index && i < |items| :: compare(items[i - 1], items[i]) < 0
    {
      if compare(items[index - 1], items[index]) >= 0 {
        sink.Check(false, Unsorted);
        return;
      }
      index := index + 1;
    }
  }

  /** The check of neighbours settles the order of every two elements. */
  lemma {:induction false} NeighboursSettleOrder<T(!new)>(items: seq<T>, compare: (T, T) -> int, i: nat, j: nat)
    requires AscendingNeighbours(items, compare) && StrictTransitive(compare) && i < j < |items|
    ensures compare(items[i], items[j]) < 0
    decreases j - i
  {
    if i + 1 < j {
      NeighboursSettleOrder(items, compare, i, j - 1);
    }
    assert compare(items[j - 1], items[j]) < 0;
  }

  function CompareDigests(a: Mutant, b: Mutant): int {
    CompareStrings(a.digest, b.digest)
  }

  function CompareTests(a: TestResult, b: TestResult): int {
    CompareStrings(a.test, b.test)
  }

  function KindName(kind: CorroborationKind): string {
    match kind
    case ExampleFailed => "example_failed"
    case OtherExampleFailed => "other_example_failed"
    case SpecificKill => "specific_kill"
    case Witness => "f4_witness"
    case Builds => "builds"
    case OtherCriteriaPass => "other_criteria_pass"
    case NoDiffFound => "no_diff_found"
    case SpecificMatrix => "specific_matrix"
  }

  function CompareCorroborations(a: Corroboration, b: Corroboration): int {
    var byKind := CompareStrings(KindName(a.kind), KindName(b.kind));
    if byKind != 0 then byKind else CompareStrings(a.digest, b.digest)
  }

  // ----- Claims and mutants

  predicate IsSha256Hex(text: string) {
    |text| == 64 && forall c | c in text :: '0' <= c <= '9' || 'a' <= c <= 'f'
  }

  /** A claim of the class the predicate allows, with the members that class carries and no others. */
  predicate WellFormedClaim<V>(claim: Claim<V>, allowed: Class) {
    && claim.evidence == allowed
    && match claim.evidence
       case Judged => WellFormedJudgment(claim)
       case Executed => claim.confidence.None? && claim.corroboratedBy == [] && claim.executor.None?
  }

  predicate WellFormedJudgment<V>(claim: Claim<V>) {
    && claim.confidence.Some? && 0.0 <= claim.confidence.value <= 1.0
    && WellFormedCorroborations(claim.corroboratedBy)
  }

  predicate WellFormedCorroborations(items: seq<Corroboration>) {
    (forall item | item in items :: IsSha256Hex(item.digest)) && AscendingNeighbours(items, CompareCorroborations)
  }

  method CheckClaim<V>(sink: Collector, claim: Claim<V>, allowed: Class)
    modifies sink
    ensures Reports(sink, WellFormedClaim(claim, allowed))
  {
    sink.Check(claim.evidence == allowed, WrongClass);
    match claim.evidence {
      case Judged =>
        CheckJudgment(sink, claim);
      case Executed =>
        CheckExecution(sink, claim);
    }
  }

  method CheckExecution<V>(sink: Collector, claim: Claim<V>)
    modifies sink
    ensures Reports(sink, claim.confidence.None? && claim.corroboratedBy == [] && claim.executor.None?)
  {
    sink.Check(claim.confidence.None?, ExecutedWithConfidence);
    sink.Check(|claim.corroboratedBy| == 0, ExecutedWithCorroboration);
    sink.Check(claim.executor.None?, ExecutedWithExecutor);
  }

  method CheckJudgment<V>(sink: Collector, claim: Claim<V>)
    modifies sink
    ensures Reports(sink, WellFormedJudgment(claim))
  {
    if claim.confidence.None? {
      sink.Check(false, JudgedWithoutConfidence);
    } else {
      sink.Check(0.0 <= claim.confidence.value <= 1.0, ConfidenceRange);
    }
    CheckCorroborations(sink, claim.corroboratedBy);
  }

  method CheckCorroborations(sink: Collector, items: seq<Corroboration>)
    modifies sink
    ensures Reports(sink, WellFormedCorroborations(items))
  {
    CheckCorroborationDigests(sink, items);
    CheckAscending(sink, items, CompareCorroborations);
  }

  method CheckCorroborationDigests(sink: Collector, items: seq<Corroboration>)
    modifies sink
    ensures Reports(sink, forall item | item in items :: IsSha256Hex(item.digest))
  {
    for i := 0 to |items|
      invariant Reports(sink, forall j | 0 <= j < i :: IsSha256Hex(items[j].digest))
    {
      sink.Check(IsSha256Hex(items[i].digest), BadDigest);
    }
  }

  predicate WellFormedResults(results: seq<TestResult>) {
    && results != []
    && AscendingNeighbours(results, CompareTests)
    && forall result | result in results :: WellFormedResult(result)
  }

  predicate WellFormedResult(result: TestResult) {
    result.test != "" && WellFormedClaim(result.outcome, Executed)
  }

  predicate WellFormedMutant(mutant: Mutant) {
    && IsSha256Hex(mutant.digest)
    && WellFormedClaim(mutant.validity, Judged)
    && (mutant.sentinel ==> mutant.validity.value == Equivalent)
    && WellFormedResults(mutant.results)
    && (mutant.validity.value == Valid ==> mutant.validity.corroboratedBy != [])
    && WellFormedDecision(mutant.decision)
  }

  /** A decision that is recorded took its confidence from a source of the format. */
  predicate WellFormedDecision(decision: Option<Decision>) {
    decision.Some? ==> IsKnownSource(decision.value.confidenceSource)
  }

  method CheckDecision(sink: Collector, decision: Option<Decision>)
    modifies sink
    ensures Reports(sink, WellFormedDecision(decision))
  {
    if decision.Some? {
      sink.Check(IsKnownSource(decision.value.confidenceSource), UnknownValue);
    }
  }

  method CheckResults(sink: Collector, results: seq<TestResult>)
    modifies sink
    ensures Reports(sink, WellFormedResults(results))
  {
    sink.Check(|results| > 0, MissingField);
    CheckAscending(sink, results, CompareTests);
    CheckEachResult(sink, results);
  }

  method CheckEachResult(sink: Collector, results: seq<TestResult>)
    modifies sink
    ensures Reports(sink, forall result | result in results :: WellFormedResult(result))
  {
    for i := 0 to |results|
      invariant Reports(sink, forall j | 0 <= j < i :: WellFormedResult(results[j]))
    {
      CheckResult(sink, results[i]);
    }
  }

  method CheckResult(sink: Collector, result: TestResult)
    modifies sink
    ensures Reports(sink, WellFormedResult(result))
  {
    sink.Check(result.test != "", MissingField);
    CheckClaim(sink, result.outcome, Executed);
  }

  method CheckMutant(sink: Collector, mutant: Mutant)
    modifies sink
    ensures Reports(sink, WellFormedMutant(mutant))
  {
    sink.Check(IsSha256Hex(mutant.digest), BadDigest);
    CheckClaim(sink, mutant.validity, Judged);
    sink.Check(mutant.sentinel ==> mutant.validity.value == Equivalent, SentinelNotEquivalent);
    CheckResults(sink, mutant.results);
    CheckCorroborationRequired(sink, mutant.validity);
    CheckDecision(sink, mutant.decision);
  }

  /** A violation for a judgment of Valid that lists no corroboration at all. */
  method CheckCorroborationRequired(sink: Collector, validity: Claim<Validity>)
    modifies sink
    ensures Reports(sink, validity.evidence == Judged && validity.value == Valid ==> validity.corroboratedBy != [])
  {
    sink.Check(!(validity.evidence == Judged && validity.value == Valid && |validity.corroboratedBy| == 0),
               UncorroboratedClaim);
  }

  /** The checks of the mutants report nothing. */
  predicate WellFormedPool(mutants: seq<Mutant>) {
    AscendingNeighbours(mutants, CompareDigests) && forall mutant | mutant in mutants :: WellFormedMutant(mutant)
  }

  method CheckPool(sink: Collector, mutants: seq<Mutant>)
    modifies sink
    ensures Reports(sink, WellFormedPool(mutants))
  {
    CheckAscending(sink, mutants, CompareDigests);
    CheckEachMutant(sink, mutants);
  }

  method CheckEachMutant(sink: Collector, mutants: seq<Mutant>)
    modifies sink
    ensures Reports(sink, forall mutant | mutant in mutants :: WellFormedMutant(mutant))
  {
    for i := 0 to |mutants|
      invariant Reports(sink, forall j | 0 <= j < i :: WellFormedMutant(mutants[j]))
    {
      CheckMutant(sink, mutants[i]);
    }
  }

  function CompareIndexes(a: ExampleRun, b: ExampleRun): int {
    a.index - b.index
  }

  /** The checks of a matrix report nothing. */
  predicate WellFormedPower(power: DiscriminatingPower) {
    && WellFormedPool(power.mutants)
    && AscendingNeighbours(power.examples, CompareIndexes)
    && WellFormedDecision(power.decision)
  }

  method CheckPower(sink: Collector, power: DiscriminatingPower)
    modifies sink
    ensures Reports(sink, WellFormedPower(power))
  {
    CheckDecision(sink, power.decision);
    CheckPool(sink, power.mutants);
    CheckAscending(sink, power.examples, CompareIndexes);
  }

  /** The checks of a verdict report nothing. */
  predicate WellFormedAlignment(alignment: Alignment) {
    && WellFormedDecision(alignment.decision)
    && alignment.test != ""
    && WellFormedClaim(alignment.verdict, Judged)
  }

  method CheckAlignment(sink: Collector, alignment: Alignment)
    modifies sink
    ensures Reports(sink, WellFormedAlignment(alignment))
  {
    CheckDecision(sink, alignment.decision);
    sink.Check(alignment.test != "", MissingField);
    CheckClaim(sink, alignment.verdict, Judged);
  }

  /** On a pool the checks accept, the gate's sort by digest changes nothing and no two digests are equal. */
  lemma WellFormedPoolIsSorted(mutants: seq<Mutant>)
    requires AscendingNeighbours(mutants, CompareDigests)
    ensures InDigestOrder(mutants) == mutants
    ensures forall i, j | 0 <= i < j < |mutants| :: mutants[i].digest != mutants[j].digest
  {
    forall a, b, c | CompareDigests(a, b) < 0 && CompareDigests(b, c) < 0 ensures CompareDigests(a, c) < 0 {
      CompareStringsTransitive(a.digest, b.digest, c.digest);
      CompareStringsIdentifies(a.digest, b.digest);
      CompareStringsIdentifies(a.digest, c.digest);
      CompareStringsIdentifies(b.digest, c.digest);
    }
    forall i, j | 0 <= i < j < |mutants|
      ensures ByDigest(mutants[i], mutants[j]) && mutants[i].digest != mutants[j].digest
    {
      NeighboursSettleOrder(mutants, CompareDigests, i, j);
      CompareStringsIdentifies(mutants[i].digest, mutants[j].digest);
    }
    SortFixesSorted(mutants, ByDigest);
  }

  /**
   A pass over a pool the checks accept rests on a credited mutant
   with executed corroboration, whatever the basis.
   */
  lemma PassRestsOnCorroboration(config: Config, predicate_: DiscriminatingPower)
    requires WellFormedPool(predicate_.mutants) && DpOutcome(config, predicate_) == Pass
    ensures exists mutant | mutant in predicate_.mutants ::
              EarnsCredit(config, predicate_, mutant) && mutant.validity.corroboratedBy != []
  {
    PassIffDiscriminates(config, predicate_);
    TaintIsAKilledSentinel(predicate_.mutants);
    var mutant :| mutant in predicate_.mutants && AdmittedKill(config, predicate_, mutant);
    UntaintedRow(config, predicate_, mutant);
  }
}
