/**
 The traceability analysis: requirements, source tags and test results joined into
 bound tests, findings and a verdict.
 */
module Traceability {
  import opened Flattening
  import opened Labels
  import opened Ordering
  import opened Wrappers

  datatype Location = Location(file: string, line: int)

  datatype Ref = Ref(id: string, revision: int)

  datatype Status = Active | NonTestable

  datatype Requirement = Requirement(ref: Ref, status: Status, justification: string, location: Location)

  /** A declaration, marked when the run is asked to see it covered. */
  datatype Focused = Focused(requirement: Requirement, inFocus: bool)

  datatype MalformedTag = MalformedTag(raw: string, reason: string)

  datatype TestOutcome = Passed | Failed | Errored | Skipped | NotRun

  datatype TestCase = TestCase(resultsFile: string, suite: string, className: string, name: string,
                               outcome: TestOutcome,
                               refs: seq<Ref>, malformed: seq<MalformedTag>)
  {
    /** What a label must occur in for the tag to belong to the test. */
    function Identity(): string {
      suite + " " + className + " " + name
    }
  }

  datatype SourceTag = SourceTag(location: Location, title: string, refs: seq<Ref>, malformed: seq<MalformedTag>)

  datatype BoundTest = BoundTest(resultsFile: string, suite: string, className: string, name: string,
                                 outcome: TestOutcome, source: Option<Location>)

  datatype Coverage = Covered | CoverageFailed | CoverageSkipped | CoverageNotRun | Uncovered | CoverageNonTestable

  datatype Severity = Off | Info | Warning | Error
  {
    function Rank(): nat {
      match this
      case Off => 0
      case Info => 1
      case Warning => 2
      case Error => 3
    }
  }

  datatype Category =
    | UncoveredRequirement
    | FailedRequirement
    | SkippedRequirement
    | NotRunRequirement
    | FailingBoundTest
    | TagNotInResults
    | OrphanTag
    | RevisionMismatch
    | MalformedTagFound
    | UnjustifiedNonTestable
    | BoundNonTestable
    | DuplicateID
    | MalformedRequirement
    | UntaggedTest

  function DefaultSeverity(category: Category): Severity {
    match category
    case TagNotInResults => Warning
    case BoundNonTestable => Warning
    case UntaggedTest => Info
    case _ => Error
  }

  datatype Policy = Policy(severities: map<Category, Severity>, failOn: Severity)
  {
    function SeverityOf(category: Category): Severity {
      if category in severities then severities[category] else DefaultSeverity(category)
    }

    predicate Blocks(severity: Severity) {
      severity != Off && severity.Rank() >= failOn.Rank()
    }
  }

  const DEFAULT_POLICY := Policy(map[], Error)

  datatype TestIdentity = NoTest | OfTest(resultsFile: string, className: string, name: string)

  datatype Finding = Finding(category: Category, severity: Severity, blocking: bool, requirementId: string,
                             location: Location, test: TestIdentity)

  /** The tags of the test sources, and what separates and what makes up the words of a name. */
  datatype Scan = Scan(tags: seq<SourceTag>, isSpace: char -> bool, isWord: char -> bool)

  datatype Input = Input(requirements: seq<Focused>, specProblems: seq<Location>, scan: Scan, testCases: seq<TestCase>,
                         policy: Policy)

  datatype Row = Row(requirement: Requirement, inFocus: bool, coverage: Coverage, tests: seq<BoundTest>)

  datatype Verdict = VerdictPass | VerdictFail

  // ----- Findings

  /** A finding takes the severity of its category, and none is kept for a category that is off. */
  function Observe(policy: Policy, category: Category, id: string, location: Location, test: TestIdentity): seq<Finding>
  {
    var severity := policy.SeverityOf(category);
    if severity == Off then [] else [Finding(category, severity, policy.Blocks(severity), id, location, test)]
  }

  function IdentityOf(testCase: TestCase): TestIdentity {
    OfTest(testCase.resultsFile, testCase.className, testCase.name)
  }

  // ----- Requirements

  predicate LocationBefore(a: Location, b: Location) {
    var byFile := CompareStrings(a.file, b.file);
    byFile < 0 || (byFile == 0 && a.line <= b.line)
  }

  predicate InLocationOrder(a: Focused, b: Focused) {
    LocationBefore(a.requirement.location, b.requirement.location)
  }

  function InOrder(requirements: seq<Focused>): seq<Focused> {
    StableSort(requirements, InLocationOrder)
  }

  /** The declarations left when every later one of an ID is dropped. */
  function KnownOf(declared: seq<Focused>): map<string, Focused> {
    if declared == [] then map[]
    else
      var known, last := KnownOf(declared[..|declared| - 1]), declared[|declared| - 1];
      if last.requirement.ref.id in known then known else known[last.requirement.ref.id := last]
  }

  function FirstDeclarations(declared: seq<Focused>): seq<Focused> {
    if declared == [] then []
    else
      var earlier, last := declared[..|declared| - 1], declared[|declared| - 1];
      FirstDeclarations(earlier) + (if last.requirement.ref.id in KnownOf(earlier) then [] else [last])
  }

  function DuplicateFindings(policy: Policy, declared: seq<Focused>): seq<Finding> {
    if declared == [] then []
    else
      var earlier, last := declared[..|declared| - 1], declared[|declared| - 1].requirement;
      DuplicateFindings(policy, earlier)
      + (if last.ref.id in KnownOf(earlier) then Observe(policy, DuplicateID, last.ref.id, last.location, NoTest)
         else [])
  }

  /** The reference cites the one revision the specs declare. */
  predicate Resolves(known: map<string, Focused>, ref: Ref) {
    ref.id in known && known[ref.id].requirement.ref == ref
  }

  // ----- Source tags

  predicate CitesRef(tag: SourceTag, ref: Ref) {
    ref in tag.refs
  }

  function MalformedFinding(policy: Policy, location: Location, test: TestIdentity): seq<Finding> {
    Observe(policy, MalformedTagFound, "", location, test)
  }

  function UnresolvedFinding(policy: Policy, known: map<string, Focused>, ref: Ref, location: Location,
                             test: TestIdentity): seq<Finding>
  {
    Observe(policy, if ref.id in known then RevisionMismatch else OrphanTag, ref.id, location, test)
  }

  function TagRefFindings(policy: Policy, known: map<string, Focused>, tag: SourceTag): seq<Finding> {
    FlatMap((ref: Ref) =>
            if Resolves(known, ref) then [] else UnresolvedFinding(policy, known, ref, tag.location, NoTest), tag.refs)
  }

  function TagMalformedFindings(policy: Policy, tag: SourceTag): seq<Finding> {
    FlatMap((malformed: MalformedTag) => MalformedFinding(policy, tag.location, NoTest), tag.malformed)
  }

  function SourceFindings(policy: Policy, known: map<string, Focused>, tags: seq<SourceTag>): seq<Finding> {
    FlatMap((tag: SourceTag) => TagMalformedFindings(policy, tag) + TagRefFindings(policy, known, tag), tags)
  }

  /** The unresolved references some source tag cites, which are reported there. */
  function ReportedAtSource(known: map<string, Focused>, tags: seq<SourceTag>): set<Ref> {
    set tag, ref | tag in tags && ref in tag.refs && !Resolves(known, ref) :: ref
  }

  // ----- Citations

  /** The tag cites the reference and its title occurs in the identity. */
  predicate MatchesSource(scan: Scan, tag: SourceTag, ref: Ref, identity: string) {
    CitesRef(tag, ref) && Contains(scan.isWord, identity, Normalize(scan.isSpace, tag.title))
  }

  function MatchedIndexes(scan: Scan, ref: Ref, identity: string): set<nat> {
    set i: nat | i < |scan.tags| && MatchesSource(scan, scan.tags[i], ref, identity)
  }

  /** No match has a longer title, and none before it one as long. */
  predicate MostSpecific(scan: Scan, ref: Ref, identity: string, best: nat) {
    && best in MatchedIndexes(scan, ref, identity)
    && forall i | i in MatchedIndexes(scan, ref, identity) ::
      var length, bestLength := |Normalize(scan.isSpace, scan.tags[i].title)|,
                                |Normalize(scan.isSpace, scan.tags[best].title)|;
      length < bestLength || (length == bestLength && best <= i)
  }

  ghost function SourceOf(scan: Scan, ref: Ref, identity: string): Option<Location> {
    if best: nat :| best < |scan.tags| && MostSpecific(scan, ref, identity, best) then Some(scan.tags[best].location)
    else None
  }

  function IdentityText(scan: Scan, testCase: TestCase): string {
    Normalize(scan.isSpace, testCase.Identity())
  }

  datatype Binding = Binding(id: string, test: BoundTest)

  ghost function BoundBy(scan: Scan, testCase: TestCase, ref: Ref): BoundTest {
    BoundTest(testCase.resultsFile, testCase.suite, testCase.className, testCase.name, testCase.outcome,
              SourceOf(scan, ref, IdentityText(scan, testCase)))
  }

  ghost function CitationBinding(scan: Scan, known: map<string, Focused>, testCase: TestCase, ref: Ref): seq<Binding> {
    if Resolves(known, ref) then [Binding(ref.id, BoundBy(scan, testCase, ref))] else []
  }

  /** A test case is bound once for each reference it cites that resolves. */
  ghost function BindingsOfTest(scan: Scan, known: map<string, Focused>, testCase: TestCase): seq<Binding> {
    FlatMap((ref: Ref) => CitationBinding(scan, known, testCase, ref), testCase.refs)
  }

  ghost function CitationBindings(scan: Scan, known: map<string, Focused>, testCases: seq<TestCase>): seq<Binding> {
    FlatMap((testCase: TestCase) => BindingsOfTest(scan, known, testCase), testCases)
  }

  predicate SourceHasMalformed(tags: seq<SourceTag>, malformed: MalformedTag) {
    exists tag | tag in tags :: exists candidate | candidate in tag.malformed :: candidate.reason == malformed.reason
  }

  /** An unresolved citation is reported with the test unless a source tag located it. */
  function CitationFinding(policy: Policy, scan: Scan, known: map<string, Focused>, testCase: TestCase,
                           ref: Ref): seq<Finding>
  {
    if Resolves(known, ref) || ref in ReportedAtSource(known, scan.tags) then []
    else UnresolvedFinding(policy, known, ref, Location(testCase.resultsFile, 0), IdentityOf(testCase))
  }

  function TestRefFindings(policy: Policy, scan: Scan, known: map<string, Focused>, testCase: TestCase): seq<Finding> {
    FlatMap((ref: Ref) => CitationFinding(policy, scan, known, testCase, ref), testCase.refs)
  }

  function MalformedCitation(policy: Policy, scan: Scan, testCase: TestCase, malformed: MalformedTag): seq<Finding> {
    if SourceHasMalformed(scan.tags, malformed) then []
    else MalformedFinding(policy, Location(testCase.resultsFile, 0), IdentityOf(testCase))
  }

  function TestMalformedFindings(policy: Policy, scan: Scan, testCase: TestCase): seq<Finding> {
    FlatMap((malformed: MalformedTag) => MalformedCitation(policy, scan, testCase, malformed), testCase.malformed)
  }

  function UntaggedFinding(policy: Policy, testCase: TestCase): seq<Finding> {
    if testCase.refs != [] || testCase.malformed != [] then []
    else Observe(policy, UntaggedTest, "", Location(testCase.resultsFile, 0), IdentityOf(testCase))
  }

  function FindingsOfTest(policy: Policy, scan: Scan, known: map<string, Focused>, testCase: TestCase): seq<Finding> {
    TestRefFindings(policy, scan, known, testCase) + TestMalformedFindings(policy, scan, testCase)
    + UntaggedFinding(policy, testCase)
  }

  function TestFindings(policy: Policy, scan: Scan, known: map<string, Focused>, testCases: seq<TestCase>): seq<Finding>
  {
    FlatMap((testCase: TestCase) => FindingsOfTest(policy, scan, known, testCase), testCases)
  }

  /** The source tags that some citation of some test case comes from. */
  function MatchedSources(scan: Scan, testCases: seq<TestCase>): set<nat> {
    set i: nat | i < |scan.tags| && MatchedBy(scan, testCases, i)
  }

  predicate MatchedBy(scan: Scan, testCases: seq<TestCase>, i: nat)
    requires i < |scan.tags|
  {
    exists testCase | testCase in testCases :: exists ref | ref in testCase.refs ::
      MatchesSource(scan, scan.tags[i], ref, IdentityText(scan, testCase))
  }

  // ----- Tags no results file mentions

  function UnmatchedRefFindings(policy: Policy, known: map<string, Focused>, tag: SourceTag, ref: Ref): seq<Finding> {
    if Resolves(known, ref) then Observe(policy, TagNotInResults, ref.id, tag.location, NoTest) else []
  }

  function UnmatchedTagFindings(policy: Policy, known: map<string, Focused>, tag: SourceTag): seq<Finding> {
    FlatMap((ref: Ref) => UnmatchedRefFindings(policy, known, tag, ref), tag.refs)
  }

  function NotRunBinding(known: map<string, Focused>, tag: SourceTag, ref: Ref): seq<Binding> {
    if Resolves(known, ref) then [Binding(ref.id, BoundTest("", "", "", tag.title, NotRun, Some(tag.location)))] else []
  }

  function NotRunBindings(known: map<string, Focused>, tag: SourceTag): seq<Binding> {
    FlatMap((ref: Ref) => NotRunBinding(known, tag, ref), tag.refs)
  }

  function UnmatchedFindings(policy: Policy, scan: Scan, known: map<string, Focused>, matched: set<nat>,
                             count: nat): seq<Finding>
    requires count <= |scan.tags|
  {
    if count == 0 then []
    else
      UnmatchedFindings(policy, scan, known, matched, count - 1)
      + (if count - 1 in matched then [] else UnmatchedTagFindings(policy, known, scan.tags[count - 1]))
  }

  function UnmatchedBindings(scan: Scan, known: map<string, Focused>, matched: set<nat>, count: nat): seq<Binding>
    requires count <= |scan.tags|
  {
    if count == 0 then []
    else
      UnmatchedBindings(scan, known, matched, count - 1)
      + (if count - 1 in matched then [] else NotRunBindings(known, scan.tags[count - 1]))
  }

  // ----- Rows

  function TestsOf(bindings: seq<Binding>, id: string): seq<BoundTest> {
    FlatMap((binding: Binding) => if binding.id == id then [binding.test] else [], bindings)
  }

  predicate HasOutcome(tests: seq<BoundTest>, outcome: TestOutcome) {
    exists test | test in tests :: test.outcome == outcome
  }

  function CoverageOf(requirement: Requirement, tests: seq<BoundTest>): Coverage {
    if requirement.status == NonTestable then CoverageNonTestable
    else if HasOutcome(tests, Passed) then Covered
    else if HasOutcome(tests, Failed) || HasOutcome(tests, Errored) then CoverageFailed
    else if HasOutcome(tests, Skipped) then CoverageSkipped
    else if HasOutcome(tests, NotRun) then CoverageNotRun
    else Uncovered
  }

  function GapCategory(coverage: Coverage): Option<Category> {
    match coverage
    case CoverageFailed => Some(FailedRequirement)
    case CoverageSkipped => Some(SkippedRequirement)
    case CoverageNotRun => Some(NotRunRequirement)
    case Uncovered => Some(UncoveredRequirement)
    case _ => None
  }

  function LocationOfTest(test: BoundTest): Location {
    if test.source.Some? then test.source.value else Location(test.resultsFile, 0)
  }

  predicate InTestOrder(a: BoundTest, b: BoundTest) {
    var byFile, byClass, byName := CompareStrings(a.resultsFile, b.resultsFile),
                                   CompareStrings(a.className, b.className), CompareStrings(a.name, b.name);
    if byFile != 0 then byFile < 0
    else if byClass != 0 then byClass < 0
    else if byName != 0 then byName < 0
    else LocationBefore(LocationOfTest(a), LocationOfTest(b))
  }

  function FailingFinding(policy: Policy, id: string, test: BoundTest): seq<Finding> {
    if test.outcome != Failed && test.outcome != Errored then []
    else Observe(policy, FailingBoundTest, id, LocationOfTest(test),
                 OfTest(test.resultsFile, test.className, test.name))
  }

  function GapFindings(policy: Policy, requirement: Requirement, coverage: Coverage,
                       tests: seq<BoundTest>): seq<Finding>
  {
    if GapCategory(coverage).Some? then
      Observe(policy, GapCategory(coverage).value, requirement.ref.id, requirement.location, NoTest)
    else FlatMap((test: BoundTest) => FailingFinding(policy, requirement.ref.id, test), tests)
  }

  function NonTestableFindings(policy: Policy, requirement: Requirement, tests: seq<BoundTest>): seq<Finding> {
    (if requirement.justification == "" then
     Observe(policy, UnjustifiedNonTestable, requirement.ref.id, requirement.location, NoTest) else [])
    + (if tests != [] then Observe(policy, BoundNonTestable, requirement.ref.id, requirement.location, NoTest) else [])
  }

  function SettledRow(focused: Focused, bindings: seq<Binding>): Row {
    var tests := StableSort(TestsOf(bindings, focused.requirement.ref.id), InTestOrder);
    Row(focused.requirement, focused.inFocus, CoverageOf(focused.requirement, tests), tests)
  }

  function RowFindings(policy: Policy, row: Row): seq<Finding> {
    if row.requirement.status == NonTestable then NonTestableFindings(policy, row.requirement, row.tests)
    else if row.inFocus then GapFindings(policy, row.requirement, row.coverage, row.tests)
    else []
  }

  function AllRowFindings(policy: Policy, bindings: seq<Binding>, declared: seq<Focused>): seq<Finding> {
    FlatMap((focused: Focused) => RowFindings(policy, SettledRow(focused, bindings)), declared)
  }

  // ----- The whole analysis

  ghost function AllBindings(input: Input): seq<Binding> {
    var known := KnownOf(InOrder(input.requirements));
    CitationBindings(input.scan, known, input.testCases)
    + UnmatchedBindings(input.scan, known, MatchedSources(input.scan, input.testCases), |input.scan.tags|)
  }

  function ProblemFindings(input: Input): seq<Finding> {
    FlatMap((location: Location) => Observe(input.policy, MalformedRequirement, "", location, NoTest),
            input.specProblems)
  }

  /** The findings in the order the analysis makes them. */
  ghost function AllFindings(input: Input): seq<Finding> {
    var declared := InOrder(input.requirements);
    var known := KnownOf(declared);
    DuplicateFindings(input.policy, declared)
    + ProblemFindings(input)
    + SourceFindings(input.policy, known, input.scan.tags)
    + TestFindings(input.policy, input.scan, known, input.testCases)
    + UnmatchedFindings(input.policy, input.scan, known, MatchedSources(input.scan, input.testCases), |input.scan.tags|)
    + AllRowFindings(input.policy, AllBindings(input), FirstDeclarations(declared))
  }

  function SettledRows(bindings: seq<Binding>, declared: seq<Focused>): seq<Row> {
    Apply((focused: Focused) => SettledRow(focused, bindings), declared)
  }

  ghost function Rows(input: Input): seq<Row> {
    SettledRows(AllBindings(input), FirstDeclarations(InOrder(input.requirements)))
  }

  predicate SomeBlocks(findings: seq<Finding>) {
    exists finding | finding in findings :: finding.blocking
  }

  method VerdictOf(findings: seq<Finding>) returns (verdict: Verdict)
    ensures verdict == if SomeBlocks(findings) then VerdictFail else VerdictPass
  {
    for i := 0 to |findings|
      invariant forall k | 0 <= k < i :: !findings[k].blocking
    {
      if findings[i].blocking {
        return VerdictFail;
      }
    }
    return VerdictPass;
  }
}
