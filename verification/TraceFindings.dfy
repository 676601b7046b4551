/** Which findings the analysis makes, under any policy: each is made exactly where what was collected warrants it. */
module TraceFindings {
  import opened CitationLaws
  import opened Flattening
  import opened Labels
  import opened Ordering
  import opened Traceability
  import opened TraceabilityLaws
  import opened Wrappers

  // ----- Severities

  /** The severity is one a run fails on. */
  predicate Fails(policy: Policy, severity: Severity) {
    match policy.failOn
    case Error => severity == Error
    case Warning => severity == Warning || severity == Error
    case _ => severity != Off
  }

  /** The severity a category has where the policy says nothing of it. */
  predicate ByDefault(category: Category, severity: Severity) {
    match category
    case TagNotInResults => severity == Warning
    case BoundNonTestable => severity == Warning
    case UntaggedTest => severity == Info
    case _ => severity == Error
  }

  /** The finding is of the category, about the requirement, at the location, with the severity the policy gives it. */
  predicate Raised(policy: Policy, category: Category, id: string, location: Location, test: TestIdentity,
                   finding: Finding)
  {
    && finding.category == category && finding.requirementId == id && finding.location == location
    && finding.test == test && finding.severity != Off
    && (finding.blocking <==> Fails(policy, finding.severity))
    && (if category in policy.severities then finding.severity == policy.severities[category]
        else ByDefault(category, finding.severity))
  }

  lemma ObservedIffRaised(policy: Policy, category: Category, id: string, location: Location, test: TestIdentity,
                          finding: Finding)
    ensures finding in Observe(policy, category, id, location, test)
            <==> Raised(policy, category, id, location, test, finding)
  {
  }

  // ----- Declarations

  /** The declaration at the place is the first of its ID. */
  predicate IsFirst(declared: seq<Focused>, i: nat) {
    && i < |declared|
    && forall j | 0 <= j < i :: declared[j].requirement.ref.id != declared[i].requirement.ref.id
  }

  /** The reference is that of the first declaration of its ID. */
  predicate Resolved(declared: seq<Focused>, ref: Ref) {
    exists i: nat | i < |declared| :: IsFirst(declared, i) && declared[i].requirement.ref == ref
  }

  predicate DeclaredId(declared: seq<Focused>, id: string) {
    exists i: nat | i < |declared| :: declared[i].requirement.ref.id == id
  }

  lemma {:induction false} KnownIs(declared: seq<Focused>, id: string)
    ensures id in KnownOf(declared) <==> DeclaredId(declared, id)
    ensures id in KnownOf(declared) ==> exists i: nat | i < |declared| ::
              IsFirst(declared, i) && declared[i] == KnownOf(declared)[id] && declared[i].requirement.ref.id == id
  {
    if declared != [] {
      var earlier, last := declared[..|declared| - 1], |declared| - 1;
      KnownIs(earlier, id);
      KnownIs(earlier, declared[last].requirement.ref.id);
      assert forall i: nat | i < last :: earlier[i] == declared[i];
      if i: nat :| i < last && IsFirst(earlier, i) && id in KnownOf(earlier) && earlier[i] == KnownOf(earlier)[id] {
        assert IsFirst(declared, i) && declared[i] == KnownOf(declared)[id];
      }
      if declared[last].requirement.ref.id !in KnownOf(earlier) {
        assert IsFirst(declared, last);
      }
    }
  }

  lemma OneFirst(declared: seq<Focused>, i: nat, j: nat)
    requires IsFirst(declared, i) && IsFirst(declared, j)
    requires declared[i].requirement.ref.id == declared[j].requirement.ref.id
    ensures i == j
  {
  }

  lemma ResolvesIffResolved(declared: seq<Focused>, ref: Ref)
    ensures Resolves(KnownOf(declared), ref) <==> Resolved(declared, ref)
  {
    KnownIs(declared, ref.id);
    if i: nat :| i < |declared| && IsFirst(declared, i) && declared[i].requirement.ref == ref {
      var j: nat :| j < |declared| && IsFirst(declared, j) && declared[j] == KnownOf(declared)[ref.id]
                    && declared[j].requirement.ref.id == ref.id;
      OneFirst(declared, i, j);
    }
  }

  predicate DeclaredFirst(declared: seq<Focused>, focused: Focused) {
    exists i: nat | i < |declared| :: IsFirst(declared, i) && declared[i] == focused
  }

  lemma DeclaredFirstStep(earlier: seq<Focused>, last: Focused, focused: Focused)
    ensures DeclaredFirst(earlier + [last], focused)
            <==> DeclaredFirst(earlier, focused)
                 || (focused == last && !DeclaredId(earlier, last.requirement.ref.id))
  {
    var declared := earlier + [last];
    assert forall i: nat | i < |earlier| :: earlier[i] == declared[i];
    assert IsFirst(declared, |earlier|) <==> !DeclaredId(earlier, last.requirement.ref.id);
    if i: nat :| i < |earlier| && IsFirst(earlier, i) && earlier[i] == focused {
      assert IsFirst(declared, i) && declared[i] == focused;
    }
    if i: nat :| i < |declared| && IsFirst(declared, i) && declared[i] == focused && i < |earlier| {
      assert IsFirst(earlier, i) && earlier[i] == focused;
    }
  }

  lemma {:induction false} FirstDeclarationsAre(declared: seq<Focused>, focused: Focused)
    ensures focused in FirstDeclarations(declared) <==> DeclaredFirst(declared, focused)
  {
    if declared != [] {
      var earlier, last := declared[..|declared| - 1], declared[|declared| - 1];
      FirstDeclarationsAre(earlier, focused);
      KnownIs(earlier, last.requirement.ref.id);
      DeclaredFirstStep(earlier, last, focused);
      assert declared == earlier + [last];
    }
  }

  /** The declaration at the place repeats the ID of an earlier one. */
  predicate Repeats(declared: seq<Focused>, i: nat)
    requires i < |declared|
  {
    exists j: nat | j < i :: declared[j].requirement.ref.id == declared[i].requirement.ref.id
  }

  ghost predicate AboutDuplicate(policy: Policy, declared: seq<Focused>, finding: Finding) {
    exists i: nat | i < |declared| :: Repeats(declared, i)
      && Raised(policy, DuplicateID, declared[i].requirement.ref.id, declared[i].requirement.location, NoTest, finding)
  }

  lemma OneDeclarationMore(policy: Policy, declared: seq<Focused>, finding: Finding)
    requires declared != []
    ensures var earlier, last := declared[..|declared| - 1], |declared| - 1;
            AboutDuplicate(policy, declared, finding)
            <==> AboutDuplicate(policy, earlier, finding)
                 || (Repeats(declared, last)
                     && Raised(policy, DuplicateID, declared[last].requirement.ref.id,
                               declared[last].requirement.location, NoTest, finding))
  {
    var earlier, last := declared[..|declared| - 1], |declared| - 1;
    assert forall i: nat | i < last :: earlier[i] == declared[i];
    assert forall i: nat | i < last :: Repeats(earlier, i) <==> Repeats(declared, i);
  }

  lemma {:induction false} DuplicateFindingsAre(policy: Policy, declared: seq<Focused>, finding: Finding)
    ensures finding in DuplicateFindings(policy, declared) <==> AboutDuplicate(policy, declared, finding)
  {
    if declared != [] {
      var earlier, last := declared[..|declared| - 1], |declared| - 1;
      var repeated := declared[last].requirement;
      DuplicateFindingsAre(policy, earlier, finding);
      KnownIs(earlier, repeated.ref.id);
      ObservedIffRaised(policy, DuplicateID, repeated.ref.id, repeated.location, NoTest, finding);
      OneDeclarationMore(policy, declared, finding);
      assert Repeats(declared, last) <==> repeated.ref.id in KnownOf(earlier);
    }
  }

  // ----- Tags in sources and in results

  /** The finding is about a reference no first declaration has: an orphan, or another revision of a declared ID. */
  predicate Unresolved(policy: Policy, declared: seq<Focused>, ref: Ref, location: Location, test: TestIdentity,
                       finding: Finding)
  {
    && !Resolved(declared, ref)
    && Raised(policy, if DeclaredId(declared, ref.id) then RevisionMismatch else OrphanTag, ref.id, location, test,
              finding)
  }

  lemma UnresolvedIff(policy: Policy, declared: seq<Focused>, ref: Ref, location: Location, test: TestIdentity,
                      finding: Finding)
    ensures !Resolves(KnownOf(declared), ref)
            && finding in UnresolvedFinding(policy, KnownOf(declared), ref, location, test)
            <==> Unresolved(policy, declared, ref, location, test, finding)
  {
    KnownIs(declared, ref.id);
    ResolvesIffResolved(declared, ref);
    var category := if ref.id in KnownOf(declared) then RevisionMismatch else OrphanTag;
    ObservedIffRaised(policy, category, ref.id, location, test, finding);
  }

  ghost predicate AboutTag(policy: Policy, declared: seq<Focused>, tag: SourceTag, finding: Finding) {
    || (tag.malformed != [] && Raised(policy, MalformedTagFound, "", tag.location, NoTest, finding))
    || exists ref | ref in tag.refs :: Unresolved(policy, declared, ref, tag.location, NoTest, finding)
  }

  lemma TagFindingsAre(policy: Policy, declared: seq<Focused>, tag: SourceTag, finding: Finding)
    ensures finding in TagMalformedFindings(policy, tag) + TagRefFindings(policy, KnownOf(declared), tag)
            <==> AboutTag(policy, declared, tag, finding)
  {
    var known := KnownOf(declared);
    var ofMalformed := (malformed: MalformedTag) => MalformedFinding(policy, tag.location, NoTest);
    var ofRef := (ref: Ref) =>
      if Resolves(known, ref) then [] else UnresolvedFinding(policy, known, ref, tag.location, NoTest);
    FlatMapContains(ofMalformed, tag.malformed, finding);
    FlatMapContains(ofRef, tag.refs, finding);
    ObservedIffRaised(policy, MalformedTagFound, "", tag.location, NoTest, finding);
    assert tag.malformed != [] ==> tag.malformed[0] in tag.malformed;
    forall ref
      ensures finding in ofRef(ref) <==> Unresolved(policy, declared, ref, tag.location, NoTest, finding)
    {
      UnresolvedIff(policy, declared, ref, tag.location, NoTest, finding);
    }
  }

  lemma SourceFindingsAre(policy: Policy, declared: seq<Focused>, tags: seq<SourceTag>, finding: Finding)
    ensures finding in SourceFindings(policy, KnownOf(declared), tags)
            <==> exists tag | tag in tags :: AboutTag(policy, declared, tag, finding)
  {
    var known := KnownOf(declared);
    var ofTag := (tag: SourceTag) => TagMalformedFindings(policy, tag) + TagRefFindings(policy, known, tag);
    FlatMapContains(ofTag, tags, finding);
    forall tag ensures finding in ofTag(tag) <==> AboutTag(policy, declared, tag, finding) {
      TagFindingsAre(policy, declared, tag, finding);
    }
  }

  /** Some source tag cites the reference. */
  predicate TaggedInSource(tags: seq<SourceTag>, ref: Ref) {
    exists tag | tag in tags :: ref in tag.refs
  }

  /** Some source tag is malformed for the reason. */
  predicate MalformedInSource(tags: seq<SourceTag>, reason: string) {
    exists tag, malformed | tag in tags && malformed in tag.malformed :: malformed.reason == reason
  }

  /** Where a finding about a test case points: its results file, with no line. */
  function InResults(testCase: TestCase): Location {
    Location(testCase.resultsFile, 0)
  }

  function Named(testCase: TestCase): TestIdentity {
    OfTest(testCase.resultsFile, testCase.className, testCase.name)
  }

  /** A citation is reported where no source tag shows it, and so is a malformed tag; and a test without either. */
  ghost predicate AboutTestCase(policy: Policy, declared: seq<Focused>, tags: seq<SourceTag>, testCase: TestCase,
                                finding: Finding)
  {
    || (exists ref | ref in testCase.refs :: !TaggedInSource(tags, ref)
          && Unresolved(policy, declared, ref, InResults(testCase), Named(testCase), finding))
    || (exists malformed | malformed in testCase.malformed :: !MalformedInSource(tags, malformed.reason)
          && Raised(policy, MalformedTagFound, "", InResults(testCase), Named(testCase), finding))
    || (testCase.refs == [] && testCase.malformed == []
        && Raised(policy, UntaggedTest, "", InResults(testCase), Named(testCase), finding))
  }

  lemma CitationFindingIs(policy: Policy, scan: Scan, declared: seq<Focused>, testCase: TestCase, ref: Ref,
                          finding: Finding)
    ensures finding in CitationFinding(policy, scan, KnownOf(declared), testCase, ref)
            <==> !TaggedInSource(scan.tags, ref)
                 && Unresolved(policy, declared, ref, InResults(testCase), Named(testCase), finding)
  {
    UnresolvedIff(policy, declared, ref, InResults(testCase), Named(testCase), finding);
  }

  lemma RefFindingsAre(policy: Policy, scan: Scan, declared: seq<Focused>, testCase: TestCase, finding: Finding)
    ensures finding in TestRefFindings(policy, scan, KnownOf(declared), testCase)
            <==> exists ref | ref in testCase.refs :: !TaggedInSource(scan.tags, ref)
                   && Unresolved(policy, declared, ref, InResults(testCase), Named(testCase), finding)
  {
    var known := KnownOf(declared);
    var ofRef := (ref: Ref) => CitationFinding(policy, scan, known, testCase, ref);
    FlatMapContains(ofRef, testCase.refs, finding);
    forall ref
      ensures finding in ofRef(ref)
              <==> !TaggedInSource(scan.tags, ref)
                   && Unresolved(policy, declared, ref, InResults(testCase), Named(testCase), finding)
    {
      CitationFindingIs(policy, scan, declared, testCase, ref, finding);
    }
  }

  lemma MalformedFindingsAre(policy: Policy, scan: Scan, testCase: TestCase, finding: Finding)
    ensures finding in TestMalformedFindings(policy, scan, testCase)
            <==> exists malformed | malformed in testCase.malformed :: !MalformedInSource(scan.tags, malformed.reason)
                   && Raised(policy, MalformedTagFound, "", InResults(testCase), Named(testCase), finding)
  {
    var ofMalformed := (malformed: MalformedTag) => MalformedCitation(policy, scan, testCase, malformed);
    FlatMapContains(ofMalformed, testCase.malformed, finding);
    ObservedIffRaised(policy, MalformedTagFound, "", InResults(testCase), Named(testCase), finding);
  }

  lemma TestCaseFindingsAre(policy: Policy, scan: Scan, declared: seq<Focused>, testCase: TestCase, finding: Finding)
    ensures finding in FindingsOfTest(policy, scan, KnownOf(declared), testCase)
            <==> AboutTestCase(policy, declared, scan.tags, testCase, finding)
  {
    RefFindingsAre(policy, scan, declared, testCase, finding);
    MalformedFindingsAre(policy, scan, testCase, finding);
    ObservedIffRaised(policy, UntaggedTest, "", InResults(testCase), Named(testCase), finding);
  }

  lemma TestFindingsAre(policy: Policy, scan: Scan, declared: seq<Focused>, testCases: seq<TestCase>, finding: Finding)
    ensures finding in TestFindings(policy, scan, KnownOf(declared), testCases)
            <==> exists testCase | testCase in testCases ::
                   AboutTestCase(policy, declared, scan.tags, testCase, finding)
  {
    var known := KnownOf(declared);
    var ofTest := (testCase: TestCase) => FindingsOfTest(policy, scan, known, testCase);
    FlatMapContains(ofTest, testCases, finding);
    forall testCase
      ensures finding in ofTest(testCase) <==> AboutTestCase(policy, declared, scan.tags, testCase, finding)
    {
      TestCaseFindingsAre(policy, scan, declared, testCase, finding);
    }
  }

  // ----- Tags nothing ran for

  /** Some test case cites a reference of the tag, and the folded title occurs in its folded names as whole words. */
  ghost predicate SeenRunning(scan: Scan, testCases: seq<TestCase>, tag: SourceTag) {
    exists testCase, ref | testCase in testCases && ref in testCase.refs :: ref in tag.refs
      && Contains(scan.isWord,
                  Normalize(scan.isSpace, testCase.suite + " " + testCase.className + " " + testCase.name),
                  Normalize(scan.isSpace, tag.title))
  }

  lemma MatchedIffSeen(scan: Scan, testCases: seq<TestCase>, i: nat)
    requires i < |scan.tags|
    ensures i in MatchedSources(scan, testCases) <==> SeenRunning(scan, testCases, scan.tags[i])
  {
  }

  ghost predicate AboutIdleTag(input: Input, declared: seq<Focused>, tag: SourceTag, finding: Finding) {
    && !SeenRunning(input.scan, input.testCases, tag)
    && exists ref | ref in tag.refs ::
         Resolved(declared, ref) && Raised(input.policy, TagNotInResults, ref.id, tag.location, NoTest, finding)
  }

  lemma IdleTagFindingsAre(policy: Policy, declared: seq<Focused>, tag: SourceTag, finding: Finding)
    ensures finding in UnmatchedTagFindings(policy, KnownOf(declared), tag)
            <==> exists ref | ref in tag.refs ::
                   Resolved(declared, ref) && Raised(policy, TagNotInResults, ref.id, tag.location, NoTest, finding)
  {
    var known := KnownOf(declared);
    var ofRef := (ref: Ref) => UnmatchedRefFindings(policy, known, tag, ref);
    FlatMapContains(ofRef, tag.refs, finding);
    forall ref
      ensures finding in ofRef(ref)
              <==> Resolved(declared, ref) && Raised(policy, TagNotInResults, ref.id, tag.location, NoTest, finding)
    {
      ResolvesIffResolved(declared, ref);
      ObservedIffRaised(policy, TagNotInResults, ref.id, tag.location, NoTest, finding);
    }
  }

  function Places(count: nat): (places: seq<nat>)
    ensures |places| == count && forall i | 0 <= i < count :: places[i] == i
  {
    seq(count, i requires 0 <= i < count => i)
  }

  /** What places contribute, told place by place. */
  lemma ContributedAt<U>(f: nat -> seq<U>, count: nat, u: U, p: nat -> bool)
    requires forall i: nat | i < count :: u in f(i) <==> p(i)
    ensures u in FlatMap(f, Places(count)) <==> exists i: nat :: i < count && p(i)
  {
    FlatMapContains(f, Places(count), u);
    if i: nat :| i < count && p(i) {
      assert Places(count)[i] == i;
    }
  }

  lemma OnePlaceMore<U>(f: nat -> seq<U>, count: nat)
    ensures FlatMap(f, Places(count + 1)) == FlatMap(f, Places(count)) + f(count)
  {
    FlatMapStep(f, Places(count + 1), count);
    assert Places(count + 1)[..count] == Places(count) && Places(count + 1)[..count + 1] == Places(count + 1);
  }

  /** The tag at the place is one nothing ran for, and the finding is about it. */
  ghost predicate AboutIdleAt(input: Input, declared: seq<Focused>, i: nat, finding: Finding) {
    i < |input.scan.tags| && AboutIdleTag(input, declared, input.scan.tags[i], finding)
  }

  ghost predicate AboutSomeIdleTag(input: Input, declared: seq<Focused>, finding: Finding) {
    exists i: nat :: i < |input.scan.tags| && AboutIdleAt(input, declared, i, finding)
  }

  function FindingsAtPlace(policy: Policy, scan: Scan, known: map<string, Focused>,
                           matched: set<nat>): nat -> seq<Finding>
  {
    (i: nat) => if i < |scan.tags| && i !in matched then UnmatchedTagFindings(policy, known, scan.tags[i]) else []
  }

  ghost predicate FoundByPlace(policy: Policy, scan: Scan, known: map<string, Focused>, matched: set<nat>, n: nat) {
    n <= |scan.tags| ==> UnmatchedFindings(policy, scan, known, matched, n)
                         == FlatMap(FindingsAtPlace(policy, scan, known, matched), Places(n))
  }

  lemma FoundAtOneMore(policy: Policy, scan: Scan, known: map<string, Focused>, matched: set<nat>, n: nat)
    requires n < |scan.tags|
    ensures UnmatchedFindings(policy, scan, known, matched, n + 1)
            == UnmatchedFindings(policy, scan, known, matched, n) + FindingsAtPlace(policy, scan, known, matched)(n)
  {
  }

  lemma FoundByOneMore(policy: Policy, scan: Scan, known: map<string, Focused>, matched: set<nat>, n: nat)
    requires FoundByPlace(policy, scan, known, matched, n)
    ensures FoundByPlace(policy, scan, known, matched, n + 1)
  {
    if n < |scan.tags| {
      FoundAtOneMore(policy, scan, known, matched, n);
      OnePlaceMore(FindingsAtPlace(policy, scan, known, matched), n);
    }
  }

  lemma FindingsByPlace(policy: Policy, scan: Scan, known: map<string, Focused>, matched: set<nat>, count: nat)
    ensures FoundByPlace(policy, scan, known, matched, count)
  {
    var holds := (n: nat) => FoundByPlace(policy, scan, known, matched, n);
    forall n: nat | n < count && holds(n) ensures holds(n + 1) {
      FoundByOneMore(policy, scan, known, matched, n);
    }
    StepByStep(holds, count);
  }

  lemma IdleTagContributes(input: Input, declared: seq<Focused>, i: nat, finding: Finding)
    requires i < |input.scan.tags|
    ensures var matched := MatchedSources(input.scan, input.testCases);
            finding in FindingsAtPlace(input.policy, input.scan, KnownOf(declared), matched)(i)
            <==> AboutIdleAt(input, declared, i, finding)
  {
    MatchedIffSeen(input.scan, input.testCases, i);
    IdleTagFindingsAre(input.policy, declared, input.scan.tags[i], finding);
  }

  lemma IdleFindingsAre(input: Input, declared: seq<Focused>, finding: Finding)
    ensures finding in UnmatchedFindings(input.policy, input.scan, KnownOf(declared),
                                         MatchedSources(input.scan, input.testCases), |input.scan.tags|)
            <==> AboutSomeIdleTag(input, declared, finding)
  {
    var matched, count := MatchedSources(input.scan, input.testCases), |input.scan.tags|;
    var found := FindingsAtPlace(input.policy, input.scan, KnownOf(declared), matched);
    var idle := (i: nat) => AboutIdleAt(input, declared, i, finding);
    FindingsByPlace(input.policy, input.scan, KnownOf(declared), matched, count);
    forall i: nat | i < count ensures finding in found(i) <==> idle(i) {
      IdleTagContributes(input, declared, i, finding);
    }
    ContributedAt(found, count, finding, idle);
    assert forall i: nat :: idle(i) <==> AboutIdleAt(input, declared, i, finding);
  }

  // ----- Rows

  /** A tag nothing ran for cites the reference. */
  ghost predicate IdlyTagged(input: Input, ref: Ref) {
    exists tag | tag in input.scan.tags :: ref in tag.refs && !SeenRunning(input.scan, input.testCases, tag)
  }

  predicate CitedBySome(testCases: seq<TestCase>, ref: Ref) {
    exists testCase | testCase in testCases :: ref in testCase.refs
  }

  /** The gap of a requirement none of whose tests passed: failed before skipped before not run before none at all. */
  predicate FirstGap(failed: bool, skipped: bool, idle: bool, category: Category) {
    match category
    case FailedRequirement => failed
    case SkippedRequirement => !failed && skipped
    case NotRunRequirement => !failed && !skipped && idle
    case UncoveredRequirement => !failed && !skipped && !idle
    case _ => false
  }

  /** What a testable requirement is short of, in the order of how far it got. */
  ghost predicate ShortOf(input: Input, ref: Ref, category: Category) {
    && !CitedWith(input.testCases, ref, Passed)
    && FirstGap(CitedWith(input.testCases, ref, Failed) || CitedWith(input.testCases, ref, Errored),
                CitedWith(input.testCases, ref, Skipped),
                CitedWith(input.testCases, ref, NotRun) || IdlyTagged(input, ref), category)
  }

  /** A citation in a test of the folded names comes from the tag. */
  predicate ComesFrom(scan: Scan, tag: SourceTag, ref: Ref, identity: string) {
    ref in tag.refs && Contains(scan.isWord, identity, Normalize(scan.isSpace, tag.title))
  }

  function TitleLength(scan: Scan, i: nat): nat
    requires i < |scan.tags|
  {
    |Normalize(scan.isSpace, scan.tags[i].title)|
  }

  /** Of the tags a citation comes from, none has a longer title, and none further up one as long. */
  predicate LongestFirst(scan: Scan, ref: Ref, identity: string, best: nat) {
    && best < |scan.tags| && ComesFrom(scan, scan.tags[best], ref, identity)
    && (forall i: nat | i < |scan.tags| && ComesFrom(scan, scan.tags[i], ref, identity) ::
          TitleLength(scan, i) <= TitleLength(scan, best))
    && forall i: nat | i < best && ComesFrom(scan, scan.tags[i], ref, identity) ::
         TitleLength(scan, i) < TitleLength(scan, best)
  }

  lemma LongestFirstIff(scan: Scan, ref: Ref, identity: string)
    ensures forall best: nat | best < |scan.tags| ::
              MostSpecific(scan, ref, identity, best) <==> LongestFirst(scan, ref, identity, best)
  {
    forall i: nat | i < |scan.tags|
      ensures i in MatchedIndexes(scan, ref, identity) <==> ComesFrom(scan, scan.tags[i], ref, identity)
    {
    }
  }

  /** Where a bound test is shown: at the most specific source tag it comes from, else in the results. */
  ghost predicate ShownAt(scan: Scan, testCase: TestCase, ref: Ref, location: Location) {
    var identity := Normalize(scan.isSpace, testCase.suite + " " + testCase.className + " " + testCase.name);
    || (exists best: nat | best < |scan.tags| ::
          LongestFirst(scan, ref, identity, best) && location == scan.tags[best].location)
    || (location == InResults(testCase)
        && forall best: nat | best < |scan.tags| :: !LongestFirst(scan, ref, identity, best))
  }

  /** A test that cites a covered requirement fails or errs. */
  ghost predicate AboutFailingTest(input: Input, requirement: Requirement, finding: Finding) {
    exists testCase, location | testCase in input.testCases && requirement.ref in testCase.refs ::
      && (testCase.outcome == Failed || testCase.outcome == Errored)
      && ShownAt(input.scan, testCase, requirement.ref, location)
      && Raised(input.policy, FailingBoundTest, requirement.ref.id, location, Named(testCase), finding)
  }

  /** What warrants a finding about a declared requirement. */
  ghost predicate AboutRequirement(input: Input, focused: Focused, finding: Finding) {
    var requirement, policy := focused.requirement, input.policy;
    var id, at := requirement.ref.id, requirement.location;
    if requirement.status == NonTestable then
      || (requirement.justification == "" && Raised(policy, UnjustifiedNonTestable, id, at, NoTest, finding))
      || ((CitedBySome(input.testCases, requirement.ref) || IdlyTagged(input, requirement.ref))
          && Raised(policy, BoundNonTestable, id, at, NoTest, finding))
    else focused.inFocus &&
         (|| (CitedWith(input.testCases, requirement.ref, Passed) && AboutFailingTest(input, requirement, finding))
          || (ShortOf(input, requirement.ref, finding.category)
              && Raised(policy, finding.category, id, at, NoTest, finding)))
  }

  lemma IdlyTaggedIff(input: Input, ref: Ref)
    ensures IdlyTagged(input, ref) <==> TaggedOnly(input, ref)
  {
    if tag :| tag in input.scan.tags && ref in tag.refs && !SeenRunning(input.scan, input.testCases, tag) {
      var i: nat :| i < |input.scan.tags| && input.scan.tags[i] == tag;
      MatchedIffSeen(input.scan, input.testCases, i);
    }
    if i: nat :| i < |input.scan.tags| && i !in MatchedSources(input.scan, input.testCases)
                 && ref in input.scan.tags[i].refs {
      MatchedIffSeen(input.scan, input.testCases, i);
      assert input.scan.tags[i] in input.scan.tags;
    }
  }

  lemma BoundToSome(input: Input, ref: Ref)
    requires Resolves(KnownOf(InOrder(input.requirements)), ref)
    ensures TestsOf(AllBindings(input), ref.id) != []
            <==> CitedBySome(input.testCases, ref) || IdlyTagged(input, ref)
  {
    var tests := TestsOf(AllBindings(input), ref.id);
    NotRunOutcome(input, ref);
    IdlyTaggedIff(input, ref);
    BoundOutcomes(input, ref, Passed);
    BoundOutcomes(input, ref, Failed);
    BoundOutcomes(input, ref, Errored);
    BoundOutcomes(input, ref, Skipped);
    if tests != [] {
      assert HasOutcome(tests, tests[0].outcome);
    }
    if testCase :| testCase in input.testCases && ref in testCase.refs {
      assert CitedWith(input.testCases, ref, testCase.outcome);
    }
  }

  lemma ShownAtIff(scan: Scan, testCase: TestCase, ref: Ref, location: Location)
    ensures ShownAt(scan, testCase, ref, location) <==> LocationOfTest(BoundBy(scan, testCase, ref)) == location
  {
    var identity := IdentityText(scan, testCase);
    LongestFirstIff(scan, ref, identity);
    forall a: nat, b: nat | MostSpecific(scan, ref, identity, a) && MostSpecific(scan, ref, identity, b)
      ensures a == b
    {
    }
  }

  /** A failed or errored test is bound to a reference exactly when it is a test case that cites it. */
  lemma FailedIsBound(input: Input, ref: Ref, test: BoundTest)
    requires Resolves(KnownOf(InOrder(input.requirements)), ref) && (test.outcome == Failed || test.outcome == Errored)
    ensures test in TestsOf(AllBindings(input), ref.id)
            <==> exists testCase | testCase in input.testCases ::
                   ref in testCase.refs && test == BoundBy(input.scan, testCase, ref)
  {
    var known, matched := KnownOf(InOrder(input.requirements)), MatchedSources(input.scan, input.testCases);
    var cited := CitationBindings(input.scan, known, input.testCases);
    TestsOfContains(AllBindings(input), ref.id, test);
    CitationBindingsContain(input.scan, known, input.testCases, Binding(ref.id, test));
    UnmatchedAreNotRun(input.scan, known, matched, |input.scan.tags|);
    assert Binding(ref.id, test) in AllBindings(input) <==> Binding(ref.id, test) in cited;
  }

  lemma FailingFindingIs(policy: Policy, id: string, test: BoundTest, finding: Finding)
    ensures finding in FailingFinding(policy, id, test)
            <==> (test.outcome == Failed || test.outcome == Errored)
                 && Raised(policy, FailingBoundTest, id, LocationOfTest(test),
                           OfTest(test.resultsFile, test.className, test.name), finding)
  {
  }

  ghost predicate FailsAs(input: Input, requirement: Requirement, testCase: TestCase, finding: Finding) {
    && requirement.ref in testCase.refs && (testCase.outcome == Failed || testCase.outcome == Errored)
    && Raised(input.policy, FailingBoundTest, requirement.ref.id,
              LocationOfTest(BoundBy(input.scan, testCase, requirement.ref)), Named(testCase), finding)
  }

  lemma AboutFailingIff(input: Input, requirement: Requirement, finding: Finding)
    ensures AboutFailingTest(input, requirement, finding)
            <==> exists testCase | testCase in input.testCases :: FailsAs(input, requirement, testCase, finding)
  {
    forall testCase, location
      ensures ShownAt(input.scan, testCase, requirement.ref, location)
              <==> LocationOfTest(BoundBy(input.scan, testCase, requirement.ref)) == location
    {
      ShownAtIff(input.scan, testCase, requirement.ref, location);
    }
  }

  lemma FailingTestsAre(input: Input, requirement: Requirement, finding: Finding)
    requires Resolves(KnownOf(InOrder(input.requirements)), requirement.ref)
    ensures var id, tests := requirement.ref.id, TestsOf(AllBindings(input), requirement.ref.id);
            finding in FlatMap((test: BoundTest) => FailingFinding(input.policy, id, test), tests)
            <==> AboutFailingTest(input, requirement, finding)
  {
    var id, tests := requirement.ref.id, TestsOf(AllBindings(input), requirement.ref.id);
    var ofTest := (test: BoundTest) => FailingFinding(input.policy, id, test);
    FlatMapContains(ofTest, tests, finding);
    AboutFailingIff(input, requirement, finding);
    if test :| test in tests && finding in ofTest(test) {
      FailingFindingIs(input.policy, id, test, finding);
      FailedIsBound(input, requirement.ref, test);
      var testCase :| testCase in input.testCases && requirement.ref in testCase.refs
                      && test == BoundBy(input.scan, testCase, requirement.ref);
      assert FailsAs(input, requirement, testCase, finding);
    }
    if testCase :| testCase in input.testCases && FailsAs(input, requirement, testCase, finding) {
      var test := BoundBy(input.scan, testCase, requirement.ref);
      FailedIsBound(input, requirement.ref, test);
      FailingFindingIs(input.policy, id, test, finding);
      assert finding in ofTest(test);
    }
  }

  /** The tests of a row are sorted, which changes none of what is found about them. */
  lemma SortedFailingTests(policy: Policy, id: string, tests: seq<BoundTest>, finding: Finding)
    ensures var ofTest := (test: BoundTest) => FailingFinding(policy, id, test);
            finding in FlatMap(ofTest, StableSort(tests, InTestOrder)) <==> finding in FlatMap(ofTest, tests)
  {
    var ofTest := (test: BoundTest) => FailingFinding(policy, id, test);
    SortPermutes(tests, InTestOrder);
    SameMembers(StableSort(tests, InTestOrder), tests);
    FlatMapContains(ofTest, StableSort(tests, InTestOrder), finding);
    FlatMapContains(ofTest, tests, finding);
  }

  lemma OneOutcomeCited(input: Input, ref: Ref, outcome: TestOutcome)
    requires Resolves(KnownOf(InOrder(input.requirements)), ref) && outcome != NotRun
    ensures HasOutcome(StableSort(TestsOf(AllBindings(input), ref.id), InTestOrder), outcome)
            <==> CitedWith(input.testCases, ref, outcome)
  {
    SortedTests(TestsOf(AllBindings(input), ref.id), outcome);
    BoundOutcomes(input, ref, outcome);
  }

  lemma OutcomesCited(input: Input, ref: Ref)
    requires Resolves(KnownOf(InOrder(input.requirements)), ref)
    ensures var tests := StableSort(TestsOf(AllBindings(input), ref.id), InTestOrder);
            && (HasOutcome(tests, Passed) <==> CitedWith(input.testCases, ref, Passed))
            && (HasOutcome(tests, Failed) <==> CitedWith(input.testCases, ref, Failed))
            && (HasOutcome(tests, Errored) <==> CitedWith(input.testCases, ref, Errored))
            && (HasOutcome(tests, Skipped) <==> CitedWith(input.testCases, ref, Skipped))
            && (HasOutcome(tests, NotRun) <==> CitedWith(input.testCases, ref, NotRun) || IdlyTagged(input, ref))
  {
    OneOutcomeCited(input, ref, Passed);
    OneOutcomeCited(input, ref, Failed);
    OneOutcomeCited(input, ref, Errored);
    OneOutcomeCited(input, ref, Skipped);
    SortedTests(TestsOf(AllBindings(input), ref.id), NotRun);
    NotRunOutcome(input, ref);
    IdlyTaggedIff(input, ref);
  }

  lemma CoverageDecides(requirement: Requirement, tests: seq<BoundTest>, category: Category)
    requires requirement.status == Active
    ensures var coverage, passed := CoverageOf(requirement, tests), HasOutcome(tests, Passed);
            var failed, skipped := HasOutcome(tests, Failed) || HasOutcome(tests, Errored), HasOutcome(tests, Skipped);
            && (GapCategory(coverage) == Some(category)
                <==> !passed && FirstGap(failed, skipped, HasOutcome(tests, NotRun), category))
            && (coverage.Covered? <==> passed) && (GapCategory(coverage).None? <==> coverage.Covered?)
  {
  }

  lemma GapIsShort(input: Input, requirement: Requirement, category: Category)
    requires Resolves(KnownOf(InOrder(input.requirements)), requirement.ref) && requirement.status == Active
    ensures var coverage :=
            CoverageOf(requirement, StableSort(TestsOf(AllBindings(input), requirement.ref.id), InTestOrder));
            && (GapCategory(coverage) == Some(category) <==> ShortOf(input, requirement.ref, category))
            && (coverage.Covered? <==> CitedWith(input.testCases, requirement.ref, Passed))
            && (GapCategory(coverage).None? <==> coverage.Covered?)
  {
    OutcomesCited(input, requirement.ref);
    CoverageDecides(requirement, StableSort(TestsOf(AllBindings(input), requirement.ref.id), InTestOrder), category);
  }

  lemma RowFindingsAre(input: Input, focused: Focused, finding: Finding)
    requires Resolves(KnownOf(InOrder(input.requirements)), focused.requirement.ref)
    ensures finding in RowFindings(input.policy, SettledRow(focused, AllBindings(input)))
            <==> AboutRequirement(input, focused, finding)
  {
    var requirement, policy := focused.requirement, input.policy;
    var id, tests := requirement.ref.id, TestsOf(AllBindings(input), requirement.ref.id);
    if requirement.status == NonTestable {
      SortedTests(tests, Passed);
      BoundToSome(input, requirement.ref);
      ObservedIffRaised(policy, UnjustifiedNonTestable, id, requirement.location, NoTest, finding);
      ObservedIffRaised(policy, BoundNonTestable, id, requirement.location, NoTest, finding);
    } else {
      GapIsShort(input, requirement, finding.category);
      FailingTestsAre(input, requirement, finding);
      SortedFailingTests(policy, id, tests, finding);
      ObservedIffRaised(policy, finding.category, id, requirement.location, NoTest, finding);
    }
  }

  lemma RequirementFindingsAre(input: Input, finding: Finding)
    ensures var declared := InOrder(input.requirements);
            finding in AllRowFindings(input.policy, AllBindings(input), FirstDeclarations(declared))
            <==> exists i: nat | i < |declared| :: IsFirst(declared, i) && AboutRequirement(input, declared[i], finding)
  {
    var declared := InOrder(input.requirements);
    var ofRow := (focused: Focused) => RowFindings(input.policy, SettledRow(focused, AllBindings(input)));
    FlatMapContains(ofRow, FirstDeclarations(declared), finding);
    forall focused ensures focused in FirstDeclarations(declared) <==>
        exists i: nat | i < |declared| :: IsFirst(declared, i) && declared[i] == focused
    {
      FirstDeclarationsAre(declared, focused);
    }
    forall i: nat | i < |declared| && IsFirst(declared, i)
      ensures finding in ofRow(declared[i]) <==> AboutRequirement(input, declared[i], finding)
    {
      ResolvesIffResolved(declared, declared[i].requirement.ref);
      RowFindingsAre(input, declared[i], finding);
    }
  }

  // ----- The tests of a requirement

  /** The bound test of a test case: its own names and outcome, and the most specific source tag it comes from. */
  ghost predicate Records(scan: Scan, testCase: TestCase, ref: Ref, test: BoundTest) {
    var identity := Normalize(scan.isSpace, testCase.suite + " " + testCase.className + " " + testCase.name);
    && test.resultsFile == testCase.resultsFile && test.suite == testCase.suite
    && test.className == testCase.className && test.name == testCase.name && test.outcome == testCase.outcome
    && match test.source
       case Some(location) => exists best: nat | best < |scan.tags| ::
         LongestFirst(scan, ref, identity, best) && location == scan.tags[best].location
       case None => forall best: nat | best < |scan.tags| :: !LongestFirst(scan, ref, identity, best)
  }

  lemma RecordsIff(scan: Scan, testCase: TestCase, ref: Ref, test: BoundTest)
    ensures Records(scan, testCase, ref, test) <==> test == BoundBy(scan, testCase, ref)
  {
    var identity := IdentityText(scan, testCase);
    LongestFirstIff(scan, ref, identity);
    forall a: nat, b: nat | MostSpecific(scan, ref, identity, a) && MostSpecific(scan, ref, identity, b)
      ensures a == b
    {
    }
  }

  /** The bound test of a tag nothing ran for. */
  function Idle(tag: SourceTag): BoundTest {
    BoundTest("", "", "", tag.title, NotRun, Some(tag.location))
  }

  lemma IdleBindingsAre(known: map<string, Focused>, tag: SourceTag, ref: Ref, test: BoundTest)
    requires Resolves(known, ref)
    ensures Binding(ref.id, test) in NotRunBindings(known, tag) <==> ref in tag.refs && test == Idle(tag)
  {
    var ofRef := (cited: Ref) => NotRunBinding(known, tag, cited);
    FlatMapContains(ofRef, tag.refs, Binding(ref.id, test));
    forall cited | Binding(ref.id, test) in ofRef(cited) ensures cited == ref && test == Idle(tag) {
    }
    assert test == Idle(tag) ==> Binding(ref.id, test) in ofRef(ref);
  }

  lemma BoundAtIs(scan: Scan, known: map<string, Focused>, matched: set<nat>, ref: Ref, test: BoundTest, i: nat)
    requires Resolves(known, ref) && i < |scan.tags|
    ensures Binding(ref.id, test) in BoundAt(scan, known, matched, i)
            <==> i !in matched && ref in scan.tags[i].refs && test == Idle(scan.tags[i])
  {
    IdleBindingsAre(known, scan.tags[i], ref, test);
  }

  function BoundAtPlace(scan: Scan, known: map<string, Focused>, matched: set<nat>): nat -> seq<Binding> {
    (i: nat) => if i < |scan.tags| then BoundAt(scan, known, matched, i) else []
  }

  ghost predicate BoundByPlace(scan: Scan, known: map<string, Focused>, matched: set<nat>, n: nat) {
    n <= |scan.tags| ==> UnmatchedBindings(scan, known, matched, n)
                         == FlatMap(BoundAtPlace(scan, known, matched), Places(n))
  }

  lemma BoundByOneMore(scan: Scan, known: map<string, Focused>, matched: set<nat>, n: nat)
    requires BoundByPlace(scan, known, matched, n)
    ensures BoundByPlace(scan, known, matched, n + 1)
  {
    if n < |scan.tags| {
      UnmatchedStep(scan, known, matched, n);
      OnePlaceMore(BoundAtPlace(scan, known, matched), n);
    }
  }

  lemma {:induction false} UnmatchedByPlace(scan: Scan, known: map<string, Focused>, matched: set<nat>, count: nat)
    ensures BoundByPlace(scan, known, matched, count)
  {
    if count > 0 {
      UnmatchedByPlace(scan, known, matched, count - 1);
      BoundByOneMore(scan, known, matched, count - 1);
    }
  }

  predicate IdleAt(scan: Scan, matched: set<nat>, ref: Ref, test: BoundTest, i: nat) {
    i < |scan.tags| && i !in matched && ref in scan.tags[i].refs && test == Idle(scan.tags[i])
  }

  lemma UnmatchedBindingsAre(scan: Scan, known: map<string, Focused>, matched: set<nat>, ref: Ref, test: BoundTest,
                             count: nat)
    requires Resolves(known, ref) && count <= |scan.tags|
    ensures Binding(ref.id, test) in UnmatchedBindings(scan, known, matched, count)
            <==> exists i: nat :: i < count && IdleAt(scan, matched, ref, test, i)
  {
    var bound, binding := BoundAtPlace(scan, known, matched), Binding(ref.id, test);
    var idle := (i: nat) => IdleAt(scan, matched, ref, test, i);
    UnmatchedByPlace(scan, known, matched, count);
    forall i: nat | i < count ensures binding in bound(i) <==> idle(i) {
      BoundAtIs(scan, known, matched, ref, test, i);
    }
    ContributedAt(bound, count, binding, idle);
    assert forall i: nat :: idle(i) <==> IdleAt(scan, matched, ref, test, i);
  }

  lemma IdleAtIff(input: Input, ref: Ref, test: BoundTest)
    ensures (exists i: nat :: i < |input.scan.tags|
                              && IdleAt(input.scan, MatchedSources(input.scan, input.testCases), ref, test, i))
            <==> exists tag | tag in input.scan.tags :: ref in tag.refs && test == Idle(tag)
                   && !SeenRunning(input.scan, input.testCases, tag)
  {
    var scan, matched := input.scan, MatchedSources(input.scan, input.testCases);
    if tag :| tag in scan.tags && ref in tag.refs && test == Idle(tag) && !SeenRunning(scan, input.testCases, tag) {
      var i: nat :| i < |scan.tags| && scan.tags[i] == tag;
      MatchedIffSeen(scan, input.testCases, i);
      assert IdleAt(scan, matched, ref, test, i);
    }
    if i: nat :| i < |scan.tags| && IdleAt(scan, matched, ref, test, i) {
      MatchedIffSeen(scan, input.testCases, i);
      assert scan.tags[i] in scan.tags;
    }
  }

  /** The tests bound to a declared reference: the test cases that cite it, and the tags of it that nothing ran for. */
  lemma BoundTestsAre(input: Input, ref: Ref, test: BoundTest)
    requires Resolves(KnownOf(InOrder(input.requirements)), ref)
    ensures test in TestsOf(AllBindings(input), ref.id)
            <==> || (exists testCase | testCase in input.testCases ::
                       ref in testCase.refs && Records(input.scan, testCase, ref, test))
                 || (exists tag | tag in input.scan.tags :: ref in tag.refs && test == Idle(tag)
                       && !SeenRunning(input.scan, input.testCases, tag))
  {
    var known, matched := KnownOf(InOrder(input.requirements)), MatchedSources(input.scan, input.testCases);
    TestsOfContains(AllBindings(input), ref.id, test);
    CitationBindingsContain(input.scan, known, input.testCases, Binding(ref.id, test));
    UnmatchedBindingsAre(input.scan, known, matched, ref, test, |input.scan.tags|);
    IdleAtIff(input, ref, test);
    forall testCase ensures Records(input.scan, testCase, ref, test) <==> test == BoundBy(input.scan, testCase, ref) {
      RecordsIff(input.scan, testCase, ref, test);
    }
    CitedBindingIff(input.scan, known, input.testCases, ref, test);
  }

  lemma CitedBindingIff(scan: Scan, known: map<string, Focused>, testCases: seq<TestCase>, ref: Ref, test: BoundTest)
    requires Resolves(known, ref)
    ensures Binding(ref.id, test) in CitationBindings(scan, known, testCases)
            <==> exists testCase | testCase in testCases :: ref in testCase.refs && test == BoundBy(scan, testCase, ref)
  {
    CitationBindingsContain(scan, known, testCases, Binding(ref.id, test));
    assert forall cited: Ref :: Resolves(known, cited) && cited.id == ref.id ==> cited == ref;
  }

  // ----- The whole analysis

  /** What warrants a finding of the analysis. */
  ghost predicate Warranted(input: Input, finding: Finding) {
    var declared, tags := InOrder(input.requirements), input.scan.tags;
    || AboutDuplicate(input.policy, declared, finding)
    || (exists location | location in input.specProblems ::
          Raised(input.policy, MalformedRequirement, "", location, NoTest, finding))
    || (exists tag | tag in tags :: AboutTag(input.policy, declared, tag, finding))
    || (exists testCase | testCase in input.testCases ::
          AboutTestCase(input.policy, declared, tags, testCase, finding))
    || AboutSomeIdleTag(input, declared, finding)
    || (exists i: nat | i < |declared| :: IsFirst(declared, i) && AboutRequirement(input, declared[i], finding))
  }

  lemma ProblemFindingsAre(input: Input, finding: Finding)
    ensures finding in ProblemFindings(input) <==> exists location | location in input.specProblems ::
              Raised(input.policy, MalformedRequirement, "", location, NoTest, finding)
  {
    var ofProblem := (location: Location) => Observe(input.policy, MalformedRequirement, "", location, NoTest);
    FlatMapContains(ofProblem, input.specProblems, finding);
  }

  lemma InAnyPart(a: seq<Finding>, b: seq<Finding>, c: seq<Finding>, d: seq<Finding>, e: seq<Finding>, f: seq<Finding>,
                  finding: Finding)
    ensures finding in a + b + c + d + e + f
            <==> || finding in a || finding in b || finding in c || finding in d || finding in e || finding in f
  {
  }

  /** Under any policy the analysis makes exactly the findings that something warrants. */
  lemma FindingsExactly(input: Input, finding: Finding)
    ensures finding in AllFindings(input) <==> Warranted(input, finding)
  {
    var declared := InOrder(input.requirements);
    var known, matched := KnownOf(declared), MatchedSources(input.scan, input.testCases);
    DuplicateFindingsAre(input.policy, declared, finding);
    ProblemFindingsAre(input, finding);
    SourceFindingsAre(input.policy, declared, input.scan.tags, finding);
    TestFindingsAre(input.policy, input.scan, declared, input.testCases, finding);
    IdleFindingsAre(input, declared, finding);
    RequirementFindingsAre(input, finding);
    InAnyPart(DuplicateFindings(input.policy, declared), ProblemFindings(input),
              SourceFindings(input.policy, known, input.scan.tags),
              TestFindings(input.policy, input.scan, known, input.testCases),
              UnmatchedFindings(input.policy, input.scan, known, matched, |input.scan.tags|),
              AllRowFindings(input.policy, AllBindings(input), FirstDeclarations(declared)), finding);
  }
}
