/**
 Laws of the analysis: the exact condition for a pass, what a citation is worth,
 and the independence of the order of the test cases.
 */
module TraceabilityLaws {
  import opened Flattening
  import opened Ordering
  import opened Traceability

  // ----- Which parts block

  lemma SomeBlocksConcat(xs: seq<Finding>, ys: seq<Finding>)
    ensures SomeBlocks(xs + ys) <==> SomeBlocks(xs) || SomeBlocks(ys)
  {
    if finding :| finding in xs && finding.blocking {
      assert finding in xs + ys;
    }
    if finding :| finding in ys && finding.blocking {
      assert finding in xs + ys;
    }
  }

  lemma {:induction false} SomeBlocksFlatMap<T>(f: T -> seq<Finding>, xs: seq<T>)
    ensures SomeBlocks(FlatMap(f, xs)) <==> exists x | x in xs :: SomeBlocks(f(x))
  {
    if xs == [] {
    } else {
      var last := |xs| - 1;
      SomeBlocksFlatMap(f, xs[..last]);
      SomeBlocksConcat(FlatMap(f, xs[..last]), f(xs[last]));
      assert forall x :: x in xs <==> x in xs[..last] || x == xs[last] by { assert xs == xs[..last] + [xs[last]]; }
    }
  }

  /** Under the default policy a finding blocks exactly when its category is an error. */
  lemma ObserveBlocks(category: Category, id: string, location: Location, test: TestIdentity)
    ensures SomeBlocks(Observe(DEFAULT_POLICY, category, id, location, test)) <==> DefaultSeverity(category) == Error
  {
    var observed := Observe(DEFAULT_POLICY, category, id, location, test);
    if observed != [] {
      assert observed[0] in observed;
    }
  }

  // ----- Declarations

  function Ids(declared: seq<Focused>): set<string> {
    set focused | focused in declared :: focused.requirement.ref.id
  }

  /** There are as many IDs as declarations. */
  predicate UniqueIds(declared: seq<Focused>) {
    |Ids(declared)| == |declared|
  }

  lemma IdsStep(declared: seq<Focused>)
    requires declared != []
    ensures Ids(declared) == Ids(declared[..|declared| - 1]) + {declared[|declared| - 1].requirement.ref.id}
  {
    assert declared == declared[..|declared| - 1] + [declared[|declared| - 1]];
  }

  lemma {:induction false} FewerIdsThanDeclarations(declared: seq<Focused>)
    ensures |Ids(declared)| <= |declared|
    ensures KnownOf(declared).Keys == Ids(declared)
  {
    if declared == [] {
    } else {
      FewerIdsThanDeclarations(declared[..|declared| - 1]);
      IdsStep(declared);
    }
  }

  lemma UniqueIdsStep(declared: seq<Focused>)
    requires declared != []
    ensures var earlier := declared[..|declared| - 1];
            UniqueIds(declared)
            <==> UniqueIds(earlier) && declared[|declared| - 1].requirement.ref.id !in KnownOf(earlier)
  {
    var earlier, id := declared[..|declared| - 1], declared[|declared| - 1].requirement.ref.id;
    FewerIdsThanDeclarations(earlier);
    IdsStep(declared);
    if id in Ids(earlier) {
      assert Ids(declared) == Ids(earlier);
    }
  }

  /** With unique IDs no declaration is dropped. */
  lemma {:induction false} UniqueIdsAreFirst(declared: seq<Focused>)
    requires UniqueIds(declared)
    ensures FirstDeclarations(declared) == declared
  {
    if declared != [] {
      UniqueIdsStep(declared);
      UniqueIdsAreFirst(declared[..|declared| - 1]);
    }
  }

  lemma {:induction false} DuplicatesBlock(declared: seq<Focused>)
    ensures SomeBlocks(DuplicateFindings(DEFAULT_POLICY, declared)) <==> !UniqueIds(declared)
  {
    if declared != [] {
      var earlier, last := declared[..|declared| - 1], declared[|declared| - 1].requirement;
      DuplicatesBlock(earlier);
      UniqueIdsStep(declared);
      ObserveBlocks(DuplicateID, last.ref.id, last.location, NoTest);
      SomeBlocksConcat(DuplicateFindings(DEFAULT_POLICY, earlier),
                       if last.ref.id in KnownOf(earlier) then
                         Observe(DEFAULT_POLICY, DuplicateID, last.ref.id, last.location, NoTest) else []);
    }
  }

  /** With unique IDs, the known requirement of an ID is the declared one. */
  lemma {:induction false} KnownAreDeclared(declared: seq<Focused>, id: string)
    ensures id in KnownOf(declared)
            ==> KnownOf(declared)[id] in declared && KnownOf(declared)[id].requirement.ref.id == id
  {
    if declared != [] {
      KnownAreDeclared(declared[..|declared| - 1], id);
      assert declared == declared[..|declared| - 1] + [declared[|declared| - 1]];
    }
  }

  lemma {:induction false} DeclaredAreKnown(declared: seq<Focused>, focused: Focused)
    requires UniqueIds(declared) && focused in declared
    ensures focused.requirement.ref.id in KnownOf(declared) && KnownOf(declared)[focused.requirement.ref.id] == focused
  {
    var earlier, last := declared[..|declared| - 1], declared[|declared| - 1];
    UniqueIdsStep(declared);
    assert declared == earlier + [last];
    if focused in earlier {
      DeclaredAreKnown(earlier, focused);
    }
  }

  ghost predicate Declares(declared: seq<Focused>, ref: Ref) {
    exists focused | focused in declared :: focused.requirement.ref == ref
  }

  lemma ResolvesIffDeclared(declared: seq<Focused>, ref: Ref)
    requires UniqueIds(declared)
    ensures Resolves(KnownOf(declared), ref) <==> Declares(declared, ref)
  {
    KnownAreDeclared(declared, ref.id);
    if focused :| focused in declared && focused.requirement.ref == ref {
      DeclaredAreKnown(declared, focused);
    }
  }

  // ----- Tags and citations

  ghost predicate TagDefect(known: map<string, Focused>, tag: SourceTag) {
    tag.malformed != [] || exists ref | ref in tag.refs :: !Resolves(known, ref)
  }

  lemma UnresolvedBlocks(known: map<string, Focused>, ref: Ref, location: Location, test: TestIdentity)
    ensures SomeBlocks(UnresolvedFinding(DEFAULT_POLICY, known, ref, location, test))
  {
    ObserveBlocks(if ref.id in known then RevisionMismatch else OrphanTag, ref.id, location, test);
  }

  lemma TagBlocks(known: map<string, Focused>, tag: SourceTag)
    ensures SomeBlocks(TagMalformedFindings(DEFAULT_POLICY, tag) + TagRefFindings(DEFAULT_POLICY, known, tag))
            <==> TagDefect(known, tag)
  {
    ObserveBlocks(MalformedTagFound, "", tag.location, NoTest);
    SomeBlocksFlatMap((malformed: MalformedTag) => MalformedFinding(DEFAULT_POLICY, tag.location, NoTest),
                      tag.malformed);
    assert tag.malformed != [] ==> tag.malformed[0] in tag.malformed;
    var ofRef := (ref: Ref) =>
                 if Resolves(known, ref) then []
                 else UnresolvedFinding(DEFAULT_POLICY, known, ref, tag.location, NoTest);
    SomeBlocksFlatMap(ofRef, tag.refs);
    forall ref ensures SomeBlocks(ofRef(ref)) <==> !Resolves(known, ref) {
      UnresolvedBlocks(known, ref, tag.location, NoTest);
    }
    SomeBlocksConcat(TagMalformedFindings(DEFAULT_POLICY, tag), TagRefFindings(DEFAULT_POLICY, known, tag));
  }

  lemma SourceBlocks(known: map<string, Focused>, tags: seq<SourceTag>)
    ensures SomeBlocks(SourceFindings(DEFAULT_POLICY, known, tags)) <==> exists tag | tag in tags ::
              TagDefect(known, tag)
  {
    var f := (tag: SourceTag) => TagMalformedFindings(DEFAULT_POLICY, tag) + TagRefFindings(DEFAULT_POLICY, known, tag);
    SomeBlocksFlatMap(f, tags);
    forall tag ensures SomeBlocks(f(tag)) <==> TagDefect(known, tag) {
      TagBlocks(known, tag);
    }
  }

  ghost predicate CitationDefect(known: map<string, Focused>, testCase: TestCase) {
    testCase.malformed != [] || exists ref | ref in testCase.refs :: !Resolves(known, ref)
  }

  /** Where no source tag has a defect, a test case blocks through its own citations only. */
  lemma TestBlocks(scan: Scan, known: map<string, Focused>, testCase: TestCase)
    requires forall tag | tag in scan.tags :: !TagDefect(known, tag)
    ensures SomeBlocks(FindingsOfTest(DEFAULT_POLICY, scan, known, testCase)) <==> CitationDefect(known, testCase)
  {
    var location, test := Location(testCase.resultsFile, 0), IdentityOf(testCase);
    var ofRef := (ref: Ref) => CitationFinding(DEFAULT_POLICY, scan, known, testCase, ref);
    var ofMalformed := (malformed: MalformedTag) => MalformedCitation(DEFAULT_POLICY, scan, testCase, malformed);
    SomeBlocksFlatMap(ofRef, testCase.refs);
    SomeBlocksFlatMap(ofMalformed, testCase.malformed);
    assert ReportedAtSource(known, scan.tags) == {};
    forall ref ensures SomeBlocks(ofRef(ref)) <==> !Resolves(known, ref) {
      UnresolvedBlocks(known, ref, location, test);
    }
    ObserveBlocks(MalformedTagFound, "", location, test);
    ObserveBlocks(UntaggedTest, "", location, test);
    assert testCase.malformed != [] ==> testCase.malformed[0] in testCase.malformed;
    var r, m, u := TestRefFindings(DEFAULT_POLICY, scan, known, testCase),
                   TestMalformedFindings(DEFAULT_POLICY, scan, testCase), UntaggedFinding(DEFAULT_POLICY, testCase);
    SomeBlocksConcat(r, m);
    SomeBlocksConcat(r + m, u);
  }

  lemma TestsBlock(scan: Scan, known: map<string, Focused>, testCases: seq<TestCase>)
    requires forall tag | tag in scan.tags :: !TagDefect(known, tag)
    ensures SomeBlocks(TestFindings(DEFAULT_POLICY, scan, known, testCases))
            <==> exists testCase | testCase in testCases :: CitationDefect(known, testCase)
  {
    var f := (testCase: TestCase) => FindingsOfTest(DEFAULT_POLICY, scan, known, testCase);
    SomeBlocksFlatMap(f, testCases);
    forall testCase ensures SomeBlocks(f(testCase)) <==> CitationDefect(known, testCase) {
      TestBlocks(scan, known, testCase);
    }
  }

  lemma UnmatchedTagNeverBlocks(known: map<string, Focused>, tag: SourceTag)
    ensures !SomeBlocks(UnmatchedTagFindings(DEFAULT_POLICY, known, tag))
  {
    var f := (ref: Ref) => UnmatchedRefFindings(DEFAULT_POLICY, known, tag, ref);
    SomeBlocksFlatMap(f, tag.refs);
    forall ref ensures !SomeBlocks(f(ref)) {
      ObserveBlocks(TagNotInResults, ref.id, tag.location, NoTest);
    }
  }

  lemma {:induction false} UnmatchedNeverBlock(scan: Scan, known: map<string, Focused>, matched: set<nat>, count: nat)
    requires count <= |scan.tags|
    ensures !SomeBlocks(UnmatchedFindings(DEFAULT_POLICY, scan, known, matched, count))
  {
    if count > 0 {
      UnmatchedNeverBlock(scan, known, matched, count - 1);
      var earlier := UnmatchedFindings(DEFAULT_POLICY, scan, known, matched, count - 1);
      var added := UnmatchedTagFindings(DEFAULT_POLICY, known, scan.tags[count - 1]);
      UnmatchedTagNeverBlocks(known, scan.tags[count - 1]);
      SomeBlocksConcat(earlier, added);
      SomeBlocksConcat(earlier, []);
    }
  }

  // ----- Bound tests

  /** The tests bound to an ID by one test case: one for each time it cites the declared revision. */
  lemma TestsOfContains(bindings: seq<Binding>, id: string, test: BoundTest)
    ensures test in TestsOf(bindings, id) <==> Binding(id, test) in bindings
  {
    FlatMapContains((binding: Binding) => if binding.id == id then [binding.test] else [], bindings, test);
  }

  lemma CitationBindingsContain(scan: Scan, known: map<string, Focused>, testCases: seq<TestCase>, binding: Binding)
    ensures binding in CitationBindings(scan, known, testCases)
            <==> exists testCase, ref | testCase in testCases && ref in testCase.refs ::
              Resolves(known, ref) && binding == Binding(ref.id, BoundBy(scan, testCase, ref))
  {
    var f := (testCase: TestCase) => BindingsOfTest(scan, known, testCase);
    FlatMapContains(f, testCases, binding);
    forall testCase
      ensures binding in f(testCase) <==> exists ref | ref in testCase.refs ::
                Resolves(known, ref) && binding == Binding(ref.id, BoundBy(scan, testCase, ref))
    {
      FlatMapContains((ref: Ref) => CitationBinding(scan, known, testCase, ref), testCase.refs, binding);
    }
  }

  lemma TagBindingsAreNotRun(known: map<string, Focused>, tag: SourceTag, binding: Binding)
    requires binding in NotRunBindings(known, tag)
    ensures binding.test.outcome == NotRun
  {
    FlatMapContains((ref: Ref) => NotRunBinding(known, tag, ref), tag.refs, binding);
  }

  predicate AllNotRun(bindings: seq<Binding>) {
    forall binding | binding in bindings :: binding.test.outcome == NotRun
  }

  lemma {:induction false} UnmatchedAreNotRun(scan: Scan, known: map<string, Focused>, matched: set<nat>, count: nat)
    requires count <= |scan.tags|
    ensures AllNotRun(UnmatchedBindings(scan, known, matched, count))
  {
    if count > 0 {
      UnmatchedAreNotRun(scan, known, matched, count - 1);
      var tag := scan.tags[count - 1];
      forall binding | binding in NotRunBindings(known, tag) ensures binding.test.outcome == NotRun {
        TagBindingsAreNotRun(known, tag, binding);
      }
    }
  }

  ghost predicate CitedWith(testCases: seq<TestCase>, ref: Ref, outcome: TestOutcome) {
    exists testCase | testCase in testCases :: ref in testCase.refs && testCase.outcome == outcome
  }

  /**
   A declared reference has a bound test of an outcome that only runs have
   exactly when a test case of that outcome cites it.
   */
  lemma BoundOutcomes(input: Input, ref: Ref, outcome: TestOutcome)
    requires Resolves(KnownOf(InOrder(input.requirements)), ref) && outcome != NotRun
    ensures HasOutcome(TestsOf(AllBindings(input), ref.id), outcome) <==> CitedWith(input.testCases, ref, outcome)
  {
    var known := KnownOf(InOrder(input.requirements));
    var citations := CitationBindings(input.scan, known, input.testCases);
    var unmatched := UnmatchedBindings(input.scan, known, MatchedSources(input.scan, input.testCases),
                                       |input.scan.tags|);
    assert AllBindings(input) == citations + unmatched;
    if test :| test in TestsOf(AllBindings(input), ref.id) && test.outcome == outcome {
      TestsOfContains(AllBindings(input), ref.id, test);
      if Binding(ref.id, test) in unmatched {
        UnmatchedAreNotRun(input.scan, known, MatchedSources(input.scan, input.testCases), |input.scan.tags|);
      }
      CitationBindingsContain(input.scan, known, input.testCases, Binding(ref.id, test));
    }
    if testCase :| testCase in input.testCases && ref in testCase.refs && testCase.outcome == outcome {
      var test := BoundBy(input.scan, testCase, ref);
      CitationBindingsContain(input.scan, known, input.testCases, Binding(ref.id, test));
      TestsOfContains(AllBindings(input), ref.id, test);
    }
  }

  lemma SortedDeclarations(requirements: seq<Focused>)
    ensures forall focused :: focused in InOrder(requirements) <==> focused in requirements
    ensures UniqueIds(InOrder(requirements)) <==> UniqueIds(requirements)
  {
    SortPermutes(requirements, InLocationOrder);
    forall focused ensures focused in InOrder(requirements) <==> focused in requirements {
      assert focused in multiset(InOrder(requirements)) <==> focused in multiset(requirements);
    }
    assert Ids(InOrder(requirements)) == Ids(requirements);
  }

  // ----- Rows

  /** What a requirement must show for its row not to block. */
  ghost predicate Verified(testCases: seq<TestCase>, focused: Focused) {
    var requirement := focused.requirement;
    if requirement.status == NonTestable then requirement.justification != ""
    else focused.inFocus ==>
      && CitedWith(testCases, requirement.ref, Passed)
      && !CitedWith(testCases, requirement.ref, Failed)
      && !CitedWith(testCases, requirement.ref, Errored)
  }

  lemma SortedTests(tests: seq<BoundTest>, outcome: TestOutcome)
    ensures HasOutcome(StableSort(tests, InTestOrder), outcome) <==> HasOutcome(tests, outcome)
    ensures StableSort(tests, InTestOrder) == [] <==> tests == []
  {
    SortPermutes(tests, InTestOrder);
    forall test ensures test in StableSort(tests, InTestOrder) <==> test in tests {
      assert test in multiset(StableSort(tests, InTestOrder)) <==> test in multiset(tests);
    }
  }

  lemma GapBlocks(requirement: Requirement, tests: seq<BoundTest>)
    requires requirement.status == Active
    ensures SomeBlocks(GapFindings(DEFAULT_POLICY, requirement, CoverageOf(requirement, tests), tests))
            <==> !HasOutcome(tests, Passed) || HasOutcome(tests, Failed) || HasOutcome(tests, Errored)
  {
    var gap := GapCategory(CoverageOf(requirement, tests));
    if gap.Some? {
      ObserveBlocks(gap.value, requirement.ref.id, requirement.location, NoTest);
    } else {
      var f := (test: BoundTest) => FailingFinding(DEFAULT_POLICY, requirement.ref.id, test);
      SomeBlocksFlatMap(f, tests);
      forall test ensures SomeBlocks(f(test)) <==> test.outcome == Failed || test.outcome == Errored {
        ObserveBlocks(FailingBoundTest, requirement.ref.id, LocationOfTest(test),
                      OfTest(test.resultsFile, test.className, test.name));
      }
    }
  }

  lemma RowBlocks(input: Input, focused: Focused)
    requires UniqueIds(input.requirements) && focused in input.requirements
    ensures SomeBlocks(RowFindings(DEFAULT_POLICY, SettledRow(focused, AllBindings(input))))
            <==> !Verified(input.testCases, focused)
  {
    var requirement := focused.requirement;
    var bound := TestsOf(AllBindings(input), requirement.ref.id);
    var tests := StableSort(bound, InTestOrder);
    if requirement.status == NonTestable {
      ObserveBlocks(UnjustifiedNonTestable, requirement.ref.id, requirement.location, NoTest);
      ObserveBlocks(BoundNonTestable, requirement.ref.id, requirement.location, NoTest);
      SomeBlocksConcat(if requirement.justification == "" then
                       Observe(DEFAULT_POLICY, UnjustifiedNonTestable, requirement.ref.id, requirement.location, NoTest)
                       else [],
                       if tests != [] then
                         Observe(DEFAULT_POLICY, BoundNonTestable, requirement.ref.id, requirement.location, NoTest)
                       else []);
    } else {
      SortedDeclarations(input.requirements);
      DeclaredAreKnown(InOrder(input.requirements), focused);
      GapBlocks(requirement, tests);
      SortedTests(bound, Passed);
      SortedTests(bound, Failed);
      SortedTests(bound, Errored);
      BoundOutcomes(input, requirement.ref, Passed);
      BoundOutcomes(input, requirement.ref, Failed);
      BoundOutcomes(input, requirement.ref, Errored);
    }
  }

  lemma RowsBlock(input: Input, declared: seq<Focused>)
    requires UniqueIds(input.requirements) && forall focused | focused in declared :: focused in input.requirements
    ensures SomeBlocks(AllRowFindings(DEFAULT_POLICY, AllBindings(input), declared))
            <==> exists focused | focused in declared :: !Verified(input.testCases, focused)
  {
    var bindings := AllBindings(input);
    var f := (focused: Focused) => RowFindings(DEFAULT_POLICY, SettledRow(focused, bindings));
    SomeBlocksFlatMap(f, declared);
    forall focused | focused in declared ensures SomeBlocks(f(focused)) <==> !Verified(input.testCases, focused) {
      RowBlocks(input, focused);
    }
  }

  // ----- The verdict

  /** Everything the gate asks of a run, in terms of what the run collected. */
  ghost predicate Traced(input: Input) {
    && UniqueIds(input.requirements)
    && input.specProblems == []
    && (forall tag | tag in input.scan.tags :: tag.malformed == [] && forall ref | ref in tag.refs ::
          Declares(input.requirements, ref))
    && (forall testCase | testCase in input.testCases ::
          testCase.malformed == [] && forall ref | ref in testCase.refs :: Declares(input.requirements, ref))
    && forall focused | focused in input.requirements :: Verified(input.testCases, focused)
  }

  lemma ProblemsBlock(input: Input)
    requires input.policy == DEFAULT_POLICY
    ensures SomeBlocks(ProblemFindings(input)) <==> input.specProblems != []
  {
    var f := (location: Location) => Observe(input.policy, MalformedRequirement, "", location, NoTest);
    SomeBlocksFlatMap(f, input.specProblems);
    forall location ensures SomeBlocks(f(location)) {
      ObserveBlocks(MalformedRequirement, "", location, NoTest);
    }
    assert input.specProblems != [] ==> input.specProblems[0] in input.specProblems;
  }

  /**
   With unique IDs, the citations are clean exactly when every cited
   reference is declared and no tag is malformed.
   */
  lemma CitationsAreDeclared(input: Input)
    requires UniqueIds(input.requirements)
    ensures var known := KnownOf(InOrder(input.requirements));
            && (forall tag ::
                  TagDefect(known, tag)
                  <==> !(tag.malformed == [] && forall ref | ref in tag.refs :: Declares(input.requirements, ref)))
            && (forall testCase :: CitationDefect(known, testCase)
                                   <==> !(testCase.malformed == [] && forall ref | ref in testCase.refs ::
                                            Declares(input.requirements, ref)))
  {
    var declared := InOrder(input.requirements);
    SortedDeclarations(input.requirements);
    forall ref ensures Resolves(KnownOf(declared), ref) <==> Declares(input.requirements, ref) {
      ResolvesIffDeclared(declared, ref);
    }
  }

  /** With unique IDs, the parts of the analysis block exactly when the run is not traced. */
  lemma UniqueVerdict(input: Input)
    requires input.policy == DEFAULT_POLICY && UniqueIds(input.requirements)
    ensures var declared := InOrder(input.requirements);
            var known := KnownOf(declared);
            || SomeBlocks(ProblemFindings(input))
            || SomeBlocks(SourceFindings(DEFAULT_POLICY, known, input.scan.tags))
            || SomeBlocks(TestFindings(DEFAULT_POLICY, input.scan, known, input.testCases))
            || SomeBlocks(AllRowFindings(DEFAULT_POLICY, AllBindings(input), FirstDeclarations(declared)))
            <==> !Traced(input)
  {
    var declared := InOrder(input.requirements);
    var known := KnownOf(declared);
    SortedDeclarations(input.requirements);
    UniqueIdsAreFirst(declared);
    ProblemsBlock(input);
    SourceBlocks(known, input.scan.tags);
    CitationsAreDeclared(input);
    RowsBlock(input, declared);
    if forall tag | tag in input.scan.tags :: !TagDefect(known, tag) {
      TestsBlock(input.scan, known, input.testCases);
    }
  }

  /** The verdict under the default policy is a pass exactly when the run is traced. */
  lemma ExactVerdict(input: Input)
    requires input.policy == DEFAULT_POLICY
    ensures SomeBlocks(AllFindings(input)) <==> !Traced(input)
  {
    var declared := InOrder(input.requirements);
    var known, matched := KnownOf(declared), MatchedSources(input.scan, input.testCases);
    BlocksInAnyPart(DuplicateFindings(DEFAULT_POLICY, declared), ProblemFindings(input),
                    SourceFindings(DEFAULT_POLICY, known, input.scan.tags),
                    TestFindings(DEFAULT_POLICY, input.scan, known, input.testCases),
                    UnmatchedFindings(DEFAULT_POLICY, input.scan, known, matched, |input.scan.tags|),
                    AllRowFindings(DEFAULT_POLICY, AllBindings(input), FirstDeclarations(declared)));
    DuplicatesBlock(declared);
    SortedDeclarations(input.requirements);
    UnmatchedNeverBlock(input.scan, known, matched, |input.scan.tags|);
    if UniqueIds(input.requirements) {
      UniqueVerdict(input);
    }
  }

  lemma BlocksInAnyPart(a: seq<Finding>, b: seq<Finding>, c: seq<Finding>, d: seq<Finding>, e: seq<Finding>,
                        f: seq<Finding>)
    ensures SomeBlocks(a + b + c + d + e + f)
            <==> SomeBlocks(a) || SomeBlocks(b) || SomeBlocks(c) || SomeBlocks(d) || SomeBlocks(e) || SomeBlocks(f)
  {
    SomeBlocksConcat(a, b);
    SomeBlocksConcat(a + b, c);
    SomeBlocksConcat(a + b + c, d);
    SomeBlocksConcat(a + b + c + d, e);
    SomeBlocksConcat(a + b + c + d + e, f);
  }
}
