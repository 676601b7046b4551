/**
 What a citation is worth: one bound test for each, nothing for a source tag
 but a test that did not run, and no weight on the order of the test cases.
 */
module CitationLaws {
  import opened Flattening
  import opened Ordering
  import opened Traceability
  import opened TraceabilityLaws

  predicate Distinct<T(==)>(xs: seq<T>) {
    forall i, j | 0 <= i < j < |xs| :: xs[i] != xs[j]
  }

  // ----- One bound test for each citation

  /** The bound tests a reference has from the first references of a test case: one for each time they name it. */
  lemma {:induction false} CitationsBind(scan: Scan, known: map<string, Focused>, testCase: TestCase, refs: seq<Ref>,
                                         ref: Ref)
    requires Resolves(known, ref)
    ensures var tests := TestsOf(FlatMap((cited: Ref) => CitationBinding(scan, known, testCase, cited), refs), ref.id);
            |tests| == multiset(refs)[ref] && forall test | test in tests :: test == BoundBy(scan, testCase, ref)
  {
    var bind := (cited: Ref) => CitationBinding(scan, known, testCase, cited);
    var ofId := (binding: Binding) => if binding.id == ref.id then [binding.test] else [];
    if refs == [] {
    } else {
      var last := |refs| - 1;
      CitationsBind(scan, known, testCase, refs[..last], ref);
      assert refs == refs[..last] + [refs[last]];
      FlatMapConcat(ofId, FlatMap(bind, refs[..last]), bind(refs[last]));
      if bind(refs[last]) != [] {
        FlatMapOne(ofId, bind(refs[last])[0]);
      }
    }
  }

  /** The bound tests of a reference that come from one test case. */
  ghost function BoundOnce(scan: Scan, ref: Ref, testCase: TestCase): seq<BoundTest> {
    if ref in testCase.refs then [BoundBy(scan, testCase, ref)] else []
  }

  /**
   A test case that cites a reference once is bound to it once, and one
   that does not cite it is not bound to its ID at all.
   */
  lemma OneTestForEachCitation(scan: Scan, known: map<string, Focused>, testCase: TestCase, ref: Ref)
    requires Resolves(known, ref) && Distinct(testCase.refs)
    ensures TestsOf(BindingsOfTest(scan, known, testCase), ref.id) == BoundOnce(scan, ref, testCase)
  {
    CitationsBind(scan, known, testCase, testCase.refs, ref);
    OccursOnce(testCase.refs, ref);
    var tests := TestsOf(BindingsOfTest(scan, known, testCase), ref.id);
    if ref in testCase.refs {
      assert tests[0] in tests;
    }
  }

  lemma {:induction false} OccursOnce<T>(xs: seq<T>, x: T)
    requires Distinct(xs)
    ensures multiset(xs)[x] == if x in xs then 1 else 0
  {
    if xs != [] {
      var last := |xs| - 1;
      OccursOnce(xs[..last], x);
      assert xs == xs[..last] + [xs[last]];
    }
  }

  /** The bound tests a reference has from the results are the test cases that cite it, in their order. */
  lemma BoundTestsAreCitingCases(scan: Scan, known: map<string, Focused>, testCases: seq<TestCase>, ref: Ref)
    requires Resolves(known, ref) && forall testCase | testCase in testCases :: Distinct(testCase.refs)
    ensures TestsOf(CitationBindings(scan, known, testCases), ref.id)
            == FlatMap((testCase: TestCase) => BoundOnce(scan, ref, testCase), testCases)
  {
    var bind := (testCase: TestCase) => BindingsOfTest(scan, known, testCase);
    var ofId := (binding: Binding) => if binding.id == ref.id then [binding.test] else [];
    var once := (testCase: TestCase) => BoundOnce(scan, ref, testCase);
    forall testCase | testCase in testCases ensures FlatMap(ofId, bind(testCase)) == once(testCase) {
      OneTestForEachCitation(scan, known, testCase, ref);
    }
    FlatMapTwice(bind, ofId, once, testCases);
  }

  // ----- What a source tag is worth

  /** A tag that no citation comes from cites the reference. */
  ghost predicate TaggedOnly(input: Input, ref: Ref) {
    exists i: nat | i < |input.scan.tags| && i !in MatchedSources(input.scan, input.testCases) ::
      ref in input.scan.tags[i].refs
  }

  predicate TaggedBefore(scan: Scan, matched: set<nat>, ref: Ref, count: nat)
    requires count <= |scan.tags|
  {
    exists i: nat | i < count && i !in matched :: ref in scan.tags[i].refs
  }

  predicate BindsId(bindings: seq<Binding>, id: string) {
    exists binding | binding in bindings :: binding.id == id
  }

  lemma BindsIdConcat(xs: seq<Binding>, ys: seq<Binding>, id: string)
    ensures BindsId(xs + ys, id) <==> BindsId(xs, id) || BindsId(ys, id)
  {
    assert forall binding :: binding in xs + ys <==> binding in xs || binding in ys;
  }

  lemma TaggedBeforeStep(scan: Scan, matched: set<nat>, ref: Ref, count: nat)
    requires count < |scan.tags|
    ensures TaggedBefore(scan, matched, ref, count + 1)
            <==> TaggedBefore(scan, matched, ref, count) || (count !in matched && ref in scan.tags[count].refs)
  {
  }

  function BoundAt(scan: Scan, known: map<string, Focused>, matched: set<nat>, i: nat): seq<Binding>
    requires i < |scan.tags|
  {
    if i in matched then [] else NotRunBindings(known, scan.tags[i])
  }

  lemma TagBindsAt(scan: Scan, known: map<string, Focused>, matched: set<nat>, ref: Ref, i: nat)
    requires Resolves(known, ref) && i < |scan.tags|
    ensures BindsId(BoundAt(scan, known, matched, i), ref.id) <==> i !in matched && ref in scan.tags[i].refs
  {
    TagBinds(known, scan.tags[i], ref);
  }

  lemma UnmatchedStep(scan: Scan, known: map<string, Focused>, matched: set<nat>, i: nat)
    requires i < |scan.tags|
    ensures UnmatchedBindings(scan, known, matched, i + 1)
            == UnmatchedBindings(scan, known, matched, i) + BoundAt(scan, known, matched, i)
  {
  }

  lemma {:induction false} UnmatchedTagsBind(scan: Scan, known: map<string, Focused>, matched: set<nat>, ref: Ref,
                                             count: nat)
    requires Resolves(known, ref) && count <= |scan.tags|
    ensures BindsId(UnmatchedBindings(scan, known, matched, count), ref.id) <==> TaggedBefore(scan, matched, ref, count)
  {
    if count > 0 {
      var last := count - 1;
      UnmatchedTagsBind(scan, known, matched, ref, last);
      TaggedBeforeStep(scan, matched, ref, last);
      TagBindsAt(scan, known, matched, ref, last);
      UnmatchedStep(scan, known, matched, last);
      BindsIdConcat(UnmatchedBindings(scan, known, matched, last), BoundAt(scan, known, matched, last), ref.id);
    }
  }

  lemma TagBinds(known: map<string, Focused>, tag: SourceTag, ref: Ref)
    requires Resolves(known, ref)
    ensures BindsId(NotRunBindings(known, tag), ref.id) <==> ref in tag.refs
  {
    var bind := (cited: Ref) => NotRunBinding(known, tag, cited);
    if binding :| binding in NotRunBindings(known, tag) && binding.id == ref.id {
      FlatMapContains(bind, tag.refs, binding);
    }
    if ref in tag.refs {
      FlatMapContains(bind, tag.refs, bind(ref)[0]);
    }
  }

  /**
   A declared reference has a bound test that did not run exactly when a
   test case says so or an unmatched tag cites it.
   */
  lemma NotRunOutcome(input: Input, ref: Ref)
    requires Resolves(KnownOf(InOrder(input.requirements)), ref)
    ensures HasOutcome(TestsOf(AllBindings(input), ref.id), NotRun)
            <==> CitedWith(input.testCases, ref, NotRun) || TaggedOnly(input, ref)
  {
    var known := KnownOf(InOrder(input.requirements));
    var matched := MatchedSources(input.scan, input.testCases);
    var citations, unmatched := CitationBindings(input.scan, known, input.testCases),
                                UnmatchedBindings(input.scan, known, matched, |input.scan.tags|);
    assert AllBindings(input) == citations + unmatched;
    UnmatchedTagsBind(input.scan, known, matched, ref, |input.scan.tags|);
    if test :| test in TestsOf(AllBindings(input), ref.id) && test.outcome == NotRun {
      TestsOfContains(AllBindings(input), ref.id, test);
      CitationBindingsContain(input.scan, known, input.testCases, Binding(ref.id, test));
    }
    if binding :| binding in unmatched && binding.id == ref.id {
      UnmatchedAreNotRun(input.scan, known, matched, |input.scan.tags|);
      TestsOfContains(AllBindings(input), ref.id, binding.test);
    }
    if testCase :| testCase in input.testCases && ref in testCase.refs && testCase.outcome == NotRun {
      var test := BoundBy(input.scan, testCase, ref);
      CitationBindingsContain(input.scan, known, input.testCases, Binding(ref.id, test));
      TestsOfContains(AllBindings(input), ref.id, test);
    }
  }

  /** The coverage of a testable requirement in terms of what cites it: source tags only tell not run from uncovered. */
  ghost function CoverageByCitations(input: Input, ref: Ref): Coverage {
    if CitedWith(input.testCases, ref, Passed) then Covered
    else if CitedWith(input.testCases, ref, Failed) || CitedWith(input.testCases, ref, Errored) then CoverageFailed
    else if CitedWith(input.testCases, ref, Skipped) then CoverageSkipped
    else if CitedWith(input.testCases, ref, NotRun) || TaggedOnly(input, ref) then CoverageNotRun
    else Uncovered
  }

  /** Every row of the matrix is a declared requirement with the coverage its citations give it. */
  lemma ExactCoverage(input: Input, row: Row)
    requires row in Rows(input)
    ensures Resolves(KnownOf(InOrder(input.requirements)), row.requirement.ref)
    ensures row.coverage
            == if row.requirement.status == NonTestable then CoverageNonTestable
            else CoverageByCitations(input, row.requirement.ref)
  {
    var declared := InOrder(input.requirements);
    var i :| 0 <= i < |Rows(input)| && Rows(input)[i] == row;
    var focused := FirstDeclarations(declared)[i];
    FirstAreKnown(declared, focused);
    var ref, bound := row.requirement.ref, TestsOf(AllBindings(input), row.requirement.ref.id);
    SortedTests(bound, Passed);
    SortedTests(bound, Failed);
    SortedTests(bound, Errored);
    SortedTests(bound, Skipped);
    SortedTests(bound, NotRun);
    BoundOutcomes(input, ref, Passed);
    BoundOutcomes(input, ref, Failed);
    BoundOutcomes(input, ref, Errored);
    BoundOutcomes(input, ref, Skipped);
    NotRunOutcome(input, ref);
  }

  lemma DeclaredHasRow(input: Input, focused: Focused) returns (row: Row)
    requires UniqueIds(input.requirements) && focused in input.requirements
    ensures row in Rows(input) && row == SettledRow(focused, AllBindings(input))
  {
    var declared := InOrder(input.requirements);
    SortedDeclarations(input.requirements);
    UniqueIdsAreFirst(declared);
    var i :| 0 <= i < |declared| && declared[i] == focused;
    row := Rows(input)[i];
  }

  /** The row of a verified requirement in focus is covered, by a passing test. */
  lemma VerifiedRow(input: Input, focused: Focused) returns (row: Row)
    requires UniqueIds(input.requirements) && Verified(input.testCases, focused)
    requires focused in input.requirements && focused.inFocus && focused.requirement.status == Active
    ensures row in Rows(input) && row.requirement == focused.requirement && row.inFocus
    ensures row.coverage == Covered && HasOutcome(row.tests, Passed)
  {
    row := DeclaredHasRow(input, focused);
    ExactCoverage(input, row);
  }

  lemma {:induction false} FirstAreKnown(declared: seq<Focused>, focused: Focused)
    requires focused in FirstDeclarations(declared)
    ensures focused.requirement.ref.id in KnownOf(declared) && KnownOf(declared)[focused.requirement.ref.id] == focused
  {
    var earlier := declared[..|declared| - 1];
    if focused in FirstDeclarations(earlier) {
      FirstAreKnown(earlier, focused);
    }
  }

  /** Whatever the source scan found, it makes no requirement covered and none uncovered that a test case covers. */
  lemma TagsNeverCover(input: Input, other: Scan, i: nat)
    requires i < |Rows(input)|
    ensures var rescanned := Rows(input.(scan := other));
            i < |rescanned| && rescanned[i].requirement == Rows(input)[i].requirement
            && (rescanned[i].coverage.Covered? <==> Rows(input)[i].coverage.Covered?)
  {
    ExactCoverage(input, Rows(input)[i]);
    ExactCoverage(input.(scan := other), Rows(input.(scan := other))[i]);
  }

  // ----- The order of the test cases

  lemma CoverageAlike(requirement: Requirement, xs: seq<BoundTest>, ys: seq<BoundTest>)
    requires multiset(xs) == multiset(ys)
    ensures CoverageOf(requirement, xs) == CoverageOf(requirement, ys)
  {
    SameMembers(xs, ys);
    forall outcome ensures HasOutcome(xs, outcome) <==> HasOutcome(ys, outcome) {
    }
  }

  lemma SettledAlike(focused: Focused, xs: seq<Binding>, ys: seq<Binding>)
    requires multiset(xs) == multiset(ys)
    ensures var a, b := SettledRow(focused, xs), SettledRow(focused, ys);
            a.coverage == b.coverage && multiset(a.tests) == multiset(b.tests)
  {
    var id := focused.requirement.ref.id;
    var a, b := TestsOf(xs, id), TestsOf(ys, id);
    FlatMapPermutes((binding: Binding) => if binding.id == id then [binding.test] else [], xs, ys);
    SortPermutes(a, InTestOrder);
    SortPermutes(b, InTestOrder);
    CoverageAlike(focused.requirement, StableSort(a, InTestOrder), StableSort(b, InTestOrder));
  }

  lemma RowFindingsAlike(policy: Policy, focused: Focused, xs: seq<Binding>, ys: seq<Binding>)
    requires multiset(xs) == multiset(ys)
    ensures multiset(RowFindings(policy, SettledRow(focused, xs)))
            == multiset(RowFindings(policy, SettledRow(focused, ys)))
  {
    var a, b := SettledRow(focused, xs), SettledRow(focused, ys);
    SettledAlike(focused, xs, ys);
    SameMembers(a.tests, b.tests);
    FlatMapPermutes((test: BoundTest) => FailingFinding(policy, focused.requirement.ref.id, test), a.tests, b.tests);
  }

  lemma AllRowFindingsAlike(policy: Policy, declared: seq<Focused>, xs: seq<Binding>, ys: seq<Binding>)
    requires multiset(xs) == multiset(ys)
    ensures multiset(AllRowFindings(policy, xs, declared)) == multiset(AllRowFindings(policy, ys, declared))
  {
    forall focused
      ensures multiset(RowFindings(policy, SettledRow(focused, xs)))
              == multiset(RowFindings(policy, SettledRow(focused, ys)))
    {
      RowFindingsAlike(policy, focused, xs, ys);
    }
    FlatMapAlike((focused: Focused) => RowFindings(policy, SettledRow(focused, xs)),
                 (focused: Focused) => RowFindings(policy, SettledRow(focused, ys)), declared);
  }

  lemma BindingsAlike(input: Input, shuffled: seq<TestCase>)
    requires multiset(shuffled) == multiset(input.testCases)
    ensures MatchedSources(input.scan, shuffled) == MatchedSources(input.scan, input.testCases)
    ensures multiset(AllBindings(input.(testCases := shuffled))) == multiset(AllBindings(input))
  {
    var known := KnownOf(InOrder(input.requirements));
    SameMembers(shuffled, input.testCases);
    assert MatchedSources(input.scan, shuffled) == MatchedSources(input.scan, input.testCases);
    FlatMapPermutes((testCase: TestCase) => BindingsOfTest(input.scan, known, testCase), shuffled, input.testCases);
  }

  lemma PartsAlike<T>(a: seq<T>, b: seq<T>, b': seq<T>, c: seq<T>, d: seq<T>, d': seq<T>)
    requires multiset(b) == multiset(b') && multiset(d) == multiset(d')
    ensures multiset(a + b + c + d) == multiset(a + b' + c + d')
  {
    assert multiset(a + b + c + d) == multiset(a) + multiset(b) + multiset(c) + multiset(d);
    assert multiset(a + b' + c + d') == multiset(a) + multiset(b') + multiset(c) + multiset(d');
  }

  /**
   Under any policy, reordering the test cases keeps the coverage of
   every row, the findings up to order and the verdict.
   */
  lemma TestCaseOrderIsIrrelevant(input: Input, shuffled: seq<TestCase>)
    requires multiset(shuffled) == multiset(input.testCases)
    ensures var other := input.(testCases := shuffled);
            && multiset(AllFindings(other)) == multiset(AllFindings(input))
            && (SomeBlocks(AllFindings(other)) <==> SomeBlocks(AllFindings(input)))
            && |Rows(other)| == |Rows(input)|
            && forall i | 0 <= i < |Rows(input)| ::
                 && Rows(other)[i].requirement == Rows(input)[i].requirement
                 && Rows(other)[i].coverage == Rows(input)[i].coverage
                 && multiset(Rows(other)[i].tests) == multiset(Rows(input)[i].tests)
  {
    var other := input.(testCases := shuffled);
    FindingsAlike(input, shuffled);
    SameMembers(AllFindings(other), AllFindings(input));
    BindingsAlike(input, shuffled);
    var first := FirstDeclarations(InOrder(input.requirements));
    forall i | 0 <= i < |first|
      ensures Rows(other)[i].coverage == Rows(input)[i].coverage
              && multiset(Rows(other)[i].tests) == multiset(Rows(input)[i].tests)
    {
      SettledAlike(first[i], AllBindings(other), AllBindings(input));
    }
  }

  lemma FindingsAlike(input: Input, shuffled: seq<TestCase>)
    requires multiset(shuffled) == multiset(input.testCases)
    ensures multiset(AllFindings(input.(testCases := shuffled))) == multiset(AllFindings(input))
  {
    var other := input.(testCases := shuffled);
    var declared := InOrder(input.requirements);
    var known := KnownOf(declared);
    BindingsAlike(input, shuffled);
    FlatMapPermutes((testCase: TestCase) => FindingsOfTest(input.policy, input.scan, known, testCase), shuffled,
                    input.testCases);
    AllRowFindingsAlike(input.policy, FirstDeclarations(declared), AllBindings(other), AllBindings(input));
    PartsAlike(DuplicateFindings(input.policy, declared) + ProblemFindings(input)
               + SourceFindings(input.policy, known, input.scan.tags),
               TestFindings(input.policy, input.scan, known, shuffled),
               TestFindings(input.policy, input.scan, known, input.testCases),
               UnmatchedFindings(input.policy, input.scan, known, MatchedSources(input.scan, input.testCases),
                                 |input.scan.tags|),
               AllRowFindings(input.policy, AllBindings(other), FirstDeclarations(declared)),
               AllRowFindings(input.policy, AllBindings(input), FirstDeclarations(declared)));
  }
}
