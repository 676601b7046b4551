/** The analyzer: one pass over what a run collected, accumulating bound tests and findings. */
module Analyzer {
  import opened Flattening
  import opened Labels
  import opened Ordering
  import opened Traceability
  import opened Wrappers

  class Analysis {
    const input: Input
    var known: map<string, Focused>
    var bound: map<string, seq<BoundTest>>
    var findings: seq<Finding>
    ghost var bindings: seq<Binding>

    /** The tests bound to an ID are those of its bindings, in their order. */
    ghost predicate Valid()
      reads this
    {
      forall id :: BoundTo(id) == TestsOf(bindings, id)
    }

    function BoundTo(id: string): seq<BoundTest>
      reads this
    {
      if id in bound then bound[id] else []
    }

    constructor (input: Input)
      ensures Valid() && this.input == input
      ensures known == map[] && findings == [] && bindings == []
    {
      this.input := input;
      known, bound, findings, bindings := map[], map[], [], [];
    }

    method Report(category: Category, id: string, location: Location, test: TestIdentity)
      modifies this`findings
      ensures findings == old(findings) + Observe(input.policy, category, id, location, test)
    {
      var severity := input.policy.SeverityOf(category);
      if severity == Off {
        return;
      }
      findings := findings + [Finding(category, severity, input.policy.Blocks(severity), id, location, test)];
    }

    method Bind(id: string, test: BoundTest)
      requires Valid()
      modifies this`bound, this`bindings
      ensures Valid() && bindings == old(bindings) + [Binding(id, test)]
    {
      bound := bound[id := BoundTo(id) + [test]];
      bindings := bindings + [Binding(id, test)];
      forall other ensures BoundTo(other) == TestsOf(bindings, other) {
        OneMoreBinding(old(bindings), Binding(id, test), other);
        assert old(BoundTo(other)) == TestsOf(old(bindings), other);
      }
    }

    /**
     The rows are the first declarations in location order; each later
     one of an ID adds a duplicate finding instead.
     */
    method IndexRequirements() returns (rows: seq<Focused>)
      requires known == map[]
      modifies this`known, this`findings
      ensures known == KnownOf(InOrder(input.requirements))
      ensures rows == FirstDeclarations(InOrder(input.requirements))
      ensures findings == old(findings) + DuplicateFindings(input.policy, InOrder(input.requirements))
    {
      var declared := InOrder(input.requirements);
      rows := [];
      for i := 0 to |declared|
        invariant known == KnownOf(declared[..i]) && rows == FirstDeclarations(declared[..i])
        invariant findings == old(findings) + DuplicateFindings(input.policy, declared[..i])
      {
        TakeOneMore(declared, i);
        var requirement := declared[i].requirement;
        if requirement.ref.id in known {
          Report(DuplicateID, requirement.ref.id, requirement.location, NoTest);
          continue;
        }
        known := known[requirement.ref.id := declared[i]];
        rows := rows + [declared[i]];
      }
      assert declared[..|declared|] == declared;
    }

    method ReportSpecProblems()
      modifies this`findings
      ensures findings == old(findings) + ProblemFindings(input)
    {
      ghost var f := (location: Location) => Observe(input.policy, MalformedRequirement, "", location, NoTest);
      for i := 0 to |input.specProblems|
        invariant findings == old(findings) + FlatMap(f, input.specProblems[..i])
      {
        FlatMapStep(f, input.specProblems, i);
        Report(MalformedRequirement, "", input.specProblems[i], NoTest);
      }
      assert input.specProblems[..|input.specProblems|] == input.specProblems;
    }

    method ReportUnresolved(ref: Ref, location: Location, test: TestIdentity)
      modifies this`findings
      ensures findings == old(findings) + UnresolvedFinding(input.policy, known, ref, location, test)
    {
      if ref.id !in known {
        Report(OrphanTag, ref.id, location, test);
        return;
      }
      Report(RevisionMismatch, ref.id, location, test);
    }

    method ReportTagMalformed(tag: SourceTag)
      modifies this`findings
      ensures findings == old(findings) + TagMalformedFindings(input.policy, tag)
    {
      ghost var f := (malformed: MalformedTag) => MalformedFinding(input.policy, tag.location, NoTest);
      for k := 0 to |tag.malformed|
        invariant findings == old(findings) + FlatMap(f, tag.malformed[..k])
      {
        FlatMapStep(f, tag.malformed, k);
        Report(MalformedTagFound, "", tag.location, NoTest);
      }
      assert tag.malformed[..|tag.malformed|] == tag.malformed;
    }

    method ReportTagRefs(tag: SourceTag) returns (reported: set<Ref>)
      modifies this`findings
      ensures findings == old(findings) + TagRefFindings(input.policy, known, tag)
      ensures reported == set ref | ref in tag.refs && !Resolves(known, ref)
    {
      reported := {};
      ghost var declaredIds := known;
      ghost var f := (ref: Ref) =>
                     if Resolves(declaredIds, ref) then []
                     else UnresolvedFinding(input.policy, declaredIds, ref, tag.location, NoTest);
      for k := 0 to |tag.refs|
        invariant findings == old(findings) + FlatMap(f, tag.refs[..k])
        invariant forall ref :: ref in reported <==> ref in tag.refs[..k] && !Resolves(declaredIds, ref)
      {
        var ref := tag.refs[k];
        FlatMapStep(f, tag.refs, k);
        ConcatAssociates(old(findings), FlatMap(f, tag.refs[..k]), f(ref));
        TakeOneMore(tag.refs, k);
        if Resolves(known, ref) {
          continue;
        }
        reported := reported + {ref};
        ReportUnresolved(ref, tag.location, NoTest);
      }
      assert tag.refs[..|tag.refs|] == tag.refs;
    }

    method ReportTag(tag: SourceTag) returns (reported: set<Ref>)
      modifies this`findings
      ensures findings
              == old(findings) + (TagMalformedFindings(input.policy, tag) + TagRefFindings(input.policy, known, tag))
      ensures reported == ReportedAtSource(known, [tag])
    {
      ReportTagMalformed(tag);
      reported := ReportTagRefs(tag);
      ConcatAssociates(old(findings), TagMalformedFindings(input.policy, tag),
                       TagRefFindings(input.policy, known, tag));
    }

    /**
     One finding for each defect of a tag, where the tag stands; the result
     holds the references a test need not report again.
     */
    method ReportSourceTagDefects() returns (reported: set<Ref>)
      modifies this`findings
      ensures findings == old(findings) + SourceFindings(input.policy, known, input.scan.tags)
      ensures reported == ReportedAtSource(known, input.scan.tags)
    {
      reported := {};
      var tags := input.scan.tags;
      ghost var declaredIds := known;
      ghost var f := (tag: SourceTag) =>
                     TagMalformedFindings(input.policy, tag) + TagRefFindings(input.policy, declaredIds, tag);
      for i := 0 to |tags|
        invariant findings == old(findings) + FlatMap(f, tags[..i])
        invariant reported == ReportedAtSource(known, tags[..i])
      {
        FlatMapStep(f, tags, i);
        ReportedStep(known, tags, i);
        ConcatAssociates(old(findings), FlatMap(f, tags[..i]), f(tags[i]));
        var more := ReportTag(tags[i]);
        reported := reported + more;
      }
      assert tags[..|tags|] == tags;
    }

    /** The source tags a citation comes from, and where the most specific of them is. */
    method SourcesOf(ref: Ref, identity: string) returns (source: Option<Location>, matched: seq<nat>)
      ensures (set i | i in matched) == MatchedIndexes(input.scan, ref, identity)
      ensures source == SourceOf(input.scan, ref, identity)
    {
      matched := [];
      var best, bestLength := -1, -1;
      for index := 0 to |input.scan.tags|
        invariant forall i: nat ::
                    i in matched <==> i < index && MatchesSource(input.scan, input.scan.tags[i], ref, identity)
        invariant best == -1 <==> matched == []
        invariant best == -1 ==> bestLength == -1
        invariant best != -1
                  ==> 0 <= best < index && best in matched
                      && bestLength == |Normalize(input.scan.isSpace, input.scan.tags[best].title)|
        invariant best != -1 ==> forall i | i in matched ::
                      var length := |Normalize(input.scan.isSpace, input.scan.tags[i].title)|;
                      length < bestLength || (length == bestLength && best <= i)
      {
        var tag := input.scan.tags[index];
        if !CitesRef(tag, ref) {
          continue;
        }
        var title := Normalize(input.scan.isSpace, tag.title);
        var occurs := ContainsLabel(input.scan.isWord, identity, title);
        if !occurs {
          continue;
        }
        matched := matched + [index];
        if |title| > bestLength {
          best, bestLength := index, |title|;
        }
      }
      if best < 0 {
        assert MatchedIndexes(input.scan, ref, identity) == {};
        return None, [];
      }
      assert MostSpecific(input.scan, ref, identity, best);
      source := Some(input.scan.tags[best].location);
    }

    /** One citation of a test case: bind it, or report it where no source tag does. */
    method BindCitation(testCase: TestCase, ref: Ref, identity: string, reportedAtSource: set<Ref>, matched: set<nat>)
      returns (more: set<nat>)
      requires Valid() && identity == IdentityText(input.scan, testCase)
               && reportedAtSource == ReportedAtSource(known, input.scan.tags)
      modifies this`bound, this`bindings, this`findings
      ensures Valid() && more == matched + MatchedIndexes(input.scan, ref, identity)
      ensures bindings == old(bindings) + CitationBinding(input.scan, known, testCase, ref)
      ensures findings == old(findings) + CitationFinding(input.policy, input.scan, known, testCase, ref)
    {
      var source, indexes := SourcesOf(ref, identity);
      more := matched + set i | i in indexes;
      if !Resolves(known, ref) {
        if ref !in reportedAtSource {
          ReportUnresolved(ref, Location(testCase.resultsFile, 0), IdentityOf(testCase));
        }
        return;
      }
      Bind(ref.id,
           BoundTest(testCase.resultsFile, testCase.suite, testCase.className, testCase.name, testCase.outcome,
                     source));
    }

    method BindTestCase(testCase: TestCase, reportedAtSource: set<Ref>, matched: set<nat>) returns (more: set<nat>)
      requires Valid() && reportedAtSource == ReportedAtSource(known, input.scan.tags)
      modifies this`bound, this`bindings, this`findings
      ensures Valid()
      ensures more == matched + MatchedSources(input.scan, [testCase])
      ensures bindings == old(bindings) + BindingsOfTest(input.scan, known, testCase)
      ensures findings == old(findings) + TestRefFindings(input.policy, input.scan, known, testCase)
    {
      var identity := Normalize(input.scan.isSpace, testCase.Identity());
      ghost var declaredIds := known;
      ghost var b := (ref: Ref) => CitationBinding(input.scan, declaredIds, testCase, ref);
      ghost var f := (ref: Ref) => CitationFinding(input.policy, input.scan, declaredIds, testCase, ref);
      more := matched;
      for k := 0 to |testCase.refs|
        invariant Valid()
        invariant more == matched + MatchedByRefs(input.scan, testCase.refs[..k], identity)
        invariant bindings == old(bindings) + FlatMap(b, testCase.refs[..k])
        invariant findings == old(findings) + FlatMap(f, testCase.refs[..k])
      {
        var ref := testCase.refs[k];
        FlatMapStep(b, testCase.refs, k);
        FlatMapStep(f, testCase.refs, k);
        MatchedByRefsStep(input.scan, testCase.refs, identity, k);
        ConcatAssociates(old(bindings), FlatMap(b, testCase.refs[..k]), b(ref));
        ConcatAssociates(old(findings), FlatMap(f, testCase.refs[..k]), f(ref));
        more := BindCitation(testCase, ref, identity, reportedAtSource, more);
      }
      assert testCase.refs[..|testCase.refs|] == testCase.refs;
      MatchedByOne(input.scan, testCase);
    }

    method ReportResultsOnlyMalformed(testCase: TestCase)
      modifies this`findings
      ensures findings == old(findings) + TestMalformedFindings(input.policy, input.scan, testCase)
    {
      ghost var f := (malformed: MalformedTag) => MalformedCitation(input.policy, input.scan, testCase, malformed);
      for k := 0 to |testCase.malformed|
        invariant findings == old(findings) + FlatMap(f, testCase.malformed[..k])
      {
        FlatMapStep(f, testCase.malformed, k);
        if SourceHasMalformed(input.scan.tags, testCase.malformed[k]) {
          continue;
        }
        Report(MalformedTagFound, "", Location(testCase.resultsFile, 0), IdentityOf(testCase));
      }
      assert testCase.malformed[..|testCase.malformed|] == testCase.malformed;
    }

    method ReportUntagged(testCase: TestCase)
      modifies this`findings
      ensures findings == old(findings) + UntaggedFinding(input.policy, testCase)
    {
      if |testCase.refs| > 0 || |testCase.malformed| > 0 {
        return;
      }
      Report(UntaggedTest, "", Location(testCase.resultsFile, 0), IdentityOf(testCase));
    }

    method AnalyzeTestCase(testCase: TestCase, reportedAtSource: set<Ref>, matched: set<nat>) returns (more: set<nat>)
      requires Valid() && reportedAtSource == ReportedAtSource(known, input.scan.tags)
      modifies this`bound, this`bindings, this`findings
      ensures Valid()
      ensures more == matched + MatchedSources(input.scan, [testCase])
      ensures bindings == old(bindings) + BindingsOfTest(input.scan, known, testCase)
      ensures findings == old(findings) + FindingsOfTest(input.policy, input.scan, known, testCase)
    {
      ghost var before := findings;
      more := BindTestCase(testCase, reportedAtSource, matched);
      ReportResultsOnlyMalformed(testCase);
      ReportUntagged(testCase);
      var r, m, u := TestRefFindings(input.policy, input.scan, known, testCase),
                     TestMalformedFindings(input.policy, input.scan, testCase), UntaggedFinding(input.policy, testCase);
      ConcatAssociates(before, r, m);
      ConcatAssociates(before, r + m, u);
    }

    /**
     Adds one binding for each resolved citation of each test case; the result
     holds the positions of the tags some test answered.
     */
    method BindTestCases() returns (matched: set<nat>)
      requires Valid()
      modifies this`bound, this`bindings, this`findings
      ensures Valid() && matched == MatchedSources(input.scan, input.testCases)
      ensures bindings == old(bindings) + CitationBindings(input.scan, known, input.testCases)
      ensures findings
              == old(findings) + SourceFindings(input.policy, known, input.scan.tags)
                 + TestFindings(input.policy, input.scan, known, input.testCases)
    {
      var reportedAtSource := ReportSourceTagDefects();
      ghost var start, cases := findings, input.testCases;
      matched := {};
      ghost var declaredIds := known;
      ghost var b := (testCase: TestCase) => BindingsOfTest(input.scan, declaredIds, testCase);
      ghost var f := (testCase: TestCase) => FindingsOfTest(input.policy, input.scan, declaredIds, testCase);
      for i := 0 to |input.testCases|
        invariant Valid() && matched == MatchedSources(input.scan, cases[..i])
        invariant bindings == old(bindings) + FlatMap(b, cases[..i])
        invariant findings == start + FlatMap(f, cases[..i])
      {
        FlatMapStep(b, cases, i);
        FlatMapStep(f, cases, i);
        MatchedSourcesStep(input.scan, cases, i);
        ConcatAssociates(old(bindings), FlatMap(b, cases[..i]), b(cases[i]));
        ConcatAssociates(start, FlatMap(f, cases[..i]), f(cases[i]));
        matched := AnalyzeTestCase(input.testCases[i], reportedAtSource, matched);
      }
      assert cases[..|cases|] == cases;
    }

    method BindUnmatchedTag(tag: SourceTag)
      requires Valid()
      modifies this`bound, this`bindings, this`findings
      ensures Valid() && bindings == old(bindings) + NotRunBindings(known, tag)
      ensures findings == old(findings) + UnmatchedTagFindings(input.policy, known, tag)
    {
      ghost var declaredIds := known;
      ghost var b := (ref: Ref) => NotRunBinding(declaredIds, tag, ref);
      ghost var f := (ref: Ref) => UnmatchedRefFindings(input.policy, declaredIds, tag, ref);
      for k := 0 to |tag.refs|
        invariant Valid()
        invariant bindings == old(bindings) + FlatMap(b, tag.refs[..k])
        invariant findings == old(findings) + FlatMap(f, tag.refs[..k])
      {
        FlatMapStep(b, tag.refs, k);
        FlatMapStep(f, tag.refs, k);
        ConcatAssociates(old(bindings), FlatMap(b, tag.refs[..k]), b(tag.refs[k]));
        ConcatAssociates(old(findings), FlatMap(f, tag.refs[..k]), f(tag.refs[k]));
        BindUnmatchedRef(tag, tag.refs[k]);
      }
      assert tag.refs[..|tag.refs|] == tag.refs;
    }

    method BindUnmatchedRef(tag: SourceTag, ref: Ref)
      requires Valid()
      modifies this`bound, this`bindings, this`findings
      ensures Valid() && bindings == old(bindings) + NotRunBinding(known, tag, ref)
      ensures findings == old(findings) + UnmatchedRefFindings(input.policy, known, tag, ref)
    {
      if !Resolves(known, ref) {
        return;
      }
      Report(TagNotInResults, ref.id, tag.location, NoTest);
      Bind(ref.id, BoundTest("", "", "", tag.title, NotRun, Some(tag.location)));
    }

    /** Binds, as not run, the resolved references of the tags outside the set. */
    method BindUnmatchedSourceTags(matched: set<nat>)
      requires Valid()
      modifies this`bound, this`bindings, this`findings
      ensures Valid() && bindings == old(bindings) + UnmatchedBindings(input.scan, known, matched, |input.scan.tags|)
      ensures findings == old(findings) + UnmatchedFindings(input.policy, input.scan, known, matched, |input.scan.tags|)
    {
      for index := 0 to |input.scan.tags|
        invariant Valid()
        invariant bindings == old(bindings) + UnmatchedBindings(input.scan, known, matched, index)
        invariant findings == old(findings) + UnmatchedFindings(input.policy, input.scan, known, matched, index)
      {
        if index in matched {
          continue;
        }
        ConcatAssociates(old(bindings), UnmatchedBindings(input.scan, known, matched, index),
                         NotRunBindings(known, input.scan.tags[index]));
        ConcatAssociates(old(findings), UnmatchedFindings(input.policy, input.scan, known, matched, index),
                         UnmatchedTagFindings(input.policy, known, input.scan.tags[index]));
        BindUnmatchedTag(input.scan.tags[index]);
      }
    }

    method SettleNonTestable(row: Row)
      modifies this`findings
      ensures findings == old(findings) + NonTestableFindings(input.policy, row.requirement, row.tests)
    {
      if row.requirement.justification == "" {
        Report(UnjustifiedNonTestable, row.requirement.ref.id, row.requirement.location, NoTest);
      }
      if |row.tests| > 0 {
        Report(BoundNonTestable, row.requirement.ref.id, row.requirement.location, NoTest);
      }
    }

    method ReportCoverageGap(row: Row)
      modifies this`findings
      ensures findings == old(findings) + GapFindings(input.policy, row.requirement, row.coverage, row.tests)
    {
      var gap := GapCategory(row.coverage);
      if gap.Some? {
        Report(gap.value, row.requirement.ref.id, row.requirement.location, NoTest);
        return;
      }
      ghost var f := (test: BoundTest) => FailingFinding(input.policy, row.requirement.ref.id, test);
      for k := 0 to |row.tests|
        invariant findings == old(findings) + FlatMap(f, row.tests[..k])
      {
        FlatMapStep(f, row.tests, k);
        var test := row.tests[k];
        if test.outcome != Failed && test.outcome != Errored {
          continue;
        }
        Report(FailingBoundTest, row.requirement.ref.id, LocationOfTest(test),
               OfTest(test.resultsFile, test.className, test.name));
      }
      assert row.tests[..|row.tests|] == row.tests;
    }

    method Coverage(requirement: Requirement, tests: seq<BoundTest>) returns (coverage: Coverage)
      ensures coverage == CoverageOf(requirement, tests)
    {
      if requirement.status == NonTestable {
        return CoverageNonTestable;
      }
      var seen: set<TestOutcome> := {};
      for k := 0 to |tests|
        invariant forall outcome :: outcome in seen <==> exists j | 0 <= j < k :: tests[j].outcome == outcome
      {
        seen := seen + {tests[k].outcome};
      }
      assert forall outcome :: outcome in seen <==> HasOutcome(tests, outcome);
      return if Passed in seen then Covered
        else if Failed in seen || Errored in seen then CoverageFailed
        else if Skipped in seen then CoverageSkipped
        else if NotRun in seen then CoverageNotRun
        else Uncovered;
    }

    method SettleRow(focused: Focused) returns (row: Row)
      requires Valid()
      modifies this`findings
      ensures row == SettledRow(focused, bindings)
      ensures findings == old(findings) + RowFindings(input.policy, row)
    {
      var requirement := focused.requirement;
      var tests := StableSort(BoundTo(requirement.ref.id), InTestOrder);
      var coverage := Coverage(requirement, tests);
      row := Row(requirement, focused.inFocus, coverage, tests);
      if requirement.status == NonTestable {
        SettleNonTestable(row);
        return;
      }
      if row.inFocus {
        ReportCoverageGap(row);
      }
    }

    method SettleRows(declared: seq<Focused>) returns (rows: seq<Row>)
      requires Valid()
      modifies this`findings
      ensures rows == SettledRows(bindings, declared)
      ensures findings == old(findings) + AllRowFindings(input.policy, bindings, declared)
    {
      rows := [];
      assert declared[..0] == [];
      for i := 0 to |declared|
        invariant rows == SettledRows(bindings, declared[..i])
        invariant findings == old(findings) + AllRowFindings(input.policy, bindings, declared[..i])
      {
        RowsStep(bindings, declared, i);
        RowFindingsStep(input.policy, bindings, declared, i);
        ConcatAssociates(old(findings), AllRowFindings(input.policy, bindings, declared[..i]),
                         RowFindings(input.policy, SettledRow(declared[i], bindings)));
        var row := SettleRow(declared[i]);
        rows := rows + [row];
      }
      assert declared[..|declared|] == declared;
    }
  }

  lemma RowsStep(bindings: seq<Binding>, declared: seq<Focused>, i: nat)
    requires i < |declared|
    ensures SettledRows(bindings, declared[..i + 1])
            == SettledRows(bindings, declared[..i]) + [SettledRow(declared[i], bindings)]
  {
    TakeOneMore(declared, i);
    ApplyConcat((focused: Focused) => SettledRow(focused, bindings), declared[..i], [declared[i]]);
  }

  lemma RowFindingsStep(policy: Policy, bindings: seq<Binding>, declared: seq<Focused>, i: nat)
    requires i < |declared|
    ensures AllRowFindings(policy, bindings, declared[..i + 1])
            == AllRowFindings(policy, bindings, declared[..i]) + RowFindings(policy, SettledRow(declared[i], bindings))
  {
    FlatMapStep((focused: Focused) => RowFindings(policy, SettledRow(focused, bindings)), declared, i);
  }

  lemma ReportedStep(known: map<string, Focused>, tags: seq<SourceTag>, i: nat)
    requires i < |tags|
    ensures ReportedAtSource(known, tags[..i + 1])
            == ReportedAtSource(known, tags[..i]) + ReportedAtSource(known, [tags[i]])
  {
    TakeOneMore(tags, i);
  }

  lemma OneMoreBinding(bindings: seq<Binding>, binding: Binding, id: string)
    ensures TestsOf(bindings + [binding], id) == TestsOf(bindings, id) + if binding.id == id then [binding.test] else []
  {
    var all := bindings + [binding];
    FlatMapStep((b: Binding) => if b.id == id then [b.test] else [], all, |bindings|);
    assert all[..|bindings|] == bindings && all[..|bindings| + 1] == all;
  }

  /** The source tags that some of the references of one identity come from. */
  function MatchedByRefs(scan: Scan, refs: seq<Ref>, identity: string): set<nat> {
    set i: nat | i < |scan.tags| && exists ref | ref in refs :: MatchesSource(scan, scan.tags[i], ref, identity)
  }

  lemma MatchedByRefsStep(scan: Scan, refs: seq<Ref>, identity: string, k: nat)
    requires k < |refs|
    ensures MatchedByRefs(scan, refs[..k + 1], identity)
            == MatchedByRefs(scan, refs[..k], identity) + MatchedIndexes(scan, refs[k], identity)
  {
    TakeOneMore(refs, k);
  }

  lemma MatchedByOne(scan: Scan, testCase: TestCase)
    ensures MatchedSources(scan, [testCase]) == MatchedByRefs(scan, testCase.refs, IdentityText(scan, testCase))
  {
    assert testCase in [testCase];
  }

  lemma MatchedSourcesStep(scan: Scan, cases: seq<TestCase>, i: nat)
    requires i < |cases|
    ensures MatchedSources(scan, cases[..i + 1]) == MatchedSources(scan, cases[..i]) + MatchedSources(scan, [cases[i]])
  {
    TakeOneMore(cases, i);
  }

  /**
   The whole analysis where no proof is asked for: rows, findings in
   the order they arise, and the verdict they make.
   */
  method Analyze(input: Input) returns (rows: seq<Row>, findings: seq<Finding>, verdict: Verdict)
    ensures rows == Rows(input)
    ensures findings == AllFindings(input)
    ensures verdict == if SomeBlocks(findings) then VerdictFail else VerdictPass
  {
    var run := new Analysis(input);
    var declared := run.IndexRequirements();
    run.ReportSpecProblems();
    ghost var known := KnownOf(InOrder(input.requirements));
    assert run.findings == DuplicateFindings(input.policy, InOrder(input.requirements)) + ProblemFindings(input);
    ghost var atIndex := run.findings;
    var matched := run.BindTestCases();
    assert run.bindings == CitationBindings(input.scan, known, input.testCases);
    ghost var atTests := run.findings;
    assert atTests
           == atIndex + SourceFindings(input.policy, known, input.scan.tags)
              + TestFindings(input.policy, input.scan, known, input.testCases);
    run.BindUnmatchedSourceTags(matched);
    assert run.bindings == AllBindings(input);
    ghost var atTags := run.findings;
    assert atTags == atTests + UnmatchedFindings(input.policy, input.scan, known, matched, |input.scan.tags|);
    rows := run.SettleRows(declared);
    findings := run.findings;
    assert findings == atTags + AllRowFindings(input.policy, AllBindings(input), declared);
    verdict := VerdictOf(findings);
  }
}
