/** Which criteria a run asks the gate about, with which tests and files, and what the gate knows of requirements. */
module AskedAbout {
  import opened CitationLaws
  import opened Flattening
  import opened Ordering
  import opened Results
  import opened Settling
  import opened TraceFindings
  import opened Traceability
  import opened TraceabilityLaws
  import opened Wrappers
  import GateInput
  import ProofFormat

  // ----- The criteria

  /**
   The gate is asked about the declaration: it is in focus, it can be
   tested, and a test case that cites it passed.
   */
  ghost predicate IsAsked(input: Input, focused: Focused) {
    && focused.inFocus && focused.requirement.status != NonTestable
    && CitedWith(input.testCases, focused.requirement.ref, Passed)
  }

  /** Some passed test case that cites the reference goes by the name, in the file of the source tag it comes from. */
  ghost predicate PassesAs(input: Input, proofs: ProofInput, ref: Ref, name: GateInput.TestName) {
    exists testCase, test | testCase in input.testCases && ref in testCase.refs ::
      && testCase.outcome == Passed && Records(input.scan, testCase, ref, test)
      && name.name == testCase.name && name.className == testCase.className
      && name.file == match test.source case Some(at) => proofs.relativeToBase(at.file) case None => ""
  }

  /** Some source tag in the file cites the reference. */
  predicate TaggedIn(input: Input, proofs: ProofInput, ref: Ref, file: string) {
    exists tag | tag in input.scan.tags :: ref in tag.refs && proofs.relativeToBase(tag.location.file) == file
  }

  /**
   The criterion is about the reference, with its passing tests and
   with the files that cite it, each once, in order.
   */
  ghost predicate Describes(input: Input, proofs: ProofInput, ref: Ref, criterion: GateInput.Criterion) {
    && criterion.ref.id == ref.id && criterion.ref.revision == ref.revision
    && (forall name :: name in criterion.passingTests <==> PassesAs(input, proofs, ref, name))
    && (forall file :: file in criterion.testFiles <==> TaggedIn(input, proofs, ref, file))
    && forall i, j | 0 <= i < j < |criterion.testFiles| :: Precedes(criterion.testFiles[i], criterion.testFiles[j])
  }

  lemma PassingTestsAre(input: Input, proofs: ProofInput, ref: Ref, name: GateInput.TestName)
    requires Resolves(KnownOf(InOrder(input.requirements)), ref)
    ensures name in PassingTests(proofs, StableSort(TestsOf(AllBindings(input), ref.id), InTestOrder))
            <==> PassesAs(input, proofs, ref, name)
  {
    var tests := TestsOf(AllBindings(input), ref.id);
    var sorted := StableSort(tests, InTestOrder);
    SortPermutes(tests, InTestOrder);
    SameMembers(sorted, tests);
    FlatMapContains((test: BoundTest) => PassingTest(proofs, test), sorted, name);
    if test :| test in sorted && name in PassingTest(proofs, test) {
      BoundTestsAre(input, ref, test);
      assert test in tests;
    }
    if testCase, test :| testCase in input.testCases && ref in testCase.refs && testCase.outcome == Passed
                         && Records(input.scan, testCase, ref, test) && name in PassingTest(proofs, test) {
      BoundTestsAre(input, ref, test);
      assert test in sorted;
    }
    PassesAsIff(input, proofs, ref, name);
  }

  lemma PassesAsIff(input: Input, proofs: ProofInput, ref: Ref, name: GateInput.TestName)
    ensures PassesAs(input, proofs, ref, name)
            <==> exists testCase, test | testCase in input.testCases && ref in testCase.refs ::
                   testCase.outcome == Passed && Records(input.scan, testCase, ref, test)
                   && name in PassingTest(proofs, test)
  {
  }

  lemma TestFilesAre(input: Input, proofs: ProofInput, ref: Ref)
    ensures var files := StableSort(FirstSeen(TaggedFiles(proofs, input.scan.tags, ref)), ByText);
            && (forall file :: file in files <==> TaggedIn(input, proofs, ref, file))
            && forall i, j | 0 <= i < j < |files| :: Precedes(files[i], files[j])
  {
    var tagged := TaggedFiles(proofs, input.scan.tags, ref);
    var seen := FirstSeen(tagged);
    var files := StableSort(seen, ByText);
    SortPermutes(seen, ByText);
    SameMembers(files, seen);
    FirstSeenIsDistinct(tagged);
    forall file ensures file in files <==> TaggedIn(input, proofs, ref, file) {
      FirstSeenKeepsMembers(tagged, file);
      FlatMapContains((tag: SourceTag) => TaggedFile(proofs, ref, tag), input.scan.tags, file);
    }
    SortKeepsDistinct(seen);
    forall i, j | 0 <= i < j < |files| ensures Precedes(files[i], files[j]) {
      SortAscends(seen, ByText, (text: string) => text, i, j);
      CompareStringsIff(files[i], files[j]);
      CompareStringsIff(files[j], files[i]);
      CompareStringsIdentifies(files[i], files[j]);
    }
  }

  lemma SortKeepsDistinct(texts: seq<string>)
    requires Distinct(texts)
    ensures Distinct(StableSort(texts, ByText))
  {
    var sorted := StableSort(texts, ByText);
    SortPermutes(texts, ByText);
    forall i, j | 0 <= i < j < |sorted| ensures sorted[i] != sorted[j] {
      OccursOnce(texts, sorted[i]);
      assert sorted[i] in multiset(texts);
      if sorted[i] == sorted[j] {
        TwiceInMultiset(sorted, i, j);
      }
    }
  }

  lemma TwiceInMultiset(texts: seq<string>, i: nat, j: nat)
    requires i < j < |texts| && texts[i] == texts[j]
    ensures multiset(texts)[texts[i]] >= 2
  {
    var left, right := texts[..j], texts[j..];
    assert texts == left + right;
    assert left[i] in multiset(left) && right[0] in multiset(right);
  }

  /** The criterion of a row of the matrix is that of its declaration. */
  lemma RowOfDeclaration(input: Input, proofs: ProofInput, focused: Focused)
    requires focused in FirstDeclarations(InOrder(input.requirements))
    ensures var row, ref := SettledRow(focused, AllBindings(input)), focused.requirement.ref;
            && row in Rows(input) && Resolves(KnownOf(InOrder(input.requirements)), ref)
            && (row.coverage == Covered <==> focused.requirement.status != NonTestable
                                             && CitedWith(input.testCases, ref, Passed))
  {
    var declared := InOrder(input.requirements);
    var k :| 0 <= k < |FirstDeclarations(declared)| && FirstDeclarations(declared)[k] == focused;
    var row := Rows(input)[k];
    assert row == SettledRow(focused, AllBindings(input));
    ExactCoverage(input, row);
  }

  lemma CriterionOfDescribes(input: Input, proofs: ProofInput, focused: Focused, criterion: GateInput.Criterion)
    requires focused in FirstDeclarations(InOrder(input.requirements))
    requires criterion in CriterionOf(proofs, input.scan.tags, SettledRow(focused, AllBindings(input)))
    ensures IsAsked(input, focused) && Describes(input, proofs, focused.requirement.ref, criterion)
  {
    var ref := focused.requirement.ref;
    RowOfDeclaration(input, proofs, focused);
    TestFilesAre(input, proofs, ref);
    forall name ensures name in criterion.passingTests <==> PassesAs(input, proofs, ref, name) {
      PassingTestsAre(input, proofs, ref, name);
    }
  }

  /** Every criterion the gate is asked about is that of a first declaration it is to be asked about. */
  lemma CriterionIsAsked(input: Input, proofs: ProofInput, criterion: GateInput.Criterion) returns (i: nat)
    requires criterion in GateOf(input, proofs).criteria
    ensures var declared := InOrder(input.requirements);
            && IsFirst(declared, i) && IsAsked(input, declared[i])
            && Describes(input, proofs, declared[i].requirement.ref, criterion)
  {
    var declared := InOrder(input.requirements);
    var ofRow := (row: Row) => CriterionOf(proofs, input.scan.tags, row);
    FlatMapContains(ofRow, Rows(input), criterion);
    var row :| row in Rows(input) && criterion in ofRow(row);
    var k :| 0 <= k < |Rows(input)| && Rows(input)[k] == row;
    var focused := FirstDeclarations(declared)[k];
    CriterionOfDescribes(input, proofs, focused, criterion);
    FirstDeclarationsAre(declared, focused);
    i :| i < |declared| && IsFirst(declared, i) && declared[i] == focused;
  }

  /** And every such declaration has a criterion. */
  lemma AskedHasCriterion(input: Input, proofs: ProofInput, i: nat) returns (criterion: GateInput.Criterion)
    requires var declared := InOrder(input.requirements); IsFirst(declared, i) && IsAsked(input, declared[i])
    ensures criterion in GateOf(input, proofs).criteria
    ensures Describes(input, proofs, InOrder(input.requirements)[i].requirement.ref, criterion)
  {
    var declared := InOrder(input.requirements);
    var focused := declared[i];
    FirstDeclarationsAre(declared, focused);
    RowOfDeclaration(input, proofs, focused);
    var ofRow := (row: Row) => CriterionOf(proofs, input.scan.tags, row);
    criterion := ofRow(SettledRow(focused, AllBindings(input)))[0];
    FlatMapContains(ofRow, Rows(input), criterion);
    CriterionOfDescribes(input, proofs, focused, criterion);
  }

  /** The passing tests keep the order of the tests of the row: each part of the list contributes its own. */
  lemma PassingTestsInOrder(proofs: ProofInput, earlier: seq<BoundTest>, later: seq<BoundTest>, test: BoundTest)
    ensures PassingTests(proofs, earlier + later) == PassingTests(proofs, earlier) + PassingTests(proofs, later)
    ensures test.outcome != Passed ==> PassingTests(proofs, [test]) == []
    ensures test.outcome == Passed ==>
              PassingTests(proofs, [test])
              == [GateInput.TestName(test.name, test.className, match test.source
                                     case Some(at) => proofs.relativeToBase(at.file) case None => "")]
  {
    var f := (one: BoundTest) => PassingTest(proofs, one);
    FlatMapConcat(f, earlier, later);
    FlatMapOne(f, test);
  }

  // ----- What is known of the requirements

  lemma {:induction false} KnownRowsAre(proofs: ProofInput, rows: seq<Row>, id: string)
    ensures id in KnownRows(proofs, rows) <==> exists row | row in rows :: row.requirement.ref.id == id
    ensures id in KnownRows(proofs, rows) ==> exists row | row in rows ::
              && row.requirement.ref.id == id && KnownRows(proofs, rows)[id].revision == row.requirement.ref.revision
              && KnownRows(proofs, rows)[id].digest == proofs.statementDigest(row.requirement)
  {
    if rows != [] {
      var earlier, last := rows[..|rows| - 1], rows[|rows| - 1];
      KnownRowsAre(proofs, earlier, id);
      assert rows == earlier + [last];
    }
  }

  /** The gate knows the revision and the digest of the statement of every declared ID, as first declared. */
  lemma KnownAre(input: Input, proofs: ProofInput, id: string)
    ensures var known, declared := GateOf(input, proofs).known, InOrder(input.requirements);
            && (id in known <==> DeclaredId(declared, id))
            && forall i: nat | IsFirst(declared, i) && declared[i].requirement.ref.id == id ::
                 id in known && known[id].revision == declared[i].requirement.ref.revision
                 && known[id].digest == proofs.statementDigest(declared[i].requirement)
  {
    var declared, rows := InOrder(input.requirements), Rows(input);
    KnownRowsAre(proofs, rows, id);
    forall focused ensures focused in FirstDeclarations(declared) <==>
        exists i: nat | i < |declared| :: IsFirst(declared, i) && declared[i] == focused
    {
      FirstDeclarationsAre(declared, focused);
    }
    forall row | row in rows
      ensures exists i: nat | i < |declared| :: IsFirst(declared, i) && declared[i].requirement == row.requirement
    {
      var k :| 0 <= k < |rows| && rows[k] == row;
      assert FirstDeclarations(declared)[k] in FirstDeclarations(declared);
    }
    if DeclaredId(declared, id) {
      KnownIs(declared, id);
      var i: nat :| i < |declared| && IsFirst(declared, i) && declared[i].requirement.ref.id == id;
      RowOfDeclaration(input, proofs, declared[i]);
    }
    forall i: nat, j: nat | IsFirst(declared, i) && IsFirst(declared, j)
                            && declared[i].requirement.ref.id == declared[j].requirement.ref.id
      ensures i == j
    {
      OneFirst(declared, i, j);
    }
  }
}
