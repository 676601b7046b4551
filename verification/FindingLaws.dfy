/** Which findings the gate makes: each is made exactly where the evidence warrants it, whatever made it is run in. */
module FindingLaws {
  import opened ClaimPower
  import opened Classification
  import opened Composition
  import opened GateFindings
  import opened GateInput
  import opened GateLaws
  import opened MatrixFindings
  import opened Ordering
  import opened ProofConfig
  import opened ProofFormat
  import opened Wrappers

  // ----- Absent proofs

  /** How a pending entry may spell the module that owes a proof of the kind. */
  function SpellingsOf(kind: Kind): set<string> {
    match kind
    case AlignmentKind => {"musthold-alignment", "alignment"}
    case DiscriminatingPowerKind => {"musthold-dp", "discriminating-power"}
    case CompletenessKind => {"musthold-completeness", "completeness"}
  }

  lemma SpellingsAre(name: string, kind: Kind)
    ensures KindOfModule(name) == Some(kind) <==> name in SpellingsOf(kind)
  {
    assert |"musthold-alignment"| == 18 && |"alignment"| == 9 && |"musthold-dp"| == 11
           && |"discriminating-power"| == 20 && |"musthold-completeness"| == 21 && |"completeness"| == 12;
  }

  /** The entry says that a proof of the kind for the criterion is on its way. */
  predicate Owes(entry: Pending, kind: Kind, criterion: Criterion) {
    entry.module_ in SpellingsOf(kind) && entry.criterion == criterion.ref.id + "~" + Decimal(criterion.ref.revision)
  }

  /** The entry at the place is the first that owes the proof. */
  predicate FirstOwing(entries: seq<Pending>, kind: Kind, criterion: Criterion, i: nat) {
    && i < |entries| && Owes(entries[i], kind, criterion)
    && forall j | 0 <= j < i :: !Owes(entries[j], kind, criterion)
  }

  predicate NoneOwes(entries: seq<Pending>, kind: Kind, criterion: Criterion) {
    forall entry | entry in entries :: !Owes(entry, kind, criterion)
  }

  lemma {:induction false} PendingForIs(entries: seq<Pending>, kind: Kind, criterion: Criterion)
    ensures PendingFor(entries, kind, criterion).None? <==> NoneOwes(entries, kind, criterion)
    ensures forall i: nat :: FirstOwing(entries, kind, criterion, i) ==>
              PendingFor(entries, kind, criterion) == Some(entries[i])
    ensures PendingFor(entries, kind, criterion).Some? ==> exists i: nat :: FirstOwing(entries, kind, criterion, i)
  {
    if entries != [] {
      SpellingsAre(entries[0].module_, kind);
      PendingForIs(entries[1..], kind, criterion);
      if Owes(entries[0], kind, criterion) {
        assert FirstOwing(entries, kind, criterion, 0);
      } else {
        forall i: nat ensures FirstOwing(entries, kind, criterion, i + 1) <==>
            FirstOwing(entries[1..], kind, criterion, i)
        {
          assert forall j | 0 <= j < i && j < |entries[1..]| :: entries[1..][j] == entries[j + 1];
        }
        forall i: nat | FirstOwing(entries, kind, criterion, i)
          ensures PendingFor(entries, kind, criterion) == Some(entries[i])
        {
          assert i > 0 && FirstOwing(entries[1..], kind, criterion, i - 1);
        }
        if PendingFor(entries, kind, criterion).Some? {
          var i: nat :| FirstOwing(entries[1..], kind, criterion, i);
          assert FirstOwing(entries, kind, criterion, i + 1);
        }
      }
    }
  }

  /** A missing matrix blocks, as a failed one does; anything else that is missing escalates. */
  function MissingEffect(kind: Kind): Effect {
    match kind
    case DiscriminatingPowerKind => EffectBlock
    case _ => EffectEscalate
  }

  /** What is said of a proof an entry owes, for the reason the entry gives. */
  function OwedFinding(kind: Kind, criterion: Criterion, entry: Pending): Finding {
    match entry.reason
    case PendingHost => Finding(AwaitingHost, MissingEffect(kind), entry.module_, criterion.ref.id, NoTopic)
    case PendingProof => Finding(AwaitingProof, MissingEffect(kind), entry.module_, criterion.ref.id, NoTopic)
    case PendingHostJudgment =>
      Finding(AwaitingHostJudgment, EffectEscalate, entry.module_, criterion.ref.id, NoTopic)
    case PendingUnresponsive => Finding(HostUnresponsive, EffectEscalate, entry.module_, criterion.ref.id, NoTopic)
  }

  /**
   An absent proof is owed by the first entry that says so, or waits for a matrix
   owed by the first that says so, or is stale.
   */
  ghost predicate WarrantedByAbsence(entries: seq<Pending>, kind: Kind, criterion: Criterion, topic: Topic,
                                     finding: Finding)
  {
    || (exists i: nat ::
          FirstOwing(entries, kind, criterion, i) && finding == OwedFinding(kind, criterion, entries[i]))
    || (&& NoneOwes(entries, kind, criterion) && kind == AlignmentKind
        && exists i: nat ::
          && FirstOwing(entries, DiscriminatingPowerKind, criterion, i)
          && finding == Finding(AwaitingProof, EffectEscalate, entries[i].module_, criterion.ref.id, NoTopic))
    || (&& NoneOwes(entries, kind, criterion)
        && (kind == AlignmentKind ==> NoneOwes(entries, DiscriminatingPowerKind, criterion))
        && finding == Finding(StaleProof, MissingEffect(kind), ModuleName(kind), criterion.ref.id, topic))
  }

  lemma AbsenceWarranted(entries: seq<Pending>, kind: Kind, criterion: Criterion, topic: Topic, finding: Finding)
    ensures AbsenceFinding(entries, kind, criterion, topic) == finding
            <==> WarrantedByAbsence(entries, kind, criterion, topic, finding)
  {
    PendingForIs(entries, kind, criterion);
    PendingForIs(entries, DiscriminatingPowerKind, criterion);
  }

  // ----- Tests

  function AmbiguousTest(criterion: Criterion, test: TestName): Finding {
    Finding(MalformedProof, EffectBlock, "musthold-alignment", criterion.ref.id, OfTest(test.name))
  }

  function UnclearedTest(criterion: Criterion, test: TestName): Finding {
    Finding(MisalignedTest, EffectEscalate, "musthold-alignment", criterion.ref.id, OfTest(test.name))
  }

  ghost predicate AboutTest(config: Config, criterion: Criterion, test: TestName, alignments: seq<Alignment>,
                            tainted: set<string>, finding: Finding)
  {
    || (NamedTwice(alignments, test) && finding == AmbiguousTest(criterion, test))
    || (Uncleared(config, alignments, tainted, test) && finding == UnclearedTest(criterion, test))
  }

  ghost predicate AboutSomeTest(config: Config, criterion: Criterion, tests: seq<TestName>,
                                alignments: seq<Alignment>, tainted: set<string>, finding: Finding)
  {
    exists test | test in tests :: AboutTest(config, criterion, test, alignments, tainted, finding)
  }

  lemma TestFindingIs(config: Config, criterion: Criterion, test: TestName, alignments: seq<Alignment>,
                      tainted: set<string>, finding: Finding)
    ensures finding in TestFinding(config, criterion, test, Matching(alignments, test), tainted)
            <==> AboutTest(config, criterion, test, alignments, tainted, finding)
  {
    MatchingIs(alignments, test);
    UnclearedIff(config, alignments, tainted, test);
  }

  lemma {:induction false} TestFindingsAre(config: Config, criterion: Criterion, tests: seq<TestName>,
                                           alignments: seq<Alignment>, tainted: set<string>, finding: Finding)
    ensures finding in TestFindings(config, criterion, tests, alignments, tainted)
            <==> AboutSomeTest(config, criterion, tests, alignments, tainted, finding)
  {
    if tests != [] {
      var earlier, test := tests[..|tests| - 1], tests[|tests| - 1];
      TestFindingsAre(config, criterion, earlier, alignments, tainted, finding);
      TestFindingIs(config, criterion, test, alignments, tainted, finding);
      assert tests == earlier + [test];
      assert AboutSomeTest(config, criterion, tests, alignments, tainted, finding) <==>
        || AboutSomeTest(config, criterion, earlier, alignments, tainted, finding)
        || AboutTest(config, criterion, test, alignments, tainted, finding);
    }
  }

  /** The tests no verdict names, by name and in order. */
  lemma {:induction false} UnmatchedListsUnnamed(tests: seq<TestName>, alignments: seq<Alignment>)
    ensures Unmatched(tests, alignments) == [] <==> forall test | test in tests :: !Unnamed(alignments, test)
    ensures forall name :: name in Unmatched(tests, alignments)
              <==> exists test | test in tests :: Unnamed(alignments, test) && test.name == name
  {
    if tests != [] {
      var earlier, test := tests[..|tests| - 1], tests[|tests| - 1];
      UnmatchedListsUnnamed(earlier, alignments);
      UnmatchedOfMore(earlier, test, alignments);
      assert tests == earlier + [test];
    }
  }

  // ----- A criterion

  /** What warrants a finding about the matrix of a criterion: several, one, or none where one is required. */
  ghost predicate WarrantedByPower(input: Input, criterion: Criterion, powers: seq<DiscriminatingPower>,
                                   finding: Finding)
  {
    || (|powers| == 1 && WarrantedByMatrix(input.config, criterion.ref.id, powers[0], finding))
    || (|powers| > 1
        && finding == Finding(MalformedProof, EffectBlock, "musthold-dp", criterion.ref.id, NoTopic))
    || (&& (|powers| > 1 || (|powers| == 0 && DiscriminatingPowerKind in input.config.require))
        && WarrantedByAbsence(input.evidence.pending, DiscriminatingPowerKind, criterion, NoTopic, finding))
  }

  /** What warrants one about its verdicts: several for a test, one that does not speak for it, or none required. */
  ghost predicate WarrantedByVerdicts(input: Input, criterion: Criterion, alignments: seq<Alignment>,
                                      tainted: set<string>, finding: Finding)
  {
    || AboutSomeTest(input.config, criterion, criterion.passingTests, alignments, tainted, finding)
    || (&& AlignmentKind in input.config.require && SomeUnmatched(criterion.passingTests, alignments)
        && WarrantedByAbsence(input.evidence.pending, AlignmentKind, criterion,
                              OfTests(Unmatched(criterion.passingTests, alignments)), finding))
  }

  lemma PowerPartExactly(input: Input, criterion: Criterion, powers: seq<DiscriminatingPower>, finding: Finding)
    ensures finding in PowerPart(input, criterion, powers) <==> WarrantedByPower(input, criterion, powers, finding)
  {
    AbsenceWarranted(input.evidence.pending, DiscriminatingPowerKind, criterion, NoTopic, finding);
    if |powers| == 1 {
      MatrixFindingsExactly(input.config, criterion.ref.id, powers[0], finding);
    }
  }

  lemma AlignmentPartExactly(input: Input, criterion: Criterion, alignments: seq<Alignment>, tainted: set<string>,
                             finding: Finding)
    ensures finding in AlignmentPart(input, criterion, alignments, tainted)
            <==> WarrantedByVerdicts(input, criterion, alignments, tainted, finding)
  {
    var tests := criterion.passingTests;
    TestFindingsAre(input.config, criterion, tests, alignments, tainted, finding);
    UnmatchedAre(tests, alignments);
    AbsenceWarranted(input.evidence.pending, AlignmentKind, criterion, OfTests(Unmatched(tests, alignments)), finding);
    assert forall test, alignment :: OnlyVerdict(alignments, test, alignment) ==> alignments != [];
  }

  /** The tests that count as tainted: those that killed a sentinel of the one matrix there is. */
  lemma TaintIs(powers: seq<DiscriminatingPower>, test: string)
    ensures test in TaintedTests(powers) <==> |powers| == 1 && KilledASentinel(powers[0].mutants, test)
  {
    if |powers| == 1 {
      TaintedIff(powers[0].mutants, test);
    }
  }

  ghost predicate WarrantedForCriterion(input: Input, statements: seq<Classified>, criterion: Criterion,
                                        finding: Finding)
  {
    var powers := Powers(statements, criterion.ref);
    || WarrantedByPower(input, criterion, powers, finding)
    || WarrantedByVerdicts(input, criterion, Alignments(statements, criterion.ref), TaintedTests(powers), finding)
  }

  lemma CriterionFindingsExactly(input: Input, statements: seq<Classified>, criterion: Criterion, finding: Finding)
    ensures finding in FindingsUnder(input, statements, criterion)
            <==> WarrantedForCriterion(input, statements, criterion, finding)
  {
    var powers, alignments := Powers(statements, criterion.ref), Alignments(statements, criterion.ref);
    PowerPartExactly(input, criterion, powers, finding);
    AlignmentPartExactly(input, criterion, alignments, TaintedTests(powers), finding);
  }

  // ----- The whole gate

  lemma {:induction false} CriteriaFindingsExactly(input: Input, statements: seq<Classified>, criteria: seq<Criterion>,
                                                   finding: Finding)
    ensures finding in AllCriterionFindings(input, statements, criteria)
            <==> exists criterion | criterion in criteria ::
                   WarrantedForCriterion(input, statements, criterion, finding)
  {
    if criteria != [] {
      var earlier, last := criteria[..|criteria| - 1], criteria[|criteria| - 1];
      CriteriaFindingsExactly(input, statements, earlier, finding);
      CriterionFindingsExactly(input, statements, last, finding);
      SomeStep(criteria, (criterion: Criterion) => WarrantedForCriterion(input, statements, criterion, finding));
    }
  }

  function FileFinding(path: string): Finding {
    Finding(MalformedProof, EffectBlock, "", "", OfFile(path))
  }

  lemma {:induction false} MalformedFindingsAre(statements: seq<Classified>, finding: Finding)
    ensures finding in MalformedFindings(statements)
            <==> exists file | file in statements ::
                   file.state == StateMalformed && finding == FileFinding(file.loaded.path)
  {
    if statements != [] {
      var earlier, last := statements[..|statements| - 1], statements[|statements| - 1];
      MalformedFindingsAre(earlier, finding);
      assert statements == earlier + [last];
    }
  }

  lemma {:induction false} QuestionFindingsAre(questions: seq<string>, finding: Finding)
    ensures finding in QuestionFindings(questions)
            <==> exists question | question in questions :: finding == Asked(question)
  {
    if questions != [] {
      var earlier, last := questions[..|questions| - 1], questions[|questions| - 1];
      QuestionFindingsAre(earlier, finding);
      assert questions == earlier + [last];
      assert finding in QuestionFindings(questions) <==> finding in QuestionFindings(earlier) || finding == Asked(last);
      assert last in questions;
    }
  }

  function Asked(question: string): Finding {
    Finding(CompletenessQuestion, EffectInform, "musthold-completeness", "", OfQuestion(question))
  }

  /** The counted statement is a completeness proof that asks the question. */
  predicate Asks(candidate: Classified, question: string) {
    && candidate.state == StateValid && candidate.loaded.content.Parsed?
    && candidate.loaded.content.statement.predicate_.OfCompleteness?
    && question in candidate.loaded.content.statement.predicate_.questions
  }

  ghost predicate AskedBy(candidate: Classified, finding: Finding) {
    exists question :: Asks(candidate, question) && finding == Asked(question)
  }

  lemma QuestionsOf(candidate: Classified, finding: Finding)
    ensures finding in CompletenessFindings([candidate]) <==> AskedBy(candidate, finding)
  {
    assert [candidate][..0] == [];
    if candidate.loaded.content.Parsed? && candidate.loaded.content.statement.predicate_.OfCompleteness? {
      QuestionFindingsAre(candidate.loaded.content.statement.predicate_.questions, finding);
    }
  }

  lemma CompletenessStep(earlier: seq<Classified>, last: Classified)
    ensures CompletenessFindings(earlier + [last]) == CompletenessFindings(earlier) + CompletenessFindings([last])
  {
    assert (earlier + [last])[..|earlier|] == earlier && [last][..0] == [];
  }

  ghost predicate AskedBySome(statements: seq<Classified>, finding: Finding) {
    exists file | file in statements :: AskedBy(file, finding)
  }

  lemma OneMoreAsks(earlier: seq<Classified>, last: Classified, finding: Finding)
    ensures AskedBySome(earlier + [last], finding) <==> AskedBySome(earlier, finding) || AskedBy(last, finding)
  {
    assert forall file :: file in earlier + [last] <==> file in earlier || file == last;
  }

  lemma CompletenessFindingsAre(statements: seq<Classified>, finding: Finding)
    ensures finding in CompletenessFindings(statements) <==> AskedBySome(statements, finding)
  {
    var agree := (k: nat) => k <= |statements| ==>
      (finding in CompletenessFindings(statements[..k]) <==> AskedBySome(statements[..k], finding));
    forall k: nat | k < |statements| && agree(k) ensures agree(k + 1) {
      TakeOneMore(statements, k);
      QuestionsOf(statements[k], finding);
      CompletenessStep(statements[..k], statements[k]);
      OneMoreAsks(statements[..k], statements[k], finding);
    }
    StepByStep(agree, |statements|);
    assert agree(|statements|) && statements[..|statements|] == statements;
  }

  /** What warrants a finding of the gate. */
  ghost predicate Warranted(input: Input, statements: seq<Classified>, finding: Finding) {
    || (input.evidence.manifestPresent && input.evidence.manifestProblem != ""
        && finding == FileFinding(input.evidence.manifest.path))
    || (exists file | file in statements :: file.state == StateMalformed && finding == FileFinding(file.loaded.path))
    || (exists criterion | criterion in input.criteria :: WarrantedForCriterion(input, statements, criterion, finding))
    || AskedBySome(statements, finding)
  }

  /** The gate makes exactly the findings that something warrants. */
  lemma FindingsExactly(input: Input, statements: seq<Classified>, finding: Finding)
    ensures finding in AllFindings(input, statements) <==> Warranted(input, statements, finding)
  {
    var criteria := StableSort(input.criteria, ByRefText);
    SortPermutes(input.criteria, ByRefText);
    SameMembers(criteria, input.criteria);
    MalformedFindingsAre(statements, finding);
    CriteriaFindingsExactly(input, statements, criteria, finding);
    CompletenessFindingsAre(statements, finding);
  }
}
