/**
 From the counted statements to findings, outcomes and reports: the matrix and the
 verdicts of each criterion are judged, and what is required but missing is found missing.
 */
module Composition {
  import opened Answers
  import opened ClaimPower
  import opened Classification
  import opened Counting
  import opened GateFindings
  import opened GateInput
  import opened Ordering
  import opened ProofConfig
  import opened ProofFormat
  import opened Wrappers

  datatype ModuleOutcome = ModulePass | ModuleEscalate | ModuleBlock | ModuleAbsent

  datatype ModuleReport = ModuleReport(state: State, outcome: ModuleOutcome)

  datatype CriterionReport = CriterionReport(ref: string, modules: map<Kind, ModuleReport>, absent: seq<Kind>,
                                             answered: Answered, hostExclusions: int, screenExclusions: int)

  // ----- Valid proofs of a criterion

  predicate IsProofOf(candidate: Classified, kind: Kind, ref: Requirement) {
    && candidate.loaded.content.Parsed?
    && candidate.loaded.content.statement.Kind() == kind
    && candidate.loaded.content.statement.RequirementOrZero() == ref
  }

  /** What the counted statements prove of one kind about one reference, earliest file first. */
  function ValidProofs(statements: seq<Classified>, kind: Kind, ref: Requirement): (proofs: seq<Statement>)
    ensures forall proof | proof in proofs :: proof.Kind() == kind
  {
    if statements == [] then []
    else
      var last := statements[|statements| - 1];
      ValidProofs(statements[..|statements| - 1], kind, ref)
      + (if last.Valid() && IsProofOf(last, kind, ref) then [last.loaded.content.statement] else [])
  }

  function Powers(statements: seq<Classified>, ref: Requirement): seq<DiscriminatingPower> {
    var proofs := ValidProofs(statements, DiscriminatingPowerKind, ref);
    seq(|proofs|, i requires 0 <= i < |proofs| => assert proofs[i] in proofs; proofs[i].predicate_.power)
  }

  function Alignments(statements: seq<Classified>, ref: Requirement): seq<Alignment> {
    var proofs := ValidProofs(statements, AlignmentKind, ref);
    seq(|proofs|, i requires 0 <= i < |proofs| => assert proofs[i] in proofs; proofs[i].predicate_.alignment)
  }

  predicate IsStaleProof(candidate: Classified, kind: Kind, id: string) {
    candidate.state == StateStale && candidate.loaded.content.Parsed?
    && candidate.loaded.content.statement.Kind() == kind
    && candidate.loaded.content.statement.RequirementOrZero().id == id
  }

  predicate HasStaleProof(statements: seq<Classified>, kind: Kind, id: string) {
    exists candidate | candidate in statements :: IsStaleProof(candidate, kind, id)
  }

  // ----- Absence

  /** A missing matrix is as strong as a failed one; a missing verdict only asks for attention. */
  function AbsenceEffect(kind: Kind): Effect {
    if kind == DiscriminatingPowerKind then EffectBlock else EffectEscalate
  }

  predicate IsPendingFor(pending: Pending, kind: Kind, criterion: Criterion) {
    KindOfModule(pending.module_) == Some(kind) && pending.criterion == criterion.RefText()
  }

  /** The first pending entry of a module of the kind for the criterion. */
  function PendingFor(entries: seq<Pending>, kind: Kind, criterion: Criterion): Option<Pending> {
    if entries == [] then None
    else if IsPendingFor(entries[0], kind, criterion) then Some(entries[0])
    else PendingFor(entries[1..], kind, criterion)
  }

  /** Alignment cannot be judged before the matrix is there, so an entry that waits for the matrix makes it wait too. */
  function PendingConsumed(entries: seq<Pending>, kind: Kind, criterion: Criterion): Option<Pending> {
    if kind == AlignmentKind then PendingFor(entries, DiscriminatingPowerKind, criterion) else None
  }

  function PendingCategory(reason: PendingReason): Category {
    match reason
    case PendingHost => AwaitingHost
    case PendingProof => AwaitingProof
    case PendingHostJudgment => AwaitingHostJudgment
    case PendingUnresponsive => HostUnresponsive
  }

  function PendingEffect(kind: Kind, reason: PendingReason): Effect {
    if reason.PendingHostJudgment? || reason.PendingUnresponsive? then EffectEscalate else AbsenceEffect(kind)
  }

  function AbsenceFinding(entries: seq<Pending>, kind: Kind, criterion: Criterion, topic: Topic): Finding {
    var own, consumed := PendingFor(entries, kind, criterion), PendingConsumed(entries, kind, criterion);
    if own.Some? then
      Finding(PendingCategory(own.value.reason), PendingEffect(kind, own.value.reason), own.value.module_,
              criterion.ref.id, NoTopic)
    else if consumed.Some? then
      Finding(AwaitingProof, AbsenceEffect(kind), consumed.value.module_, criterion.ref.id, NoTopic)
    else
      Finding(StaleProof, AbsenceEffect(kind), ModuleName(kind), criterion.ref.id, topic)
  }

  function AbsenceState(entries: seq<Pending>, kind: Kind, criterion: Criterion, stale: bool): State {
    if PendingFor(entries, kind, criterion).Some? || PendingConsumed(entries, kind, criterion).Some? then StatePending
    else if stale then StateStale
    else StateMissing
  }

  function AmbiguityFinding(kind: Kind, criterion: Criterion, topic: Topic): Finding {
    Finding(MalformedProof, EffectBlock, ModuleName(kind), criterion.ref.id, topic)
  }

  // ----- Discriminating power of a criterion

  function PowerPart(input: Input, criterion: Criterion, powers: seq<DiscriminatingPower>): seq<Finding> {
    var absence := AbsenceFinding(input.evidence.pending, DiscriminatingPowerKind, criterion, NoTopic);
    if |powers| > 1 then [AmbiguityFinding(DiscriminatingPowerKind, criterion, NoTopic), absence]
    else if |powers| == 1 then DpFindings(input.config, criterion.ref.id, powers[0])
    else if input.config.Requires(DiscriminatingPowerKind) then [absence]
    else []
  }

  /**
   The taint the alignment part works with: that of the one counted
   matrix, and none if there is no or no single matrix.
   */
  function TaintedTests(powers: seq<DiscriminatingPower>): set<string> {
    if |powers| == 1 then TaintedBy(powers[0].mutants) else {}
  }

  // ----- Alignment of a criterion

  /**
   The verdict lets the test pass: no taint, aligned, confident and isolated
   enough, and corroborated where the basis asks for it.
   */
  predicate Clears(config: Config, alignment: Alignment, test: TestName, tainted: set<string>) {
    var verdict := alignment.verdict;
    if test.name in tainted || (test.className != "" && test.className + "." + test.name in tainted) then false
    else if verdict.value == Misaligned then false
    else if verdict.value == VerdictUndetermined then false
    else if verdict.ConfidenceOrZero() < config.alignment.For(DecisionSource(alignment.decision)) then false
    else if !config.AboveFloor(verdict.ExecutorOf(alignment.executor)) then false
    else config.Basis() == JudgedBasis || verdict.Has(ALIGNMENT_MATRIX)
  }

  /** The alignment proofs that name the test. */
  function Matching(alignments: seq<Alignment>, test: TestName): seq<Alignment> {
    if alignments == [] then []
    else
      var last := alignments[|alignments| - 1];
      Matching(alignments[..|alignments| - 1], test) + (if Matches(last.test, test) then [last] else [])
  }

  function TestFinding(config: Config, criterion: Criterion, test: TestName, matching: seq<Alignment>,
                       tainted: set<string>): seq<Finding>
  {
    if |matching| > 1 then [AmbiguityFinding(AlignmentKind, criterion, OfTest(test.name))]
    else if |matching| == 1 && !Clears(config, matching[0], test, tainted) then
      [Finding(MisalignedTest, EffectEscalate, ModuleName(AlignmentKind), criterion.ref.id, OfTest(test.name))]
    else []
  }

  function TestFindings(config: Config, criterion: Criterion, tests: seq<TestName>, alignments: seq<Alignment>,
                        tainted: set<string>): seq<Finding>
  {
    if tests == [] then []
    else
      var last := tests[|tests| - 1];
      TestFindings(config, criterion, tests[..|tests| - 1], alignments, tainted)
      + TestFinding(config, criterion, last, Matching(alignments, last), tainted)
  }

  /** The tests no valid alignment proof names. */
  function Unmatched(tests: seq<TestName>, alignments: seq<Alignment>): seq<string> {
    if tests == [] then []
    else
      var last := tests[|tests| - 1];
      Unmatched(tests[..|tests| - 1], alignments) + (if Matching(alignments, last) == [] then [last.name] else [])
  }

  /** Who judged a test: the executor of its one proof, nobody where there is none or which counts is open. */
  function JudgeOf(matching: seq<Alignment>): seq<Executor> {
    if |matching| == 1 then [matching[0].verdict.ExecutorOf(matching[0].executor)] else []
  }

  function Judges(tests: seq<TestName>, alignments: seq<Alignment>): seq<Executor> {
    if tests == [] then []
    else Judges(tests[..|tests| - 1], alignments) + JudgeOf(Matching(alignments, tests[|tests| - 1]))
  }

  lemma {:induction false} NoProofNoJudge(tests: seq<TestName>)
    ensures Judges(tests, []) == []
  {
    if tests != [] {
      NoProofNoJudge(tests[..|tests| - 1]);
    }
  }

  lemma JudgesStep(answered: Answered, earlier: seq<TestName>, test: TestName, alignments: seq<Alignment>)
    ensures WithAnswers(answered, Judges(earlier + [test], alignments))
            == WithAnswers(WithAnswers(answered, Judges(earlier, alignments)), JudgeOf(Matching(alignments, test)))
  {
    var before, here := Judges(earlier, alignments), JudgeOf(Matching(alignments, test));
    assert (earlier + [test])[..|earlier + [test]| - 1] == earlier;
    if here != [] {
      WithOneMoreAnswer(answered, before, here[0]);
      WithOneMoreAnswer(WithAnswers(answered, before), [], here[0]);
      assert [] + [here[0]] == here;
    } else {
      assert before + here == before;
    }
  }

  /** What evaluating some tests adds to findings, answers and the tests without a proof. */
  ghost predicate TestsEvaluated(config: Config, criterion: Criterion, alignments: seq<Alignment>, tainted: set<string>,
                                 tests: seq<TestName>, before: seq<Finding>, counted: Answered,
                                 findings: seq<Finding>, answered: Answered, absent: seq<string>)
  {
    && findings == before + TestFindings(config, criterion, tests, alignments, tainted)
    && answered == WithAnswers(counted, Judges(tests, alignments))
    && absent == Unmatched(tests, alignments)
  }

  lemma TestsEvaluatedStep(config: Config, criterion: Criterion, alignments: seq<Alignment>, tainted: set<string>,
                           earlier: seq<TestName>, test: TestName, before: seq<Finding>, counted: Answered,
                           findings: seq<Finding>, answered: Answered, absent: seq<string>)
    requires TestsEvaluated(config, criterion, alignments, tainted, earlier, before, counted, findings, answered,
                            absent)
    ensures var matching := Matching(alignments, test);
            TestsEvaluated(config, criterion, alignments, tainted, earlier + [test], before, counted,
                           findings + TestFinding(config, criterion, test, matching, tainted),
                           WithAnswers(answered, JudgeOf(matching)),
                           absent + if matching == [] then [test.name] else [])
  {
    var matching := Matching(alignments, test);
    assert (earlier + [test])[..|earlier + [test]| - 1] == earlier;
    ConcatAssociates(before, TestFindings(config, criterion, earlier, alignments, tainted),
                     TestFinding(config, criterion, test, matching, tainted));
    JudgesStep(counted, earlier, test, alignments);
  }

  /** The tests without a proof, where one is required. */
  function AlignmentAbsence(input: Input, criterion: Criterion, absent: seq<string>): seq<Finding> {
    if absent != [] && input.config.Requires(AlignmentKind) then
      [AbsenceFinding(input.evidence.pending, AlignmentKind, criterion, OfTests(absent))]
    else []
  }

  function AlignmentPart(input: Input, criterion: Criterion, alignments: seq<Alignment>,
                         tainted: set<string>): seq<Finding>
  {
    if alignments == [] && !input.config.Requires(AlignmentKind) then []
    else
      TestFindings(input.config, criterion, criterion.passingTests, alignments, tainted)
      + AlignmentAbsence(input, criterion, Unmatched(criterion.passingTests, alignments))
  }

  /** Everything the proofs say of one criterion. */
  function CriterionFindings(input: Input, criterion: Criterion, powers: seq<DiscriminatingPower>,
                             alignments: seq<Alignment>): seq<Finding>
  {
    PowerPart(input, criterion, powers) + AlignmentPart(input, criterion, alignments, TaintedTests(powers))
  }

  ghost function CriterionOutcome(input: Input, criterion: Criterion, powers: seq<DiscriminatingPower>,
                                  alignments: seq<Alignment>): Outcome
  {
    Strongest(CriterionFindings(input, criterion, powers, alignments))
  }

  // ----- The report of a criterion

  function OutcomeOfModule(outcome: Outcome, earned: bool): ModuleOutcome {
    match outcome
    case Block => ModuleBlock
    case Escalate => ModuleEscalate
    case Pass => if earned then ModulePass else ModuleEscalate
  }

  // ----- The evaluation

  class Evaluation {
    const input: Input
    const statements: seq<Classified>
    var findings: seq<Finding>
    var report: CriterionReport
    var reports: seq<CriterionReport>
    var outcomes: map<Requirement, Outcome>

    constructor (input: Input, statements: seq<Classified>)
      requires forall candidate | candidate in statements :: candidate.Consistent()
      ensures this.input == input && this.statements == statements
      ensures findings == [] && reports == [] && outcomes == map[]
    {
      this.input, this.statements := input, statements;
      findings, reports, outcomes := [], [], map[];
      report := CriterionReport("", map[], [], NOBODY, 0, 0);
    }

    method Add(finding: Finding)
      modifies this`findings
      ensures findings == old(findings) + [finding]
    {
      findings := findings + [finding];
    }

    method ReportUnusableSet()
      modifies this`findings
      ensures findings == old(findings) + UnusableFindings(input)
    {
      if input.evidence.manifestPresent && input.evidence.manifestProblem != "" {
        Add(Finding(MalformedProof, EffectBlock, "", "", OfFile(input.evidence.manifest.path)));
      }
    }

    method ReportMalformed()
      modifies this`findings
      ensures findings == old(findings) + MalformedFindings(statements)
    {
      for i := 0 to |statements|
        invariant findings == old(findings) + MalformedFindings(statements[..i])
      {
        TakeOneMore(statements, i);
        if statements[i].state != StateMalformed {
          continue;
        }
        Add(Finding(MalformedProof, EffectBlock, "", "", OfFile(statements[i].loaded.path)));
      }
      assert statements[..|statements|] == statements;
    }

    method Valid(kind: Kind, criterion: Criterion) returns (found: seq<Statement>)
      requires forall candidate | candidate in statements :: candidate.Consistent()
      ensures found == ValidProofs(statements, kind, criterion.ref)
    {
      found := [];
      for i := 0 to |statements|
        invariant found == ValidProofs(statements[..i], kind, criterion.ref)
      {
        TakeOneMore(statements, i);
        var candidate := statements[i];
        assert candidate in statements;
        if !candidate.Valid() || candidate.loaded.content.statement.Kind() != kind {
          continue;
        }
        if candidate.loaded.content.statement.RequirementOrZero() == criterion.ref {
          found := found + [candidate.loaded.content.statement];
        }
      }
      assert statements[..|statements|] == statements;
    }

    method StaleReasons(kind: Kind, criterion: Criterion) returns (any: bool)
      ensures any <==> HasStaleProof(statements, kind, criterion.ref.id)
    {
      any := false;
      for i := 0 to |statements|
        invariant any <==> exists k | 0 <= k < i :: IsStaleProof(statements[k], kind, criterion.ref.id)
      {
        any := any || IsStaleProof(statements[i], kind, criterion.ref.id);
      }
    }

    /** Adds the one finding of an absent proof and says in what state its module is reported. */
    method ReportAbsence(kind: Kind, criterion: Criterion, topic: Topic, stale: bool) returns (state: State)
      modifies this`findings
      ensures findings == old(findings) + [AbsenceFinding(input.evidence.pending, kind, criterion, topic)]
      ensures state == AbsenceState(input.evidence.pending, kind, criterion, stale)
    {
      var pending := PendingFor(input.evidence.pending, kind, criterion);
      if pending.Some? {
        var effect := AbsenceEffect(kind);
        if pending.value.reason == PendingHostJudgment || pending.value.reason == PendingUnresponsive {
          effect := EffectEscalate;
        }
        Add(Finding(PendingCategory(pending.value.reason), effect, pending.value.module_, criterion.ref.id, NoTopic));
        return StatePending;
      }
      var waiting := PendingConsumed(input.evidence.pending, kind, criterion);
      if waiting.Some? {
        Add(Finding(AwaitingProof, AbsenceEffect(kind), waiting.value.module_, criterion.ref.id, NoTopic));
        return StatePending;
      }
      Add(Finding(StaleProof, AbsenceEffect(kind), ModuleName(kind), criterion.ref.id, topic));
      return if stale then StateStale else StateMissing;
    }

    method EvaluateDP(criterion: Criterion) returns (dp: DpEvaluation?)
      requires forall candidate | candidate in statements :: candidate.Consistent()
      modifies this`findings, this`report
      ensures dp != null ==> fresh(dp)
      ensures findings == old(findings) + PowerPart(input, criterion, Powers(statements, criterion.ref))
      ensures (if dp == null then {} else dp.tainted) == TaintedTests(Powers(statements, criterion.ref))
      ensures DpReported(input, statements, criterion, old(report), report)
    {
      var kind := DiscriminatingPowerKind;
      var found := Valid(kind, criterion);
      ghost var powers := Powers(statements, criterion.ref);
      dp := null;
      if |found| > 1 {
        Add(AmbiguityFinding(kind, criterion, NoTopic));
        found := [];
      } else if |found| == 0 && !input.config.Requires(kind) {
        return;
      }
      if |found| == 0 {
        var stale := StaleReasons(kind, criterion);
        var state := ReportAbsence(kind, criterion, NoTopic, stale);
        report :=
          report.(modules := report.modules[kind := ModuleReport(state, ModuleAbsent)],
                  absent := report.absent + [kind]);
        return;
      }
      assert found[0] in found && powers == [found[0].predicate_.power];
      dp := EvaluatePower(criterion, found[0].predicate_.power);
    }

    method EvaluatePower(criterion: Criterion, power: DiscriminatingPower) returns (dp: DpEvaluation)
      modifies this`findings, this`report
      ensures fresh(dp) && dp.tainted == TaintedBy(power.mutants)
      ensures findings == old(findings) + DpFindings(input.config, criterion.ref.id, power)
      ensures PowerReported(input, criterion, power, old(report), report)
    {
      var kind := DiscriminatingPowerKind;
      dp := EvaluateDiscriminatingPower(input.config, criterion.ref.id, power);
      findings := findings + dp.findings;
      var outcome := OutcomeOf(dp.findings);
      report :=
      report.(modules := report.modules[kind := ModuleReport(StateValid, OutcomeOfModule(outcome, dp.credited > 0))],
                        hostExclusions := report.hostExclusions + dp.hostExclusions,
                        screenExclusions := report.screenExclusions + dp.screenExclusions);
      var answered := MergeCounts(report.answered, dp.channels, dp.isolation);
      report := report.(answered := answered);
    }

    method SettleAlignment(criterion: Criterion, test: TestName, alignment: Alignment, tainted: set<string>)
      modifies this`findings, this`report
      ensures findings == old(findings) + TestFinding(input.config, criterion, test, [alignment], tainted)
      ensures report == old(report).(answered := WithAnswers(old(report).answered, JudgeOf([alignment])))
    {
      var executor := alignment.verdict.ExecutorOf(alignment.executor);
      WithOneMoreAnswer(report.answered, [], executor);
      assert [] + [executor] == [executor];
      report := report.(answered := WithAnswer(report.answered, executor));
      if !Clears(input.config, alignment, test, tainted) {
        Add(Finding(MisalignedTest, EffectEscalate, ModuleName(AlignmentKind), criterion.ref.id, OfTest(test.name)));
      }
    }

    method MatchingOf(found: seq<Statement>, test: TestName, ghost alignments: seq<Alignment>)
      returns (matching: seq<Alignment>)
      requires |alignments| == |found|
      requires forall i | 0 <= i < |found| ::
                 found[i].predicate_.OfAlignment? && found[i].predicate_.alignment == alignments[i]
      ensures matching == Matching(alignments, test)
    {
      matching := [];
      for i := 0 to |found|
        invariant matching == Matching(alignments[..i], test)
      {
        TakeOneMore(alignments, i);
        if Matches(found[i].predicate_.alignment.test, test) {
          matching := matching + [found[i].predicate_.alignment];
        }
      }
      assert alignments[..|found|] == alignments;
    }

    /** One passing test: no valid proof names it, one does and is settled, or several do. */
    method EvaluateTest(criterion: Criterion, test: TestName, matching: seq<Alignment>, tainted: set<string>)
      returns (absent: seq<string>)
      modifies this`findings, this`report
      ensures absent == if matching == [] then [test.name] else []
      ensures findings == old(findings) + TestFinding(input.config, criterion, test, matching, tainted)
      ensures report == old(report).(answered := WithAnswers(old(report).answered, JudgeOf(matching)))
    {
      absent := [];
      if |matching| == 0 {
        absent := [test.name];
      } else if |matching| == 1 {
        assert matching == [matching[0]];
        SettleAlignment(criterion, test, matching[0], tainted);
      } else {
        Add(AmbiguityFinding(AlignmentKind, criterion, OfTest(test.name)));
      }
    }

    method EvaluateTests(criterion: Criterion, found: seq<Statement>, tainted: set<string>,
                         ghost alignments: seq<Alignment>) returns (absent: seq<string>)
      requires |alignments| == |found|
      requires forall i | 0 <= i < |found| ::
                 found[i].predicate_.OfAlignment? && found[i].predicate_.alignment == alignments[i]
      modifies this`findings, this`report
      ensures absent == Unmatched(criterion.passingTests, alignments)
      ensures findings
              == old(findings) + TestFindings(input.config, criterion, criterion.passingTests, alignments, tainted)
      ensures report
              == old(report).(answered := WithAnswers(old(report).answered, Judges(criterion.passingTests, alignments)))
    {
      absent := [];
      var tests := criterion.passingTests;
      for i := 0 to |tests|
        invariant TestsEvaluated(input.config, criterion, alignments, tainted, tests[..i], old(findings),
                                 old(report.answered), findings, report.answered, absent)
        invariant report == old(report).(answered := report.answered)
      {
        assert tests[..i + 1] == tests[..i] + [tests[i]];
        TestsEvaluatedStep(input.config, criterion, alignments, tainted, tests[..i], tests[i], old(findings),
                           old(report.answered), findings, report.answered, absent);
        var matching := MatchingOf(found, tests[i], alignments);
        var more := EvaluateTest(criterion, tests[i], matching, tainted);
        absent := absent + more;
      }
      assert tests[..|tests|] == tests;
    }

    method EvaluateAlignment(criterion: Criterion, tainted: set<string>)
      requires forall candidate | candidate in statements :: candidate.Consistent()
      modifies this`findings, this`report
      ensures findings
              == old(findings) + AlignmentPart(input, criterion, Alignments(statements, criterion.ref), tainted)
      ensures AlignmentReported(input, statements, criterion, tainted, old(report), report)
    {
      var kind := AlignmentKind;
      var required := input.config.Requires(kind);
      var found := Valid(kind, criterion);
      ghost var alignments := Alignments(statements, criterion.ref);
      NoProofNoJudge(criterion.passingTests);
      if |found| == 0 && !required {
        return;
      }
      var first := |findings|;
      forall i | 0 <= i < |found|
        ensures found[i].predicate_.OfAlignment? && found[i].predicate_.alignment == alignments[i]
      {
        assert found[i] in found;
      }
      var absent := EvaluateTests(criterion, found, tainted, alignments);
      assert findings[first..] == TestFindings(input.config, criterion, criterion.passingTests, alignments, tainted);
      var strongest := OutcomeOf(findings[first..]);
      ReportAlignment(criterion, absent, |found| > 0, strongest);
    }

    /** Reports the module from the tests without a proof and the strongest finding about the others. */
    method ReportAlignment(criterion: Criterion, absent: seq<string>, found: bool, strongest: Outcome)
      modifies this`findings, this`report
      ensures findings == old(findings) + AlignmentAbsence(input, criterion, absent)
      ensures report == AlignmentSettled(input, statements, criterion, absent, found, strongest, old(report))
    {
      var kind := AlignmentKind;
      var required := input.config.Requires(kind);
      var state, outcome := StateValid, OutcomeOfModule(strongest, |absent| == 0);
      if |absent| > 0 && required {
        var stale := StaleReasons(kind, criterion);
        state := ReportAbsence(kind, criterion, OfTests(absent), stale);
        outcome := ModuleAbsent;
        report := report.(absent := report.absent + [kind]);
      } else if !found {
        return;
      }
      if |absent| > 0 && !required {
        state := StateMissing;
      }
      report := report.(modules := report.modules[kind := ModuleReport(state, outcome)]);
    }

    /** Asks both modules about one criterion, the second with the tests the first found tainted. */
    method AskModules(criterion: Criterion)
      requires forall candidate | candidate in statements :: candidate.Consistent()
      modifies this`findings, this`report
      ensures findings == old(findings) + FindingsUnder(input, statements, criterion)
      ensures ReportedAs(input, statements, criterion, report)
    {
      report := EmptyReport(criterion);
      var tainted: set<string> := {};
      var dp := EvaluateDP(criterion);
      if dp != null {
        tainted := dp.tainted;
      }
      ConcatAssociates(old(findings), PowerPart(input, criterion, Powers(statements, criterion.ref)),
                       AlignmentPart(input, criterion, Alignments(statements, criterion.ref), tainted));
      EvaluateAlignment(criterion, tainted);
    }

    method EvaluateCriterion(criterion: Criterion)
      requires forall candidate | candidate in statements :: candidate.Consistent()
      modifies this
      ensures findings == old(findings) + FindingsUnder(input, statements, criterion)
      ensures outcomes == old(outcomes)[criterion.ref := OutcomeUnder(input, statements, criterion)]
      ensures reports == old(reports) + [report] && ReportedAs(input, statements, criterion, report)
    {
      var first := |findings|;
      AskModules(criterion);
      assert findings[first..] == FindingsUnder(input, statements, criterion);
      var outcome := OutcomeOf(findings[first..]);
      outcomes := outcomes[criterion.ref := outcome];
      reports := reports + [report];
    }

    /** One informing finding for each question that a counted completeness proof asks. */
    method ReportCompleteness()
      requires forall candidate | candidate in statements :: candidate.Consistent()
      modifies this`findings
      ensures findings == old(findings) + CompletenessFindings(statements)
    {
      for i := 0 to |statements|
        invariant findings == old(findings) + CompletenessFindings(statements[..i])
      {
        TakeOneMore(statements, i);
        var candidate := statements[i];
        assert candidate in statements;
        if !candidate.Valid() || candidate.loaded.content.statement.Kind() != CompletenessKind {
          continue;
        }
        AddQuestions(candidate.loaded.content.statement.predicate_.questions);
      }
      assert statements[..|statements|] == statements;
    }

    method AddQuestions(questions: seq<string>)
      modifies this`findings
      ensures findings == old(findings) + QuestionFindings(questions)
    {
      for k := 0 to |questions|
        invariant findings == old(findings) + QuestionFindings(questions[..k])
      {
        TakeOneMore(questions, k);
        Add(Finding(CompletenessQuestion, EffectInform, ModuleName(CompletenessKind), "", OfQuestion(questions[k])));
      }
      assert questions[..|questions|] == questions;
    }
  }

  /** The report has what the two modules add to it, one after the other. */
  ghost predicate ReportedAs(input: Input, statements: seq<Classified>, criterion: Criterion, report: CriterionReport) {
    exists between: CriterionReport ::
      && DpReported(input, statements, criterion, EmptyReport(criterion), between)
      && AlignmentReported(input, statements, criterion, TaintedTests(Powers(statements, criterion.ref)), between,
                           report)
  }

  function EmptyReport(criterion: Criterion): CriterionReport {
    CriterionReport(criterion.RefText(), map[], [], NOBODY, 0, 0)
  }

  function QuestionFindings(questions: seq<string>): seq<Finding> {
    if questions == [] then []
    else
      QuestionFindings(questions[..|questions| - 1])
      + [Finding(CompletenessQuestion, EffectInform, ModuleName(CompletenessKind), "",
                 OfQuestion(questions[|questions| - 1]))]
  }

  function CompletenessFindings(statements: seq<Classified>): seq<Finding> {
    if statements == [] then []
    else
      var last := statements[|statements| - 1];
      CompletenessFindings(statements[..|statements| - 1])
      + (if last.Valid() && last.loaded.content.Parsed? && last.loaded.content.statement.Kind() == CompletenessKind then
           QuestionFindings(last.loaded.content.statement.predicate_.questions)
         else [])
  }

  /**
   The report with the alignment module, from the tests without a
   proof and the strongest finding about the others.
   */
  ghost function AlignmentSettled(input: Input, statements: seq<Classified>, criterion: Criterion, absent: seq<string>,
                                  found: bool,
                                  strongest: Outcome, before: CriterionReport): CriterionReport
  {
    var kind := AlignmentKind;
    if absent != [] && input.config.Requires(kind) then
      var state := AbsenceState(input.evidence.pending, kind, criterion,
                                HasStaleProof(statements, kind, criterion.ref.id));
      before.(modules := before.modules[kind := ModuleReport(state, ModuleAbsent)], absent := before.absent + [kind])
    else if !found then before
    else
      var state := if absent == [] then StateValid else StateMissing;
      before.(modules := before.modules[kind := ModuleReport(state, OutcomeOfModule(strongest, absent == []))])
  }

  /** What the alignment module adds to the report of a criterion: the answers of its judges, and its own standing. */
  ghost predicate AlignmentReported(input: Input, statements: seq<Classified>, criterion: Criterion,
                                    tainted: set<string>,
                                    before: CriterionReport, after: CriterionReport)
  {
    var alignments, tests := Alignments(statements, criterion.ref), criterion.passingTests;
    var answered := before.(answered := WithAnswers(before.answered, Judges(tests, alignments)));
    var strongest := Strongest(TestFindings(input.config, criterion, tests, alignments, tainted));
    after == AlignmentSettled(input, statements, criterion, Unmatched(tests, alignments), alignments != [], strongest,
                              answered)
  }

  // ----- The whole evaluation

  predicate ByRefText(a: Criterion, b: Criterion) {
    CompareStrings(a.RefText(), b.RefText()) <= 0
  }

  /** The outcome of a criterion under the states the gate gave the statements. */
  ghost function OutcomeUnder(input: Input, statements: seq<Classified>, criterion: Criterion): Outcome {
    CriterionOutcome(input, criterion, Powers(statements, criterion.ref), Alignments(statements, criterion.ref))
  }

  function FindingsUnder(input: Input, statements: seq<Classified>, criterion: Criterion): seq<Finding> {
    CriterionFindings(input, criterion, Powers(statements, criterion.ref), Alignments(statements, criterion.ref))
  }

  function AllCriterionFindings(input: Input, statements: seq<Classified>, criteria: seq<Criterion>): seq<Finding> {
    if criteria == [] then []
    else
      var last := criteria[|criteria| - 1];
      AllCriterionFindings(input, statements, criteria[..|criteria| - 1])
      + FindingsUnder(input, statements, last)
  }

  /** No other criterion of the slice has the reference of this one. */
  predicate Alone(criteria: seq<Criterion>, criterion: Criterion) {
    forall other | other in criteria && other.ref == criterion.ref :: other == criterion
  }

  ghost predicate HoldsOutcome(outcomes: map<Requirement, Outcome>, input: Input, statements: seq<Classified>,
                               criterion: Criterion)
  {
    criterion.ref in outcomes && outcomes[criterion.ref] == OutcomeUnder(input, statements, criterion)
  }

  /** Every criterion of the slice that no other shares its reference with has its outcome in the map. */
  ghost predicate HoldsOutcomes(outcomes: map<Requirement, Outcome>, input: Input, statements: seq<Classified>,
                                criteria: seq<Criterion>)
  {
    && outcomes.Keys == (set criterion | criterion in criteria :: criterion.ref)
    && forall criterion | criterion in criteria && Alone(criteria, criterion) ::
         HoldsOutcome(outcomes, input, statements, criterion)
  }

  lemma HoldsOutcomesStep(outcomes: map<Requirement, Outcome>, input: Input, statements: seq<Classified>,
                          earlier: seq<Criterion>, last: Criterion)
    requires HoldsOutcomes(outcomes, input, statements, earlier)
    ensures HoldsOutcomes(outcomes[last.ref := OutcomeUnder(input, statements, last)], input, statements,
                          earlier + [last])
  {
    var criteria, after := earlier + [last], outcomes[last.ref := OutcomeUnder(input, statements, last)];
    assert forall criterion :: criterion in criteria <==> criterion in earlier || criterion == last;
    forall criterion | criterion in criteria && Alone(criteria, criterion)
      ensures HoldsOutcome(after, input, statements, criterion)
    {
      if criterion.ref == last.ref {
        assert last in criteria;
      } else {
        assert Alone(earlier, criterion);
        assert HoldsOutcome(outcomes, input, statements, criterion);
      }
    }
  }

  lemma HoldsOutcomesPermutes(outcomes: map<Requirement, Outcome>, input: Input, statements: seq<Classified>,
                              criteria: seq<Criterion>, others: seq<Criterion>)
    requires multiset(criteria) == multiset(others) && HoldsOutcomes(outcomes, input, statements, criteria)
    ensures HoldsOutcomes(outcomes, input, statements, others)
  {
    SameMembers(criteria, others);
    forall criterion | criterion in others && Alone(others, criterion)
      ensures HoldsOutcome(outcomes, input, statements, criterion)
    {
      assert Alone(criteria, criterion);
    }
  }

  lemma AllCriterionFindingsStep(input: Input, statements: seq<Classified>, earlier: seq<Criterion>, last: Criterion)
    ensures AllCriterionFindings(input, statements, earlier + [last])
            == AllCriterionFindings(input, statements, earlier) + FindingsUnder(input, statements, last)
  {
    assert (earlier + [last])[..|earlier + [last]| - 1] == earlier;
  }

  /** One report for each criterion, in their order. */
  ghost predicate ReportedInOrder(input: Input, statements: seq<Classified>, criteria: seq<Criterion>,
                                  reports: seq<CriterionReport>)
  {
    |reports| == |criteria| && forall i | 0 <= i < |criteria| :: ReportedAs(input, statements, criteria[i], reports[i])
  }

  /** The findings since the start, the outcomes and the reports are those of the criteria. */
  ghost predicate Evaluated(start: seq<Finding>, findings: seq<Finding>, outcomes: map<Requirement, Outcome>,
                            reports: seq<CriterionReport>,
                            input: Input, statements: seq<Classified>, criteria: seq<Criterion>)
  {
    && HoldsOutcomes(outcomes, input, statements, criteria)
    && findings == start + AllCriterionFindings(input, statements, criteria)
    && ReportedInOrder(input, statements, criteria, reports)
  }

  lemma EvaluatedStep(start: seq<Finding>, findings: seq<Finding>, outcomes: map<Requirement, Outcome>,
                      reports: seq<CriterionReport>,
                      input: Input, statements: seq<Classified>, earlier: seq<Criterion>, last: Criterion,
                      report: CriterionReport)
    requires Evaluated(start, findings, outcomes, reports, input, statements, earlier)
    requires ReportedAs(input, statements, last, report)
    ensures Evaluated(start, findings + FindingsUnder(input, statements, last),
                      outcomes[last.ref := OutcomeUnder(input, statements, last)], reports + [report],
                      input, statements, earlier + [last])
  {
    HoldsOutcomesStep(outcomes, input, statements, earlier, last);
    AllCriterionFindingsStep(input, statements, earlier, last);
    ConcatAssociates(start, AllCriterionFindings(input, statements, earlier), FindingsUnder(input, statements, last));
  }

  method EvaluateAll(run: Evaluation, criteria: seq<Criterion>)
    requires forall candidate | candidate in run.statements :: candidate.Consistent()
    requires run.outcomes == map[] && run.reports == []
    modifies run
    ensures Evaluated(old(run.findings), run.findings, run.outcomes, run.reports, run.input, run.statements, criteria)
  {
    ghost var start := run.findings;
    for i := 0 to |criteria|
      invariant Evaluated(start, run.findings, run.outcomes, run.reports, run.input, run.statements, criteria[..i])
    {
      TakeOneMore(criteria, i);
      ghost var findings, outcomes, reports := run.findings, run.outcomes, run.reports;
      run.EvaluateCriterion(criteria[i]);
      EvaluatedStep(start, findings, outcomes, reports, run.input, run.statements, criteria[..i], criteria[i],
                    run.report);
    }
    assert criteria[..|criteria|] == criteria;
  }

  // ----- The report of the gate

  /**
   What is reported of a statement file, whether it counts or not; one
   that was not read has neither kind nor subject.
   */
  datatype ConsumedProof = ConsumedProof(path: string, digest: string, state: State, cause: Option<StaleCause>,
                                         kind: Option<Kind>, subject: string)

  /** What the gate consumed, under which policy, what it still waits for, and what it concluded. */
  datatype GateReport = GateReport(policy: Config, floorLowered: bool, manifest: Option<ManifestIdentity>,
                                   consumed: seq<ConsumedProof>, pending: seq<Pending>, criteria: seq<CriterionReport>)

  function ConsumedOf(candidate: Classified): ConsumedProof {
    var loaded := candidate.loaded;
    var kind := if loaded.content.Parsed? then Some(loaded.content.statement.Kind()) else None;
    var subject := if loaded.content.Parsed? then loaded.content.statement.subject.name else "";
    ConsumedProof(loaded.path, loaded.digest, candidate.state, candidate.cause, kind, subject)
  }

  predicate ByPath(a: ConsumedProof, b: ConsumedProof) {
    CompareStrings(a.path, b.path) <= 0
  }

  method ConsumedReport(statements: seq<Classified>) returns (consumed: seq<ConsumedProof>)
    ensures consumed == StableSort(Apply(ConsumedOf, statements), ByPath)
  {
    consumed := [];
    for i := 0 to |statements|
      invariant consumed == Apply(ConsumedOf, statements[..i])
    {
      consumed := consumed + [ConsumedOf(statements[i])];
    }
    assert statements[..|statements|] == statements;
    consumed := StableSort(consumed, ByPath);
  }

  /** Asks about every criterion, in the order of their names. */
  method EvaluateInOrder(run: Evaluation)
    requires forall candidate | candidate in run.statements :: candidate.Consistent()
    requires run.outcomes == map[] && run.reports == []
    modifies run
    ensures HoldsOutcomes(run.outcomes, run.input, run.statements, run.input.criteria)
    ensures run.findings
            == old(run.findings)
               + AllCriterionFindings(run.input, run.statements, StableSort(run.input.criteria, ByRefText))
    ensures ReportedInOrder(run.input, run.statements, StableSort(run.input.criteria, ByRefText), run.reports)
  {
    var criteria := StableSort(run.input.criteria, ByRefText);
    SortPermutes(run.input.criteria, ByRefText);
    EvaluateAll(run, criteria);
    HoldsOutcomesPermutes(run.outcomes, run.input, run.statements, criteria, run.input.criteria);
  }

  /** The floor the gate was run with is weaker than the one of a configuration that sets none. */
  predicate LowersFloor(config: Config): (lowered: bool)
    ensures lowered <==> !config.minIsolation.AtLeast(Restricted)
  {
    config.minIsolation.Strength() < DEFAULT_MIN_ISOLATION.Strength()
  }

  /**
   The gate from its input to findings, outcomes by reference and the
   report, criteria in the order of their names.
   */
  method Evaluate(input: Input) returns (run: Evaluation, report: GateReport)
    ensures fresh(run)
    ensures run.input == input && ClassifiedAs(input, run.statements)
    ensures HoldsOutcomes(run.outcomes, input, run.statements, input.criteria)
    ensures run.findings == AllFindings(input, run.statements)
    ensures ReportedInOrder(input, run.statements, StableSort(input.criteria, ByRefText), report.criteria)
    ensures report.policy == input.config && report.pending == input.evidence.pending
    ensures report.manifest.Some? <==> input.evidence.manifestPresent
    ensures report.manifest.Some? ==> report.manifest.value == input.evidence.manifest
    ensures report.floorLowered <==> !input.config.minIsolation.AtLeast(Restricted)
    ensures report.consumed == StableSort(Apply(ConsumedOf, run.statements), ByPath)
  {
    var classified := Classify(input);
    ClassifiedAreConsistent(input, classified[..]);
    run := new Evaluation(input, classified[..]);
    run.ReportUnusableSet();
    run.ReportMalformed();
    assert run.findings == UnusableFindings(input) + MalformedFindings(run.statements);
    EvaluateInOrder(run);
    run.ReportCompleteness();
    var consumed := ConsumedReport(run.statements);
    var manifest := if input.evidence.manifestPresent then Some(input.evidence.manifest) else None;
    report :=
      GateReport(input.config, LowersFloor(input.config), manifest, consumed, input.evidence.pending, run.reports);
  }

  /** The findings of the gate under the states it gave the statements, in the order it makes them. */
  function AllFindings(input: Input, statements: seq<Classified>): seq<Finding> {
    UnusableFindings(input) + MalformedFindings(statements)
    + AllCriterionFindings(input, statements, StableSort(input.criteria, ByRefText))
    + CompletenessFindings(statements)
  }

  function UnusableFindings(input: Input): seq<Finding> {
    if input.evidence.manifestPresent && input.evidence.manifestProblem != "" then
      [Finding(MalformedProof, EffectBlock, "", "", OfFile(input.evidence.manifest.path))]
    else []
  }

  function MalformedFindings(statements: seq<Classified>): seq<Finding> {
    if statements == [] then []
    else
      var last := statements[|statements| - 1];
      MalformedFindings(statements[..|statements| - 1])
      + (if last.state == StateMalformed then [Finding(MalformedProof, EffectBlock, "", "", OfFile(last.loaded.path))]
         else [])
  }

  /** What the discriminating-power module adds to the report of a criterion. */
  ghost predicate DpReported(input: Input, statements: seq<Classified>, criterion: Criterion, before: CriterionReport,
                             after: CriterionReport)
  {
    var powers, kind := Powers(statements, criterion.ref), DiscriminatingPowerKind;
    if |powers| == 0 && !input.config.Requires(kind) then after == before
    else if |powers| != 1 then
      after == before.(modules :=
                       before.modules[kind := ModuleReport(AbsenceState(input.evidence.pending, kind, criterion,
                                                                                    HasStaleProof(statements, kind,
                                                                criterion.ref.id)), ModuleAbsent)],
                       absent := before.absent + [kind])
    else PowerReported(input, criterion, powers[0], before, after)
  }

  /** The report has the outcome, the answers and the exclusions of the one valid matrix. */
  ghost predicate PowerReported(input: Input, criterion: Criterion, power: DiscriminatingPower,
                                before: CriterionReport, after: CriterionReport)
  {
    var settled := ModuleReport(StateValid, PowerModuleOutcome(input.config, criterion, power));
    && after == before.(modules := before.modules[DiscriminatingPowerKind := settled],
                        answered := after.answered,
                        hostExclusions := before.hostExclusions + HostExclusions(input.config, power),
                        screenExclusions := before.screenExclusions + power.screenedOut)
    && AddsAnswers(power, before.answered, after.answered)
  }

  /** Every judged mutant but the sentinels adds one answer. */
  ghost predicate AddsAnswers(power: DiscriminatingPower, before: Answered, after: Answered) {
    && (forall channel ::
          Get(after.channels, channel) == Get(before.channels, channel) + AnsweredOver(power, power.mutants, channel))
    && forall level ::
         Get(after.isolation, level) == Get(before.isolation, level) + AnsweredAt(power, power.mutants, level)
  }

  /** The survivors set aside on a judgment alone. */
  function HostExclusions(config: Config, power: DiscriminatingPower): int {
    Min(Rows(config, power, TaintedBy(power.mutants), power.mutants, HostEligible), Max(0, config.maxHostExclusions))
  }

  ghost function PowerModuleOutcome(config: Config, criterion: Criterion, power: DiscriminatingPower): ModuleOutcome {
    OutcomeOfModule(Strongest(DpFindings(config, criterion.ref.id, power)),
                    Rows(config, power, TaintedBy(power.mutants), power.mutants, Credits) > 0)
  }
}
