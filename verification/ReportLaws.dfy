/** Where the report and the outcome of a criterion differ, and what the report counts. */
module ReportLaws {
  import opened Answers
  import opened ClaimPower
  import opened ClaimPowerLaws
  import opened Classification
  import opened Composition
  import opened Counting
  import opened GateFindings
  import opened GateInput
  import opened GateLaws
  import opened ProofConfig
  import opened ProofFormat
  import opened Wrappers

  // ----- The report beside the outcome

  /** The report lists every module it names as passed, and none as absent. */
  predicate ReportsPass(report: CriterionReport) {
    report.absent == [] && forall kind | kind in report.modules :: report.modules[kind].outcome == ModulePass
  }

  /** Some test has no alignment proof, although others do and none is required. */
  ghost predicate PartlyAligned(input: Input, criterion: Criterion, alignments: seq<Alignment>) {
    && !input.config.Requires(AlignmentKind) && alignments != []
    && SomeUnmatched(criterion.passingTests, alignments)
  }

  lemma PowerReportAgrees(input: Input, statements: seq<Classified>, criterion: Criterion, report: CriterionReport)
    requires DpReported(input, statements, criterion, EmptyReport(criterion), report)
    ensures report.modules.Keys <= {DiscriminatingPowerKind}
    ensures ReportsPass(report) <==> Strongest(PowerPart(input, criterion, Powers(statements, criterion.ref))) == Pass
  {
    var powers := Powers(statements, criterion.ref);
    PowerPartEffect(input, criterion, powers);
    if |powers| == 1 {
      PowerModulePasses(input.config, criterion, powers[0]);
      OneModuleReport(report, ModuleReport(StateValid, PowerModuleOutcome(input.config, criterion, powers[0])));
    } else if |powers| == 0 && !input.config.Requires(DiscriminatingPowerKind) {
      assert report == EmptyReport(criterion);
    } else {
      assert report.absent == [DiscriminatingPowerKind];
      assert Strongest(PowerPart(input, criterion, powers)) != Pass;
    }
  }

  lemma OneModuleReport(report: CriterionReport, module_: ModuleReport)
    requires report.absent == [] && report.modules == map[DiscriminatingPowerKind := module_]
    ensures ReportsPass(report) <==> module_.outcome == ModulePass
  {
    assert DiscriminatingPowerKind in report.modules;
  }

  /** The module passes when nothing was found: a matrix without findings has earned its credit. */
  lemma PowerModulePasses(config: Config, criterion: Criterion, power: DiscriminatingPower)
    ensures PowerModuleOutcome(config, criterion, power) == ModulePass <==> DpOutcome(config, power) == Pass
  {
    ClosedForm(config, criterion.ref.id, power);
    if DpOutcome(config, power) == Pass {
      PassEarnsCredit(config, power);
    }
  }

  /**
   The report shows a pass after the alignment module exactly when it
   did before and the module has nothing against it.
   */
  lemma SettledReportPasses(input: Input, statements: seq<Classified>, criterion: Criterion, absent: seq<string>,
                            found: bool,
                            strongest: Outcome, before: CriterionReport)
    requires AlignmentKind !in before.modules
    ensures var report := AlignmentSettled(input, statements, criterion, absent, found, strongest, before);
            ReportsPass(report) <==>
              && ReportsPass(before)
              && !(absent != [] && input.config.Requires(AlignmentKind))
              && (found ==> strongest == Pass && absent == [])
  {
    var report := AlignmentSettled(input, statements, criterion, absent, found, strongest, before);
    if report.absent == before.absent && found {
      assert AlignmentKind in report.modules;
      assert forall kind | kind in before.modules :: report.modules[kind] == before.modules[kind];
    }
  }

  /** What the alignment part concludes, told from what was found about the tests. */
  lemma AlignmentConcludes(input: Input, criterion: Criterion, alignments: seq<Alignment>, tainted: set<string>)
    ensures var tests := criterion.passingTests;
            Strongest(AlignmentPart(input, criterion, alignments, tainted)) == Pass
            <==> && Strongest(TestFindings(input.config, criterion, tests, alignments, tainted)) == Pass
                 && !(Unmatched(tests, alignments) != [] && input.config.Requires(AlignmentKind))
  {
    AlignmentPartEffect(input, criterion, alignments, tainted);
    TestFindingsEffect(input.config, criterion, criterion.passingTests, alignments, tainted);
    UnmatchedAre(criterion.passingTests, alignments);
  }

  lemma NothingFoundWithoutVerdicts(config: Config, criterion: Criterion, tainted: set<string>)
    ensures Strongest(TestFindings(config, criterion, criterion.passingTests, [], tainted)) == Pass
  {
    TestFindingsEffect(config, criterion, criterion.passingTests, [], tainted);
  }

  lemma AlignmentReportAgrees(input: Input, statements: seq<Classified>, criterion: Criterion, tainted: set<string>,
                              before: CriterionReport, report: CriterionReport)
    requires AlignmentKind !in before.modules
    requires AlignmentReported(input, statements, criterion, tainted, before, report)
    ensures var alignments := Alignments(statements, criterion.ref);
            ReportsPass(report)
            <==> ReportsPass(before) && Strongest(AlignmentPart(input, criterion, alignments, tainted)) == Pass
                                     && !PartlyAligned(input, criterion, alignments)
  {
    var alignments, tests := Alignments(statements, criterion.ref), criterion.passingTests;
    AlignmentConcludes(input, criterion, alignments, tainted);
    NothingFoundWithoutVerdicts(input.config, criterion, tainted);
    UnmatchedAre(tests, alignments);
    SettledReportPasses(input, statements, criterion, Unmatched(tests, alignments), alignments != [],
                        Strongest(TestFindings(input.config, criterion, tests, alignments, tainted)),
                        before.(answered := WithAnswers(before.answered, Judges(tests, alignments))));
  }

  /** The report of a passing criterion says so, unless an alignment nobody required covers only some of its tests. */
  lemma ReportAgreesWithOutcome(input: Input, statements: seq<Classified>, criterion: Criterion,
                                report: CriterionReport)
    requires ReportedAs(input, statements, criterion, report)
    ensures ReportsPass(report) <==> OutcomeUnder(input, statements, criterion) == Pass
                                     && !PartlyAligned(input, criterion, Alignments(statements, criterion.ref))
  {
    var powers, alignments := Powers(statements, criterion.ref), Alignments(statements, criterion.ref);
    var between :| DpReported(input, statements, criterion, EmptyReport(criterion), between)
                   && AlignmentReported(input, statements, criterion, TaintedTests(powers), between, report);
    PowerReportAgrees(input, statements, criterion, between);
    AlignmentReportAgrees(input, statements, criterion, TaintedTests(powers), between, report);
    StrongestConcat(PowerPart(input, criterion, powers),
                    AlignmentPart(input, criterion, alignments, TaintedTests(powers)));
  }

  // ----- The answers a report counts

  function AnsweredOverAll(powers: seq<DiscriminatingPower>, channel: Channel): nat {
    if |powers| == 1 then AnsweredOver(powers[0], powers[0].mutants, channel) else 0
  }

  function AnsweredAtAll(powers: seq<DiscriminatingPower>, level: Isolation): nat {
    if |powers| == 1 then AnsweredAt(powers[0], powers[0].mutants, level) else 0
  }

  lemma PowerAnswersOfReport(input: Input, statements: seq<Classified>, criterion: Criterion, report: CriterionReport,
                             channel: Channel, level: Isolation)
    requires DpReported(input, statements, criterion, EmptyReport(criterion), report)
    ensures Get(report.answered.channels, channel) == AnsweredOverAll(Powers(statements, criterion.ref), channel)
    ensures Get(report.answered.isolation, level) == AnsweredAtAll(Powers(statements, criterion.ref), level)
  {
    assert Get(NOBODY.channels, channel) == 0 && Get(NOBODY.isolation, level) == 0;
  }

  lemma AlignmentAnswersOfReport(input: Input, statements: seq<Classified>, criterion: Criterion, tainted: set<string>,
                                 before: CriterionReport, report: CriterionReport)
    requires AlignmentReported(input, statements, criterion, tainted, before, report)
    ensures report.answered
            == WithAnswers(before.answered, Judges(criterion.passingTests, Alignments(statements, criterion.ref)))
  {
  }

  /**
   A report counts each judged mutant of the one matrix and each test
   that exactly one verdict names, and nothing else.
   */
  lemma AnswersOfReport(input: Input, statements: seq<Classified>, criterion: Criterion, report: CriterionReport,
                        channel: Channel, level: Isolation)
    requires ReportedAs(input, statements, criterion, report)
    ensures var judges := Judges(criterion.passingTests, Alignments(statements, criterion.ref));
            var powers := Powers(statements, criterion.ref);
            && Get(report.answered.channels, channel)
               == AnsweredOverAll(powers, channel) + Count(judges, (executor: Executor) => executor.channel == channel)
            && Get(report.answered.isolation, level)
               == AnsweredAtAll(powers, level) + Count(judges, (executor: Executor) => executor.isolation == level)
  {
    var tainted := TaintedTests(Powers(statements, criterion.ref));
    var between :| DpReported(input, statements, criterion, EmptyReport(criterion), between)
                   && AlignmentReported(input, statements, criterion, tainted, between, report);
    PowerAnswersOfReport(input, statements, criterion, between, channel, level);
    AlignmentAnswersOfReport(input, statements, criterion, tainted, between, report);
    AnswersAreCounted(between.answered, Judges(criterion.passingTests, Alignments(statements, criterion.ref)), channel,
                      level);
  }
}
