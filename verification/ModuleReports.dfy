/** What the report of a criterion says of each module, and how it counts who answered. */
module ModuleReports {
  import opened Answers
  import opened ClaimPower
  import opened ClaimPowerLaws
  import opened Classification
  import opened Composition
  import opened Counting
  import opened FindingLaws
  import opened GateFindings
  import opened GateInput
  import opened GateLaws
  import opened MatrixFindings
  import opened ProofConfig
  import opened ProofFormat
  import opened ReportLaws
  import opened Wrappers

  // ----- Absent modules

  /** Some stale statement is of the kind and about the requirement, at whatever revision. */
  ghost predicate SomeStale(statements: seq<Classified>, kind: Kind, id: string) {
    exists file | file in statements :: file.state == StateStale && file.loaded.content.Parsed?
      && match file.loaded.content.statement.predicate_
         case OfAlignment(alignment) => kind == AlignmentKind && alignment.requirement.id == id
         case OfPower(power) => kind == DiscriminatingPowerKind && power.requirement.id == id
         case OfCompleteness(_) => false
  }

  lemma SomeStaleIff(statements: seq<Classified>, kind: Kind, id: string)
    requires kind != CompletenessKind
    ensures SomeStale(statements, kind, id) <==> HasStaleProof(statements, kind, id)
  {
    if HasStaleProof(statements, kind, id) {
      var file :| file in statements && IsStaleProof(file, kind, id);
      assert file.loaded.content.statement.Kind() == kind;
    }
    if SomeStale(statements, kind, id) {
      var file :| file in statements && file.state == StateStale && file.loaded.content.Parsed?
        && match file.loaded.content.statement.predicate_
           case OfAlignment(alignment) => kind == AlignmentKind && alignment.requirement.id == id
           case OfPower(power) => kind == DiscriminatingPowerKind && power.requirement.id == id
           case OfCompleteness(_) => false;
      assert IsStaleProof(file, kind, id);
    }
  }

  /** A proof of the kind is owed, or waits for a matrix that is. */
  predicate Awaited(entries: seq<Pending>, kind: Kind, criterion: Criterion) {
    exists entry | entry in entries ::
      Owes(entry, kind, criterion) || (kind == AlignmentKind && Owes(entry, DiscriminatingPowerKind, criterion))
  }

  /** The report of a module without a proof: awaited, else stale if something stale is about it, else missing. */
  ghost predicate AbsentModule(input: Input, statements: seq<Classified>, kind: Kind, criterion: Criterion,
                               module_: ModuleReport)
  {
    && module_.outcome == ModuleAbsent
    && match module_.state
       case StatePending => Awaited(input.evidence.pending, kind, criterion)
       case StateStale =>
         !Awaited(input.evidence.pending, kind, criterion) && SomeStale(statements, kind, criterion.ref.id)
       case StateMissing =>
         !Awaited(input.evidence.pending, kind, criterion) && !SomeStale(statements, kind, criterion.ref.id)
       case _ => false
  }

  lemma AbsentModuleIs(input: Input, statements: seq<Classified>, kind: Kind, criterion: Criterion)
    requires kind != CompletenessKind
    ensures var stale := HasStaleProof(statements, kind, criterion.ref.id);
            AbsentModule(input, statements, kind, criterion,
                         ModuleReport(AbsenceState(input.evidence.pending, kind, criterion, stale), ModuleAbsent))
  {
    PendingForIs(input.evidence.pending, kind, criterion);
    PendingForIs(input.evidence.pending, DiscriminatingPowerKind, criterion);
    SomeStaleIff(statements, kind, criterion.ref.id);
  }

  // ----- The module of the matrix

  /** The one matrix gives the module its outcome; without one, or with several, the module is absent. */
  ghost predicate PowerModule(input: Input, statements: seq<Classified>, criterion: Criterion, report: CriterionReport)
  {
    var powers, kind := Powers(statements, criterion.ref), DiscriminatingPowerKind;
    && (kind in report.modules <==> powers != [] || kind in input.config.require)
    && (kind in report.absent <==> |powers| > 1 || (powers == [] && kind in input.config.require))
    && (kind in report.modules ==>
          if |powers| == 1 then
            && report.modules[kind].state == StateValid
            && (report.modules[kind].outcome == ModulePass <==> DpOutcome(input.config, powers[0]) == Pass)
            && (report.modules[kind].outcome == ModuleBlock <==> DpOutcome(input.config, powers[0]) == Block)
            && report.modules[kind].outcome in {ModulePass, ModuleEscalate, ModuleBlock}
          else AbsentModule(input, statements, kind, criterion, report.modules[kind]))
    && report.hostExclusions == (if |powers| == 1 then SetAside(input.config, powers[0]) else 0)
    && report.screenExclusions == (if |powers| == 1 then powers[0].screenedOut else 0)
  }

  /** The survivors set aside on a judgment alone: all there are, as far as the budget goes. */
  ghost function SetAside(config: Config, power: DiscriminatingPower): int {
    if JudgmentExclusions(config, power) <= config.maxHostExclusions then JudgmentExclusions(config, power)
    else if config.maxHostExclusions > 0 then config.maxHostExclusions
    else 0
  }

  lemma PowerModuleIs(input: Input, statements: seq<Classified>, criterion: Criterion, report: CriterionReport)
    requires DpReported(input, statements, criterion, EmptyReport(criterion), report)
    ensures PowerModule(input, statements, criterion, report)
    ensures report.ref == EmptyReport(criterion).ref && AlignmentKind !in report.modules
    ensures report.absent == [] || report.absent == [DiscriminatingPowerKind]
  {
    var powers := Powers(statements, criterion.ref);
    AbsentModuleIs(input, statements, DiscriminatingPowerKind, criterion);
    if |powers| == 1 {
      ClosedForm(input.config, criterion.ref.id, powers[0]);
      ExcludablesAreEligible(input.config, powers[0], TaintedBy(powers[0].mutants), powers[0].mutants);
      PowerModulePasses(input.config, criterion, powers[0]);
    }
  }

  // ----- The module of the verdicts

  /**
   What the verdicts found give the module: a test named twice blocks,
   anything short of all tests cleared escalates.
   */
  ghost predicate VerdictsModule(config: Config, tests: seq<TestName>, alignments: seq<Alignment>,
                                 tainted: set<string>, module_: ModuleReport)
  {
    && module_.state == (if SomeUnmatched(tests, alignments) then StateMissing else StateValid)
    && (module_.outcome == ModuleBlock <==> SomeAmbiguous(tests, alignments))
    && (module_.outcome == ModulePass <==>
          !SomeAmbiguous(tests, alignments) && !SomeUncleared(config, tests, alignments, tainted)
          && !SomeUnmatched(tests, alignments))
    && module_.outcome in {ModulePass, ModuleEscalate, ModuleBlock}
  }

  ghost predicate AlignmentModule(input: Input, statements: seq<Classified>, criterion: Criterion,
                                  report: CriterionReport)
  {
    var alignments, tests, kind := Alignments(statements, criterion.ref), criterion.passingTests, AlignmentKind;
    var lacking := kind in input.config.require && SomeUnmatched(tests, alignments);
    && (kind in report.modules <==> lacking || alignments != []) && (kind in report.absent <==> lacking)
    && (kind in report.modules ==>
          if lacking then AbsentModule(input, statements, kind, criterion, report.modules[kind])
          else VerdictsModule(input.config, tests, alignments, TaintedTests(Powers(statements, criterion.ref)),
                              report.modules[kind]))
  }

  lemma AlignmentModuleIs(input: Input, statements: seq<Classified>, criterion: Criterion, before: CriterionReport,
                          report: CriterionReport)
    requires AlignmentKind !in before.modules && AlignmentKind !in before.absent
    requires AlignmentReported(input, statements, criterion, TaintedTests(Powers(statements, criterion.ref)), before,
                               report)
    ensures AlignmentModule(input, statements, criterion, report)
    ensures forall kind | kind != AlignmentKind :: (kind in report.modules <==> kind in before.modules)
              && (kind in report.modules ==> report.modules[kind] == before.modules[kind])
    ensures report.absent == before.absent || report.absent == before.absent + [AlignmentKind]
    ensures report.ref == before.ref && report.hostExclusions == before.hostExclusions
            && report.screenExclusions == before.screenExclusions
  {
    var tests, alignments := criterion.passingTests, Alignments(statements, criterion.ref);
    var tainted := TaintedTests(Powers(statements, criterion.ref));
    UnmatchedAre(tests, alignments);
    TestFindingsEffect(input.config, criterion, tests, alignments, tainted);
    AbsentModuleIs(input, statements, AlignmentKind, criterion);
  }

  /** What the report says of the matrix before the verdicts are reported it says afterwards. */
  lemma PowerModuleStays(input: Input, statements: seq<Classified>, criterion: Criterion, between: CriterionReport,
                         report: CriterionReport)
    requires PowerModule(input, statements, criterion, between)
    requires forall kind | kind != AlignmentKind :: (kind in report.modules <==> kind in between.modules)
              && (kind in report.modules ==> report.modules[kind] == between.modules[kind])
    requires report.absent == between.absent || report.absent == between.absent + [AlignmentKind]
    requires report.hostExclusions == between.hostExclusions && report.screenExclusions == between.screenExclusions
    ensures PowerModule(input, statements, criterion, report)
  {
    assert DiscriminatingPowerKind in report.modules <==> DiscriminatingPowerKind in between.modules;
    assert DiscriminatingPowerKind in report.absent <==> DiscriminatingPowerKind in between.absent;
  }

  /** The absent modules in their order, where the matrix comes before the verdicts. */
  predicate AbsentInOrder(absent: seq<Kind>) {
    || absent == [] || absent == [DiscriminatingPowerKind] || absent == [AlignmentKind]
    || absent == [DiscriminatingPowerKind, AlignmentKind]
  }

  lemma OneMoreAbsent(before: seq<Kind>, after: seq<Kind>)
    requires before == [] || before == [DiscriminatingPowerKind]
    requires after == before || after == before + [AlignmentKind]
    ensures AbsentInOrder(after)
  {
    assert [] + [AlignmentKind] == [AlignmentKind];
    assert [DiscriminatingPowerKind] + [AlignmentKind] == [DiscriminatingPowerKind, AlignmentKind];
  }

  /**
   The report names its criterion, says of each module what the proofs
   make of it, and lists the absent ones in order.
   */
  lemma ModulesOfReport(input: Input, statements: seq<Classified>, criterion: Criterion, report: CriterionReport)
    requires ReportedAs(input, statements, criterion, report)
    ensures report.ref == criterion.ref.id + "~" + Decimal(criterion.ref.revision)
    ensures PowerModule(input, statements, criterion, report) && AlignmentModule(input, statements, criterion, report)
    ensures AbsentInOrder(report.absent)
  {
    var tainted := TaintedTests(Powers(statements, criterion.ref));
    var between :| DpReported(input, statements, criterion, EmptyReport(criterion), between)
                   && AlignmentReported(input, statements, criterion, tainted, between, report);
    PowerModuleIs(input, statements, criterion, between);
    AlignmentModuleIs(input, statements, criterion, between, report);
    PowerModuleStays(input, statements, criterion, between, report);
    OneMoreAbsent(between.absent, report.absent);
  }

  // ----- Who answered

  /** Who answered a claim: the executor it names, else that of the whole proof. */
  function AnswererOf<V>(claim: Claim<V>, shared: Executor): Executor {
    match claim.executor case Some(own) => own case None => shared
  }

  /** How many mutants but the sentinels an executor of the kind answered for. */
  function MutantsAnswered(powers: seq<DiscriminatingPower>, p: Executor -> bool): nat {
    if |powers| == 1 then
      Count(powers[0].mutants,
            (mutant: Mutant) => !mutant.sentinel && p(AnswererOf(mutant.validity, powers[0].executor)))
    else 0
  }

  /** One verdict names the test, and an executor of the kind answered it. */
  ghost predicate TestAnswered(alignments: seq<Alignment>, p: Executor -> bool, test: TestName) {
    exists alignment :: OnlyVerdict(alignments, test, alignment) && p(AnswererOf(alignment.verdict, alignment.executor))
  }

  ghost function TestsAnswered(tests: seq<TestName>, alignments: seq<Alignment>, p: Executor -> bool): nat {
    Count(tests, (test: TestName) => TestAnswered(alignments, p, test))
  }

  lemma SameCount<T>(xs: seq<T>, p: T -> bool, q: T -> bool)
    requires forall x | x in xs :: p(x) <==> q(x)
    ensures Count(xs, p) == Count(xs, q)
  {
    CountWeakens(xs, p, q);
    CountWeakens(xs, q, p);
  }

  lemma JudgeIs(alignments: seq<Alignment>, test: TestName, p: Executor -> bool)
    ensures Count(JudgeOf(Matching(alignments, test)), p) == if TestAnswered(alignments, p, test) then 1 else 0
  {
    var matching := Matching(alignments, test);
    MatchingIs(alignments, test);
    if |matching| == 1 {
      assert matching == [matching[0]];
      assert JudgeOf(matching)[..0] == [];
    }
  }

  lemma {:induction false} JudgesAre(tests: seq<TestName>, alignments: seq<Alignment>, p: Executor -> bool)
    ensures Count(Judges(tests, alignments), p) == TestsAnswered(tests, alignments, p)
  {
    if tests != [] {
      var last := |tests| - 1;
      JudgesAre(tests[..last], alignments, p);
      JudgeIs(alignments, tests[last], p);
      CountConcat(Judges(tests[..last], alignments), JudgeOf(Matching(alignments, tests[last])), p);
    }
  }

  function Over(channel: Channel): Executor -> bool {
    (executor: Executor) => executor.channel == channel
  }

  function At(level: Isolation): Executor -> bool {
    (executor: Executor) => executor.isolation == level
  }

  lemma MutantsAnsweredAre(powers: seq<DiscriminatingPower>, channel: Channel, level: Isolation)
    ensures AnsweredOverAll(powers, channel) == MutantsAnswered(powers, Over(channel))
    ensures AnsweredAtAll(powers, level) == MutantsAnswered(powers, At(level))
  {
    if |powers| == 1 {
      var power := powers[0];
      forall mutant: Mutant
        ensures ValidityAnswerer(mutant, power).executor == AnswererOf(mutant.validity, power.executor)
      {
      }
      assert forall who: Executor :: Over(channel)(who) <==> who.channel == channel;
      assert forall who: Executor :: At(level)(who) <==> who.isolation == level;
      SameCount(power.mutants,
                (mutant: Mutant) => !mutant.sentinel && ValidityAnswerer(mutant, power).executor.channel == channel,
                (mutant: Mutant) => !mutant.sentinel && Over(channel)(AnswererOf(mutant.validity, power.executor)));
      SameCount(power.mutants,
                (mutant: Mutant) => !mutant.sentinel && ValidityAnswerer(mutant, power).executor.isolation == level,
                (mutant: Mutant) => !mutant.sentinel && At(level)(AnswererOf(mutant.validity, power.executor)));
    }
  }

  /**
   For each channel and each level the report counts the mutants of the one matrix and
   the tests with one verdict that it answered for, each by who answered.
   */
  lemma AnswersOfReportAre(input: Input, statements: seq<Classified>, criterion: Criterion, report: CriterionReport,
                           channel: Channel, level: Isolation)
    requires ReportedAs(input, statements, criterion, report)
    ensures var powers, alignments := Powers(statements, criterion.ref), Alignments(statements, criterion.ref);
            && Get(report.answered.channels, channel)
               == MutantsAnswered(powers, Over(channel))
                  + TestsAnswered(criterion.passingTests, alignments, Over(channel))
            && Get(report.answered.isolation, level)
               == MutantsAnswered(powers, At(level)) + TestsAnswered(criterion.passingTests, alignments, At(level))
  {
    var powers, alignments := Powers(statements, criterion.ref), Alignments(statements, criterion.ref);
    AnswersOfReport(input, statements, criterion, report, channel, level);
    MutantsAnsweredAre(powers, channel, level);
    JudgesAre(criterion.passingTests, alignments, Over(channel));
    JudgesAre(criterion.passingTests, alignments, At(level));
    SameCount(Judges(criterion.passingTests, alignments), Over(channel),
              (executor: Executor) => executor.channel == channel);
    SameCount(Judges(criterion.passingTests, alignments), At(level),
              (executor: Executor) => executor.isolation == level);
  }
}
