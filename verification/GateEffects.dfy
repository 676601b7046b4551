/** Which findings of the gate fail a run, under either escalation mode. */
module GateEffects {
  import opened ClaimPowerLaws
  import opened Classification
  import opened Composition
  import opened GateFindings
  import opened GateInput
  import opened Ordering
  import opened ProofConfig
  import opened ProofFormat

  // ----- Effects and categories

  /** A finding informs exactly when it asks a completeness question. */
  ghost predicate Coherent(findings: seq<Finding>) {
    forall finding | finding in findings :: finding.effect == EffectInform <==> finding.category == CompletenessQuestion
  }

  lemma {:induction false} TestsCohere(input: Input, criterion: Criterion, tests: seq<TestName>,
                                       alignments: seq<Alignment>, tainted: set<string>)
    ensures Coherent(TestFindings(input.config, criterion, tests, alignments, tainted))
  {
    if tests != [] {
      TestsCohere(input, criterion, tests[..|tests| - 1], alignments, tainted);
    }
  }

  lemma PowerPartCoheres(input: Input, criterion: Criterion, powers: seq<DiscriminatingPower>)
    ensures Coherent(PowerPart(input, criterion, powers))
  {
    if |powers| == 1 {
      NothingInforms(input.config, criterion.ref.id, powers[0]);
    }
  }

  lemma CriterionCoheres(input: Input, criterion: Criterion, powers: seq<DiscriminatingPower>,
                         alignments: seq<Alignment>)
    ensures Coherent(CriterionFindings(input, criterion, powers, alignments))
  {
    var tainted := TaintedTests(powers);
    PowerPartCoheres(input, criterion, powers);
    TestsCohere(input, criterion, criterion.passingTests, alignments, tainted);
    CoherentConcat(PowerPart(input, criterion, powers), AlignmentPart(input, criterion, alignments, tainted));
  }

  lemma CoherentConcat(xs: seq<Finding>, ys: seq<Finding>)
    ensures Coherent(xs + ys) <==> Coherent(xs) && Coherent(ys)
  {
    assert forall finding :: finding in xs + ys <==> finding in xs || finding in ys;
  }

  // ----- Failing a run

  /** A finding that blocks fails the run, and one that escalates does unless the mode is a warning. */
  predicate EffectBlocks(mode: EscalationMode, effect: Effect) {
    effect == EffectBlock || (effect == EffectEscalate && mode == EscalateToError)
  }

  ghost predicate SomeEffectBlocks(mode: EscalationMode, findings: seq<Finding>) {
    exists finding | finding in findings :: EffectBlocks(mode, finding.effect)
  }

  /** The outcome does not fail a run under the escalation mode. */
  predicate Acceptable(mode: EscalationMode, outcome: Outcome) {
    outcome == Pass || (outcome == Escalate && mode == EscalateToWarning)
  }

  lemma OutcomeDecides(mode: EscalationMode, findings: seq<Finding>)
    ensures SomeEffectBlocks(mode, findings) <==> !Acceptable(mode, Strongest(findings))
  {
  }

  lemma SomeEffectConcat(mode: EscalationMode, xs: seq<Finding>, ys: seq<Finding>)
    ensures SomeEffectBlocks(mode, xs + ys) <==> SomeEffectBlocks(mode, xs) || SomeEffectBlocks(mode, ys)
    ensures Coherent(xs + ys) <==> Coherent(xs) && Coherent(ys)
  {
    assert forall finding :: finding in xs + ys <==> finding in xs || finding in ys;
  }

  ghost predicate AllAcceptable(mode: EscalationMode, input: Input, statements: seq<Classified>,
                                criteria: seq<Criterion>)
  {
    forall criterion | criterion in criteria :: Acceptable(mode, OutcomeUnder(input, statements, criterion))
  }

  lemma CriterionDecides(mode: EscalationMode, input: Input, statements: seq<Classified>, criterion: Criterion)
    ensures var findings := FindingsUnder(input, statements, criterion);
            Coherent(findings)
            && (SomeEffectBlocks(mode, findings) <==> !Acceptable(mode, OutcomeUnder(input, statements, criterion)))
  {
    CriterionCoheres(input, criterion, Powers(statements, criterion.ref), Alignments(statements, criterion.ref));
    OutcomeDecides(mode, FindingsUnder(input, statements, criterion));
  }

  lemma AllAcceptableStep(mode: EscalationMode, input: Input, statements: seq<Classified>, earlier: seq<Criterion>,
                          last: Criterion)
    ensures AllAcceptable(mode, input, statements, earlier + [last])
            <==> AllAcceptable(mode, input, statements, earlier)
                 && Acceptable(mode, OutcomeUnder(input, statements, last))
  {
    assert forall criterion :: criterion in earlier + [last] <==> criterion in earlier || criterion == last;
  }

  /** The findings of the criteria are coherent, and one fails the run exactly when some criterion is not accepted. */
  ghost predicate Decided(mode: EscalationMode, input: Input, statements: seq<Classified>, criteria: seq<Criterion>) {
    var findings := AllCriterionFindings(input, statements, criteria);
    Coherent(findings) && (SomeEffectBlocks(mode, findings) <==> !AllAcceptable(mode, input, statements, criteria))
  }

  lemma {:induction false} CriteriaDecide(mode: EscalationMode, input: Input, statements: seq<Classified>,
                                          criteria: seq<Criterion>)
    ensures Decided(mode, input, statements, criteria)
  {
    if criteria != [] {
      var earlier, last := criteria[..|criteria| - 1], criteria[|criteria| - 1];
      CriteriaDecide(mode, input, statements, earlier);
      CriteriaDecideStep(mode, input, statements, earlier, last);
      TakeOneMore(criteria, |criteria| - 1);
      assert criteria[..|criteria|] == criteria;
    }
  }

  lemma CriteriaDecideStep(mode: EscalationMode, input: Input, statements: seq<Classified>, earlier: seq<Criterion>,
                           last: Criterion)
    requires Decided(mode, input, statements, earlier)
    ensures Decided(mode, input, statements, earlier + [last])
  {
    CriterionDecides(mode, input, statements, last);
    AllAcceptableStep(mode, input, statements, earlier, last);
    AllCriterionFindingsStep(input, statements, earlier, last);
    SomeEffectConcat(mode, AllCriterionFindings(input, statements, earlier), FindingsUnder(input, statements, last));
  }

  ghost predicate HasMalformed(statements: seq<Classified>) {
    exists statement | statement in statements :: statement.state == StateMalformed
  }

  lemma {:induction false} MalformedDecide(mode: EscalationMode, statements: seq<Classified>)
    ensures Coherent(MalformedFindings(statements))
    ensures SomeEffectBlocks(mode, MalformedFindings(statements)) <==> HasMalformed(statements)
  {
    if statements != [] {
      var earlier, last := statements[..|statements| - 1], statements[|statements| - 1];
      MalformedDecide(mode, earlier);
      assert statements == earlier + [last];
      var here := if last.state == StateMalformed then
                  [Finding(MalformedProof, EffectBlock, "", "", OfFile(last.loaded.path))] else [];
      SomeEffectConcat(mode, MalformedFindings(earlier), here);
      if here != [] {
        assert here[0] in here;
      }
    }
  }

  lemma {:induction false} QuestionsOnlyInform(mode: EscalationMode, questions: seq<string>)
    ensures Coherent(QuestionFindings(questions)) && !SomeEffectBlocks(mode, QuestionFindings(questions))
  {
    if questions != [] {
      QuestionsOnlyInform(mode, questions[..|questions| - 1]);
    }
  }

  lemma {:induction false} CompletenessOnlyInforms(mode: EscalationMode, statements: seq<Classified>)
    ensures Coherent(CompletenessFindings(statements)) && !SomeEffectBlocks(mode, CompletenessFindings(statements))
  {
    if statements != [] {
      var last := statements[|statements| - 1];
      CompletenessOnlyInforms(mode, statements[..|statements| - 1]);
      if last.Valid() && last.loaded.content.Parsed? && last.loaded.content.statement.Kind() == CompletenessKind {
        QuestionsOnlyInform(mode, last.loaded.content.statement.predicate_.questions);
      }
    }
  }

  // ----- The verdict

  predicate UnusableSet(evidence: Evidence) {
    evidence.manifestPresent && evidence.manifestProblem != ""
  }

  lemma UnusableDecides(mode: EscalationMode, input: Input)
    ensures Coherent(UnusableFindings(input))
    ensures SomeEffectBlocks(mode, UnusableFindings(input)) <==> UnusableSet(input.evidence)
  {
    if UnusableSet(input.evidence) {
      assert UnusableFindings(input)[0] in UnusableFindings(input);
    }
  }

  /**
   Some finding of the gate fails a run exactly when the set is unusable, a
   statement is malformed, or a criterion is not accepted.
   */
  lemma GateDecides(mode: EscalationMode, input: Input, statements: seq<Classified>)
    ensures Coherent(AllFindings(input, statements))
    ensures SomeEffectBlocks(mode, AllFindings(input, statements))
            <==> UnusableSet(input.evidence) || HasMalformed(statements)
                 || !AllAcceptable(mode, input, statements, input.criteria)
  {
    var sorted := StableSort(input.criteria, ByRefText);
    var a, b := UnusableFindings(input), MalformedFindings(statements);
    var c, d := AllCriterionFindings(input, statements, sorted), CompletenessFindings(statements);
    UnusableDecides(mode, input);
    MalformedDecide(mode, statements);
    CriteriaDecide(mode, input, statements, sorted);
    CompletenessOnlyInforms(mode, statements);
    SomeEffectConcat(mode, a, b);
    SomeEffectConcat(mode, a + b, c);
    SomeEffectConcat(mode, a + b + c, d);
    SortPermutes(input.criteria, ByRefText);
    SameMembers(sorted, input.criteria);
  }
}
