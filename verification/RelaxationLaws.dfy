/**
 What a relaxed policy does to a criterion, and to a whole verified set:
 passes stay, and exactly when an outcome gets stronger.
 */
module RelaxationLaws {
  import opened ClaimPowerLaws
  import opened Classification
  import opened ClassificationLaws
  import opened Composition
  import opened GateFindings
  import opened GateInput
  import opened GateLaws
  import opened ProofConfig
  import opened ProofFormat

  // ----- One criterion

  lemma RelaxedVindicates(strict: Config, relaxed: Config, alignment: Alignment, test: TestName, tainted: set<string>)
    requires Relaxes(strict, relaxed) && Vindicates(strict, alignment, test, tainted)
    ensures Vindicates(relaxed, alignment, test, tainted)
  {
    var source := DecisionSource(alignment.decision);
    assert relaxed.alignment.For(source) <= strict.alignment.For(source);
  }

  /** Lower thresholds, a lower floor, a weaker basis and a larger budget never turn a pass into anything else. */
  lemma RelaxingKeepsPass(input: Input, relaxed: Config, criterion: Criterion, powers: seq<DiscriminatingPower>,
                          alignments: seq<Alignment>)
    requires Relaxes(input.config, relaxed) && CriterionOutcome(input, criterion, powers, alignments) == Pass
    ensures CriterionOutcome(input.(config := relaxed), criterion, powers, alignments) == Pass
  {
    var other := input.(config := relaxed);
    PassIffProven(input, criterion, powers, alignments);
    PassIffProven(other, criterion, powers, alignments);
    if |powers| == 1 {
      PassIffDiscriminates(input.config, powers[0]);
      RelaxingKeepsPassAndBlock(input.config, relaxed, powers[0]);
      PassIffDiscriminates(relaxed, powers[0]);
    }
    forall test | test in criterion.passingTests
      && GateLaws.Aligned(input.config, alignments, test, TaintedTests(powers))
      ensures GateLaws.Aligned(relaxed, alignments, test, TaintedTests(powers))
    {
      var alignment :| OnlyVerdict(alignments, test, alignment)
                       && Vindicates(input.config, alignment, test, TaintedTests(powers));
      RelaxedVindicates(input.config, relaxed, alignment, test, TaintedTests(powers));
    }
  }

  // ----- Exactly when relaxing strengthens

  lemma RelaxedAlignmentRank(input: Input, relaxed: Config, criterion: Criterion, alignments: seq<Alignment>,
                             tainted: set<string>)
    requires Relaxes(input.config, relaxed)
    ensures Strongest(AlignmentPart(input.(config := relaxed), criterion, alignments, tainted)).Rank()
            <= Strongest(AlignmentPart(input, criterion, alignments, tainted)).Rank()
  {
    AlignmentRank(input, criterion, alignments, tainted);
    AlignmentRank(input.(config := relaxed), criterion, alignments, tainted);
    forall test | test in criterion.passingTests && Uncleared(relaxed, alignments, tainted, test)
      ensures Uncleared(input.config, alignments, tainted, test)
    {
      var alignment :| OnlyVerdict(alignments, test, alignment) && !Vindicates(relaxed, alignment, test, tainted);
      if Vindicates(input.config, alignment, test, tainted) {
        RelaxedVindicates(input.config, relaxed, alignment, test, tainted);
      }
    }
  }

  /**
   Relaxing turns the one matrix of the criterion into a block, and no
   test is ambiguous, which would block already.
   */
  ghost predicate RelaxingBlocksCriterion(input: Input, relaxed: Config, criterion: Criterion,
                                          powers: seq<DiscriminatingPower>, alignments: seq<Alignment>)
  {
    |powers| == 1 && RelaxingBlocks(input.config, relaxed, powers[0])
    && !SomeAmbiguous(criterion.passingTests, alignments)
  }

  /**
   A relaxed policy strengthens the outcome of a criterion exactly
   then; in every other case it keeps or weakens it.
   */
  lemma RelaxingStrengthensCriterionIff(input: Input, relaxed: Config, criterion: Criterion,
                                        powers: seq<DiscriminatingPower>, alignments: seq<Alignment>)
    requires Relaxes(input.config, relaxed)
    ensures CriterionOutcome(input.(config := relaxed), criterion, powers, alignments).Rank()
            > CriterionOutcome(input, criterion, powers, alignments).Rank()
            <==> RelaxingBlocksCriterion(input, relaxed, criterion, powers, alignments)
  {
    var other, tainted := input.(config := relaxed), TaintedTests(powers);
    PowerPartEffect(input, criterion, powers);
    PowerPartEffect(other, criterion, powers);
    RelaxedAlignmentRank(input, relaxed, criterion, alignments, tainted);
    AlignmentRank(input, criterion, alignments, tainted);
    StrongestConcat(PowerPart(input, criterion, powers), AlignmentPart(input, criterion, alignments, tainted));
    StrongestConcat(PowerPart(other, criterion, powers), AlignmentPart(other, criterion, alignments, tainted));
    if |powers| == 1 {
      RelaxingStrengthensIff(input.config, relaxed, powers[0]);
    }
  }

  // ----- The whole verified set

  lemma SameStatesRelaxed(input: Input, relaxed: Config, loaded: LoadedStatement)
    requires relaxed.trust == input.config.trust
    ensures Initially(input.(config := relaxed), loaded) == Initially(input, loaded)
  {
    if loaded.content.Parsed? {
      var other, statement := input.(config := relaxed), loaded.content.statement;
      SameInputsCause(input, other, statement, statement.inputs);
      assert ListsRequiredTestFiles(input, statement) == ListsRequiredTestFiles(other, statement);
    }
  }

  /** What is valid or stale depends on the policy through its trust alone. */
  lemma RelaxingKeepsStates(input: Input, relaxed: Config, statements: seq<Classified>, others: seq<Classified>)
    requires Relaxes(input.config, relaxed)
    requires ClassifiedAs(input, statements) && ClassifiedAs(input.(config := relaxed), others)
    ensures statements == others
  {
    forall i | 0 <= i < |input.evidence.statements|
      ensures InitialStates(input.(config := relaxed))[i] == InitialStates(input)[i]
    {
      SameStatesRelaxed(input, relaxed, input.evidence.statements[i]);
    }
    assert InitialStates(input.(config := relaxed)) == InitialStates(input);
  }

  /** Run over the whole verified set again, the gate passes under a relaxed policy every criterion it passed. */
  lemma RelaxingKeepsPassOfRun(input: Input, relaxed: Config, statements: seq<Classified>, others: seq<Classified>,
                               criterion: Criterion)
    requires Relaxes(input.config, relaxed)
    requires ClassifiedAs(input, statements) && ClassifiedAs(input.(config := relaxed), others)
    requires OutcomeUnder(input, statements, criterion) == Pass
    ensures OutcomeUnder(input.(config := relaxed), others, criterion) == Pass
  {
    RelaxingKeepsStates(input, relaxed, statements, others);
    RelaxingKeepsPass(input, relaxed, criterion, Powers(statements, criterion.ref),
                      Alignments(statements, criterion.ref));
  }
}
