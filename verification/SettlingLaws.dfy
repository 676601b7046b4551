/** Laws of a run with proofs: the exact verdict, and what it vouches for. */
module SettlingLaws {
  import opened CitationLaws
  import opened Flattening
  import opened Settling
  import opened Traceability
  import opened TraceabilityLaws
  import Classification
  import Composition
  import EvidenceLaws
  import FindingLaws
  import Gate = GateFindings
  import GateEffects
  import GateInput
  import GateLaws
  import ProofConfig
  import ProofFormat
  import TraceFindings

  // ----- Severities

  /**
   The severity is the one the finding takes: that of an override of its
   category, whatever its effect and the mode; else a warning where
   escalations are warnings and it escalates; else information for a
   question and an error for all others.
   */
  predicate Takes(proofs: ProofInput, finding: Gate.Finding, severity: Severity) {
    if finding.category in proofs.overrides then severity == proofs.overrides[finding.category]
    else if finding.effect.EffectEscalate? && proofs.config.escalation.EscalateToWarning? then severity == Warning
    else if finding.category.CompletenessQuestion? then severity == Info
    else severity == Error
  }

  /** Each finding is settled with the severity it takes, and one with the severity off is dropped. */
  lemma SettledIff(policy: Policy, proofs: ProofInput, findings: seq<Gate.Finding>, one: Settled)
    ensures one in SettledFindings(policy, proofs, findings)
            <==> one.finding in findings && Takes(proofs, one.finding, one.severity) && one.severity != Off
                 && (one.blocking <==> TraceFindings.Fails(policy, one.severity))
  {
    FlatMapContains((finding: Gate.Finding) => SettledFinding(policy, proofs, finding), findings, one);
  }

  /** Under the policy the finding fails the run. */
  predicate Fatal(policy: Policy, proofs: ProofInput, finding: Gate.Finding) {
    if finding.category in proofs.overrides then TraceFindings.Fails(policy, proofs.overrides[finding.category])
    else if finding.effect.EffectEscalate? && proofs.config.escalation.EscalateToWarning? then
      TraceFindings.Fails(policy, Warning)
    else if finding.category.CompletenessQuestion? then TraceFindings.Fails(policy, Info)
    else TraceFindings.Fails(policy, Error)
  }

  lemma SettledBlockIff(policy: Policy, proofs: ProofInput, findings: seq<Gate.Finding>)
    ensures SettledBlock(SettledFindings(policy, proofs, findings))
            <==> exists finding | finding in findings :: Fatal(policy, proofs, finding)
  {
    forall one {
      SettledIff(policy, proofs, findings, one);
    }
    if finding :| finding in findings && Fatal(policy, proofs, finding) {
      var severity := if finding.category in proofs.overrides then proofs.overrides[finding.category]
      else if finding.effect.EffectEscalate? && proofs.config.escalation.EscalateToWarning? then Warning
      else if finding.category.CompletenessQuestion? then Info else Error;
      SettledIff(policy, proofs, findings, Settled(finding, severity, true));
    }
  }

  // ----- The verdict

  /** The findings of a run with proofs, those of the trace and those of the gate, hold a blocking one. */
  ghost predicate FailsWithProofs(input: Input, proofs: ProofInput, statements: seq<Classification.Classified>) {
    || SomeBlocks(AllFindings(input))
    || SettledBlock(SettledFindings(input.policy, proofs, Composition.AllFindings(GateOf(input, proofs), statements)))
  }

  /** The gate finds something that fails the run under the policy. */
  ghost predicate GateFails(policy: Policy, proofs: ProofInput, gate: GateInput.Input,
                            statements: seq<Classification.Classified>)
  {
    exists finding :: FindingLaws.Warranted(gate, statements, finding) && Fatal(policy, proofs, finding)
  }

  /**
   Under any policy and any overrides a run with proofs fails exactly when
   something warrants a finding of the trace that blocks, or one of the
   gate that is fatal.
   */
  lemma VerdictUnderAnyPolicy(input: Input, proofs: ProofInput, statements: seq<Classification.Classified>)
    ensures FailsWithProofs(input, proofs, statements)
            <==> || (exists finding :: TraceFindings.Warranted(input, finding) && finding.blocking)
                 || GateFails(input.policy, proofs, GateOf(input, proofs), statements)
  {
    var gate := GateOf(input, proofs);
    forall finding {
      TraceFindings.FindingsExactly(input, finding);
    }
    forall finding {
      FindingLaws.FindingsExactly(gate, statements, finding);
    }
    SettledBlockIff(input.policy, proofs, Composition.AllFindings(gate, statements));
  }

  /**
   The finding fails a run under the default policy: one of an overridden
   category exactly when the override is an error, whatever its effect and
   the mode; any other by its effect and the mode.
   */
  predicate FatalByDefault(proofs: ProofInput, finding: Gate.Finding) {
    if finding.category in proofs.overrides then proofs.overrides[finding.category] == Error
    else GateEffects.EffectBlocks(proofs.config.escalation, finding.effect)
  }

  lemma FatalIffByDefault(proofs: ProofInput, finding: Gate.Finding)
    requires finding.effect == Gate.EffectInform <==> finding.category == Gate.CompletenessQuestion
    ensures Fatal(DEFAULT_POLICY, proofs, finding) <==> FatalByDefault(proofs, finding)
  {
  }

  /** The gate finds something that fails the run under the default policy. */
  ghost predicate GateFailsByDefault(proofs: ProofInput, gate: GateInput.Input,
                                     statements: seq<Classification.Classified>)
  {
    exists finding :: FindingLaws.Warranted(gate, statements, finding) && FatalByDefault(proofs, finding)
  }

  lemma DefaultGateFails(proofs: ProofInput, gate: GateInput.Input, statements: seq<Classification.Classified>)
    ensures (exists finding | finding in Composition.AllFindings(gate, statements) ::
               Fatal(DEFAULT_POLICY, proofs, finding))
            <==> GateFailsByDefault(proofs, gate, statements)
  {
    var findings := Composition.AllFindings(gate, statements);
    GateEffects.GateDecides(proofs.config.escalation, gate, statements);
    if finding :| finding in findings && Fatal(DEFAULT_POLICY, proofs, finding) {
      FindingLaws.FindingsExactly(gate, statements, finding);
      FatalIffByDefault(proofs, finding);
    }
    if finding :| FindingLaws.Warranted(gate, statements, finding) && FatalByDefault(proofs, finding) {
      FindingLaws.FindingsExactly(gate, statements, finding);
      FatalIffByDefault(proofs, finding);
    }
  }

  /** With any overrides: under the default policy a run fails on its trace, or on a finding of the gate. */
  lemma ExactVerdictWithOverrides(input: Input, proofs: ProofInput, statements: seq<Classification.Classified>)
    requires input.policy == DEFAULT_POLICY
    ensures FailsWithProofs(input, proofs, statements)
            <==> !Traced(input) || GateFailsByDefault(proofs, GateOf(input, proofs), statements)
  {
    var gate := GateOf(input, proofs);
    ExactVerdict(input);
    SettledBlockIff(DEFAULT_POLICY, proofs, Composition.AllFindings(gate, statements));
    DefaultGateFails(proofs, gate, statements);
  }

  /** No category but that of questions is overridden to anything below an error. */
  predicate NothingIsLowered(overrides: map<Gate.Category, Severity>) {
    forall category | category in overrides && category != Gate.CompletenessQuestion :: overrides[category] == Error
  }

  /** Whether the verified set is usable and well formed and the proofs accept every criterion. */
  ghost predicate Accepted(input: Input, proofs: ProofInput, statements: seq<Classification.Classified>) {
    && !GateEffects.UnusableSet(proofs.evidence) && !GateEffects.HasMalformed(statements)
    && GateEffects.AllAcceptable(proofs.config.escalation, GateOf(input, proofs), statements,
                                 GateOf(input, proofs).criteria)
  }

  /** Where nothing is lowered and a run does not fail, the proofs accept every criterion. */
  lemma PassIsAccepted(input: Input, proofs: ProofInput, statements: seq<Classification.Classified>)
    requires input.policy == DEFAULT_POLICY && NothingIsLowered(proofs.overrides)
    requires !FailsWithProofs(input, proofs, statements)
    ensures Traced(input) && Accepted(input, proofs, statements)
  {
    var gate := GateOf(input, proofs);
    var findings := Composition.AllFindings(gate, statements);
    ExactVerdict(input);
    GateEffects.GateDecides(proofs.config.escalation, gate, statements);
    forall finding | finding in findings
      ensures GateEffects.EffectBlocks(proofs.config.escalation, finding.effect) ==>
                Fatal(DEFAULT_POLICY, proofs, finding)
    {
    }
    SettledBlockIff(DEFAULT_POLICY, proofs, findings);
  }

  /**
   Without overrides a run with proofs passes exactly when it is traced, its
   verified set is usable and well formed, and the proofs accept every
   criterion.
   */
  lemma ExactVerdictWithProofs(input: Input, proofs: ProofInput, statements: seq<Classification.Classified>)
    requires input.policy == DEFAULT_POLICY && proofs.overrides == map[]
    ensures FailsWithProofs(input, proofs, statements) <==> !(Traced(input) && Accepted(input, proofs, statements))
  {
    var gate := GateOf(input, proofs);
    var findings := Composition.AllFindings(gate, statements);
    ExactVerdict(input);
    GateEffects.GateDecides(proofs.config.escalation, gate, statements);
    SettledBlockIff(DEFAULT_POLICY, proofs, findings);
    forall finding | finding in findings
      ensures Fatal(DEFAULT_POLICY, proofs, finding)
              <==> GateEffects.EffectBlocks(proofs.config.escalation, finding.effect)
    {
      FatalIffByDefault(proofs, finding);
    }
  }

  // ----- What a pass vouches for

  lemma CoveredHasPassingTest(proofs: ProofInput, tests: seq<BoundTest>)
    requires HasOutcome(tests, Passed)
    ensures PassingTests(proofs, tests) != []
  {
    var test :| test in tests && test.outcome == Passed;
    FlatMapContains((one: BoundTest) => PassingTest(proofs, one), tests, PassingTest(proofs, test)[0]);
  }

  /** A verified requirement in focus becomes a criterion with at least one passing test. */
  lemma VerifiedIsAskedAbout(input: Input, proofs: ProofInput, focused: Focused)
    returns (criterion: GateInput.Criterion)
    requires UniqueIds(input.requirements) && Verified(input.testCases, focused)
    requires focused in input.requirements && focused.inFocus && focused.requirement.status == Active
    ensures criterion in GateOf(input, proofs).criteria
    ensures criterion.ref == ProofRef(focused.requirement.ref) && criterion.passingTests != []
  {
    var row := VerifiedRow(input, focused);
    var ofRow := (one: Row) => CriterionOf(proofs, input.scan.tags, one);
    criterion := ofRow(row)[0];
    FlatMapContains(ofRow, Rows(input), criterion);
    CoveredHasPassingTest(proofs, row.tests);
  }

  /**
   Where both kinds are required, escalations fail and no override lowers
   a category, a passing run vouches for every active requirement in focus.
   */
  lemma PassVouches(input: Input, proofs: ProofInput, statements: seq<Classification.Classified>, focused: Focused)
    returns (criterion: GateInput.Criterion)
    requires input.policy == DEFAULT_POLICY && NothingIsLowered(proofs.overrides)
             && proofs.config.escalation == ProofConfig.EscalateToError
    requires proofs.config.Requires(ProofFormat.DiscriminatingPowerKind)
             && proofs.config.Requires(ProofFormat.AlignmentKind)
    requires Classification.ClassifiedAs(GateOf(input, proofs), statements)
             && !FailsWithProofs(input, proofs, statements)
    requires focused in input.requirements && focused.inFocus && focused.requirement.status == Active
    ensures criterion in GateOf(input, proofs).criteria && criterion.ref == ProofRef(focused.requirement.ref)
    ensures CitedWith(input.testCases, focused.requirement.ref, Passed)
    ensures EvidenceLaws.Vouched(GateOf(input, proofs), statements, criterion)
  {
    PassIsAccepted(input, proofs, statements);
    assert Verified(input.testCases, focused);
    criterion := VerifiedIsAskedAbout(input, proofs, focused);
    var gate := GateOf(input, proofs);
    GateLaws.SoundPass(gate, criterion, Composition.Powers(statements, criterion.ref),
                       Composition.Alignments(statements, criterion.ref));
    EvidenceLaws.PowerIsBacked(gate, statements, criterion.ref, 0);
    forall test | test in criterion.passingTests
      ensures EvidenceLaws.ClearedByCurrent(gate, statements, criterion.ref, test)
    {
      EvidenceLaws.AlignedIsCurrent(gate, statements, criterion.ref, test);
    }
  }
}
