/**
 Traceability and proofs together: the criteria the gate is asked about, the
 severity its findings take, and what the verdict of a run with proofs means.
 */
module Settling {
  import opened Flattening
  import opened Ordering
  import opened Results
  import opened Traceability
  import Analyzer
  import Classification
  import Composition
  import Gate = GateFindings
  import GateInput
  import ProofConfig
  import ProofFormat

  /** What a run needs to consult proofs; the two functions translate paths and statements into the terms proofs use. */
  datatype ProofInput = ProofInput(
    config: ProofConfig.Config, covers: (ProofFormat.InputRole, string) -> bool,
    evidence: GateInput.Evidence, relativeToBase: string -> string, statementDigest: Requirement -> string,
    overrides: map<Gate.Category, Severity>)

  datatype Settled = Settled(finding: Gate.Finding, severity: Severity, blocking: bool)

  // ----- The criteria

  function PassingTest(proofs: ProofInput, test: BoundTest): seq<GateInput.TestName> {
    if test.outcome != Passed then []
    else [GateInput.TestName(test.name, test.className,
                             if test.source.Some? then proofs.relativeToBase(test.source.value.file) else "")]
  }

  function PassingTests(proofs: ProofInput, tests: seq<BoundTest>): seq<GateInput.TestName> {
    FlatMap((test: BoundTest) => PassingTest(proofs, test), tests)
  }

  method PassingTestsOf(proofs: ProofInput, row: Row) returns (names: seq<GateInput.TestName>)
    ensures names == PassingTests(proofs, row.tests)
  {
    ghost var f := (test: BoundTest) => PassingTest(proofs, test);
    names := [];
    for i := 0 to |row.tests|
      invariant names == FlatMap(f, row.tests[..i])
    {
      FlatMapStep(f, row.tests, i);
      var test := row.tests[i];
      if test.outcome == Passed {
        var file := if test.source.Some? then proofs.relativeToBase(test.source.value.file) else "";
        names := names + [GateInput.TestName(test.name, test.className, file)];
      }
    }
    assert row.tests[..|row.tests|] == row.tests;
  }

  predicate ByText(a: string, b: string) {
    CompareStrings(a, b) <= 0
  }

  function TaggedFile(proofs: ProofInput, ref: Ref, tag: SourceTag): seq<string> {
    if CitesRef(tag, ref) then [proofs.relativeToBase(tag.location.file)] else []
  }

  function TaggedFiles(proofs: ProofInput, tags: seq<SourceTag>, ref: Ref): seq<string> {
    FlatMap((tag: SourceTag) => TaggedFile(proofs, ref, tag), tags)
  }

  /** Sorted and without repetition: the file of every tag that cites the reference. */
  method TestFilesOf(proofs: ProofInput, tags: seq<SourceTag>, ref: Ref) returns (files: seq<string>)
    ensures files == StableSort(FirstSeen(TaggedFiles(proofs, tags, ref)), ByText)
  {
    ghost var f := (tag: SourceTag) => TaggedFile(proofs, ref, tag);
    var seen: set<string> := {};
    files := [];
    for i := 0 to |tags|
      invariant files == FirstSeen(FlatMap(f, tags[..i]))
      invariant seen == set file | file in FlatMap(f, tags[..i])
    {
      FlatMapStep(f, tags, i);
      if !CitesRef(tags[i], ref) {
        assert FlatMap(f, tags[..i + 1]) == FlatMap(f, tags[..i]);
        continue;
      }
      var file := proofs.relativeToBase(tags[i].location.file);
      FirstSeenAppend(FlatMap(f, tags[..i]), file);
      assert FlatMap(f, tags[..i + 1]) == FlatMap(f, tags[..i]) + [file];
      if file !in seen {
        seen := seen + {file};
        files := files + [file];
      }
    }
    assert tags[..|tags|] == tags;
    files := StableSort(files, ByText);
  }

  function ProofRef(ref: Ref): ProofFormat.Requirement {
    ProofFormat.Requirement(ref.id, ref.revision)
  }

  /** A requirement is asked about when it is in focus and traceability found it covered. */
  function CriterionOf(proofs: ProofInput, tags: seq<SourceTag>, row: Row): seq<GateInput.Criterion> {
    if !row.inFocus || row.coverage != Covered then []
    else [GateInput.Criterion(ProofRef(row.requirement.ref), PassingTests(proofs, row.tests),
                              StableSort(FirstSeen(TaggedFiles(proofs, tags, row.requirement.ref)), ByText))]
  }

  function CriteriaOf(proofs: ProofInput, tags: seq<SourceTag>, rows: seq<Row>): seq<GateInput.Criterion> {
    FlatMap((row: Row) => CriterionOf(proofs, tags, row), rows)
  }

  function KnownRows(proofs: ProofInput, rows: seq<Row>): map<string, GateInput.KnownRequirement> {
    if rows == [] then map[]
    else
      var last := rows[|rows| - 1].requirement;
      KnownRows(proofs,
                rows[..|rows| - 1])[last.ref.id :=
                                    GateInput.KnownRequirement(last.ref.revision, proofs.statementDigest(last))]
  }

  function GateInputOf(proofs: ProofInput, tags: seq<SourceTag>, rows: seq<Row>): GateInput.Input {
    GateInput.Input(proofs.config, KnownRows(proofs, rows), CriteriaOf(proofs, tags, rows), proofs.covers,
                    proofs.evidence)
  }

  /** What the gate is asked about a run. */
  ghost function GateOf(input: Input, proofs: ProofInput): GateInput.Input {
    GateInputOf(proofs, input.scan.tags, Rows(input))
  }

  // ----- Severities

  function DefaultProofSeverity(category: Gate.Category): Severity {
    if category == Gate.CompletenessQuestion then Info else Error
  }

  /** Overrides come first, then the mode for escalations, then the default of the category. */
  function ProofSeverity(proofs: ProofInput, finding: Gate.Finding): Severity {
    if finding.category in proofs.overrides then proofs.overrides[finding.category]
    else if finding.effect == Gate.EffectEscalate && proofs.config.escalation == ProofConfig.EscalateToWarning then
      Warning
    else DefaultProofSeverity(finding.category)
  }

  function SettledFinding(policy: Policy, proofs: ProofInput, finding: Gate.Finding): seq<Settled> {
    var severity := ProofSeverity(proofs, finding);
    if severity == Off then [] else [Settled(finding, severity, policy.Blocks(severity))]
  }

  function SettledFindings(policy: Policy, proofs: ProofInput, findings: seq<Gate.Finding>): seq<Settled> {
    FlatMap((finding: Gate.Finding) => SettledFinding(policy, proofs, finding), findings)
  }

  method ReportProof(policy: Policy, proofs: ProofInput, finding: Gate.Finding) returns (reported: seq<Settled>)
    ensures reported == SettledFinding(policy, proofs, finding)
  {
    var severity := DefaultProofSeverity(finding.category);
    if finding.category in proofs.overrides {
      severity := proofs.overrides[finding.category];
    } else if finding.effect == Gate.EffectEscalate && proofs.config.escalation == ProofConfig.EscalateToWarning {
      severity := Warning;
    }
    if severity == Off {
      return [];
    }
    return [Settled(finding, severity, policy.Blocks(severity))];
  }

  /** Asks the gate about the covered rows in focus and gives every finding it makes its severity, or drops it. */
  method SettleProofs(policy: Policy, proofs: ProofInput, tags: seq<SourceTag>, rows: seq<Row>)
    returns (run: Composition.Evaluation, report: Composition.GateReport, reported: seq<Settled>)
    ensures run.input == GateInputOf(proofs, tags, rows) && Classification.ClassifiedAs(run.input, run.statements)
    ensures var criteria := StableSort(run.input.criteria, Composition.ByRefText);
            Composition.ReportedInOrder(run.input, run.statements, criteria, report.criteria)
    ensures reported == SettledFindings(policy, proofs, Composition.AllFindings(run.input, run.statements))
  {
    var known: map<string, GateInput.KnownRequirement> := map[];
    var criteria: seq<GateInput.Criterion> := [];
    ghost var ofRow := (row: Row) => CriterionOf(proofs, tags, row);
    for i := 0 to |rows|
      invariant known == KnownRows(proofs, rows[..i])
      invariant criteria == FlatMap(ofRow, rows[..i])
    {
      FlatMapStep(ofRow, rows, i);
      TakeOneMore(rows, i);
      var requirement := rows[i].requirement;
      known := known[requirement.ref.id :=
                     GateInput.KnownRequirement(requirement.ref.revision, proofs.statementDigest(requirement))];
      if rows[i].inFocus && rows[i].coverage == Covered {
        var names := PassingTestsOf(proofs, rows[i]);
        var files := TestFilesOf(proofs, tags, requirement.ref);
        criteria := criteria + [GateInput.Criterion(ProofRef(requirement.ref), names, files)];
      }
    }
    assert rows[..|rows|] == rows;
    run, report :=
      Composition.Evaluate(GateInput.Input(proofs.config, known, criteria, proofs.covers, proofs.evidence));
    reported := ReportAll(policy, proofs, run.findings);
  }

  method ReportAll(policy: Policy, proofs: ProofInput, findings: seq<Gate.Finding>) returns (reported: seq<Settled>)
    ensures reported == SettledFindings(policy, proofs, findings)
  {
    ghost var f := (finding: Gate.Finding) => SettledFinding(policy, proofs, finding);
    reported := [];
    for i := 0 to |findings|
      invariant reported == FlatMap(f, findings[..i])
    {
      FlatMapStep(f, findings, i);
      var more := ReportProof(policy, proofs, findings[i]);
      reported := reported + more;
    }
    assert findings[..|findings|] == findings;
  }

  predicate SettledBlock(settled: seq<Settled>) {
    exists one | one in settled :: one.blocking
  }

  method SomeSettledBlocks(settled: seq<Settled>) returns (blocks: bool)
    ensures blocks == SettledBlock(settled)
  {
    for i := 0 to |settled|
      invariant forall k | 0 <= k < i :: !settled[k].blocking
    {
      if settled[i].blocking {
        return true;
      }
    }
    return false;
  }

  /** The analysis of a run with proofs: a blocking finding of either kind fails it. */
  method AnalyzeWithProofs(input: Input, proofs: ProofInput)
    returns (findings: seq<Finding>, run: Composition.Evaluation, reported: seq<Settled>, verdict: Verdict)
    ensures findings == AllFindings(input)
    ensures run.input == GateOf(input, proofs) && Classification.ClassifiedAs(run.input, run.statements)
    ensures reported == SettledFindings(input.policy, proofs, Composition.AllFindings(run.input, run.statements))
    ensures verdict == if SomeBlocks(findings) || SettledBlock(reported) then VerdictFail else VerdictPass
  {
    var rows;
    rows, findings, verdict := Analyzer.Analyze(input);
    var report;
    run, report, reported := SettleProofs(input.policy, proofs, input.scan.tags, rows);
    var blocks := SomeSettledBlocks(reported);
    if blocks {
      verdict := VerdictFail;
    }
  }
}
