/**
 The proof format: the claims a verified statement carries, who made them and the
 executed evidence behind them. Members no decision reads are left out.
 */
module ProofFormat {
  import opened Wrappers

  datatype Kind = AlignmentKind | DiscriminatingPowerKind | CompletenessKind

  datatype Class = Executed | Judged

  datatype Validity = Valid | Equivalent | NotViolating | Undetermined

  datatype Verdict = Aligned | Misaligned | VerdictUndetermined

  datatype MutantOutcome = Killed | Survived | Errored

  datatype Channel = HostSubagent | HostSampled | HostInline | SystemOneRelay

  /** How far an executor was kept apart, in falling order; a text that is no level is weaker than them all. */
  datatype Isolation =
    | RestrictedAttested
    | Restricted
    | RestrictedUnverified
    | Unrestricted
    | Inline
    | UnknownIsolation(text: string)
  {
    function Strength(): nat {
      match this
      case RestrictedAttested => 5
      case Restricted => 4
      case RestrictedUnverified => 3
      case Unrestricted => 2
      case Inline => 1
      case UnknownIsolation(_) => 0
    }

    predicate AtLeast(floor: Isolation) {
      Strength() > 0 && Strength() >= floor.Strength()
    }
  }

  datatype CorroborationKind =
    | ExampleFailed
    | OtherExampleFailed
    | SpecificKill
    | Witness
    | Builds
    | OtherCriteriaPass
    | NoDiffFound
    | SpecificMatrix

  datatype Corroboration = Corroboration(kind: CorroborationKind, digest: string)

  datatype Executor = Executor(channel: Channel, isolation: Isolation)

  /** A value someone claims, with how it was come by and, for a judgment, how sure the judge was and what backs it. */
  datatype Claim<V> = Claim(value: V, evidence: Class, confidence: Option<real>,
                            executor: Option<Executor>, corroboratedBy: seq<Corroboration>)
  {
    function ConfidenceOrZero(): real {
      if confidence.Some? then confidence.value else 0.0
    }

    predicate Corroborates(kind: CorroborationKind) {
      exists item | item in corroboratedBy :: item.kind == kind
    }

    /** None of the kinds is missing among the corroborations. */
    predicate Has(kinds: seq<CorroborationKind>) {
      forall kind | kind in kinds :: Corroborates(kind)
    }

    /** The executor that answered the claim: its own, else the predicate's. */
    function ExecutorOf(predicateExecutor: Executor): Executor {
      if executor.Some? then executor.value else predicateExecutor
    }
  }

  datatype Decision = Decision(confidenceSource: string)

  /** Where the confidence came from, empty where no decision is recorded. */
  function DecisionSource(decision: Option<Decision>): string {
    if decision.Some? then decision.value.confidenceSource else ""
  }

  datatype TestResult = TestResult(test: string, outcome: Claim<MutantOutcome>)

  datatype Mutant = Mutant(digest: string, validity: Claim<Validity>, sentinel: bool,
                           results: seq<TestResult>, decision: Option<Decision>)

  datatype ExampleRun = ExampleRun(index: int, passed: bool)

  datatype Requirement = Requirement(id: string, revision: int)

  /** The matrix of one criterion's tests by mutants. */
  datatype DiscriminatingPower = DiscriminatingPower(
    requirement: Requirement, correctCodePasses: bool, mutants: seq<Mutant>, executor: Executor,
    examples: seq<ExampleRun>, decision: Option<Decision>, screenedOut: int)

  /** The judgment of one test against one criterion. */
  datatype Alignment = Alignment(requirement: Requirement, test: string, verdict: Claim<Verdict>,
                                 executor: Executor, decision: Option<Decision>)

  /** How descriptors of consumed proofs spell the kind. */
  function KindText(kind: Kind): string {
    match kind
    case AlignmentKind => "alignment"
    case DiscriminatingPowerKind => "discriminating-power"
    case CompletenessKind => "completeness"
  }

  /** The program that makes proofs of the kind. */
  function ModuleName(kind: Kind): string {
    match kind
    case AlignmentKind => "musthold-alignment"
    case DiscriminatingPowerKind => "musthold-dp"
    case CompletenessKind => "musthold-completeness"
  }

  /** The kind a module produces, named by its binary or by the kind itself. */
  function KindOfModule(name: string): Option<Kind> {
    if name == ModuleName(AlignmentKind) || name == KindText(AlignmentKind) then Some(AlignmentKind)
    else if name == ModuleName(DiscriminatingPowerKind) || name == KindText(DiscriminatingPowerKind) then
      Some(DiscriminatingPowerKind)
    else if name == ModuleName(CompletenessKind) || name == KindText(CompletenessKind) then Some(CompletenessKind)
    else None
  }

  /** The kind that consumers spell that way. */
  function KindOfName(name: string): Option<Kind> {
    if name == KindText(AlignmentKind) then Some(AlignmentKind)
    else if name == KindText(DiscriminatingPowerKind) then Some(DiscriminatingPowerKind)
    else if name == KindText(CompletenessKind) then Some(CompletenessKind)
    else None
  }

  // ----- Statements

  datatype InputRole = RoleSpec | RoleTestSource | RoleCodeTree | RoleJUnitResult | RoleMutantSet | RoleModelID
                     | RolePromptTemplate | RoleDecisionPolicy | RoleExampleBinding | RoleHostResponse | RoleProof
  {
    /** Descriptors of these two roles stand for one file each. */
    predicate NamesFile() {
      RoleCodeTree? || RoleTestSource?
    }
  }

  /** What a descriptor says besides its digest: a criterion for a proof, globs for a set of files. */
  datatype Annotations = Annotations(criterion: string, globs: seq<string>)

  datatype Descriptor = Descriptor(role: InputRole, name: string, digest: string, annotations: Option<Annotations>)

  datatype Subject = Subject(name: string, digest: string)

  datatype Predicate =
    | OfAlignment(alignment: Alignment)
    | OfPower(power: DiscriminatingPower)
    | OfCompleteness(questions: seq<string>)

  /** A well-formed statement has exactly one subject. */
  datatype Statement = Statement(subject: Subject, inputs: seq<Descriptor>, producedByCI: bool, predicate_: Predicate)
  {
    function Kind(): Kind {
      match predicate_
      case OfAlignment(_) => AlignmentKind
      case OfPower(_) => DiscriminatingPowerKind
      case OfCompleteness(_) => CompletenessKind
    }

    /** Alignment and power are about a requirement, completeness about a whole specification. */
    function About(): Option<Requirement> {
      match predicate_
      case OfAlignment(alignment) => Some(alignment.requirement)
      case OfPower(power) => Some(power.requirement)
      case OfCompleteness(_) => None
    }

    function RequirementOrZero(): Requirement {
      if About().Some? then About().value else Requirement("", 0)
    }
  }

  // ----- Criterion names

  function Digits(n: nat): (text: string)
    ensures text != [] && '0' <= text[0] <= '9'
  {
    if n < 10 then [('0' as int + n) as char] else Digits(n / 10) + [('0' as int + n % 10) as char]
  }

  function Decimal(n: int): string {
    if n < 0 then "-" + Digits(-n) else Digits(n)
  }

  /** The name ID~REVISION of a criterion. */
  function SubjectName(id: string, revision: int): string {
    id + "~" + Decimal(revision)
  }

  lemma {:induction false} DigitsInjective(m: nat, n: nat)
    requires Digits(m) == Digits(n)
    ensures m == n
  {
    if m >= 10 && n >= 10 {
      var a, b := Digits(m), Digits(n);
      assert a[..|a| - 1] == Digits(m / 10) && b[..|b| - 1] == Digits(n / 10);
      assert a[|a| - 1] == b[|b| - 1];
      DigitsInjective(m / 10, n / 10);
    } else {
      assert Digits(m)[0] == Digits(n)[0];
    }
  }

  lemma DecimalInjective(m: int, n: int)
    requires Decimal(m) == Decimal(n)
    ensures m == n
  {
    assert Decimal(m)[0] == '-' <==> m < 0;
    assert Decimal(n)[0] == '-' <==> n < 0;
    if m < 0 {
      assert Digits(-m) == Decimal(m)[1..] && Digits(-n) == Decimal(n)[1..];
      DigitsInjective(-m, -n);
    } else {
      DigitsInjective(m, n);
    }
  }

  lemma SubjectNameSplits(id: string, revision: int)
    requires '~' !in id
    ensures |id| < |SubjectName(id, revision)|
    ensures forall i | 0 <= i <= |id| :: SubjectName(id, revision)[i] == '~' <==> i == |id|
    ensures SubjectName(id, revision)[..|id|] == id
    ensures SubjectName(id, revision)[|id| + 1..] == Decimal(revision)
  {
  }

  /** A criterion name identifies its criterion when the ID holds no separator. */
  lemma SubjectNameInjective(id: string, revision: int, id': string, revision': int)
    requires '~' !in id && '~' !in id'
    requires SubjectName(id, revision) == SubjectName(id', revision')
    ensures id == id' && revision == revision'
  {
    SubjectNameSplits(id, revision);
    SubjectNameSplits(id', revision');
    var name := SubjectName(id, revision);
    assert name[|id|] == '~' && name[|id'|] == '~';
    DecimalInjective(revision, revision');
  }
}
