/** What validation accepts, spelled out from the characters up: exactly the statements that keep these rules. */
module StatementRules {
  import opened CacheKey
  import opened CriterionNames
  import opened Invariants
  import opened Ordering
  import opened PolicyLaws
  import opened ProofFormat
  import opened StatementIdentity
  import opened Wrappers

  // ----- Orders

  /** Each element comes before all that stand behind it. */
  ghost predicate InOrder<T(!new)>(items: seq<T>, before: (T, T) -> bool) {
    forall i, j | 0 <= i < j < |items| :: before(items[i], items[j])
  }

  lemma AscendingIff<T(!new)>(items: seq<T>, compare: (T, T) -> int, before: (T, T) -> bool)
    requires forall a, b :: compare(a, b) < 0 <==> before(a, b)
    requires forall a, b, c :: before(a, b) && before(b, c) ==> before(a, c)
    ensures AscendingNeighbours(items, compare) <==> InOrder(items, before)
  {
    if AscendingNeighbours(items, compare) {
      forall i, j | 0 <= i < j < |items| ensures before(items[i], items[j]) {
        NeighboursSettleOrder(items, compare, i, j);
      }
    }
  }

  lemma PrecedesIsTransitive(a: string, b: string, c: string)
    requires Precedes(a, b) && Precedes(b, c)
    ensures Precedes(a, c)
  {
    CompareStringsIff(a, b);
    CompareStringsIff(b, c);
    CompareStringsIff(a, c);
    CompareStringsTransitive(a, b, c);
    CompareStringsIdentifies(a, b);
    CompareStringsIdentifies(a, c);
    CompareStringsIdentifies(b, c);
  }

  lemma PrecedesIsStrict(a: string)
    ensures !Precedes(a, a)
  {
    CompareStringsIff(a, a);
    CompareStringsIdentifies(a, a);
  }

  /** By a first text, then by a second. */
  ghost predicate ByTwo(a: string, x: string, b: string, y: string) {
    Precedes(a, b) || (a == b && Precedes(x, y))
  }

  lemma ByTwoIsTransitive(a: string, x: string, b: string, y: string, c: string, z: string)
    requires ByTwo(a, x, b, y) && ByTwo(b, y, c, z)
    ensures ByTwo(a, x, c, z)
  {
    if Precedes(a, b) && Precedes(b, c) {
      PrecedesIsTransitive(a, b, c);
    } else if a == b && b == c {
      PrecedesIsTransitive(x, y, z);
    }
  }

  ghost predicate DigestBefore(a: Mutant, b: Mutant) {
    Precedes(a.digest, b.digest)
  }

  ghost predicate TestBefore(a: TestResult, b: TestResult) {
    Precedes(a.test, b.test)
  }

  predicate IndexBefore(a: ExampleRun, b: ExampleRun) {
    a.index < b.index
  }

  lemma SimpleOrders(globs: seq<string>, mutants: seq<Mutant>, results: seq<TestResult>, examples: seq<ExampleRun>)
    ensures AscendingNeighbours(globs, CompareStrings) <==> InOrder(globs, Precedes)
    ensures AscendingNeighbours(mutants, CompareDigests) <==> InOrder(mutants, DigestBefore)
    ensures AscendingNeighbours(results, CompareTests) <==> InOrder(results, TestBefore)
    ensures AscendingNeighbours(examples, CompareIndexes) <==> InOrder(examples, IndexBefore)
  {
    forall a, b ensures CompareStrings(a, b) < 0 <==> Precedes(a, b) {
      CompareStringsIff(a, b);
    }
    forall a, b, c | Precedes(a, b) && Precedes(b, c) ensures Precedes(a, c) {
      PrecedesIsTransitive(a, b, c);
    }
    AscendingIff(globs, CompareStrings, Precedes);
    AscendingIff(mutants, CompareDigests, DigestBefore);
    AscendingIff(results, CompareTests, TestBefore);
    AscendingIff(examples, CompareIndexes, IndexBefore);
  }

  // ----- The order of corroborations and of inputs

  /** The place of the kind among the names of all kinds. */
  function PlaceOfKind(kind: CorroborationKind): nat {
    match kind
    case Builds => 0
    case ExampleFailed => 1
    case Witness => 2
    case NoDiffFound => 3
    case OtherCriteriaPass => 4
    case OtherExampleFailed => 5
    case SpecificKill => 6
    case SpecificMatrix => 7
  }

  function PlaceOfRole(role: InputRole): nat {
    match role
    case RoleCodeTree => 0
    case RoleDecisionPolicy => 1
    case RoleExampleBinding => 2
    case RoleHostResponse => 3
    case RoleJUnitResult => 4
    case RoleModelID => 5
    case RoleMutantSet => 6
    case RolePromptTemplate => 7
    case RoleProof => 8
    case RoleSpec => 9
    case RoleTestSource => 10
  }

  lemma DifferAt(a: string, b: string, k: nat)
    requires k < |a| && k < |b| && a[..k] == b[..k] && a[k] < b[k]
    ensures Precedes(a, b)
  {
  }

  /** Neighbours in order are enough. */
  lemma {:induction false} Chain(names: seq<string>, i: nat, j: nat)
    requires forall k | 0 < k < |names| :: Precedes(names[k - 1], names[k])
    requires i < j < |names|
    ensures Precedes(names[i], names[j])
  {
    assert Precedes(names[j - 1], names[j]);
    if i + 1 < j {
      Chain(names, i, j - 1);
      PrecedesIsTransitive(names[i], names[j - 1], names[j]);
    }
  }

  lemma PlacesDecide(names: seq<string>, i: nat, j: nat)
    requires forall k | 0 < k < |names| :: Precedes(names[k - 1], names[k])
    requires i < |names| && j < |names|
    ensures Precedes(names[i], names[j]) <==> i < j
    ensures names[i] == names[j] <==> i == j
  {
    PrecedesIsStrict(names[i]);
    if i < j {
      Chain(names, i, j);
    } else if j < i {
      Chain(names, j, i);
      if Precedes(names[i], names[j]) {
        PrecedesIsTransitive(names[i], names[j], names[i]);
      }
    }
  }

  const KIND_NAMES := ["builds", "example_failed", "f4_witness", "no_diff_found", "other_criteria_pass",
                       "other_example_failed", "specific_kill", "specific_matrix"]

  const ROLE_NAMES := ["code_tree", "decision_policy", "example_binding", "host_response", "junit_result", "model_id",
                       "mutant_set", "prompt_template", "proof", "spec", "test_source"]

  lemma KindNamesAscend(k: nat)
    requires 0 < k < |KIND_NAMES|
    ensures Precedes(KIND_NAMES[k - 1], KIND_NAMES[k])
  {
    if k == 5 {
      assert "other_criteria_pass"[..6] == "other_" == "other_example_failed"[..6];
      DifferAt(KIND_NAMES[4], KIND_NAMES[5], 6);
    } else if k == 7 {
      assert "specific_kill"[..9] == "specific_" == "specific_matrix"[..9];
      DifferAt(KIND_NAMES[6], KIND_NAMES[7], 9);
    } else {
      DifferAt(KIND_NAMES[k - 1], KIND_NAMES[k], 0);
    }
  }

  lemma RoleNamesAscend(k: nat)
    requires 0 < k < |ROLE_NAMES|
    ensures Precedes(ROLE_NAMES[k - 1], ROLE_NAMES[k])
  {
    if k == 6 {
      assert "model_id"[..1] == "m" == "mutant_set"[..1];
      DifferAt(ROLE_NAMES[5], ROLE_NAMES[6], 1);
    } else if k == 8 {
      assert "prompt_template"[..3] == "pro" == "proof"[..3];
      DifferAt(ROLE_NAMES[7], ROLE_NAMES[8], 3);
    } else {
      DifferAt(ROLE_NAMES[k - 1], ROLE_NAMES[k], 0);
    }
  }

  lemma KindPlaceIff(a: CorroborationKind, b: CorroborationKind)
    ensures Precedes(KindName(a), KindName(b)) <==> PlaceOfKind(a) < PlaceOfKind(b)
    ensures KindName(a) == KindName(b) <==> a == b
  {
    forall k | 0 < k < |KIND_NAMES| ensures Precedes(KIND_NAMES[k - 1], KIND_NAMES[k]) {
      KindNamesAscend(k);
    }
    PlacesDecide(KIND_NAMES, PlaceOfKind(a), PlaceOfKind(b));
    NameOfKind(a);
    NameOfKind(b);
  }

  lemma NameOfKind(kind: CorroborationKind)
    ensures KindName(kind) == KIND_NAMES[PlaceOfKind(kind)]
  {
  }

  lemma NameOfRole(role: InputRole)
    ensures RoleText(role) == ROLE_NAMES[PlaceOfRole(role)]
  {
  }

  lemma RolePlaceIff(a: InputRole, b: InputRole)
    ensures Precedes(RoleText(a), RoleText(b)) <==> PlaceOfRole(a) < PlaceOfRole(b)
    ensures RoleText(a) == RoleText(b) <==> a == b
  {
    forall k | 0 < k < |ROLE_NAMES| ensures Precedes(ROLE_NAMES[k - 1], ROLE_NAMES[k]) {
      RoleNamesAscend(k);
    }
    PlacesDecide(ROLE_NAMES, PlaceOfRole(a), PlaceOfRole(b));
    NameOfRole(a);
    NameOfRole(b);
  }

  /** By the place of the kind, then by the digest. */
  ghost predicate CorroborationBefore(a: Corroboration, b: Corroboration) {
    PlaceOfKind(a.kind) < PlaceOfKind(b.kind) || (a.kind == b.kind && Precedes(a.digest, b.digest))
  }

  lemma CorroborationsOrdered(items: seq<Corroboration>)
    ensures AscendingNeighbours(items, CompareCorroborations) <==> InOrder(items, CorroborationBefore)
  {
    forall a, b ensures CompareCorroborations(a, b) < 0 <==> CorroborationBefore(a, b) {
      KindPlaceIff(a.kind, b.kind);
      CompareStringsIff(KindName(a.kind), KindName(b.kind));
      CompareStringsIdentifies(KindName(a.kind), KindName(b.kind));
      CompareStringsIff(a.digest, b.digest);
    }
    forall a, b, c | CorroborationBefore(a, b) && CorroborationBefore(b, c) ensures CorroborationBefore(a, c) {
      if a.kind == b.kind == c.kind {
        PrecedesIsTransitive(a.digest, b.digest, c.digest);
      }
    }
    AscendingIff(items, CompareCorroborations, CorroborationBefore);
  }

  function AnnotatedCriterion(consumed: Descriptor): string {
    match consumed.annotations
    case None => ""
    case Some(annotations) => annotations.criterion
  }

  /** By the place of the role, then by the name, then by the criterion that is annotated. */
  ghost predicate InputBefore(a: Descriptor, b: Descriptor) {
    || PlaceOfRole(a.role) < PlaceOfRole(b.role)
    || (a.role == b.role && ByTwo(a.name, AnnotatedCriterion(a), b.name, AnnotatedCriterion(b)))
  }

  lemma InputsCompared(a: Descriptor, b: Descriptor)
    ensures CompareByIdentity(a, b) < 0 <==> InputBefore(a, b)
  {
    RolePlaceIff(a.role, b.role);
    CompareStringsIff(RoleText(a.role), RoleText(b.role));
    CompareStringsIdentifies(RoleText(a.role), RoleText(b.role));
    CompareStringsIff(a.name, b.name);
    CompareStringsIdentifies(a.name, b.name);
    CompareStringsIff(AnnotatedCriterion(a), AnnotatedCriterion(b));
  }

  lemma InputsOrdered(inputs: seq<Descriptor>)
    ensures AscendingNeighbours(inputs, CompareByIdentity) <==> InOrder(inputs, InputBefore)
  {
    forall a, b ensures CompareByIdentity(a, b) < 0 <==> InputBefore(a, b) {
      InputsCompared(a, b);
    }
    forall a, b, c | InputBefore(a, b) && InputBefore(b, c) ensures InputBefore(a, c) {
      if a.role == b.role == c.role {
        ByTwoIsTransitive(a.name, AnnotatedCriterion(a), b.name, AnnotatedCriterion(b), c.name, AnnotatedCriterion(c));
      }
    }
    AscendingIff(inputs, CompareByIdentity, InputBefore);
  }

  // ----- Texts

  predicate HexDigit(c: char) {
    c in {'0', '1', '2', '3', '4', '5', '6', '7', '8', '9', 'a', 'b', 'c', 'd', 'e', 'f'}
  }

  /** A SHA-256 digest in lower-case hexadecimal digits. */
  predicate Sha256(text: string) {
    |text| == 64 && forall i | 0 <= i < 64 :: HexDigit(text[i])
  }

  lemma Sha256Iff(text: string)
    ensures IsSha256Hex(text) <==> Sha256(text)
  {
    assert forall c: char :: HexDigit(c) <==> '0' <= c <= '9' || 'a' <= c <= 'f';
    assert forall i | 0 <= i < |text| :: text[i] in text;
  }

  /** A stretch of the path between two separators, or between one and an end. */
  predicate IsPart(path: string, from: nat, to: nat) {
    && from <= to <= |path| && '/' !in path[from..to]
    && (from == 0 || path[from - 1] == '/') && (to == |path| || path[to] == '/')
  }

  /** No part of the path is empty, the directory itself or the one above it, and no character is forbidden. */
  ghost predicate StaysBelow(path: string) {
    && path != "" && '\\' !in path && '\0' !in path
    && forall from: nat, to: nat | IsPart(path, from, to) ::
         path[from..to] != "" && path[from..to] != "." && path[from..to] != ".."
  }

  /** A part behind some separator is the segment. */
  ghost predicate HoldsLater(path: string, segment: string) {
    exists from: nat, to: nat :: from > 0 && IsPart(path, from, to) && path[from..to] == segment
  }

  lemma BehindOne(path: string, from: nat, to: nat)
    requires path != "" && from <= to <= |path| - 1
    ensures path[1..][from..to] == path[from + 1..to + 1]
    ensures from > 0 ==> (IsPart(path[1..], from, to) <==> IsPart(path, from + 1, to + 1))
    ensures path[0] == '/' ==> (IsPart(path[1..], from, to) <==> IsPart(path, from + 1, to + 1))
    ensures path[0] != '/' && from == 0 ==> (IsPart(path[1..], 0, to) <==> IsPart(path, 0, to + 1))
    ensures path[..to + 1] == [path[0]] + path[1..][..to]
  {
    var rest := path[1..];
    assert rest[from..to] == path[from + 1..to + 1];
    assert to < |rest| ==> rest[to] == path[to + 1];
    assert path[0..to + 1] == [path[0]] + rest[0..to];
  }

  lemma OneFirstPart(path: string, to: nat, other: nat)
    requires IsPart(path, 0, to) && IsPart(path, 0, other)
    ensures to == other
  {
  }

  lemma {:induction false} FirstPart(path: string) returns (to: nat)
    ensures IsPart(path, 0, to) && path[..to] == Segments(path)[0]
  {
    if path == "" || path[0] == '/' {
      to := 0;
    } else {
      var shorter := FirstPart(path[1..]);
      BehindOne(path, 0, shorter);
      to := shorter + 1;
    }
  }

  /** The parts behind a separator of the path are those of the path without its first character, and one more. */
  lemma LaterBehindOne(path: string, segment: string)
    requires path != ""
    ensures HoldsLater(path, segment)
            <==> HoldsLater(path[1..], segment) || (path[0] == '/' && segment == Segments(path[1..])[0])
  {
    var rest := path[1..];
    var first := FirstPart(rest);
    if from: nat, to: nat :| from > 0 && IsPart(rest, from, to) && rest[from..to] == segment {
      BehindOne(path, from, to);
      assert IsPart(path, from + 1, to + 1) && path[from + 1..to + 1] == segment;
    }
    if path[0] == '/' {
      BehindOne(path, 0, first);
      assert IsPart(path, 1, first + 1) && path[1..first + 1] == rest[..first];
    }
    if from: nat, to: nat :| from > 0 && IsPart(path, from, to) && path[from..to] == segment {
      BehindOne(path, from - 1, to - 1);
      if from == 1 {
        OneFirstPart(rest, first, to - 1);
      } else {
        assert IsPart(rest, from - 1, to - 1) && rest[from - 1..to - 1] == segment;
      }
    }
  }

  lemma {:induction false} LaterParts(path: string, segment: string)
    ensures segment in Segments(path)[1..] <==> HoldsLater(path, segment)
  {
    if path != "" {
      LaterParts(path[1..], segment);
      LaterBehindOne(path, segment);
      var rest := Segments(path[1..]);
      assert rest == [rest[0]] + rest[1..];
    }
  }

  lemma StaysBelowIff(path: string)
    ensures IsRelativePath(path) <==> StaysBelow(path)
  {
    var first := FirstPart(path);
    var segments := Segments(path);
    assert segments == [segments[0]] + segments[1..];
    forall segment ensures segment in segments <==> segment == path[..first] || HoldsLater(path, segment) {
      LaterParts(path, segment);
    }
    forall from: nat, to: nat | IsPart(path, from, to) ensures path[from..to] in segments {
      assert from > 0 ==> HoldsLater(path, path[from..to]);
    }
  }

  // ----- Claims

  /** A judgment says how sure it is and lists what backs it, each by its digest and in one order. */
  ghost predicate SoundJudgment<V>(claim: Claim<V>) {
    && claim.evidence.Judged? && claim.confidence.Some? && 0.0 <= claim.confidence.value <= 1.0
    && (forall item | item in claim.corroboratedBy :: Sha256(item.digest))
    && InOrder(claim.corroboratedBy, CorroborationBefore)
  }

  /** What was executed claims nothing beside its value. */
  predicate SoundExecution<V>(claim: Claim<V>) {
    claim.evidence.Executed? && claim.confidence.None? && claim.corroboratedBy == [] && claim.executor.None?
  }

  lemma JudgmentIff<V>(claim: Claim<V>)
    ensures WellFormedClaim(claim, Judged) <==> SoundJudgment(claim)
  {
    CorroborationsOrdered(claim.corroboratedBy);
    forall item | item in claim.corroboratedBy ensures IsSha256Hex(item.digest) <==> Sha256(item.digest) {
      Sha256Iff(item.digest);
    }
  }

  lemma ExecutionIff<V>(claim: Claim<V>)
    ensures WellFormedClaim(claim, Executed) <==> SoundExecution(claim)
  {
  }

  ghost predicate SoundDecision(decision: Option<Decision>) {
    decision.None? || KnownSource(decision.value.confidenceSource)
  }

  lemma DecisionIff(decision: Option<Decision>)
    ensures WellFormedDecision(decision) <==> SoundDecision(decision)
  {
    if decision.Some? {
      KnownIff(decision.value.confidenceSource);
    }
  }

  // ----- Predicates

  /** A mutant ran some tests, each once; a sentinel is judged equivalent; and a valid one is backed by something. */
  ghost predicate SoundMutant(mutant: Mutant) {
    && Sha256(mutant.digest) && SoundJudgment(mutant.validity) && SoundDecision(mutant.decision)
    && mutant.results != [] && InOrder(mutant.results, TestBefore)
    && (forall result | result in mutant.results :: result.test != "" && SoundExecution(result.outcome))
    && (mutant.sentinel ==> mutant.validity.value.Equivalent?)
    && (mutant.validity.value.Valid? ==> mutant.validity.corroboratedBy != [])
  }

  lemma MutantIff(mutant: Mutant)
    ensures WellFormedMutant(mutant) <==> SoundMutant(mutant)
  {
    Sha256Iff(mutant.digest);
    JudgmentIff(mutant.validity);
    DecisionIff(mutant.decision);
    SimpleOrders([], [], mutant.results, []);
    forall result | result in mutant.results
      ensures WellFormedResult(result) <==> result.test != "" && SoundExecution(result.outcome)
    {
      ExecutionIff(result.outcome);
    }
  }

  ghost predicate SoundMatrix(power: DiscriminatingPower) {
    && SoundDecision(power.decision)
    && InOrder(power.mutants, DigestBefore) && (forall mutant | mutant in power.mutants :: SoundMutant(mutant))
    && InOrder(power.examples, IndexBefore)
  }

  lemma MatrixIff(power: DiscriminatingPower)
    ensures WellFormedPower(power) <==> SoundMatrix(power)
  {
    DecisionIff(power.decision);
    SimpleOrders([], power.mutants, [], power.examples);
    forall mutant | mutant in power.mutants ensures WellFormedMutant(mutant) <==> SoundMutant(mutant) {
      MutantIff(mutant);
    }
  }

  ghost predicate SoundVerdict(alignment: Alignment) {
    SoundDecision(alignment.decision) && alignment.test != "" && SoundJudgment(alignment.verdict)
  }

  lemma VerdictIff(alignment: Alignment)
    ensures WellFormedAlignment(alignment) <==> SoundVerdict(alignment)
  {
    DecisionIff(alignment.decision);
    JudgmentIff(alignment.verdict);
  }

  ghost predicate SoundPredicate(statement: Statement) {
    match statement.predicate_
    case OfAlignment(alignment) => SoundVerdict(alignment)
    case OfPower(power) => SoundMatrix(power)
    case OfCompleteness(_) => true
  }

  // ----- Identity

  predicate SoundCriterion(criterion: Requirement) {
    criterion.id != "" && '~' !in criterion.id && criterion.revision >= 1
  }

  function NameOf(criterion: Requirement): string {
    criterion.id + "~" + Decimal(criterion.revision)
  }

  /** The criterion a matrix or a verdict is about. */
  function CriterionOf(statement: Statement): Option<Requirement> {
    match statement.predicate_
    case OfAlignment(alignment) => Some(alignment.requirement)
    case OfPower(power) => Some(power.requirement)
    case OfCompleteness(_) => None
  }

  /** The subject is the statement of the criterion, or a specification by its path. */
  ghost predicate SoundSubject(statement: Statement) {
    && Sha256(statement.subject.digest)
    && match CriterionOf(statement)
       case Some(criterion) => SoundCriterion(criterion) && statement.subject.name == NameOf(criterion)
       case None => StaysBelow(statement.subject.name)
  }

  /** A consumed proof is named by its kind and by a criterion whose revision a machine integer counts. */
  ghost predicate SoundConsumption(consumed: Descriptor) {
    && consumed.name in {"alignment", "discriminating-power", "completeness"}
    && exists criterion: Requirement ::
         SoundCriterion(criterion) && criterion.revision <= 0x7FFF_FFFF_FFFF_FFFF
         && AnnotatedCriterion(consumed) == NameOf(criterion)
  }

  lemma ConsumptionIff(consumed: Descriptor)
    ensures NamesAProof(consumed) <==> SoundConsumption(consumed)
  {
    var text := AnnotatedCriterion(consumed);
    if ParseCriterion(text).Some? {
      ParseCriterionIff(text, ParseCriterion(text).value);
    }
    if criterion: Requirement :| SoundCriterion(criterion) && criterion.revision <= 0x7FFF_FFFF_FFFF_FFFF
                                 && text == NameOf(criterion) {
      ParseCriterionIff(text, criterion);
    }
  }

  /**
   The specification of a statement about a criterion is its subject again;
   a file that is consumed stays below the project; a proof is one that can
   be told. Nothing is asked of the other roles.
   */
  ghost predicate SoundForItsRole(consumed: Descriptor, statement: Statement) {
    match consumed.role
    case RoleSpec => CriterionOf(statement).Some? ==>
      consumed.name == statement.subject.name && consumed.digest == statement.subject.digest
    case RoleCodeTree => StaysBelow(consumed.name)
    case RoleTestSource => StaysBelow(consumed.name)
    case RoleProof => SoundConsumption(consumed)
    case _ => true
  }

  ghost predicate SoundInput(consumed: Descriptor, statement: Statement) {
    && consumed.name != "" && Sha256(consumed.digest)
    && (consumed.annotations.Some? ==> InOrder(consumed.annotations.value.globs, Precedes))
    && SoundForItsRole(consumed, statement)
  }

  lemma RoleIff(consumed: Descriptor, statement: Statement)
    requires WellFormedTopic(statement) && consumed.name != ""
    ensures FitsItsRole(consumed, statement) <==> SoundForItsRole(consumed, statement)
  {
    match consumed.role
    case RoleCodeTree => StaysBelowIff(consumed.name);
    case RoleTestSource => StaysBelowIff(consumed.name);
    case RoleProof => ConsumptionIff(consumed);
    case _ =>
  }

  lemma InputIff(consumed: Descriptor, statement: Statement)
    requires WellFormedTopic(statement)
    ensures WellFormedInput(consumed, statement) <==> SoundInput(consumed, statement)
  {
    Sha256Iff(consumed.digest);
    if consumed.name != "" {
      RoleIff(consumed, statement);
    }
    if consumed.annotations.Some? {
      SimpleOrders(consumed.annotations.value.globs, [], [], []);
    }
  }

  lemma TopicIff(statement: Statement)
    ensures WellFormedTopic(statement) <==> SoundSubject(statement)
  {
    Sha256Iff(statement.subject.digest);
    StaysBelowIff(statement.subject.name);
  }

  // ----- Statements

  /** The rules of a statement: of its subject, of the order and the parts of its inputs and of what it claims. */
  ghost predicate Sound(statement: Statement) {
    && SoundSubject(statement) && SoundPredicate(statement)
    && statement.inputs != [] && InOrder(statement.inputs, InputBefore)
    && forall consumed | consumed in statement.inputs :: SoundInput(consumed, statement)
  }

  /** Validation reports nothing for exactly the statements that keep the rules. */
  lemma AcceptedIffSound(statement: Statement)
    ensures Accepted(statement) <==> Sound(statement)
  {
    TopicIff(statement);
    InputsOrdered(statement.inputs);
    match statement.predicate_ {
      case OfAlignment(alignment) => VerdictIff(alignment);
      case OfPower(power) => MatrixIff(power);
      case OfCompleteness(_) =>
    }
    if WellFormedTopic(statement) {
      forall consumed | consumed in statement.inputs
        ensures WellFormedInput(consumed, statement) <==> SoundInput(consumed, statement)
      {
        InputIff(consumed, statement);
      }
    }
  }
}
