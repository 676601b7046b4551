/**
 What validation checks of the subject and the inputs of a statement, and what an accepted statement owes to
 it: names that identify, inputs in one order only, and spec inputs that never go stale on their own.
 */
module StatementIdentity {
  import opened Classification
  import opened ClassificationLaws
  import opened CriterionNames
  import opened GateInput
  import opened Invariants
  import opened Ordering
  import opened ProofFormat
  import opened Wrappers
  import CacheKey

  // ----- Criteria and subjects

  predicate WellFormedRequirement(requirement: Requirement) {
    requirement.id != "" && '~' !in requirement.id && requirement.revision >= MINIMUM_REVISION
  }

  /** The subject is named after the criterion and has a digest. */
  predicate WellFormedSubject(subject: Subject, requirement: Requirement) {
    IsSha256Hex(subject.digest) && subject.name == SubjectName(requirement.id, requirement.revision)
  }

  /** The parts of a path between its separators. */
  function Segments(path: string): (segments: seq<string>)
    ensures segments != []
  {
    if path == "" then [""]
    else
      var rest := Segments(path[1..]);
      if path[0] == '/' then [""] + rest else [[path[0]] + rest[0]] + rest[1..]
  }

  /** A path that stays below the directory it is relative to, whatever the directory. */
  predicate IsRelativePath(path: string) {
    && path != "" && '\\' !in path && '\0' !in path
    && forall segment | segment in Segments(path) :: segment != "" && segment != "." && segment != ".."
  }

  predicate WellFormedSpecSubject(subject: Subject) {
    IsSha256Hex(subject.digest) && IsRelativePath(subject.name)
  }

  method CheckRequirement(sink: Collector, requirement: Requirement)
    modifies sink
    ensures Reports(sink, WellFormedRequirement(requirement))
  {
    sink.Check(requirement.id != "" && '~' !in requirement.id, BadRequirement);
    sink.Check(requirement.revision >= MINIMUM_REVISION, BadRequirement);
  }

  method CheckRequirementSubject(sink: Collector, subject: Subject, requirement: Requirement)
    modifies sink
    ensures Reports(sink, WellFormedSubject(subject, requirement))
  {
    sink.Check(IsSha256Hex(subject.digest), BadDigest);
    sink.Check(subject.name == SubjectName(requirement.id, requirement.revision), BadSubject);
  }

  method CheckSpecSubject(sink: Collector, subject: Subject)
    modifies sink
    ensures Reports(sink, WellFormedSpecSubject(subject))
  {
    sink.Check(IsSha256Hex(subject.digest), BadDigest);
    sink.Check(IsRelativePath(subject.name), BadSubject);
  }

  // ----- Inputs

  function CriterionOrEmpty(consumed: Descriptor): string {
    if consumed.annotations.Some? then consumed.annotations.value.criterion else ""
  }

  /** Inputs are told apart by role, name and consumed criterion. */
  function CompareByIdentity(a: Descriptor, b: Descriptor): int {
    var byRole := CompareStrings(CacheKey.RoleText(a.role), CacheKey.RoleText(b.role));
    var byName := CompareStrings(a.name, b.name);
    if byRole != 0 then byRole
    else if byName != 0 then byName
    else CompareStrings(CriterionOrEmpty(a), CriterionOrEmpty(b))
  }

  /** Nothing is held against a spec input that a malformed criterion or subject digest is the reason for. */
  predicate RepeatsSubject(consumed: Descriptor, subject: Subject, requirement: Requirement) {
    && (WellFormedRequirement(requirement) ==> consumed.name == SubjectName(requirement.id, requirement.revision))
    && (IsSha256Hex(subject.digest) ==> consumed.digest == subject.digest)
  }

  /** The input names a kind of proof and the criterion the proof is about. */
  predicate NamesAProof(consumed: Descriptor) {
    KindOfName(consumed.name).Some? && ParseCriterion(CriterionOrEmpty(consumed)).Some?
  }

  /** What is asked of an input on account of its role. */
  predicate FitsItsRole(consumed: Descriptor, statement: Statement) {
    if consumed.role == RoleSpec && statement.About().Some? then
      RepeatsSubject(consumed, statement.subject, statement.About().value)
    else if consumed.role.NamesFile() then consumed.name != "" ==> IsRelativePath(consumed.name)
    else consumed.role == RoleProof ==> NamesAProof(consumed)
  }

  predicate WellFormedInput(consumed: Descriptor, statement: Statement) {
    && consumed.name != "" && IsSha256Hex(consumed.digest)
    && (consumed.annotations.Some? ==> AscendingNeighbours(consumed.annotations.value.globs, CompareStrings))
    && FitsItsRole(consumed, statement)
  }

  predicate WellFormedInputs(statement: Statement) {
    && statement.inputs != [] && AscendingNeighbours(statement.inputs, CompareByIdentity)
    && forall consumed | consumed in statement.inputs :: WellFormedInput(consumed, statement)
  }

  method CheckSpecInput(sink: Collector, consumed: Descriptor, requirement: Requirement, subject: Subject)
    modifies sink
    ensures Reports(sink, RepeatsSubject(consumed, subject, requirement))
  {
    if WellFormedRequirement(requirement) {
      sink.Check(consumed.name == SubjectName(requirement.id, requirement.revision), BadInputDescriptor);
    }
    if IsSha256Hex(subject.digest) {
      sink.Check(consumed.digest == subject.digest, BadInputDescriptor);
    }
  }

  method CheckProofInput(sink: Collector, consumed: Descriptor)
    modifies sink
    ensures Reports(sink, NamesAProof(consumed))
  {
    sink.Check(KindOfName(consumed.name).Some?, BadInputDescriptor);
    if consumed.annotations.None? || consumed.annotations.value.criterion == "" {
      sink.Check(false, BadInputDescriptor);
      return;
    }
    sink.Check(ParseCriterion(consumed.annotations.value.criterion).Some?, BadInputDescriptor);
  }

  method CheckRole(sink: Collector, consumed: Descriptor, statement: Statement)
    modifies sink
    ensures Reports(sink, FitsItsRole(consumed, statement))
  {
    if consumed.role == RoleSpec && statement.About().Some? {
      CheckSpecInput(sink, consumed, statement.About().value, statement.subject);
    } else if consumed.role.NamesFile() {
      sink.Check(consumed.name == "" || IsRelativePath(consumed.name), BadInputDescriptor);
    } else if consumed.role == RoleProof {
      CheckProofInput(sink, consumed);
    }
  }

  method CheckInput(sink: Collector, consumed: Descriptor, statement: Statement)
    modifies sink
    ensures Reports(sink, WellFormedInput(consumed, statement))
  {
    sink.Check(consumed.name != "", MissingField);
    sink.Check(IsSha256Hex(consumed.digest), BadDigest);
    if consumed.annotations.Some? {
      CheckAscending(sink, consumed.annotations.value.globs, CompareStrings);
    }
    CheckRole(sink, consumed, statement);
  }

  method CheckEachInput(sink: Collector, statement: Statement)
    modifies sink
    ensures Reports(sink, forall consumed | consumed in statement.inputs :: WellFormedInput(consumed, statement))
  {
    for i := 0 to |statement.inputs|
      invariant Reports(sink, forall k | 0 <= k < i :: WellFormedInput(statement.inputs[k], statement))
    {
      CheckInput(sink, statement.inputs[i], statement);
    }
  }

  method CheckInputs(sink: Collector, statement: Statement)
    modifies sink
    ensures Reports(sink, WellFormedInputs(statement))
  {
    sink.Check(|statement.inputs| > 0, MissingField);
    CheckAscending(sink, statement.inputs, CompareByIdentity);
    CheckEachInput(sink, statement);
  }

  // ----- Statements

  predicate WellFormedTopic(statement: Statement) {
    if statement.About().Some? then
      WellFormedRequirement(statement.About().value) && WellFormedSubject(statement.subject, statement.About().value)
    else WellFormedSpecSubject(statement.subject)
  }

  /** The checks of the subject and the inputs of a statement report nothing. */
  predicate WellFormedIdentity(statement: Statement) {
    WellFormedTopic(statement) && WellFormedInputs(statement)
  }

  predicate WellFormedPredicate(statement: Statement) {
    match statement.predicate_
    case OfAlignment(alignment) => WellFormedAlignment(alignment)
    case OfPower(power) => WellFormedPower(power)
    case OfCompleteness(_) => true
  }

  /** Validation reports nothing: the statement reaches the gate as one that was read, not as a malformed file. */
  predicate Accepted(statement: Statement) {
    WellFormedIdentity(statement) && WellFormedPredicate(statement)
  }

  method CheckTopic(sink: Collector, statement: Statement)
    modifies sink
    ensures Reports(sink, WellFormedTopic(statement))
  {
    if statement.About().Some? {
      CheckRequirement(sink, statement.About().value);
      CheckRequirementSubject(sink, statement.subject, statement.About().value);
    } else {
      CheckSpecSubject(sink, statement.subject);
    }
  }

  method Validate(sink: Collector, statement: Statement)
    modifies sink
    ensures Reports(sink, Accepted(statement))
  {
    CheckTopic(sink, statement);
    CheckInputs(sink, statement);
    match statement.predicate_ {
      case OfAlignment(alignment) => CheckAlignment(sink, alignment);
      case OfPower(power) => CheckPower(sink, power);
      case OfCompleteness(_) =>
    }
  }

  // ----- What an accepted statement owes to the checks

  predicate SpecIsCurrent(cause: Option<StaleCause>) {
    cause != Some(SpecInputMisnamed) && cause != Some(SpecInputOutdated)
  }

  lemma {:induction false} CauseIsOfAnInput(input: Input, statement: Statement, inputs: seq<Descriptor>)
    requires forall consumed | consumed in inputs :: SpecIsCurrent(InputCause(input, statement, consumed))
    ensures SpecIsCurrent(InputsCause(input, statement, inputs))
  {
    if inputs != [] {
      CauseIsOfAnInput(input, statement, inputs[1..]);
    }
  }

  /** What can make an input of an accepted statement stale is a file: its spec input is current with its subject. */
  lemma AcceptedSpecInputNeverOutdated(input: Input, statement: Statement)
    requires WellFormedIdentity(statement)
    ensures StaleCauseOf(input, statement) != Some(SpecInputMisnamed)
            && StaleCauseOf(input, statement) != Some(SpecInputOutdated)
  {
    if SubjectCause(input, statement).None? {
      forall consumed | consumed in statement.inputs ensures SpecIsCurrent(InputCause(input, statement, consumed)) {
        assert WellFormedInput(consumed, statement);
      }
      CauseIsOfAnInput(input, statement, statement.inputs);
    }
  }

  /** Two accepted statements that answer one consumed key are the same file of proof about one criterion. */
  lemma AcceptedKeyIdentifiesProof(a: Classified, b: Classified, key: ConsumedKey)
    requires Provides(a, key) && Provides(b, key)
    requires WellFormedIdentity(a.loaded.content.statement) && WellFormedIdentity(b.loaded.content.statement)
    ensures a.loaded.digest == b.loaded.digest
    ensures a.loaded.content.statement.Kind() == b.loaded.content.statement.Kind()
    ensures a.loaded.content.statement.About() == b.loaded.content.statement.About()
  {
    KeyIdentifiesProof(a, b, key);
  }

  /**
   A proof an accepted statement consumes can only be a proof of the
   kind and about the criterion its input spells.
   */
  lemma ConsumedProofIsAsSpelled(statement: Statement, consumed: Descriptor, provider: Classified)
    requires WellFormedIdentity(statement) && consumed in statement.inputs && consumed.role == RoleProof
    requires Provides(provider, ConsumedKeyOf(consumed)) && WellFormedIdentity(provider.loaded.content.statement)
    ensures KindOfName(consumed.name) == Some(provider.loaded.content.statement.Kind())
    ensures ParseCriterion(CriterionOrEmpty(consumed)) == provider.loaded.content.statement.About()
  {
    var spelled := ParseCriterion(CriterionOrEmpty(consumed)).value;
    var about := provider.loaded.content.statement.About().value;
    assert WellFormedInput(consumed, statement);
    ParseCriterionIff(CriterionOrEmpty(consumed), spelled);
    SubjectNameInjective(spelled.id, spelled.revision, about.id, about.revision);
    KindTextsDiffer(provider.loaded.content.statement.Kind());
  }

  lemma KindTextsDiffer(kind: Kind)
    ensures KindOfName(KindText(kind)) == Some(kind)
  {
    assert |KindText(AlignmentKind)| == 9 && |KindText(DiscriminatingPowerKind)| == 20
           && |KindText(CompletenessKind)| == 12;
  }

  // ----- One order of the inputs

  predicate IdentityInOrder(a: Descriptor, b: Descriptor) {
    CompareByIdentity(a, b) <= 0
  }

  lemma ThreeTexts(a: string, b: string, c: string)
    ensures CompareStrings(a, b) < 0 && CompareStrings(b, c) <= 0 ==> CompareStrings(a, c) < 0
    ensures CompareStrings(a, b) <= 0 && CompareStrings(b, c) < 0 ==> CompareStrings(a, c) < 0
    ensures CompareStrings(a, b) == 0 && CompareStrings(b, c) == 0 ==> CompareStrings(a, c) == 0
  {
    if CompareStrings(a, b) <= 0 && CompareStrings(b, c) <= 0 {
      CompareStringsTransitive(a, b, c);
    }
    CompareStringsIdentifies(a, b);
    CompareStringsIdentifies(b, c);
    CompareStringsIdentifies(a, c);
  }

  lemma IdentityIsTransitive(a: Descriptor, b: Descriptor, c: Descriptor)
    requires CompareByIdentity(a, b) < 0 && CompareByIdentity(b, c) < 0
    ensures CompareByIdentity(a, c) < 0
  {
    ThreeTexts(CacheKey.RoleText(a.role), CacheKey.RoleText(b.role), CacheKey.RoleText(c.role));
    ThreeTexts(a.name, b.name, c.name);
    ThreeTexts(CriterionOrEmpty(a), CriterionOrEmpty(b), CriterionOrEmpty(c));
  }

  lemma IdentityIsAntisymmetric(a: Descriptor, b: Descriptor)
    ensures CompareByIdentity(a, b) < 0 ==> CompareByIdentity(b, a) > 0
  {
    CompareStringsIdentifies(CacheKey.RoleText(a.role), CacheKey.RoleText(b.role));
    CompareStringsIdentifies(a.name, b.name);
    CompareStringsIdentifies(CriterionOrEmpty(a), CriterionOrEmpty(b));
  }

  lemma AscendingIsStrict(inputs: seq<Descriptor>, i: nat, j: nat)
    requires AscendingNeighbours(inputs, CompareByIdentity) && i < j < |inputs|
    ensures CompareByIdentity(inputs[i], inputs[j]) < 0 < CompareByIdentity(inputs[j], inputs[i])
  {
    forall a, b, c | CompareByIdentity(a, b) < 0 && CompareByIdentity(b, c) < 0 ensures CompareByIdentity(a, c) < 0 {
      IdentityIsTransitive(a, b, c);
    }
    NeighboursSettleOrder(inputs, CompareByIdentity, i, j);
    IdentityIsAntisymmetric(inputs[i], inputs[j]);
  }

  lemma AscendingIsSorted(inputs: seq<Descriptor>)
    requires AscendingNeighbours(inputs, CompareByIdentity)
    ensures SortedBy(inputs, IdentityInOrder)
  {
    forall i, j | 0 <= i < j < |inputs| ensures IdentityInOrder(inputs[i], inputs[j]) {
      AscendingIsStrict(inputs, i, j);
    }
  }

  lemma AscendingTies(inputs: seq<Descriptor>, x: Descriptor, y: Descriptor)
    requires AscendingNeighbours(inputs, CompareByIdentity) && x in inputs && y in inputs
    requires CompareByIdentity(x, y) <= 0 && CompareByIdentity(y, x) <= 0
    ensures x == y
  {
    var i, j :| 0 <= i < |inputs| && 0 <= j < |inputs| && inputs[i] == x && inputs[j] == y;
    if i < j {
      AscendingIsStrict(inputs, i, j);
    } else if j < i {
      AscendingIsStrict(inputs, j, i);
    }
  }

  lemma AscendingSeparates(inputs: seq<Descriptor>)
    requires AscendingNeighbours(inputs, CompareByIdentity)
    ensures Separates(multiset(inputs), IdentityInOrder)
  {
    forall x, y | x in multiset(inputs) && y in multiset(inputs) && IdentityInOrder(x, y) && IdentityInOrder(y, x)
      ensures x == y
    {
      AscendingTies(inputs, x, y);
    }
  }

  /**
   The same inputs can be accepted in one order only: whatever reads them
   in order, such as the cache key, reads the same.
   */
  lemma AcceptedInputsHaveOneOrder(one: Statement, other: Statement)
    requires WellFormedIdentity(one) && WellFormedIdentity(other) && multiset(one.inputs) == multiset(other.inputs)
    ensures one.inputs == other.inputs
  {
    AscendingIsSorted(one.inputs);
    AscendingIsSorted(other.inputs);
    AscendingSeparates(one.inputs);
    SortedUnique(one.inputs, other.inputs, IdentityInOrder);
  }
}
