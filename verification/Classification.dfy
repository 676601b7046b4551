/**
 Which statements of the verified set the gate counts: those whose own claims about
 the tree still hold and which consume nothing but other statements it counts.
 */
module Classification {
  import opened GateInput
  import opened ProofConfig
  import opened ProofFormat
  import opened Wrappers

  datatype State = StateValid | StateStale | StateMalformed | StateIgnored | StatePending | StateMissing

  /** What a consumer writes down of a proof; whichever statement file yields the same triple satisfies it. */
  datatype ConsumedKey = ConsumedKey(kind: string, criterion: string, digest: string)

  datatype StaleCause =
    | AcceptedLocally
    | ProducedLocally
    | UnknownSpecFile
    | SpecFileChanged
    | Undeclared
    | OtherRevision
    | StatementChanged
    | SpecInputMisnamed
    | SpecInputOutdated
    | OutsideScope
    | FileAbsent
    | FileChanged
    | UnlistedTestFile
    | ConsumesStale(key: ConsumedKey)
    | Unreadable(text: string)

  datatype Classified = Classified(loaded: LoadedStatement, state: State, cause: Option<StaleCause>)
  {
    predicate Valid() {
      state == StateValid
    }

    /** A valid statement has been read. */
    predicate Consistent() {
      Valid() ==> loaded.content.Parsed?
    }
  }

  // ----- Staleness of a statement on its own

  function TrustCause(input: Input, statement: Statement): Option<StaleCause> {
    if input.config.trust != Signed then None
    else if input.evidence.trust != Signed then Some(AcceptedLocally)
    else if !statement.producedByCI then Some(ProducedLocally)
    else None
  }

  function SubjectCause(input: Input, statement: Statement): Option<StaleCause> {
    var subject := statement.subject;
    if statement.predicate_.OfCompleteness? then
      if subject.name !in input.evidence.specFiles then Some(UnknownSpecFile)
      else if input.evidence.specFiles[subject.name] != subject.digest then Some(SpecFileChanged)
      else None
    else
      var requirement := statement.RequirementOrZero();
      if requirement.id !in input.known then Some(Undeclared)
      else if input.known[requirement.id].revision != requirement.revision then Some(OtherRevision)
      else if input.known[requirement.id].digest != subject.digest then Some(StatementChanged)
      else None
  }

  function SpecInputCause(input: Input, statement: Statement, consumed: Descriptor): Option<StaleCause> {
    var requirement := statement.RequirementOrZero();
    var known := if requirement.id in input.known then input.known[requirement.id].digest else "";
    if consumed.name != SubjectName(requirement.id, requirement.revision) then Some(SpecInputMisnamed)
    else if consumed.digest != known then Some(SpecInputOutdated)
    else None
  }

  function FileCause(input: Input, consumed: Descriptor): Option<StaleCause> {
    if !input.covers(consumed.role, consumed.name) then Some(OutsideScope)
    else if consumed.name !in input.evidence.files then Some(FileAbsent)
    else if input.evidence.files[consumed.name] != consumed.digest then Some(FileChanged)
    else None
  }

  function InputCause(input: Input, statement: Statement, consumed: Descriptor): Option<StaleCause> {
    if consumed.role == RoleSpec && !statement.predicate_.OfCompleteness? then
      SpecInputCause(input, statement, consumed)
    else if consumed.role.NamesFile() then FileCause(input, consumed)
    else None
  }

  /** The cause of the first input that is not current. */
  function InputsCause(input: Input, statement: Statement, inputs: seq<Descriptor>): Option<StaleCause> {
    if inputs == [] then None
    else
      var first := InputCause(input, statement, inputs[0]);
      if first.Some? then first else InputsCause(input, statement, inputs[1..])
  }

  /** The test files a proof of the criterion depends on. */
  function RequiredTestFiles(criterion: Criterion, statement: Statement): set<string> {
    match statement.predicate_
    case OfAlignment(alignment) =>
      set test | test in criterion.passingTests && test.file != "" && Matches(alignment.test, test) :: test.file
    case _ => set file | file in criterion.testFiles
  }

  predicate ListsTestFile(statement: Statement, file: string) {
    exists consumed | consumed in statement.inputs :: consumed.role == RoleTestSource && consumed.name == file
  }

  /** Every test file a proof depends on is one of its test_source descriptors. */
  predicate ListsRequiredTestFiles(input: Input, statement: Statement) {
    forall criterion | criterion in input.criteria && criterion.ref == statement.RequirementOrZero() ::
      forall file | file in RequiredTestFiles(criterion, statement) :: ListsTestFile(statement, file)
  }

  /** The first cause, in the order the checks are made; none for a current statement. */
  function StaleCauseOf(input: Input, statement: Statement): Option<StaleCause> {
    var trust := TrustCause(input, statement);
    if trust.Some? then trust else
    var subject := SubjectCause(input, statement);
    if subject.Some? then subject else
    var inputs := InputsCause(input, statement, statement.inputs);
    if inputs.Some? then inputs else
    if ListsRequiredTestFiles(input, statement) then None else Some(UnlistedTestFile)
  }

  method CollectRequiredTestFiles(criterion: Criterion, statement: Statement) returns (files: seq<string>)
    ensures (set file | file in files) == RequiredTestFiles(criterion, statement)
  {
    if !statement.predicate_.OfAlignment? {
      return criterion.testFiles;
    }
    files := [];
    ghost var tests := criterion.passingTests;
    for i := 0 to |criterion.passingTests|
      invariant forall file :: file in files <==> exists k | 0 <= k < i ::
                    tests[k].file == file && file != "" && Matches(statement.predicate_.alignment.test, tests[k])
    {
      var test := criterion.passingTests[i];
      if test.file != "" && Matches(statement.predicate_.alignment.test, test) {
        files := files + [test.file];
      }
    }
  }

  method UnlistedTestFiles(input: Input, statement: Statement) returns (unlisted: bool)
    ensures unlisted <==> !ListsRequiredTestFiles(input, statement)
  {
    var listed: set<string> := {};
    for i := 0 to |statement.inputs|
      invariant forall file :: file in listed <==> exists k | 0 <= k < i ::
                    statement.inputs[k].role == RoleTestSource && statement.inputs[k].name == file
    {
      if statement.inputs[i].role == RoleTestSource {
        listed := listed + {statement.inputs[i].name};
      }
    }
    assert forall file :: file in listed <==> ListsTestFile(statement, file);
    for i := 0 to |input.criteria|
      invariant forall k | 0 <= k < i && input.criteria[k].ref == statement.RequirementOrZero() ::
                  forall file | file in RequiredTestFiles(input.criteria[k], statement) ::
                    ListsTestFile(statement, file)
    {
      if input.criteria[i].ref != statement.RequirementOrZero() {
        continue;
      }
      var files := CollectRequiredTestFiles(input.criteria[i], statement);
      for k := 0 to |files|
        invariant forall j | 0 <= j < k :: files[j] in listed
      {
        if files[k] !in listed {
          assert files[k] in RequiredTestFiles(input.criteria[i], statement);
          return true;
        }
      }
      forall file | file in RequiredTestFiles(input.criteria[i], statement) ensures ListsTestFile(statement, file) {
        assert file in set f | f in files;
      }
    }
    return false;
  }

  method StaleReason(input: Input, statement: Statement) returns (cause: Option<StaleCause>)
    ensures cause == StaleCauseOf(input, statement)
  {
    cause := TrustCause(input, statement);
    if cause.Some? {
      return;
    }
    cause := SubjectCause(input, statement);
    if cause.Some? {
      return;
    }
    for i := 0 to |statement.inputs|
      invariant InputsCause(input, statement, statement.inputs[i..]) == InputsCause(input, statement, statement.inputs)
    {
      cause := InputCause(input, statement, statement.inputs[i]);
      assert statement.inputs[i..][1..] == statement.inputs[i + 1..];
      if cause.Some? {
        return;
      }
    }
    assert statement.inputs[|statement.inputs|..] == [];
    var unlisted := UnlistedTestFiles(input, statement);
    cause := if unlisted then Some(UnlistedTestFile) else None;
  }

  /** The state of a statement file before the proofs it consumes are looked at. */
  function Initially(input: Input, loaded: LoadedStatement): Classified {
    match loaded.content
    case Ignored => Classified(loaded, StateIgnored, None)
    case Problem(text) => Classified(loaded, StateMalformed, Some(Unreadable(text)))
    case Parsed(statement) =>
      var cause := StaleCauseOf(input, statement);
      Classified(loaded, if cause.Some? then StateStale else StateValid, cause)
  }

  function InitialStates(input: Input): seq<Classified> {
    var statements := input.evidence.statements;
    seq(|statements|, i requires 0 <= i < |statements| => Initially(input, statements[i]))
  }

  // ----- Consumption

  function ConsumedKeyOf(consumed: Descriptor): ConsumedKey {
    ConsumedKey(consumed.name, if consumed.annotations.Some? then consumed.annotations.value.criterion else "",
                consumed.digest)
  }

  /** The statement is about a criterion and is the one the key names. */
  predicate Provides(candidate: Classified, key: ConsumedKey) {
    && candidate.loaded.content.Parsed?
    && var statement := candidate.loaded.content.statement;
    && statement.About().Some?
    && key == ConsumedKey(KindText(statement.Kind()),
                          SubjectName(statement.About().value.id, statement.About().value.revision),
                          candidate.loaded.digest)
  }

  predicate Consumes(candidate: Classified, key: ConsumedKey) {
    && candidate.loaded.content.Parsed?
    && exists consumed | consumed in candidate.loaded.content.statement.inputs ::
      consumed.role == RoleProof && ConsumedKeyOf(consumed) == key
  }

  function ValidIndices(statements: seq<Classified>): set<nat> {
    set i: nat | i < |statements| && statements[i].Valid()
  }

  ghost predicate ProvidedBy(statements: seq<Classified>, members: set<nat>, key: ConsumedKey) {
    exists j | j in members && j < |statements| :: Provides(statements[j], key)
  }

  /** Every proof a member consumes is a member. */
  ghost predicate Supported(statements: seq<Classified>, members: set<nat>) {
    forall i, key | i in members && i < |statements| && Consumes(statements[i], key) ::
      ProvidedBy(statements, members, key)
  }

  /** The greatest supported set of valid statements: the union of all of them. */
  ghost function GreatestSupported(statements: seq<Classified>): set<nat> {
    set i | i in ValidIndices(statements) && InSupported(statements, i)
  }

  ghost predicate InSupported(statements: seq<Classified>, i: nat) {
    exists members: set<nat> :: i in members && members <= ValidIndices(statements) && Supported(statements, members)
  }

  lemma GreatestIsSupported(statements: seq<Classified>)
    ensures Supported(statements, GreatestSupported(statements))
  {
    var greatest := GreatestSupported(statements);
    forall i, key | i in greatest && Consumes(statements[i], key)
      ensures ProvidedBy(statements, greatest, key)
    {
      var members: set<nat> :| i in members && members <= ValidIndices(statements) && Supported(statements, members);
      assert ProvidedBy(statements, members, key);
      var j :| j in members && j < |statements| && Provides(statements[j], key);
      assert InSupported(statements, j);
    }
  }

  lemma GreatestContains(statements: seq<Classified>, members: set<nat>)
    requires members <= ValidIndices(statements) && Supported(statements, members)
    ensures members <= GreatestSupported(statements)
  {
    forall i | i in members ensures i in GreatestSupported(statements) {
      assert InSupported(statements, i);
    }
  }

  method ValidKeys(statements: array<Classified>) returns (valid: set<ConsumedKey>)
    requires forall i | 0 <= i < statements.Length :: statements[i].Consistent()
    ensures forall key :: key in valid <==> ProvidedBy(statements[..], ValidIndices(statements[..]), key)
  {
    valid := {};
    for i := 0 to statements.Length
      invariant forall key :: key in valid <==> exists j: nat | j < i ::
                  statements[j].Valid() && Provides(statements[j], key)
    {
      var candidate := statements[i];
      if !candidate.Valid() {
        continue;
      }
      var statement := candidate.loaded.content.statement;
      if statement.About().Some? {
        var requirement := statement.About().value;
        valid := valid
          + {ConsumedKey(KindText(statement.Kind()), SubjectName(requirement.id, requirement.revision),
                         candidate.loaded.digest)};
      }
    }
    forall key | key in valid ensures ProvidedBy(statements[..], ValidIndices(statements[..]), key) {
      var j: nat :| j < statements.Length && statements[j].Valid() && Provides(statements[j], key);
      assert statements[..][j] == statements[j];
      assert j in ValidIndices(statements[..]);
    }
    forall key | ProvidedBy(statements[..], ValidIndices(statements[..]), key) ensures key in valid {
      var j :| j in ValidIndices(statements[..]) && Provides(statements[..][j], key);
      assert statements[j].Valid() && Provides(statements[j], key);
    }
  }

  /** The first proof a statement consumes that no valid statement of the slice provides. */
  ghost function FirstMissing(all: seq<Classified>, inputs: seq<Descriptor>): Option<ConsumedKey> {
    if inputs == [] then None
    else if inputs[0].role == RoleProof && !ProvidedBy(all, ValidIndices(all), ConsumedKeyOf(inputs[0])) then
      Some(ConsumedKeyOf(inputs[0]))
    else FirstMissing(all, inputs[1..])
  }

  lemma {:induction false} FirstMissingIs(all: seq<Classified>, inputs: seq<Descriptor>)
    ensures var missing := FirstMissing(all, inputs);
            if missing.Some? then
              && !ProvidedBy(all, ValidIndices(all), missing.value)
              && exists consumed | consumed in inputs ::
                   consumed.role == RoleProof && ConsumedKeyOf(consumed) == missing.value
            else
              forall consumed | consumed in inputs && consumed.role == RoleProof ::
                ProvidedBy(all, ValidIndices(all), ConsumedKeyOf(consumed))
  {
    if inputs != [] {
      FirstMissingIs(all, inputs[1..]);
      assert inputs == [inputs[0]] + inputs[1..];
    }
  }

  method FirstUnmatched(statement: Statement, valid: set<ConsumedKey>, ghost all: seq<Classified>)
    returns (unmatched: Option<ConsumedKey>)
    requires forall key :: key in valid <==> ProvidedBy(all, ValidIndices(all), key)
    ensures unmatched == FirstMissing(all, statement.inputs)
  {
    for i := 0 to |statement.inputs|
      invariant FirstMissing(all, statement.inputs) == FirstMissing(all, statement.inputs[i..])
    {
      var consumed := statement.inputs[i];
      assert statement.inputs[i..][1..] == statement.inputs[i + 1..];
      if consumed.role == RoleProof && ConsumedKeyOf(consumed) !in valid {
        return Some(ConsumedKeyOf(consumed));
      }
    }
    return None;
  }

  /** What a round makes of one statement, judged against the statements valid when it began. */
  ghost function AfterRound(all: seq<Classified>, before: Classified): Classified {
    if !before.Valid() || !before.loaded.content.Parsed? then before
    else
      var missing := FirstMissing(all, before.loaded.content.statement.inputs);
      if missing.None? then before else Classified(before.loaded, StateStale, Some(ConsumesStale(missing.value)))
  }

  ghost function Round(all: seq<Classified>): (after: seq<Classified>)
    ensures |after| == |all|
  {
    seq(|all|, i requires 0 <= i < |all| => AfterRound(all, all[i]))
  }

  /** What one statement becomes when a round finds a key of its own without a valid provider. */
  predicate Dropped(before: Classified, after: Classified, key: ConsumedKey) {
    Consumes(before, key) && after == Classified(before.loaded, StateStale, Some(ConsumesStale(key)))
  }

  /** The statement is left alone, or dropped for consuming a proof no valid statement provides. */
  ghost predicate Settled(all: seq<Classified>, before: Classified, after: Classified) {
    if before.Valid() && exists key :: Consumes(before, key) && !ProvidedBy(all, ValidIndices(all), key) then
      exists key :: Dropped(before, after, key) && !ProvidedBy(all, ValidIndices(all), key)
    else
      after == before
  }

  lemma RoundSettles(all: seq<Classified>, before: Classified)
    ensures Settled(all, before, AfterRound(all, before))
  {
    if before.Valid() && before.loaded.content.Parsed? {
      var inputs := before.loaded.content.statement.inputs;
      FirstMissingIs(all, inputs);
      if FirstMissing(all, inputs).Some? {
        assert Dropped(before, AfterRound(all, before), FirstMissing(all, inputs).value);
      }
    }
  }

  /** One round over the slice in place. */
  method InvalidateRound(statements: array<Classified>) returns (changed: bool)
    requires forall i | 0 <= i < statements.Length :: statements[i].Consistent()
    modifies statements
    ensures statements[..] == Round(old(statements[..]))
    ensures changed <==> statements[..] != old(statements[..])
  {
    ghost var before := statements[..];
    var valid := ValidKeys(statements);
    changed := false;
    for index := 0 to statements.Length
      invariant forall i | 0 <= i < index :: statements[i] == AfterRound(before, before[i])
      invariant forall i | index <= i < statements.Length :: statements[i] == before[i]
      invariant changed <==> exists i | 0 <= i < index :: statements[i] != before[i]
    {
      var candidate := statements[index];
      if !candidate.Valid() {
        continue;
      }
      var unmatched := FirstUnmatched(candidate.loaded.content.statement, valid, before);
      if unmatched.Some? {
        statements[index] := Classified(candidate.loaded, StateStale, Some(ConsumesStale(unmatched.value)));
        changed := true;
      }
    }
    assert changed <==> exists i | 0 <= i < statements.Length :: statements[i] != before[i];
  }

  lemma RoundKeepsSupported(before: seq<Classified>, after: seq<Classified>, members: set<nat>)
    requires |before| == |after| && forall i | 0 <= i < |before| :: Settled(before, before[i], after[i])
    requires members <= ValidIndices(before) && Supported(before, members)
    ensures members <= ValidIndices(after) && Supported(after, members)
  {
    forall i | i in members ensures after[i] == before[i] {
      forall key | Consumes(before[i], key) ensures ProvidedBy(before, ValidIndices(before), key) {
        assert ProvidedBy(before, members, key);
      }
    }
    forall i, key | i in members && Consumes(after[i], key) ensures ProvidedBy(after, members, key) {
      assert ProvidedBy(before, members, key);
      var j :| j in members && Provides(before[j], key);
      assert Provides(after[j], key);
    }
  }

  lemma QuietRoundIsSupported(statements: seq<Classified>)
    requires forall i | 0 <= i < |statements| :: Settled(statements, statements[i], statements[i])
    ensures Supported(statements, ValidIndices(statements))
  {
  }

  /** What the loop may have done so far to each statement. */
  ghost predicate OnlyDropped(before: seq<Classified>, after: seq<Classified>) {
    && |after| == |before|
    && forall i | 0 <= i < |before| ::
      after[i] == before[i] || (before[i].Valid() && exists key :: Dropped(before[i], after[i], key))
  }

  lemma OnlyDroppedStep(start: seq<Classified>, before: seq<Classified>, after: seq<Classified>)
    requires OnlyDropped(start, before) && |after| == |before|
    requires forall i | 0 <= i < |before| :: Settled(before, before[i], after[i])
    ensures OnlyDropped(start, after)
    ensures ValidIndices(after) <= ValidIndices(before)
    ensures after != before ==> ValidIndices(after) < ValidIndices(before)
  {
    if after != before {
      var i :| 0 <= i < |before| && after[i] != before[i];
      assert i in ValidIndices(before) && i !in ValidIndices(after);
    }
  }

  lemma RoundShrinks(statements: seq<Classified>)
    ensures OnlyDropped(statements, Round(statements)) && ValidIndices(Round(statements)) <= ValidIndices(statements)
    ensures Round(statements) != statements ==> ValidIndices(Round(statements)) < ValidIndices(statements)
  {
    forall i | 0 <= i < |statements| ensures Settled(statements, statements[i], Round(statements)[i]) {
      RoundSettles(statements, statements[i]);
    }
    OnlyDroppedStep(statements, statements, Round(statements));
  }

  /** The states the rounds lead to. */
  ghost function Invalidated(statements: seq<Classified>): (after: seq<Classified>)
    ensures |after| == |statements|
    decreases ValidIndices(statements)
  {
    RoundShrinks(statements);
    if Round(statements) == statements then statements else Invalidated(Round(statements))
  }

  /** Runs rounds over the slice until one changes nothing. */
  method InvalidateConsumersOfStale(statements: array<Classified>)
    requires forall i | 0 <= i < statements.Length :: statements[i].Consistent()
    modifies statements
    ensures statements[..] == Invalidated(old(statements[..]))
    ensures ValidIndices(statements[..]) == GreatestSupported(old(statements[..]))
  {
    ghost var start := statements[..];
    var changed := true;
    while changed
      invariant Invalidated(statements[..]) == Invalidated(start)
      invariant forall i | 0 <= i < statements.Length :: statements[i].Consistent()
      invariant !changed ==> Round(statements[..]) == statements[..]
      decreases ValidIndices(statements[..]), changed
    {
      RoundShrinks(statements[..]);
      changed := InvalidateRound(statements);
    }
    InvalidatedIsGreatest(start);
  }

  /** Dropping changes no key: what is supported after is supported before. */
  lemma SameConsumption(before: seq<Classified>, after: seq<Classified>, members: set<nat>)
    requires OnlyDropped(before, after) && members <= ValidIndices(after) && Supported(after, members)
    ensures members <= ValidIndices(before) && Supported(before, members)
  {
    forall i, key | i in members && Consumes(before[i], key) ensures ProvidedBy(before, members, key) {
      assert Consumes(after[i], key);
      assert ProvidedBy(after, members, key);
      var j :| j in members && Provides(after[j], key);
      assert Provides(before[j], key);
    }
  }

  lemma RoundKeepsGreatest(statements: seq<Classified>)
    ensures GreatestSupported(Round(statements)) == GreatestSupported(statements)
  {
    var after := Round(statements);
    RoundShrinks(statements);
    forall i | 0 <= i < |statements| ensures Settled(statements, statements[i], after[i]) {
      RoundSettles(statements, statements[i]);
    }
    GreatestIsSupported(statements);
    RoundKeepsSupported(statements, after, GreatestSupported(statements));
    GreatestContains(after, GreatestSupported(statements));
    GreatestIsSupported(after);
    SameConsumption(statements, after, GreatestSupported(after));
    GreatestContains(statements, GreatestSupported(after));
  }

  lemma OnlyDroppedTransitive(first: seq<Classified>, second: seq<Classified>, third: seq<Classified>)
    requires OnlyDropped(first, second) && OnlyDropped(second, third)
    ensures OnlyDropped(first, third)
  {
  }

  /** The rounds only drop statements, and leave valid the greatest set whose members find every proof they consume. */
  lemma {:induction false} InvalidatedIsGreatest(statements: seq<Classified>)
    ensures OnlyDropped(statements, Invalidated(statements))
    ensures ValidIndices(Invalidated(statements)) == GreatestSupported(statements)
    decreases ValidIndices(statements)
  {
    RoundShrinks(statements);
    if Round(statements) == statements {
      forall i | 0 <= i < |statements| ensures Settled(statements, statements[i], statements[i]) {
        RoundSettles(statements, statements[i]);
      }
      QuietRoundIsSupported(statements);
      GreatestContains(statements, ValidIndices(statements));
    } else {
      InvalidatedIsGreatest(Round(statements));
      RoundKeepsGreatest(statements);
      OnlyDroppedTransitive(statements, Round(statements), Invalidated(statements));
    }
  }

  /** The states the gate gives the statements of the verified set. */
  ghost predicate ClassifiedAs(input: Input, statements: seq<Classified>) {
    statements == if input.evidence.Usable() then Invalidated(InitialStates(input)) else []
  }

  lemma ClassifiedAreConsistent(input: Input, statements: seq<Classified>)
    requires ClassifiedAs(input, statements)
    ensures forall candidate | candidate in statements :: candidate.Consistent()
  {
    InvalidatedIsGreatest(InitialStates(input));
  }

  /** Gives each statement of a usable verified set a state. */
  method Classify(input: Input) returns (statements: array<Classified>)
    ensures fresh(statements)
    ensures ClassifiedAs(input, statements[..])
  {
    if !input.evidence.Usable() {
      return new Classified[0];
    }
    var loaded := input.evidence.statements;
    statements := new Classified[|loaded|](i requires 0 <= i < |loaded| => Classified(loaded[i], StateValid, None));
    for index := 0 to |loaded|
      invariant forall i | 0 <= i < index :: statements[i] == Initially(input, loaded[i])
      invariant forall i | index <= i < |loaded| :: statements[i] == Classified(loaded[i], StateValid, None)
    {
      match loaded[index].content {
        case Ignored =>
          statements[index] := Classified(loaded[index], StateIgnored, None);
        case Problem(text) =>
          statements[index] := Classified(loaded[index], StateMalformed, Some(Unreadable(text)));
        case Parsed(statement) =>
          var cause := StaleReason(input, statement);
          if cause.Some? {
            statements[index] := Classified(loaded[index], StateStale, cause);
          }
      }
    }
    assert statements[..] == InitialStates(input);
    InvalidateConsumersOfStale(statements);
  }
}
