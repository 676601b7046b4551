/**
 What a valid statement stands on, what order and growth of the
 verified set do to it, and what a changed file does.
 */
module ClassificationLaws {
  import opened Classification
  import opened GateInput
  import opened ProofConfig
  import opened ProofFormat

  /** The statements the gate counts: those of the greatest supported set of a usable verified set. */
  ghost function Counted(input: Input): set<nat> {
    if input.evidence.Usable() then GreatestSupported(InitialStates(input)) else {}
  }

  // ----- Order and growth of the verified set

  ghost function Image(f: seq<nat>, members: set<nat>): set<nat> {
    set i | i in members && i < |f| :: f[i]
  }

  /** Every statement of part is a statement of whole, at the place f says. */
  ghost predicate Embeds<T>(part: seq<T>, whole: seq<T>, f: seq<nat>) {
    |f| == |part| && forall i | 0 <= i < |part| :: f[i] < |whole| && whole[f[i]] == part[i]
  }

  lemma SupportedImage(part: seq<Classified>, whole: seq<Classified>, f: seq<nat>, members: set<nat>)
    requires Embeds(part, whole, f)
    requires members <= ValidIndices(part) && Supported(part, members)
    ensures Image(f, members) <= ValidIndices(whole) && Supported(whole, Image(f, members))
  {
    forall k, key | k in Image(f, members) && Consumes(whole[k], key)
      ensures ProvidedBy(whole, Image(f, members), key)
    {
      var i :| i in members && i < |f| && f[i] == k;
      assert Consumes(part[i], key);
      assert ProvidedBy(part, members, key);
      var j :| j in members && j < |part| && Provides(part[j], key);
      assert f[j] in Image(f, members);
      assert Provides(whole[f[j]], key);
    }
  }

  lemma CountedEmbeds(part: seq<Classified>, whole: seq<Classified>, f: seq<nat>, i: nat)
    requires Embeds(part, whole, f) && i in GreatestSupported(part)
    ensures f[i] in GreatestSupported(whole)
  {
    var greatest := GreatestSupported(part);
    GreatestIsSupported(part);
    SupportedImage(part, whole, f, greatest);
    GreatestContains(whole, Image(f, greatest));
    assert f[i] in Image(f, greatest);
  }

  function WithStatements(input: Input, statements: seq<LoadedStatement>): Input {
    input.(evidence := input.evidence.(statements := statements))
  }

  /** Adding statement files to the verified set, anywhere, never makes a valid statement stale. */
  lemma AddingStatementsKeepsValid(input: Input, more: seq<LoadedStatement>, f: seq<nat>, i: nat)
    requires Embeds(input.evidence.statements, more, f) && i in Counted(input)
    ensures f[i] in Counted(WithStatements(input, more))
  {
    var part, whole := InitialStates(input), InitialStates(WithStatements(input, more));
    forall k | 0 <= k < |part| ensures whole[f[k]] == part[k] {
      SameInitially(input, WithStatements(input, more), input.evidence.statements[k]);
    }
    CountedEmbeds(part, whole, f, i);
  }

  lemma SameInitially(input: Input, other: Input, loaded: LoadedStatement)
    requires other == WithStatements(input, other.evidence.statements)
    ensures Initially(other, loaded) == Initially(input, loaded)
  {
    if loaded.content.Parsed? {
      var statement := loaded.content.statement;
      SameInputsCause(input, other, statement, statement.inputs);
      assert ListsRequiredTestFiles(input, statement) == ListsRequiredTestFiles(other, statement);
    }
  }

  lemma {:induction false} SameInputsCause(input: Input, other: Input, statement: Statement, inputs: seq<Descriptor>)
    requires forall consumed | consumed in inputs ::
               InputCause(input, statement, consumed) == InputCause(other, statement, consumed)
    ensures InputsCause(input, statement, inputs) == InputsCause(other, statement, inputs)
  {
    if inputs != [] {
      assert inputs[0] in inputs;
      SameInputsCause(input, other, statement, inputs[1..]);
    }
  }

  /** Each slice has the statements of the other, at the places f and back say. */
  ghost predicate Rearranged<T>(one: seq<T>, other: seq<T>, f: seq<nat>, back: seq<nat>) {
    Embeds(one, other, f) && Embeds(other, one, back)
  }

  lemma ProvidedAlike(one: seq<Classified>, other: seq<Classified>, f: seq<nat>, key: ConsumedKey)
    requires Embeds(one, other, f) && ProvidedBy(one, ValidIndices(one), key)
    ensures ProvidedBy(other, ValidIndices(other), key)
  {
    var j :| j in ValidIndices(one) && j < |one| && Provides(one[j], key);
    assert f[j] in ValidIndices(other) && Provides(other[f[j]], key);
  }

  lemma {:induction false} SameFirstMissing(one: seq<Classified>, other: seq<Classified>, f: seq<nat>, back: seq<nat>,
                                            inputs: seq<Descriptor>)
    requires Rearranged(one, other, f, back)
    ensures FirstMissing(one, inputs) == FirstMissing(other, inputs)
  {
    if inputs != [] {
      var key := ConsumedKeyOf(inputs[0]);
      if ProvidedBy(one, ValidIndices(one), key) {
        ProvidedAlike(one, other, f, key);
      }
      if ProvidedBy(other, ValidIndices(other), key) {
        ProvidedAlike(other, one, back, key);
      }
      SameFirstMissing(one, other, f, back, inputs[1..]);
    }
  }

  /** A round judges a statement by what is valid, not by where it stands. */
  lemma RoundRearranged(one: seq<Classified>, other: seq<Classified>, f: seq<nat>, back: seq<nat>)
    requires Rearranged(one, other, f, back)
    ensures Rearranged(Round(one), Round(other), f, back)
    ensures Round(one) == one <==> Round(other) == other
  {
    forall candidate: Classified ensures AfterRound(one, candidate) == AfterRound(other, candidate) {
      if candidate.loaded.content.Parsed? {
        SameFirstMissing(one, other, f, back, candidate.loaded.content.statement.inputs);
      }
    }
    if Round(one) == one {
      forall j | 0 <= j < |other| ensures Round(other)[j] == other[j] {
        assert Round(one)[back[j]] == one[back[j]];
      }
    }
    if Round(other) == other {
      forall i | 0 <= i < |one| ensures Round(one)[i] == one[i] {
        assert Round(other)[f[i]] == other[f[i]];
      }
    }
  }

  lemma {:induction false} InvalidatedRearranged(one: seq<Classified>, other: seq<Classified>, f: seq<nat>,
                                                 back: seq<nat>)
    requires Rearranged(one, other, f, back)
    ensures Rearranged(Invalidated(one), Invalidated(other), f, back)
    decreases ValidIndices(one)
  {
    RoundRearranged(one, other, f, back);
    RoundShrinks(one);
    if Round(one) != one {
      InvalidatedRearranged(Round(one), Round(other), f, back);
    }
  }

  /** Wherever a statement file stands in the verified set, it is given the same state, for the same cause. */
  lemma StatementOrderIsIrrelevant(input: Input, shuffled: seq<LoadedStatement>, f: seq<nat>, back: seq<nat>,
                                   statements: seq<Classified>, others: seq<Classified>)
    requires Rearranged(input.evidence.statements, shuffled, f, back)
    requires ClassifiedAs(input, statements) && ClassifiedAs(WithStatements(input, shuffled), others)
    ensures input.evidence.Usable() ==> Rearranged(statements, others, f, back)
  {
    var other := WithStatements(input, shuffled);
    var one, two := InitialStates(input), InitialStates(other);
    forall i | 0 <= i < |one| ensures two[f[i]] == one[i] {
      SameInitially(input, other, input.evidence.statements[i]);
    }
    forall j | 0 <= j < |two| ensures one[back[j]] == two[j] {
      SameInitially(input, other, shuffled[j]);
    }
    InvalidatedRearranged(one, two, f, back);
  }

  // ----- Files

  function WithFiles(input: Input, files: map<string, string>): Input {
    input.(evidence := input.evidence.(files := files))
  }

  ghost predicate SameExceptAt(files: map<string, string>, others: map<string, string>, path: string) {
    forall name | name != path :: (name in files <==> name in others) && (name in files ==> files[name] == others[name])
  }

  /** Code trees and test sources are files of the project. */
  predicate IsFile(consumed: Descriptor) {
    consumed.role.RoleCodeTree? || consumed.role.RoleTestSource?
  }

  predicate NamesPath(loaded: LoadedStatement, path: string) {
    && loaded.content.Parsed?
    && exists consumed | consumed in loaded.content.statement.inputs ::
         IsFile(consumed) && consumed.name == path
  }

  /** Where no descriptor lists a path, its content is free to change: every statement keeps its state. */
  lemma UnnamedFileChangesNothing(input: Input, files: map<string, string>, path: string)
    requires SameExceptAt(input.evidence.files, files, path)
    requires forall loaded | loaded in input.evidence.statements :: !NamesPath(loaded, path)
    ensures InitialStates(WithFiles(input, files)) == InitialStates(input)
    ensures Counted(WithFiles(input, files)) == Counted(input)
  {
    var other := WithFiles(input, files);
    forall i | 0 <= i < |input.evidence.statements|
      ensures Initially(other, input.evidence.statements[i]) == Initially(input, input.evidence.statements[i])
    {
      var loaded := input.evidence.statements[i];
      if loaded.content.Parsed? {
        var statement := loaded.content.statement;
        assert !NamesPath(loaded, path);
        SameInputsCause(input, other, statement, statement.inputs);
        assert ListsRequiredTestFiles(input, statement) == ListsRequiredTestFiles(other, statement);
      }
    }
    assert InitialStates(other) == InitialStates(input);
  }

  // ----- Current statements

  predicate CurrentTrust(input: Input, statement: Statement) {
    input.config.trust == Signed ==> input.evidence.trust == Signed && statement.producedByCI
  }

  /** The subject has the digest of the specification or of the declared statement it stands for. */
  predicate CurrentSubject(input: Input, statement: Statement) {
    var subject := statement.subject;
    if statement.predicate_.OfCompleteness? then
      subject.name in input.evidence.specFiles && input.evidence.specFiles[subject.name] == subject.digest
    else
      var requirement := statement.RequirementOrZero();
      requirement.id in input.known
      && input.known[requirement.id] == KnownRequirement(requirement.revision, subject.digest)
  }

  /**
   A spec input of a criterion repeats the subject; an input that names a
   file is in scope and has the digest of the tree.
   */
  predicate CurrentInput(input: Input, statement: Statement, consumed: Descriptor) {
    if consumed.role == RoleSpec && !statement.predicate_.OfCompleteness? then
      var requirement := statement.RequirementOrZero();
      consumed.name == SubjectName(requirement.id, requirement.revision) && consumed.digest == statement.subject.digest
    else
      IsFile(consumed) ==>
        && input.covers(consumed.role, consumed.name)
        && consumed.name in input.evidence.files && input.evidence.files[consumed.name] == consumed.digest
  }

  /** Some input of the statement is the test source by that path. */
  predicate ListsSource(statement: Statement, path: string) {
    exists k: nat | k < |statement.inputs| ::
      statement.inputs[k].role.RoleTestSource? && statement.inputs[k].name == path
  }

  /**
   A verdict lists the file of each passing test of its criterion that it names;
   a matrix lists every file that tags the criterion.
   */
  predicate ListsBoundFiles(input: Input, statement: Statement) {
    forall criterion | criterion in input.criteria && criterion.ref == statement.RequirementOrZero() ::
      match statement.predicate_
      case OfAlignment(alignment) =>
        forall test | test in criterion.passingTests && test.file != "" && alignment.test in NamesOf(test) ::
          ListsSource(statement, test.file)
      case _ => forall file | file in criterion.testFiles :: ListsSource(statement, file)
  }

  lemma ListsBoundFilesIff(input: Input, statement: Statement)
    ensures ListsBoundFiles(input, statement) <==> ListsRequiredTestFiles(input, statement)
  {
    forall file ensures ListsSource(statement, file) <==> ListsTestFile(statement, file) {
      if k: nat :| k < |statement.inputs| && statement.inputs[k].role.RoleTestSource?
                   && statement.inputs[k].name == file {
        assert statement.inputs[k] in statement.inputs;
      }
    }
    forall criterion | criterion in input.criteria && criterion.ref == statement.RequirementOrZero()
      && statement.predicate_.OfAlignment?
      ensures forall test | test in criterion.passingTests ::
                Matches(statement.predicate_.alignment.test, test)
                <==> statement.predicate_.alignment.test in NamesOf(test)
    {
    }
  }

  /** Everything the statement says of the tree holds of it, and the bound test files are among what it lists. */
  predicate Current(input: Input, statement: Statement) {
    && CurrentTrust(input, statement)
    && CurrentSubject(input, statement)
    && (forall consumed | consumed in statement.inputs :: CurrentInput(input, statement, consumed))
    && ListsBoundFiles(input, statement)
  }

  lemma {:induction false} InputsCauseIff(input: Input, statement: Statement, inputs: seq<Descriptor>)
    ensures InputsCause(input, statement, inputs).None? <==> forall consumed | consumed in inputs ::
              InputCause(input, statement, consumed).None?
  {
    if inputs != [] {
      InputsCauseIff(input, statement, inputs[1..]);
      assert inputs == [inputs[0]] + inputs[1..];
    }
  }

  /** The checks, made in order, find no cause exactly when the statement is current. */
  lemma NoCauseIffCurrent(input: Input, statement: Statement)
    ensures StaleCauseOf(input, statement).None? <==> Current(input, statement)
  {
    InputsCauseIff(input, statement, statement.inputs);
    ListsBoundFilesIff(input, statement);
    if CurrentSubject(input, statement) {
      forall consumed | consumed in statement.inputs
        ensures InputCause(input, statement, consumed).None? <==> CurrentInput(input, statement, consumed)
      {
      }
    }
  }

  /**
   What the gate counts as valid is a file of the verified set, is
   current, and finds every proof it consumes valid too.
   */
  ghost predicate StandsOnCurrent(input: Input, statements: seq<Classified>, i: nat)
    requires i < |statements|
  {
    && i < |input.evidence.statements| && statements[i].loaded == input.evidence.statements[i]
    && statements[i].loaded.content.Parsed?
    && Current(input, statements[i].loaded.content.statement)
    && forall key | Consumes(statements[i], key) :: ProvidedBy(statements, ValidIndices(statements), key)
  }

  lemma ValidStandsOnCurrent(input: Input, statements: seq<Classified>, i: nat)
    requires ClassifiedAs(input, statements) && i < |statements| && statements[i].Valid()
    ensures StandsOnCurrent(input, statements, i)
  {
    var initial := InitialStates(input);
    InvalidatedIsGreatest(initial);
    GreatestIsSupported(initial);
    assert i in ValidIndices(statements);
    assert statements[i] == initial[i] == Initially(input, input.evidence.statements[i]);
    NoCauseIffCurrent(input, statements[i].loaded.content.statement);
    forall key | Consumes(statements[i], key) ensures ProvidedBy(statements, ValidIndices(statements), key) {
      assert ProvidedBy(initial, ValidIndices(statements), key);
      var j :| j in ValidIndices(statements) && j < |initial| && Provides(initial[j], key);
      assert Provides(statements[j], key);
    }
  }

  /**
   Two statements that answer one key are the same file of proof about
   one criterion, where IDs hold no revision separator.
   */
  lemma KeyIdentifiesProof(a: Classified, b: Classified, key: ConsumedKey)
    requires Provides(a, key) && Provides(b, key)
    requires '~' !in a.loaded.content.statement.About().value.id && '~' !in b.loaded.content.statement.About().value.id
    ensures a.loaded.digest == b.loaded.digest
    ensures a.loaded.content.statement.Kind() == b.loaded.content.statement.Kind()
    ensures a.loaded.content.statement.About() == b.loaded.content.statement.About()
  {
    var one, other := a.loaded.content.statement.About().value, b.loaded.content.statement.About().value;
    SubjectNameInjective(one.id, one.revision, other.id, other.revision);
  }

  // ----- What a changed file invalidates

  /** A proof the statement consumes has all its initially valid providers among the given ones. */
  ghost predicate RestsOn(statements: seq<Classified>, i: nat, providers: set<nat>)
    requires i < |statements|
  {
    exists key :: Consumes(statements[i], key) && OnlyProvidedBy(statements, key, providers)
  }

  ghost predicate OnlyProvidedBy(statements: seq<Classified>, key: ConsumedKey, providers: set<nat>) {
    forall j | j in ValidIndices(statements) && Provides(statements[j], key) :: j in providers
  }

  /** Each statement of a layer rests on the layer before it. */
  ghost predicate Layered(statements: seq<Classified>, layers: seq<set<nat>>) {
    forall k, i | 0 < k < |layers| && i in layers[k] :: i < |statements| && RestsOn(statements, i, layers[k - 1])
  }

  lemma CountedRestsOnCounted(statements: seq<Classified>, i: nat, providers: set<nat>)
    requires i in GreatestSupported(statements) && RestsOn(statements, i, providers)
    ensures exists j :: j in providers && j in GreatestSupported(statements)
  {
    var greatest := GreatestSupported(statements);
    GreatestIsSupported(statements);
    var key :| Consumes(statements[i], key) && OnlyProvidedBy(statements, key, providers);
    assert ProvidedBy(statements, greatest, key);
  }

  /** Where no statement of the first layer counts, none of any layer does. */
  lemma {:induction false} LayersFallTogether(statements: seq<Classified>, layers: seq<set<nat>>, k: nat, i: nat)
    requires Layered(statements, layers) && k < |layers| && i in layers[k]
    requires forall j | j in layers[0] :: j !in GreatestSupported(statements)
    ensures i !in GreatestSupported(statements)
  {
    if k > 0 && i in GreatestSupported(statements) {
      CountedRestsOnCounted(statements, i, layers[k - 1]);
      var j :| j in layers[k - 1] && j in GreatestSupported(statements);
      LayersFallTogether(statements, layers, k - 1, j);
    }
  }

  /** The file is gone or has none of the digests the descriptors that name it record. */
  predicate Outdates(statements: seq<LoadedStatement>, files: map<string, string>, path: string) {
    forall loaded | loaded in statements && loaded.content.Parsed? ::
      forall consumed | consumed in loaded.content.statement.inputs && IsFile(consumed)
        && consumed.name == path ::
        path !in files || files[path] != consumed.digest
  }

  lemma ListingIsOutdated(input: Input, files: map<string, string>, path: string, i: nat)
    requires i < |input.evidence.statements| && NamesPath(input.evidence.statements[i], path)
    requires Outdates(input.evidence.statements, files, path)
    ensures !InitialStates(WithFiles(input, files))[i].Valid()
  {
    var other, loaded := WithFiles(input, files), input.evidence.statements[i];
    var statement := loaded.content.statement;
    var consumed :| consumed in statement.inputs && IsFile(consumed) && consumed.name == path;
    assert loaded in input.evidence.statements;
    assert InputCause(other, statement, consumed).Some?;
    InputsCauseIff(other, statement, statement.inputs);
  }

  lemma UnlistedIsUnchanged(input: Input, files: map<string, string>, path: string, i: nat)
    requires i < |input.evidence.statements| && !NamesPath(input.evidence.statements[i], path)
    requires SameExceptAt(input.evidence.files, files, path)
    ensures InitialStates(WithFiles(input, files))[i] == InitialStates(input)[i]
  {
    var other, loaded := WithFiles(input, files), input.evidence.statements[i];
    if loaded.content.Parsed? {
      var statement := loaded.content.statement;
      forall consumed | consumed in statement.inputs
        ensures InputCause(input, statement, consumed) == InputCause(other, statement, consumed)
      {
        assert !(IsFile(consumed) && consumed.name == path);
      }
      SameInputsCause(input, other, statement, statement.inputs);
      assert ListsRequiredTestFiles(input, statement) == ListsRequiredTestFiles(other, statement);
    }
  }

  /** A set of statements that counted together before, none of which lists the file. */
  ghost predicate StandsWithout(input: Input, path: string, members: set<nat>) {
    && members <= ValidIndices(InitialStates(input)) && Supported(InitialStates(input), members)
    && forall i | i in members :: !NamesPath(input.evidence.statements[i], path)
  }

  /**
   After a file is changed or removed, a statement counts exactly when it stands
   in a set that counted before and does not list the file.
   */
  lemma ChangedFileInvalidatesExactly(input: Input, files: map<string, string>, path: string, i: nat)
    requires input.evidence.Usable() && SameExceptAt(input.evidence.files, files, path)
             && Outdates(input.evidence.statements, files, path)
    ensures i in Counted(WithFiles(input, files)) <==> exists members: set<nat> ::
              i in members && StandsWithout(input, path, members)
  {
    var other := WithFiles(input, files);
    var before, after := InitialStates(input), InitialStates(other);
    if i in Counted(other) {
      var members := Counted(other);
      GreatestIsSupported(after);
      SameStates(input, files, path, members);
      assert i in members && StandsWithout(input, path, members);
    }
    if members: set<nat> :| i in members && StandsWithout(input, path, members) {
      forall j | j in members ensures after[j] == before[j] {
        UnlistedIsUnchanged(input, files, path, j);
      }
      SupportedAlike(before, after, members);
      GreatestContains(after, members);
    }
  }

  lemma SameStates(input: Input, files: map<string, string>, path: string, members: set<nat>)
    requires SameExceptAt(input.evidence.files, files, path) && Outdates(input.evidence.statements, files, path)
    requires members <= ValidIndices(InitialStates(WithFiles(input, files)))
             && Supported(InitialStates(WithFiles(input, files)), members)
    ensures StandsWithout(input, path, members)
  {
    var before, after := InitialStates(input), InitialStates(WithFiles(input, files));
    forall j | j in members ensures !NamesPath(input.evidence.statements[j], path) && after[j] == before[j] {
      if NamesPath(input.evidence.statements[j], path) {
        ListingIsOutdated(input, files, path, j);
      } else {
        UnlistedIsUnchanged(input, files, path, j);
      }
    }
    SupportedAlike(after, before, members);
  }

  lemma SupportedAlike(one: seq<Classified>, other: seq<Classified>, members: set<nat>)
    requires |one| == |other| && members <= ValidIndices(one) && Supported(one, members)
    requires forall j | j in members :: j < |one| && one[j] == other[j]
    ensures members <= ValidIndices(other) && Supported(other, members)
  {
    forall i, key | i in members && Consumes(other[i], key) ensures ProvidedBy(other, members, key) {
      assert ProvidedBy(one, members, key);
      var j :| j in members && Provides(one[j], key);
      assert Provides(other[j], key);
    }
  }

  /**
   Every statement that lists the file falls, and so does every statement
   that rests on those through any layers of consumption.
   */
  lemma ChangedFileInvalidatesLayers(input: Input, files: map<string, string>, path: string, layers: seq<set<nat>>,
                                     k: nat, i: nat)
    requires input.evidence.Usable() && Outdates(input.evidence.statements, files, path)
    requires Layered(InitialStates(WithFiles(input, files)), layers) && k < |layers| && i in layers[k]
    requires forall j | j in layers[0] ::
               j < |input.evidence.statements| && NamesPath(input.evidence.statements[j], path)
    ensures i !in Counted(WithFiles(input, files))
  {
    var states := InitialStates(WithFiles(input, files));
    forall j | j in layers[0] ensures j !in GreatestSupported(states) {
      ListingIsOutdated(input, files, path, j);
    }
    LayersFallTogether(states, layers, k, i);
  }
}
