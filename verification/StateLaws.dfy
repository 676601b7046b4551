/** The state of each statement file and its cause: which check it fails first, or which proof it consumes is gone. */
module StateLaws {
  import opened Classification
  import opened ClassificationLaws
  import opened GateInput
  import opened ProofConfig
  import opened ProofFormat
  import opened Wrappers

  // ----- The check that fails first

  /** The input at the place is not current, and all before it are. */
  predicate FirstOutdated(input: Input, statement: Statement, k: nat) {
    && k < |statement.inputs| && !CurrentInput(input, statement, statement.inputs[k])
    && forall j | 0 <= j < k :: CurrentInput(input, statement, statement.inputs[j])
  }

  /** What is wrong with an input that is not current, for the cause given. */
  predicate Faulty(input: Input, statement: Statement, consumed: Descriptor, cause: StaleCause) {
    var requirement := statement.RequirementOrZero();
    if consumed.role.RoleSpec? then
      match cause
      case SpecInputMisnamed => consumed.name != SubjectName(requirement.id, requirement.revision)
      case SpecInputOutdated => consumed.name == SubjectName(requirement.id, requirement.revision)
      case _ => false
    else
      match cause
      case OutsideScope => !input.covers(consumed.role, consumed.name)
      case FileAbsent => input.covers(consumed.role, consumed.name) && consumed.name !in input.evidence.files
      case FileChanged => input.covers(consumed.role, consumed.name) && consumed.name in input.evidence.files
      case _ => false
  }

  /** What is wrong with the subject of a statement. */
  predicate SubjectFaulty(input: Input, statement: Statement, cause: StaleCause) {
    var id, known := statement.RequirementOrZero().id, input.known;
    match cause
    case UnknownSpecFile => statement.About().None? && statement.subject.name !in input.evidence.specFiles
    case SpecFileChanged =>
      && statement.About().None? && statement.subject.name in input.evidence.specFiles
      && input.evidence.specFiles[statement.subject.name] != statement.subject.digest
    case Undeclared => statement.About().Some? && id !in known
    case OtherRevision =>
      statement.About().Some? && id in known && known[id].revision != statement.RequirementOrZero().revision
    case StatementChanged =>
      && statement.About().Some? && id in known && known[id].revision == statement.RequirementOrZero().revision
      && known[id].digest != statement.subject.digest
    case _ => false
  }

  /** The cause is that of the first check the statement fails: trust, subject, inputs in order, test files. */
  predicate Blamed(input: Input, statement: Statement, cause: StaleCause) {
    match cause
    case AcceptedLocally => input.config.trust == Signed && input.evidence.trust == Local
    case ProducedLocally => input.config.trust == Signed && input.evidence.trust == Signed && !statement.producedByCI
    case UnlistedTestFile =>
      && CurrentTrust(input, statement) && CurrentSubject(input, statement)
      && (forall consumed | consumed in statement.inputs :: CurrentInput(input, statement, consumed))
      && !ListsBoundFiles(input, statement)
    case _ =>
      || (CurrentTrust(input, statement) && SubjectFaulty(input, statement, cause))
      || (&& CurrentTrust(input, statement) && CurrentSubject(input, statement)
          && exists k: nat | k < |statement.inputs| ::
            FirstOutdated(input, statement, k) && Faulty(input, statement, statement.inputs[k], cause))
  }

  lemma InputCauseIff(input: Input, statement: Statement, consumed: Descriptor, cause: StaleCause)
    requires CurrentSubject(input, statement)
    ensures InputCause(input, statement, consumed) == Some(cause)
            <==> !CurrentInput(input, statement, consumed) && Faulty(input, statement, consumed, cause)
    ensures InputCause(input, statement, consumed).None? <==> CurrentInput(input, statement, consumed)
  {
  }

  ghost predicate FirstCause(input: Input, statement: Statement, inputs: seq<Descriptor>, k: nat, cause: StaleCause) {
    && k < |inputs| && InputCause(input, statement, inputs[k]) == Some(cause)
    && forall j | 0 <= j < k :: InputCause(input, statement, inputs[j]).None?
  }

  lemma {:induction false} InputsCauseIsFirst(input: Input, statement: Statement, inputs: seq<Descriptor>,
                                              cause: StaleCause)
    ensures InputsCause(input, statement, inputs) == Some(cause)
            <==> exists k: nat :: FirstCause(input, statement, inputs, k, cause)
  {
    if inputs != [] {
      InputsCauseIsFirst(input, statement, inputs[1..], cause);
      if InputCause(input, statement, inputs[0]) == Some(cause) {
        assert FirstCause(input, statement, inputs, 0, cause);
      }
      if InputCause(input, statement, inputs[0]).None? {
        if k: nat :| FirstCause(input, statement, inputs[1..], k, cause) {
          assert FirstCause(input, statement, inputs, k + 1, cause);
        }
      }
      if k: nat :| FirstCause(input, statement, inputs, k, cause) && k > 0 {
        assert FirstCause(input, statement, inputs[1..], k - 1, cause);
      }
    }
  }

  lemma InputsBlamed(input: Input, statement: Statement, cause: StaleCause)
    requires CurrentSubject(input, statement)
    ensures InputsCause(input, statement, statement.inputs) == Some(cause)
            <==> exists k: nat | k < |statement.inputs| ::
                   FirstOutdated(input, statement, k) && Faulty(input, statement, statement.inputs[k], cause)
  {
    InputsCauseIsFirst(input, statement, statement.inputs, cause);
    forall k: nat | k < |statement.inputs|
      ensures FirstCause(input, statement, statement.inputs, k, cause)
              <==> FirstOutdated(input, statement, k) && Faulty(input, statement, statement.inputs[k], cause)
    {
      InputCauseIff(input, statement, statement.inputs[k], cause);
      forall j | 0 <= j < k
        ensures InputCause(input, statement, statement.inputs[j]).None?
                <==> CurrentInput(input, statement, statement.inputs[j])
      {
        InputCauseIff(input, statement, statement.inputs[j], cause);
      }
    }
  }

  lemma SubjectBlamed(input: Input, statement: Statement, cause: StaleCause)
    ensures SubjectCause(input, statement) == Some(cause) <==> SubjectFaulty(input, statement, cause)
    ensures SubjectCause(input, statement).None? <==> CurrentSubject(input, statement)
  {
  }

  /** Trust comes first, then the subject, then the inputs, and the test files come last. */
  lemma FirstCauseCounts(input: Input, statement: Statement, cause: StaleCause)
    ensures var trust, subject := TrustCause(input, statement), SubjectCause(input, statement);
            var inputs := InputsCause(input, statement, statement.inputs);
            StaleCauseOf(input, statement) == Some(cause)
            <==> || trust == Some(cause) || (trust.None? && subject == Some(cause))
                 || (trust.None? && subject.None? && inputs == Some(cause))
                 || (trust.None? && subject.None? && inputs.None? && !ListsRequiredTestFiles(input, statement)
                     && cause == UnlistedTestFile)
  {
  }

  lemma TrustBlamed(input: Input, statement: Statement, cause: StaleCause)
    ensures TrustCause(input, statement) == Some(cause) <==>
      || (cause == AcceptedLocally && input.config.trust == Signed && input.evidence.trust == Local)
      || (cause == ProducedLocally && input.config.trust == Signed && input.evidence.trust == Signed
          && !statement.producedByCI)
    ensures TrustCause(input, statement).None? <==> CurrentTrust(input, statement)
  {
  }

  lemma NoInputBlamed(input: Input, statement: Statement)
    requires CurrentSubject(input, statement)
    ensures InputsCause(input, statement, statement.inputs).None?
            <==> forall consumed | consumed in statement.inputs :: CurrentInput(input, statement, consumed)
  {
    InputsCauseIff(input, statement, statement.inputs);
    forall consumed | consumed in statement.inputs
      ensures InputCause(input, statement, consumed).None? <==> CurrentInput(input, statement, consumed)
    {
      InputCauseIff(input, statement, consumed, UnlistedTestFile);
    }
  }

  /** A statement is stale for the one cause it is to blame for. */
  lemma CauseIsBlamed(input: Input, statement: Statement, cause: StaleCause)
    ensures StaleCauseOf(input, statement) == Some(cause) <==> Blamed(input, statement, cause)
  {
    FirstCauseCounts(input, statement, cause);
    TrustBlamed(input, statement, cause);
    SubjectBlamed(input, statement, cause);
    ListsBoundFilesIff(input, statement);
    if CurrentSubject(input, statement) {
      InputsBlamed(input, statement, cause);
      NoInputBlamed(input, statement);
    }
  }

  // ----- The proofs a statement consumes

  /** The file is the proof the input spells: of that kind, about that criterion, with that digest. */
  predicate Answers(candidate: Classified, consumed: Descriptor) {
    && candidate.loaded.content.Parsed? && candidate.loaded.digest == consumed.digest
    && var criterion := match consumed.annotations case Some(spelled) => spelled.criterion case None => "";
       match candidate.loaded.content.statement.predicate_
       case OfAlignment(alignment) =>
         consumed.name == "alignment"
         && criterion == alignment.requirement.id + "~" + Decimal(alignment.requirement.revision)
       case OfPower(power) =>
         consumed.name == "discriminating-power"
         && criterion == power.requirement.id + "~" + Decimal(power.requirement.revision)
       case OfCompleteness(_) => false
  }

  lemma AnswersIff(candidate: Classified, consumed: Descriptor)
    ensures Answers(candidate, consumed) <==> Provides(candidate, ConsumedKeyOf(consumed))
  {
    assert |"alignment"| == 9 && |"discriminating-power"| == 20;
  }

  /** Every proof input of a member is answered by a member. */
  ghost predicate Closed(statements: seq<Classified>, members: set<nat>) {
    forall i, consumed | i in members && i < |statements| && statements[i].loaded.content.Parsed?
      && consumed in statements[i].loaded.content.statement.inputs && consumed.role.RoleProof? ::
      AnsweredBy(statements, members, consumed)
  }

  ghost predicate AnsweredBy(statements: seq<Classified>, members: set<nat>, consumed: Descriptor) {
    exists j | j in members && j < |statements| :: Answers(statements[j], consumed)
  }

  lemma AnsweredIff(statements: seq<Classified>, members: set<nat>, consumed: Descriptor)
    ensures AnsweredBy(statements, members, consumed) <==> ProvidedBy(statements, members, ConsumedKeyOf(consumed))
  {
    forall j | j in members && j < |statements|
      ensures Answers(statements[j], consumed) <==> Provides(statements[j], ConsumedKeyOf(consumed))
    {
      AnswersIff(statements[j], consumed);
    }
  }

  lemma ClosedIff(statements: seq<Classified>, members: set<nat>)
    ensures Closed(statements, members) <==> Supported(statements, members)
  {
    forall consumed
      ensures AnsweredBy(statements, members, consumed) <==> ProvidedBy(statements, members, ConsumedKeyOf(consumed))
    {
      AnsweredIff(statements, members, consumed);
    }
    if Closed(statements, members) {
      forall i, key | i in members && i < |statements| && Consumes(statements[i], key)
        ensures ProvidedBy(statements, members, key)
      {
        var consumed :| consumed in statements[i].loaded.content.statement.inputs
                        && consumed.role == RoleProof && ConsumedKeyOf(consumed) == key;
        assert AnsweredBy(statements, members, consumed);
      }
    }
    if Supported(statements, members) {
      forall i, consumed | i in members && i < |statements| && statements[i].loaded.content.Parsed?
        && consumed in statements[i].loaded.content.statement.inputs && consumed.role.RoleProof?
        ensures AnsweredBy(statements, members, consumed)
      {
        assert Consumes(statements[i], ConsumedKeyOf(consumed));
      }
    }
  }

  // ----- The states

  /** The statements that are current on their own account. */
  predicate OwnAccount(input: Input, i: nat) {
    && i < |input.evidence.statements| && input.evidence.statements[i].content.Parsed?
    && Current(input, input.evidence.statements[i].content.statement)
  }

  /** It is in a set of current statements that find every proof they consume in the set. */
  ghost predicate Upheld(input: Input, statements: seq<Classified>, i: nat) {
    exists members: set<nat> ::
      i in members && (forall j | j in members :: OwnAccount(input, j)) && Closed(statements, members)
  }

  lemma InitiallyValid(input: Input, i: nat)
    ensures i in ValidIndices(InitialStates(input)) <==> OwnAccount(input, i)
  {
    if i < |input.evidence.statements| && input.evidence.statements[i].content.Parsed? {
      NoCauseIffCurrent(input, input.evidence.statements[i].content.statement);
    }
  }

  lemma SameFiles(input: Input, statements: seq<Classified>)
    requires ClassifiedAs(input, statements) && input.evidence.Usable()
    ensures |statements| == |input.evidence.statements|
    ensures forall i | 0 <= i < |statements| :: statements[i].loaded == input.evidence.statements[i]
    ensures OnlyDropped(InitialStates(input), statements)
    ensures ValidIndices(statements) == GreatestSupported(InitialStates(input))
  {
    InvalidatedIsGreatest(InitialStates(input));
  }

  lemma ClosedAlike(one: seq<Classified>, other: seq<Classified>, members: set<nat>)
    requires |one| == |other| && forall i | 0 <= i < |one| :: one[i].loaded == other[i].loaded
    ensures Closed(one, members) <==> Closed(other, members)
  {
    forall consumed ensures AnsweredBy(one, members, consumed) <==> AnsweredBy(other, members, consumed) {
      assert forall j | 0 <= j < |one| :: Answers(one[j], consumed) <==> Answers(other[j], consumed);
    }
  }

  /** A statement is valid exactly where it is upheld. */
  lemma ValidIffUpheld(input: Input, statements: seq<Classified>, i: nat)
    requires ClassifiedAs(input, statements) && input.evidence.Usable() && i < |statements|
    ensures statements[i].state == StateValid <==> Upheld(input, statements, i)
  {
    var initial := InitialStates(input);
    SameFiles(input, statements);
    forall j ensures j in ValidIndices(initial) <==> OwnAccount(input, j) {
      InitiallyValid(input, j);
    }
    forall members: set<nat> ensures Closed(statements, members) <==> Supported(initial, members) {
      ClosedIff(initial, members);
      ClosedAlike(initial, statements, members);
    }
    assert statements[i].state == StateValid <==> i in GreatestSupported(initial);
  }

  /** The key is that of a proof input of the statement which no valid statement answers. */
  ghost predicate Bereft(statements: seq<Classified>, i: nat, key: ConsumedKey)
    requires i < |statements|
  {
    && statements[i].loaded.content.Parsed?
    && exists consumed | consumed in statements[i].loaded.content.statement.inputs ::
      && consumed.role.RoleProof? && key.kind == consumed.name && key.digest == consumed.digest
      && !AnsweredBy(statements, ValidIndices(statements), consumed)
  }

  lemma KeptOutOfReach(before: seq<Classified>, after: seq<Classified>, key: ConsumedKey)
    requires OnlyDropped(before, after) && !ProvidedBy(before, ValidIndices(before), key)
    ensures !ProvidedBy(after, ValidIndices(after), key)
  {
    if j :| j in ValidIndices(after) && j < |after| && Provides(after[j], key) {
      assert before[j] == after[j] && j in ValidIndices(before);
    }
  }

  /** A statement the rounds drop is dropped for a key that no valid statement is left to provide. */
  lemma {:induction false} DroppedForGood(statements: seq<Classified>, i: nat)
    requires i < |statements| && statements[i].Valid() && Invalidated(statements)[i] != statements[i]
    ensures exists key ::
              && Dropped(statements[i], Invalidated(statements)[i], key)
              && !ProvidedBy(Invalidated(statements), ValidIndices(Invalidated(statements)), key)
    decreases ValidIndices(statements)
  {
    var after := Round(statements);
    RoundShrinks(statements);
    InvalidatedIsGreatest(statements);
    InvalidatedIsGreatest(after);
    if after[i] == statements[i] {
      DroppedForGood(after, i);
    } else {
      RoundSettles(statements, statements[i]);
      var key :| Dropped(statements[i], after[i], key) && !ProvidedBy(statements, ValidIndices(statements), key);
      KeptOutOfReach(statements, Invalidated(statements), key);
    }
  }

  lemma DroppedIsBereft(statements: seq<Classified>, i: nat)
    requires i < |statements| && statements[i].Valid() && Invalidated(statements)[i] != statements[i]
    ensures |Invalidated(statements)| == |statements| && exists key ::
              && Invalidated(statements)[i] == Classified(statements[i].loaded, StateStale, Some(ConsumesStale(key)))
              && Bereft(Invalidated(statements), i, key)
  {
    var final := Invalidated(statements);
    InvalidatedIsGreatest(statements);
    DroppedForGood(statements, i);
    var key :| Dropped(statements[i], final[i], key) && !ProvidedBy(final, ValidIndices(final), key);
    var consumed :| consumed in statements[i].loaded.content.statement.inputs
                    && consumed.role == RoleProof && ConsumedKeyOf(consumed) == key;
    AnsweredIff(final, ValidIndices(final), consumed);
    assert Bereft(final, i, key);
  }

  /** What each statement file of a usable set is found to be. */
  ghost predicate StateIs(input: Input, statements: seq<Classified>, i: nat)
    requires i < |statements|
  {
    var file := statements[i];
    match file.loaded.content
    case Ignored => file.state == StateIgnored && file.cause == None
    case Problem(text) => file.state == StateMalformed && file.cause == Some(Unreadable(text))
    case Parsed(statement) =>
      if Upheld(input, statements, i) then file.state == StateValid && file.cause == None
      else
        && file.state == StateStale
        && if Current(input, statement) then
             exists key :: file.cause == Some(ConsumesStale(key)) && Bereft(statements, i, key)
           else exists cause :: file.cause == Some(cause) && Blamed(input, statement, cause)
  }

  /**
   Files get a state where a manifest is there and nothing is wrong
   with it, every one of them, and else none does.
   */
  lemma StatesWhereUsable(input: Input, statements: seq<Classified>)
    requires ClassifiedAs(input, statements)
    ensures |statements| == if input.evidence.manifestPresent && input.evidence.manifestProblem == "" then
                              |input.evidence.statements|
                            else 0
  {
  }

  /** Every file has the state, and is stale for the cause, that the rules above give it. */
  lemma StatesAre(input: Input, statements: seq<Classified>, i: nat)
    requires ClassifiedAs(input, statements) && i < |statements|
    ensures |statements| == |input.evidence.statements|
    ensures statements[i].loaded == input.evidence.statements[i] && StateIs(input, statements, i)
  {
    var initial := InitialStates(input);
    SameFiles(input, statements);
    ValidIffUpheld(input, statements, i);
    assert initial[i] == Initially(input, input.evidence.statements[i]);
    if statements[i].loaded.content.Parsed? {
      var statement := statements[i].loaded.content.statement;
      NoCauseIffCurrent(input, statement);
      if !Current(input, statement) {
        CauseIsBlamed(input, statement, StaleCauseOf(input, statement).value);
      } else if statements[i] != initial[i] {
        DroppedIsBereft(initial, i);
      }
    }
  }
}
