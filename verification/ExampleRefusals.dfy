/** Why a segment is no example: the reason that is given names the first thing that is wrong with it. */
module ExampleRefusals {
  import opened ExampleGrammar
  import opened ExampleLanguage
  import opened ExampleLaws
  import opened TokenShapes
  import opened Wrappers

  // ----- Words and values

  /** The text does not start with a blank. */
  predicate Solid(text: string) {
    text == "" || (text[0] != ' ' && text[0] != '\t')
  }

  /** The blanks in front of a text, and what stands behind them. */
  lemma AfterBlanks(text: string) returns (blanks: string, rest: string)
    ensures Blanks(blanks) && Solid(rest) && text == blanks + rest && rest == SkipBlanks(text)
  {
    blanks := BlanksInFront(text);
    rest := SkipBlanks(text);
  }

  lemma TextIsSplit(text: string, k: nat)
    requires k <= |text|
    ensures text == text[..k] + text[k..]
  {
  }

  /** The word stands in front of the text, up to a blank, a comma, a closing parenthesis or an equal sign. */
  predicate InFront(word: string, text: string) {
    && word <= text && (forall i | 0 <= i < |word| :: word[i] !in {' ', '\t', ',', ')', '='})
    && (word == text || text[|word|] in {' ', '\t', ',', ')', '='})
  }

  lemma {:induction false} WordIsInFront(text: string)
    ensures InFront(text[..WordLength(text)], text)
  {
    if text != "" && !EndsWord(text[0]) {
      WordIsInFront(text[1..]);
      var word := text[..WordLength(text)];
      assert word == [text[0]] + text[1..][..WordLength(text[1..])];
    }
  }

  /** The text ends, or ends in a backslash, or starts with a backslash that no known letter follows. */
  predicate BreaksOff(tail: string, reason: Reason) {
    match reason
    case Unclosed => tail == ""
    case LoneBackslash => tail == "\\"
    case UnknownEscape => |tail| >= 2 && tail[0] == '\\' && tail[1] !in {'"', '\\', 'n', 't'}
    case _ => false
  }

  /** Behind characters that are read, the string breaks off. */
  ghost predicate StringRefused(text: string, reason: Reason) {
    exists inner, value, tail :: SpellsText(inner, value) && BreaksOff(tail, reason) && text == inner + tail
  }

  predicate SpellsOne(unit: string, c: char) {
    (unit == [c] && c != '"' && c != '\\') || (|unit| == 2 && unit[0] == '\\' && LetterOf(c) == Some(unit[1]))
  }

  lemma SpellsMore(unit: string, c: char, inner: string, value: string)
    requires SpellsOne(unit, c) && SpellsText(inner, value)
    ensures SpellsText(unit + inner, [c] + value)
  {
    assert (unit + inner)[|unit|..] == inner && ([c] + value)[1..] == value;
  }

  lemma Longer(text: string, unit: string, c: char, rest: string, reason: Reason)
    requires text == unit + rest && StringRefused(rest, reason) && SpellsOne(unit, c)
    ensures StringRefused(text, reason)
  {
    var inner, value, tail :| SpellsText(inner, value) && BreaksOff(tail, reason) && rest == inner + tail;
    SpellsMore(unit, c, inner, value);
    assert text == (unit + inner) + tail;
  }

  lemma BreaksOffHere(text: string, reason: Reason)
    requires BreaksOff(text, reason)
    ensures StringRefused(text, reason)
  {
    assert SpellsText("", "") && text == "" + text;
  }

  lemma {:induction false} QuotedIsRefused(text: string)
    requires ParseQuoted(text).Err?
    ensures StringRefused(text, ParseQuoted(text).reason)
    decreases |text|
  {
    var reason := ParseQuoted(text).reason;
    if text == "" || text == "\\" || (text[0] == '\\' && Decoded(text[1]).None?) {
      BreaksOffHere(text, reason);
    } else if text[0] == '\\' {
      QuotedIsRefused(text[2..]);
      Longer(text, text[..2], Decoded(text[1]).value, text[2..], reason);
    } else {
      QuotedIsRefused(text[1..]);
      Longer(text, text[..1], text[0], text[1..], reason);
    }
  }

  /** The bare word in front is missing, is a date and time the calendar does not know, or is no value at all. */
  ghost predicate WordRefused(calendar: string -> bool, word: string, reason: Reason) {
    match reason
    case NoValue => word == ""
    case BadDatetime => DatetimeWord(word) && !calendar(word)
    case BadToken => word != "" && word != "true" && word != "false" && word != "null" && !IntegerWord(word)
      && !DecimalWord(word) && !DatetimeWord(word)
    case _ => false
  }

  lemma TokenIsRefused(calendar: string -> bool, word: string, rest: string)
    requires ParseToken(calendar, word, rest).Err?
    ensures WordRefused(calendar, word, ParseToken(calendar, word, rest).reason)
  {
    IntegerShape(word);
    DecimalShape(word);
    DatetimeShape(word);
  }

  ghost predicate ValueRefused(calendar: string -> bool, text: string, reason: Reason) {
    if text != "" && text[0] == '"' then StringRefused(text[1..], reason)
    else exists word :: InFront(word, text) && WordRefused(calendar, word, reason)
  }

  lemma LiteralIsRefused(calendar: string -> bool, text: string)
    requires ParseLiteral(calendar, text).Err?
    ensures ValueRefused(calendar, text, ParseLiteral(calendar, text).reason)
  {
    if text != "" && text[0] == '"' {
      QuotedIsRefused(text[1..]);
    } else {
      WordIsInFront(text);
      TokenIsRefused(calendar, text[..WordLength(text)], text[WordLength(text)..]);
    }
  }

  // ----- Arguments

  /** The word in front is no name. */
  predicate NameRefused(text: string, word: string, reason: Reason) {
    reason.NoName? && InFront(word, text) && !Name(word)
  }

  lemma NameIsRefused(text: string)
    requires ParseIdentifier(text).Err?
    ensures NameRefused(text, text[..WordLength(text)], ParseIdentifier(text).reason)
  {
    WordIsInFront(text);
    NameShape(text[..WordLength(text)]);
  }

  lemma NameIsRead(text: string)
    requires ParseIdentifier(text).Ok?
    ensures Name(ParseIdentifier(text).value) && InFront(ParseIdentifier(text).value, text)
    ensures text == ParseIdentifier(text).value + ParseIdentifier(text).rest
  {
    WordIsInFront(text);
    NameShape(text[..WordLength(text)]);
  }

  /** What stands behind the name and its blanks is no equal sign, or binds it to no value. */
  ghost predicate BindingRefused(calendar: string -> bool, rest: string, reason: Reason) {
    || (reason.NoBinding? && !("=" <= rest))
    || (exists blanks, value :: Blanks(blanks) && Solid(value) && rest == "=" + (blanks + value)
          && ValueRefused(calendar, value, reason))
  }

  ghost predicate ArgumentRefused(calendar: string -> bool, text: string, reason: Reason) {
    || (exists word :: NameRefused(text, word, reason))
    || (exists name, blanks, rest :: Name(name) && Blanks(blanks) && Solid(rest) && text == name + (blanks + rest)
          && InFront(name, text) && BindingRefused(calendar, rest, reason))
  }

  lemma ValueBehindIsRefused(calendar: string -> bool, rest: string, blanks: string, value: string, reason: Reason)
    requires Blanks(blanks) && Solid(value) && rest == "=" + (blanks + value) && ValueRefused(calendar, value, reason)
    ensures BindingRefused(calendar, rest, reason)
  {
  }

  lemma BoundValueIsRefused(calendar: string -> bool, bound: string, more: string, value: string, reason: Reason)
    requires Blanks(more) && Solid(value) && bound == "=" + (more + value)
    requires ParseLiteral(calendar, value) == Err(reason)
    ensures BindingRefused(calendar, bound, reason)
  {
    LiteralIsRefused(calendar, value);
    ValueBehindIsRefused(calendar, bound, more, value, reason);
  }

  lemma BindingIsRefused(calendar: string -> bool, bound: string, reason: Reason)
    requires if bound == "" || bound[0] != '=' then reason == NoBinding
             else ParseLiteral(calendar, SkipBlanks(bound[1..])) == Err(reason)
    ensures BindingRefused(calendar, bound, reason)
  {
    if bound != "" && bound[0] == '=' {
      var more, value := AfterBlanks(bound[1..]);
      TextIsSplit(bound, 1);
      BoundValueIsRefused(calendar, bound, more, value, reason);
    }
  }

  lemma ArgumentIsRefused(calendar: string -> bool, text: string)
    requires ParseArgument(calendar, text).Err?
    ensures ArgumentRefused(calendar, text, ParseArgument(calendar, text).reason)
  {
    var name := ParseIdentifier(text);
    if name.Err? {
      NameIsRefused(text);
    } else {
      NameIsRead(text);
      var bound := SkipBlanks(name.rest);
      var blanks := BlanksInFront(name.rest);
      BindingIsRefused(calendar, bound, ParseArgument(calendar, text).reason);
    }
  }

  /** The argument in its spelling, with the blanks behind it. */
  function ArgumentText(argument: Argument, spelled: ArgumentSpelling): string {
    argument.name + (spelled.afterName + ("=" + (spelled.afterEqual + (spelled.value + spelled.behind))))
  }

  /**
   An argument is refused, or one that is read has the name of an earlier
   one, or neither a comma nor the closing parenthesis follows it; or the
   list behind its comma is refused.
   */
  ghost predicate ListRefused(calendar: string -> bool, text: string, seen: set<string>, reason: Reason)
    decreases |text|
  {
    || ArgumentRefused(calendar, text, reason)
    || exists spelled, argument, rest ::
         && SpellsArgument(calendar, spelled, argument) && text == ArgumentText(argument, spelled) + rest
         && (if argument.name in seen then reason.GivenTwice?
             else if rest == "" || (rest[0] != ',' && rest[0] != ')') then reason.NoSeparator? && Solid(rest)
             else
               rest[0] == ',' && exists blanks, more ::
                 Blanks(blanks) && Solid(more) && rest == "," + (blanks + more)
                 && ListRefused(calendar, more, seen + {argument.name}, reason))
  }

  lemma {:induction false} ArgumentsAreRefused(calendar: string -> bool, text: string, seen: set<string>)
    requires ParseArguments(calendar, text, seen).Err?
    ensures ListRefused(calendar, text, seen, ParseArguments(calendar, text, seen).reason)
    decreases |text|
  {
    var argument, reason := ParseArgument(calendar, text), ParseArguments(calendar, text, seen).reason;
    if argument.Err? {
      ArgumentIsRefused(calendar, text);
    } else {
      var spelled, rest := ArgumentWithBlanks(calendar, text);
      if argument.value.name !in seen && rest != "" && rest[0] == ',' {
        ParseArgumentShrinks(calendar, text);
        var more := SkipBlanks(rest[1..]);
        var blanks := BlanksInFront(rest[1..]);
        assert rest == "," + (blanks + more);
        ArgumentsAreRefused(calendar, more, seen + {argument.value.name});
      }
    }
  }

  lemma ArgumentWithBlanks(calendar: string -> bool, text: string) returns (spelled: ArgumentSpelling, rest: string)
    requires ParseArgument(calendar, text).Ok?
    ensures var argument := ParseArgument(calendar, text);
            && rest == SkipBlanks(argument.rest) && Solid(rest)
            && SpellsArgument(calendar, spelled, argument.value) && text == ArgumentText(argument.value, spelled) + rest
  {
    var argument := ParseArgument(calendar, text);
    spelled := ArgumentIsSpelled(calendar, text);
    rest := SkipBlanks(argument.rest);
    var behind := BlanksInFront(argument.rest);
    spelled := spelled.(behind := behind);
    Regrouped(argument.value.name, spelled.afterName, spelled.afterEqual, spelled.value, behind, rest);
  }

  lemma Regrouped(name: string, a: string, b: string, value: string, behind: string, rest: string)
    ensures name + (a + ("=" + (b + (value + (behind + rest)))))
            == name + (a + ("=" + (b + (value + behind)))) + rest
  {
    assert value + (behind + rest) == (value + behind) + rest;
    assert b + ((value + behind) + rest) == (b + (value + behind)) + rest;
    assert "=" + ((b + (value + behind)) + rest) == ("=" + (b + (value + behind))) + rest;
    var inner := "=" + (b + (value + behind));
    assert a + (inner + rest) == (a + inner) + rest;
    assert name + ((a + inner) + rest) == name + (a + inner) + rest;
  }

  // ----- Calls, arrows and outcomes

  /** The word stands in front of the text, up to a blank or an opening parenthesis. */
  predicate Leads(word: string, text: string) {
    && word <= text && (forall i | 0 <= i < |word| :: word[i] !in {' ', '\t', '('})
    && (word == text || text[|word|] in {' ', '\t', '('})
  }

  lemma {:induction false} OperationLeads(text: string)
    ensures Leads(text[..OperationLength(text)], text)
  {
    if text != "" && text[0] != '(' && !IsBlank(text[0]) {
      OperationLeads(text[1..]);
      var word := text[..OperationLength(text)];
      assert word == [text[0]] + text[1..][..OperationLength(text[1..])];
    }
  }

  /** What stands behind the operation and its blanks opens no list, or opens one that is refused. */
  ghost predicate OpeningRefused(calendar: string -> bool, rest: string, reason: Reason) {
    || (reason.NoOpenParenthesis? && !("(" <= rest))
    || (exists blanks, inner :: Blanks(blanks) && Solid(inner) && rest == "(" + (blanks + inner) && !(")" <= inner)
          && ListRefused(calendar, inner, {}, reason))
  }

  ghost predicate CallRefused(calendar: string -> bool, text: string, reason: Reason) {
    exists word :: Leads(word, text) &&
      if Name(word) then
        exists blanks, rest :: Blanks(blanks) && Solid(rest) && text == word + (blanks + rest)
          && OpeningRefused(calendar, rest, reason)
      else reason.NoOperation?
  }

  lemma OpeningIsRefused(calendar: string -> bool, text: string, rest: string)
    requires ParseCall(calendar, text).Err? && Name(text[..OperationLength(text)])
    requires rest == SkipBlanks(text[OperationLength(text)..])
    ensures OpeningRefused(calendar, rest, ParseCall(calendar, text).reason)
  {
    NameShape(text[..OperationLength(text)]);
    if rest != "" && rest[0] == '(' {
      var inner := SkipBlanks(rest[1..]);
      var blanks := BlanksInFront(rest[1..]);
      assert rest == "(" + (blanks + inner);
      ArgumentsAreRefused(calendar, inner, {});
    }
  }

  lemma NoOperationIsRefused(calendar: string -> bool, text: string)
    requires ParseCall(calendar, text).Err? && !Name(text[..OperationLength(text)])
    ensures ParseCall(calendar, text).reason.NoOperation?
  {
    NameShape(text[..OperationLength(text)]);
  }

  lemma WordIsRefused(calendar: string -> bool, text: string, word: string, blanks: string, rest: string,
                      reason: Reason)
    requires Leads(word, text) && Name(word) && Blanks(blanks) && Solid(rest) && text == word + (blanks + rest)
    requires OpeningRefused(calendar, rest, reason)
    ensures CallRefused(calendar, text, reason)
  {
  }

  lemma CallIsRefused(calendar: string -> bool, text: string)
    requires ParseCall(calendar, text).Err?
    ensures CallRefused(calendar, text, ParseCall(calendar, text).reason)
  {
    var word, behind := text[..OperationLength(text)], text[OperationLength(text)..];
    OperationLeads(text);
    if Name(word) {
      var blanks, rest := AfterBlanks(behind);
      OpeningIsRefused(calendar, text, rest);
      TextIsSplit(text, OperationLength(text));
      WordIsRefused(calendar, text, word, blanks, rest, ParseCall(calendar, text).reason);
    } else {
      NoOperationIsRefused(calendar, text);
    }
  }

  predicate SaysRaise(text: string) {
    "raises" <= text && (|text| == 6 || text[6] == ' ' || text[6] == '\t')
  }

  /** The name of what is raised is none, or the value that is returned is refused. */
  ghost predicate OutcomeRefused(calendar: string -> bool, text: string, reason: Reason) {
    if SaysRaise(text) then
      exists blanks, rest, word :: Blanks(blanks) && Solid(rest) && text == "raises" + (blanks + rest)
        && NameRefused(rest, word, reason)
    else ValueRefused(calendar, text, reason)
  }

  lemma OutcomeIsRefused(calendar: string -> bool, text: string)
    requires ParseExpected(calendar, text).Err?
    ensures OutcomeRefused(calendar, text, ParseExpected(calendar, text).reason)
  {
    if SaysRaises(text) {
      var rest := SkipBlanks(text[|RAISES|..]);
      var blanks := BlanksInFront(text[|RAISES|..]);
      assert text == RAISES + (blanks + rest);
      NameIsRefused(rest);
    } else {
      LiteralIsRefused(calendar, text);
    }
  }

  /** An outcome that is read, with something behind it that is not blank. */
  ghost predicate MoreBehind(calendar: string -> bool, text: string) {
    exists spelling, expected :: SpellsOutcome(calendar, spelling, expected) && Blanks(spelling.afterRaises)
      && text == OutcomeText(expected, spelling) && !Blanks(spelling.behind)
  }

  /** What stands behind the call is no arrow, or has an outcome behind it that is refused, or more than an outcome. */
  ghost predicate TailRefused(calendar: string -> bool, tail: string, reason: Reason) {
    exists blanks, rest :: Blanks(blanks) && Solid(rest) && tail == blanks + rest &&
      if !("=>" <= rest) then reason.NoArrow?
      else exists more, outcome :: Blanks(more) && Solid(outcome) && rest == "=>" + (more + outcome)
             && (OutcomeRefused(calendar, outcome, reason)
                 || (reason.TextAfterOutcome? && MoreBehind(calendar, outcome)))
  }

  /** The segment starts with a call that is read, and its tail is refused. */
  ghost predicate BehindCallRefused(calendar: string -> bool, segment: string, reason: Reason) {
    exists operation, beforeOpen, afterOpen, args, spelled, tail ::
      && Blanks(beforeOpen) && Blanks(afterOpen) && SpellsArguments(calendar, spelled, args)
      && segment == operation + (beforeOpen + ("(" + (afterOpen + ArgumentsText(args, spelled, ")" + tail))))
      && TailRefused(calendar, tail, reason)
  }

  lemma {:induction false} OnlyBlanks(text: string)
    requires SkipBlanks(text) != ""
    ensures !Blanks(text)
  {
    if IsBlank(text[0]) {
      OnlyBlanks(text[1..]);
      var i :| 0 <= i < |text[1..]| && text[1..][i] != ' ' && text[1..][i] != '\t';
      assert text[i + 1] == text[1..][i];
    }
  }

  lemma TailIsRefused(calendar: string -> bool, segment: string)
    requires segment != "" && ParseExample(calendar, segment).Err? && ParseCall(calendar, segment).Ok?
    ensures TailRefused(calendar, ParseCall(calendar, segment).rest, ParseExample(calendar, segment).reason)
  {
    var tail := ParseCall(calendar, segment).rest;
    var rest := SkipBlanks(tail);
    var blanks := BlanksInFront(tail);
    if ARROW <= rest {
      var outcome := SkipBlanks(rest[|ARROW|..]);
      var more := BlanksInFront(rest[|ARROW|..]);
      assert rest == ARROW + (more + outcome);
      if ParseExpected(calendar, outcome).Err? {
        OutcomeIsRefused(calendar, outcome);
      } else {
        var afterRaises, word := OutcomeIsSpelled(calendar, outcome);
        OnlyBlanks(ParseExpected(calendar, outcome).rest);
        assert MoreBehind(calendar, outcome);
      }
    }
  }

  /** What is wrong with the segment, for the reason. */
  ghost predicate RefusedFor(calendar: string -> bool, segment: string, reason: Reason) {
    if segment == "" then reason.EmptyExample?
    else CallRefused(calendar, segment, reason) || BehindCallRefused(calendar, segment, reason)
  }

  /** A segment that is no example is refused for something that is wrong with it. */
  lemma RefusalNamesTheReason(calendar: string -> bool, segment: string)
    requires ParseExample(calendar, segment).Err?
    ensures RefusedFor(calendar, segment, ParseExample(calendar, segment).reason)
  {
    if segment != "" {
      var call := ParseCall(calendar, segment);
      if call.Err? {
        CallIsRefused(calendar, segment);
      } else {
        var beforeOpen, afterOpen, spelled := CallIsSpelled(calendar, segment);
        TailIsRefused(calendar, segment);
        assert BehindCallRefused(calendar, segment, ParseExample(calendar, segment).reason);
      }
    }
  }
}
