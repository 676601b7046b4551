/** The language of the examples: a segment is accepted exactly when it spells an example. */
module ExampleLanguage {
  import opened ExampleGrammar
  import opened ExampleLaws
  import opened TokenShapes
  import opened Wrappers

  // ----- Spellings

  predicate Blanks(text: string) {
    forall i | 0 <= i < |text| :: text[i] == ' ' || text[i] == '\t'
  }

  /** The letter that stands for a character behind a backslash, where one does. */
  function LetterOf(c: char): Option<char> {
    if c == '"' then Some('"') else if c == '\\' then Some('\\') else if c == '\n' then Some('n')
    else if c == '\t' then Some('t') else None
  }

  /**
   Each character stands for itself, but for quotes and backslashes,
   or is spelled by its letter behind a backslash.
   */
  predicate SpellsText(spelled: string, value: string) {
    if value == "" then spelled == ""
    else
      || (spelled != "" && spelled[0] == value[0] && value[0] != '"' && value[0] != '\\'
          && SpellsText(spelled[1..], value[1..]))
      || (|spelled| >= 2 && spelled[0] == '\\' && LetterOf(value[0]) == Some(spelled[1])
          && SpellsText(spelled[2..], value[1..]))
  }

  /** A string stands in quotes; any other value is spelled as it is and fits its type. */
  ghost predicate SpellsLiteral(calendar: string -> bool, spelled: string, literal: Literal) {
    if literal.type_.StringType? then
      exists inner :: SpellsText(inner, literal.value) && spelled == "\"" + (inner + "\"")
    else spelled == literal.value && IsBare(calendar, literal.value, literal.type_)
  }

  /** How an argument is spelled: the blanks on both sides of the equal sign, its value, and the blanks behind it. */
  datatype ArgumentSpelling = ArgumentSpelling(afterName: string, afterEqual: string, value: string, behind: string,
                                               afterComma: string)

  /** How an example is spelled: its blanks, its arguments, and its outcome. */
  datatype Spelling = Spelling(beforeOpen: string, afterOpen: string, args: seq<ArgumentSpelling>, beforeArrow: string,
                               afterArrow: string, afterRaises: string, outcome: string, behind: string)

  /** The arguments as they are spelled, with commas in between, and what follows them. */
  function ArgumentsText(args: seq<Argument>, spelled: seq<ArgumentSpelling>, tail: string): string
    requires |args| == |spelled|
  {
    if args == [] then tail
    else
      args[0].name
      + (spelled[0].afterName
         + ("=" + (spelled[0].afterEqual
                   + (spelled[0].value
                      + (spelled[0].behind
                         + (if |args| == 1 then tail
                            else "," + (spelled[0].afterComma + ArgumentsText(args[1..], spelled[1..], tail))))))))
  }

  function OutcomeText(expected: Expected, spelling: Spelling): string {
    match expected.kind
    case Raises => "raises" + (spelling.afterRaises + (spelling.outcome + spelling.behind))
    case Returns => spelling.outcome + spelling.behind
  }

  /** The segment of an example in a spelling. */
  function SegmentOf(example: Example, spelling: Spelling): string
    requires |example.args| == |spelling.args|
  {
    var arrow := spelling.beforeArrow + ("=>" + (spelling.afterArrow + OutcomeText(example.expected, spelling)));
    example.operation
    + (spelling.beforeOpen + ("(" + (spelling.afterOpen + ArgumentsText(example.args, spelling.args, ")" + arrow))))
  }

  ghost predicate SpellsArgument(calendar: string -> bool, spelled: ArgumentSpelling, argument: Argument) {
    && Name(argument.name) && SpellsLiteral(calendar, spelled.value, argument.value)
    && Blanks(spelled.afterName) && Blanks(spelled.afterEqual) && Blanks(spelled.behind) && Blanks(spelled.afterComma)
  }

  ghost predicate SpellsArguments(calendar: string -> bool, spelled: seq<ArgumentSpelling>, args: seq<Argument>) {
    |spelled| == |args| && forall i | 0 <= i < |args| :: SpellsArgument(calendar, spelled[i], args[i])
  }

  ghost predicate SpellsOutcome(calendar: string -> bool, spelling: Spelling, expected: Expected) {
    match expected.kind
    case Raises =>
      && expected.value.type_.NameType? && Name(expected.value.value)
      && spelling.outcome == expected.value.value && spelling.afterRaises != ""
    case Returns => SpellsLiteral(calendar, spelling.outcome, expected.value)
  }

  /** The spelling is one of the example, whose arguments have different names. */
  ghost predicate Spells(calendar: string -> bool, spelling: Spelling, example: Example) {
    && Name(example.operation) && DistinctNames(example.args)
    && SpellsArguments(calendar, spelling.args, example.args) && SpellsOutcome(calendar, spelling, example.expected)
    && Blanks(spelling.beforeOpen) && Blanks(spelling.afterOpen) && Blanks(spelling.beforeArrow)
    && Blanks(spelling.afterArrow) && Blanks(spelling.afterRaises) && Blanks(spelling.behind)
  }

  // ----- Spellings are read back

  lemma {:induction false} BlanksAreSkipped(blanks: string, text: string)
    requires Blanks(blanks)
    ensures SkipBlanks(blanks + text) == SkipBlanks(text)
  {
    if blanks == "" {
      assert blanks + text == text;
    } else {
      assert (blanks + text)[1..] == blanks[1..] + text && (blanks + text)[0] == blanks[0];
      BlanksAreSkipped(blanks[1..], text);
    }
  }

  lemma BlanksUpTo(blanks: string, text: string)
    requires Blanks(blanks) && (text == "" || !IsBlank(text[0]))
    ensures SkipBlanks(blanks + text) == text
  {
    BlanksAreSkipped(blanks, text);
  }

  lemma {:induction false} SpelledTextReadsBack(spelled: string, value: string, rest: string)
    requires SpellsText(spelled, value)
    ensures ParseQuoted(spelled + ("\"" + rest)) == Ok(value, rest)
    decreases |value|
  {
    var text := spelled + ("\"" + rest);
    if value == "" {
      assert text == "\"" + rest;
      assert text[1..] == rest;
    } else if spelled[0] == value[0] && value[0] != '"' && value[0] != '\\' && SpellsText(spelled[1..], value[1..]) {
      assert text[1..] == spelled[1..] + ("\"" + rest);
      SpelledTextReadsBack(spelled[1..], value[1..], rest);
      assert value == [value[0]] + value[1..];
    } else {
      assert text[2..] == spelled[2..] + ("\"" + rest) && text[1] == spelled[1] && text[0] == '\\';
      SpelledTextReadsBack(spelled[2..], value[1..], rest);
      assert value == [value[0]] + value[1..];
    }
  }

  lemma SpelledLiteralReadsBack(calendar: string -> bool, spelled: string, literal: Literal, rest: string)
    requires SpellsLiteral(calendar, spelled, literal) && (rest == "" || EndsWord(rest[0]))
    ensures ParseLiteral(calendar, spelled + rest) == Ok(literal, rest)
    ensures spelled != "" && !IsBlank(spelled[0]) && spelled[0] != 'r'
  {
    if literal.type_.StringType? {
      var inner :| SpellsText(inner, literal.value) && spelled == "\"" + (inner + "\"");
      assert (spelled + rest)[1..] == inner + ("\"" + rest);
      SpelledTextReadsBack(inner, literal.value, rest);
    } else {
      assert PrintLiteral(literal) == literal.value;
      BareIff(calendar, literal);
      LiteralReadsBack(calendar, literal, rest);
    }
  }

  lemma Behind(blanks: string, next: string)
    requires Blanks(blanks) && next != "" && EndsWord(next[0])
    ensures blanks + next != "" && EndsWord((blanks + next)[0])
  {
  }

  lemma SpelledArgumentReadsBack(calendar: string -> bool, spelled: ArgumentSpelling, argument: Argument, rest: string)
    requires SpellsArgument(calendar, spelled, argument) && rest != "" && EndsWord(rest[0])
    ensures ParseArgument(calendar, argument.name + (spelled.afterName
                                                     + ("=" + (spelled.afterEqual + (spelled.value + rest)))))
            == Ok(argument, rest)
  {
    var bound := "=" + (spelled.afterEqual + (spelled.value + rest));
    var afterName := spelled.afterName + bound;
    Behind(spelled.afterName, bound);
    NameShape(argument.name);
    IdentifierIsAWord(argument.name);
    WordReadsBack(argument.name, afterName);
    BlanksUpTo(spelled.afterName, bound);
    assert bound[1..] == spelled.afterEqual + (spelled.value + rest);
    SpelledLiteralReadsBack(calendar, spelled.value, argument.value, rest);
    BlanksUpTo(spelled.afterEqual, spelled.value + rest);
  }

  /** An argument that is read, with the closing parenthesis behind it and its blanks. */
  lemma LastIsRead(calendar: string -> bool, text: string, argument: Argument, behind: string, rest: string,
                   seen: set<string>)
    requires ParseArgument(calendar, text) == Ok(argument, behind + (")" + rest)) && Blanks(behind)
    requires argument.name !in seen
    ensures ParseArguments(calendar, text, seen) == Ok([argument], rest)
  {
    var tail := ")" + rest;
    BlanksUpTo(behind, tail);
    assert tail[0] == ')' && tail[1..] == rest;
  }

  /** An argument that is read, with a comma and a list that is read behind it and its blanks. */
  lemma OneIsRead(calendar: string -> bool, text: string, argument: Argument, behind: string, blanks: string,
                  more: string, later: seq<Argument>, rest: string, seen: set<string>)
    requires ParseArgument(calendar, text) == Ok(argument, behind + ("," + (blanks + more)))
    requires Blanks(behind) && Blanks(blanks) && argument.name !in seen && more != "" && !IsBlank(more[0])
    requires ParseArguments(calendar, more, seen + {argument.name}) == Ok(later, rest)
    ensures ParseArguments(calendar, text, seen) == Ok([argument] + later, rest)
  {
    var comma := "," + (blanks + more);
    BlanksUpTo(behind, comma);
    assert comma[0] == ',' && comma[1..] == blanks + more;
    BlanksUpTo(blanks, more);
  }

  lemma {:induction false} SpelledArgumentsReadBack(calendar: string -> bool, spelled: seq<ArgumentSpelling>,
                                                    args: seq<Argument>, rest: string, seen: set<string>)
    requires args != [] && SpellsArguments(calendar, spelled, args) && DistinctNames(args)
    requires forall argument | argument in args :: argument.name !in seen
    ensures ParseArguments(calendar, ArgumentsText(args, spelled, ")" + rest), seen) == Ok(args, rest)
    ensures ArgumentsText(args, spelled, ")" + rest) != ""
    ensures StartsIdentifier(ArgumentsText(args, spelled, ")" + rest)[0])
    decreases |args|
  {
    var tail := ")" + rest;
    var text, first := ArgumentsText(args, spelled, tail), spelled[0];
    assert args[0] in args && SpellsArgument(calendar, first, args[0]);
    assert text[0] == args[0].name[0];
    LetterIs(text[0]);
    if |args| == 1 {
      Behind(first.behind, tail);
      SpelledArgumentReadsBack(calendar, first, args[0], first.behind + tail);
      LastIsRead(calendar, text, args[0], first.behind, rest, seen);
      assert args == [args[0]];
    } else {
      var more := ArgumentsText(args[1..], spelled[1..], tail);
      var comma := "," + (first.afterComma + more);
      LaterArguments(args, seen);
      SpelledArgumentsReadBack(calendar, spelled[1..], args[1..], rest, seen + {args[0].name});
      Behind(first.behind, comma);
      SpelledArgumentReadsBack(calendar, first, args[0], first.behind + comma);
      OneIsRead(calendar, text, args[0], first.behind, first.afterComma, more, args[1..], rest, seen);
      assert args == [args[0]] + args[1..];
    }
  }

  lemma {:induction false} OperationIsRead(word: string, rest: string)
    requires forall c | c in word :: c != '(' && !IsBlank(c)
    requires rest != "" && (rest[0] == '(' || IsBlank(rest[0]))
    ensures OperationLength(word + rest) == |word|
    ensures (word + rest)[..|word|] == word && (word + rest)[|word|..] == rest
  {
    if word == "" {
      assert word + rest == rest;
    } else {
      assert (word + rest)[1..] == word[1..] + rest && word[0] in word;
      assert forall c | c in word[1..] :: c in word;
      OperationIsRead(word[1..], rest);
    }
  }

  lemma SpelledCallReadsBack(calendar: string -> bool, spelling: Spelling, operation: string, args: seq<Argument>,
                             rest: string)
    requires Name(operation) && DistinctNames(args) && SpellsArguments(calendar, spelling.args, args)
    requires Blanks(spelling.beforeOpen) && Blanks(spelling.afterOpen)
    ensures ParseCall(calendar, operation + (spelling.beforeOpen
                                             + ("(" + (spelling.afterOpen
                                                       + ArgumentsText(args, spelling.args, ")" + rest)))))
            == Ok(Call(operation, args), rest)
  {
    var inner := ArgumentsText(args, spelling.args, ")" + rest);
    var open := "(" + (spelling.afterOpen + inner);
    IdentifierIsAWord(operation);
    assert (spelling.beforeOpen + open)[0] == if spelling.beforeOpen == "" then '(' else spelling.beforeOpen[0];
    OperationIsRead(operation, spelling.beforeOpen + open);
    BlanksUpTo(spelling.beforeOpen, open);
    assert open[1..] == spelling.afterOpen + inner;
    if args == [] {
      assert inner == ")" + rest && inner[1..] == rest;
    } else {
      SpelledArgumentsReadBack(calendar, spelling.args, args, rest, {});
    }
    BlanksUpTo(spelling.afterOpen, inner);
  }

  lemma SpelledOutcomeReadsBack(calendar: string -> bool, spelling: Spelling, expected: Expected)
    requires SpellsOutcome(calendar, spelling, expected) && Blanks(spelling.afterRaises) && Blanks(spelling.behind)
    ensures ParseExpected(calendar, OutcomeText(expected, spelling)) == Ok(expected, spelling.behind)
    ensures OutcomeText(expected, spelling) != "" && !IsBlank(OutcomeText(expected, spelling)[0])
  {
    var text := OutcomeText(expected, spelling);
    match expected.kind {
      case Raises =>
        var named := spelling.outcome + spelling.behind;
        assert text[|RAISES|..] == spelling.afterRaises + named && text[|RAISES|] == spelling.afterRaises[0];
        IdentifierIsAWord(spelling.outcome);
        WordReadsBack(spelling.outcome, spelling.behind);
        assert spelling.outcome[0] in spelling.outcome;
        BlanksUpTo(spelling.afterRaises, named);
      case Returns =>
        SpelledLiteralReadsBack(calendar, spelling.outcome, expected.value, spelling.behind);
    }
  }

  /** Every spelling of an example is read as that example. */
  lemma SpellingReadsBack(calendar: string -> bool, spelling: Spelling, example: Example)
    requires Spells(calendar, spelling, example)
    ensures ParseExample(calendar, SegmentOf(example, spelling)) == Ok(example.(index := 0), "")
  {
    var outcome := OutcomeText(example.expected, spelling);
    var arrow := "=>" + (spelling.afterArrow + outcome);
    SpelledCallReadsBack(calendar, spelling, example.operation, example.args, spelling.beforeArrow + arrow);
    BlanksUpTo(spelling.beforeArrow, arrow);
    assert arrow[|ARROW|..] == spelling.afterArrow + outcome && ARROW <= arrow;
    SpelledOutcomeReadsBack(calendar, spelling, example.expected);
    BlanksUpTo(spelling.afterArrow, outcome);
    BlanksUpTo(spelling.behind, "");
    assert spelling.behind + "" == spelling.behind;
  }

  // ----- What is read is spelled

  lemma {:induction false} BlanksInFront(text: string) returns (blanks: string)
    ensures Blanks(blanks) && text == blanks + SkipBlanks(text)
  {
    if text != "" && IsBlank(text[0]) {
      blanks := BlanksInFront(text[1..]);
      blanks := [text[0]] + blanks;
    } else {
      blanks := "";
    }
  }

  lemma NothingButBlanks(text: string)
    requires SkipBlanks(text) == ""
    ensures Blanks(text)
  {
    var blanks := BlanksInFront(text);
    assert text == blanks;
  }

  lemma {:induction false} QuotedIsSpelled(text: string) returns (inner: string)
    requires ParseQuoted(text).Ok?
    ensures SpellsText(inner, ParseQuoted(text).value) && text == inner + ("\"" + ParseQuoted(text).rest)
    decreases |text|
  {
    if text[0] == '"' {
      inner := "";
    } else if text[0] == '\\' {
      var later := QuotedIsSpelled(text[2..]);
      inner := text[..2] + later;
      assert inner[2..] == later && inner[1] == text[1] && inner[0] == text[0];
      assert ParseQuoted(text).value[1..] == ParseQuoted(text[2..]).value;
    } else {
      var later := QuotedIsSpelled(text[1..]);
      inner := text[..1] + later;
      assert inner[1..] == later && inner[0] == text[0];
      assert ParseQuoted(text).value[1..] == ParseQuoted(text[1..]).value;
    }
  }

  lemma TokenIsBare(calendar: string -> bool, token: string, rest: string)
    requires ParseToken(calendar, token, rest).Ok?
    ensures var read := ParseToken(calendar, token, rest);
            && read.rest == rest && read.value.value == token && !read.value.type_.StringType?
            && IsBare(calendar, token, read.value.type_)
  {
    BareIff(calendar, ParseToken(calendar, token, rest).value);
  }

  lemma BareSpellsItself(calendar: string -> bool, literal: Literal)
    requires IsBare(calendar, literal.value, literal.type_) && !literal.type_.StringType?
    ensures SpellsLiteral(calendar, literal.value, literal)
  {
  }

  lemma BareIsSpelled(calendar: string -> bool, text: string)
    requires ParseLiteral(calendar, text).Ok? && (text == "" || text[0] != '"')
    ensures var spelled := text[..WordLength(text)];
            && SpellsLiteral(calendar, spelled, ParseLiteral(calendar, text).value)
            && text == spelled + ParseLiteral(calendar, text).rest
  {
    var token, rest := text[..WordLength(text)], text[WordLength(text)..];
    assert ParseLiteral(calendar, text) == ParseToken(calendar, token, rest);
    TokenIsBare(calendar, token, rest);
    BareSpellsItself(calendar, ParseToken(calendar, token, rest).value);
    assert text == token + rest;
  }

  lemma LiteralIsSpelled(calendar: string -> bool, text: string) returns (spelled: string)
    requires ParseLiteral(calendar, text).Ok?
    ensures SpellsLiteral(calendar, spelled, ParseLiteral(calendar, text).value)
    ensures text == spelled + ParseLiteral(calendar, text).rest
  {
    if text != "" && text[0] == '"' {
      var inner := QuotedIsSpelled(text[1..]);
      spelled := "\"" + (inner + "\"");
      var rest := ParseLiteral(calendar, text).rest;
      assert text == "\"" + (inner + ("\"" + rest));
      assert inner + ("\"" + rest) == (inner + "\"") + rest;
    } else {
      BareIsSpelled(calendar, text);
      spelled := text[..WordLength(text)];
    }
  }

  /** What is read of an argument one part after the other. */
  lemma ArgumentParts(calendar: string -> bool, text: string) returns (name: string, behindName: string, bound: string)
    requires ParseArgument(calendar, text).Ok?
    ensures Name(name) && text == name + behindName && SkipBlanks(behindName) == "=" + bound
    ensures var value := ParseLiteral(calendar, SkipBlanks(bound));
            value.Ok? && ParseArgument(calendar, text) == Ok(Argument(name, value.value), value.rest)
  {
    var word := ParseIdentifier(text);
    NameShape(word.value);
    name, behindName := word.value, word.rest;
    bound := SkipBlanks(word.rest)[1..];
  }

  lemma ArgumentIsSpelled(calendar: string -> bool, text: string) returns (spelled: ArgumentSpelling)
    requires ParseArgument(calendar, text).Ok?
    ensures var argument := ParseArgument(calendar, text);
            && SpellsArgument(calendar, spelled, argument.value) && spelled.behind == "" && spelled.afterComma == ""
            && text == argument.value.name
                       + (spelled.afterName + ("=" + (spelled.afterEqual + (spelled.value + argument.rest))))
  {
    var name, behindName, bound := ArgumentParts(calendar, text);
    var afterName := BlanksInFront(behindName);
    var afterEqual := BlanksInFront(bound);
    var value := LiteralIsSpelled(calendar, SkipBlanks(bound));
    spelled := ArgumentSpelling(afterName, afterEqual, value, "", "");
  }

  lemma {:induction false} ArgumentsAreSpelled(calendar: string -> bool, text: string, seen: set<string>)
    returns (spelled: seq<ArgumentSpelling>)
    requires ParseArguments(calendar, text, seen).Ok?
    ensures var args := ParseArguments(calendar, text, seen);
            SpellsArguments(calendar, spelled, args.value)
            && text == ArgumentsText(args.value, spelled, ")" + args.rest) && args.value != []
    decreases |text|
  {
    var argument := ParseArgument(calendar, text);
    ParseArgumentShrinks(calendar, text);
    var first := ArgumentIsSpelled(calendar, text);
    var behind := BlanksInFront(argument.rest);
    var after := SkipBlanks(argument.rest);
    assert after == [after[0]] + after[1..];
    if after[0] == ')' {
      spelled := [first.(behind := behind)];
    } else {
      var afterComma := BlanksInFront(after[1..]);
      var more := ArgumentsAreSpelled(calendar, SkipBlanks(after[1..]), seen + {argument.value.name});
      spelled := [first.(behind := behind, afterComma := afterComma)] + more;
      assert ParseArguments(calendar, text, seen).value[1..]
             == ParseArguments(calendar, SkipBlanks(after[1..]), seen + {argument.value.name}).value;
      assert spelled[1..] == more;
    }
  }

  /** What stands in the parentheses and behind them. */
  predicate ListIs(calendar: string -> bool, inner: string, args: seq<Argument>, rest: string) {
    if inner != "" && inner[0] == ')' then args == [] && rest == inner[1..]
    else ParseArguments(calendar, inner, {}) == Ok(args, rest)
  }

  lemma ListIsSpelled(calendar: string -> bool, inner: string, args: seq<Argument>, rest: string)
    returns (spelled: seq<ArgumentSpelling>)
    requires ListIs(calendar, inner, args, rest)
    ensures SpellsArguments(calendar, spelled, args) && inner == ArgumentsText(args, spelled, ")" + rest)
  {
    if inner != "" && inner[0] == ')' {
      spelled := [];
    } else {
      spelled := ArgumentsAreSpelled(calendar, inner, {});
    }
  }

  /** What is read of a call one part after the other. */
  lemma CallParts(calendar: string -> bool, text: string)
    returns (behindOperation: string, inside: string)
    requires ParseCall(calendar, text).Ok?
    ensures var call := ParseCall(calendar, text);
            && text == call.value.operation + behindOperation && SkipBlanks(behindOperation) == "(" + inside
            && ListIs(calendar, SkipBlanks(inside), call.value.args, call.rest)
  {
    var length := OperationLength(text);
    behindOperation := text[length..];
    inside := SkipBlanks(behindOperation)[1..];
    assert text == text[..length] + text[length..];
  }

  lemma CallIsSpelled(calendar: string -> bool, text: string)
    returns (beforeOpen: string, afterOpen: string, args: seq<ArgumentSpelling>)
    requires ParseCall(calendar, text).Ok?
    ensures var call := ParseCall(calendar, text);
            && Blanks(beforeOpen) && Blanks(afterOpen) && SpellsArguments(calendar, args, call.value.args)
            && text == call.value.operation
                       + (beforeOpen + ("(" + (afterOpen + ArgumentsText(call.value.args, args, ")" + call.rest))))
  {
    var behindOperation, inside := CallParts(calendar, text);
    beforeOpen := BlanksInFront(behindOperation);
    afterOpen := BlanksInFront(inside);
    args := ListIsSpelled(calendar, SkipBlanks(inside), ParseCall(calendar, text).value.args,
                          ParseCall(calendar, text).rest);
  }

  lemma OutcomeIsSpelled(calendar: string -> bool, text: string) returns (afterRaises: string, outcome: string)
    requires ParseExpected(calendar, text).Ok?
    ensures var expected := ParseExpected(calendar, text);
            var spelling := Spelling("", "", [], "", "", afterRaises, outcome, expected.rest);
            && Blanks(afterRaises) && SpellsOutcome(calendar, spelling, expected.value)
            && text == OutcomeText(expected.value, spelling)
  {
    if SaysRaises(text) {
      afterRaises := BlanksInFront(text[|RAISES|..]);
      var rest := SkipBlanks(text[|RAISES|..]);
      outcome := rest[..WordLength(rest)];
      NameShape(outcome);
      assert text == RAISES + text[|RAISES|..];
      assert afterRaises != "" by {
        assert |text| > |RAISES| && IsBlank(text[|RAISES|..][0]);
      }
    } else {
      afterRaises := "";
      outcome := LiteralIsSpelled(calendar, text);
    }
  }

  lemma ArrowIsSpelled(calendar: string -> bool, segment: string)
    returns (beforeArrow: string, afterArrow: string, text: string)
    requires ParseExample(calendar, segment).Ok?
    ensures var expected := ParseExpected(calendar, text);
            && Blanks(beforeArrow) && Blanks(afterArrow) && expected.Ok? && SkipBlanks(expected.rest) == ""
            && ParseCall(calendar, segment).Ok?
            && ParseCall(calendar, segment).rest == beforeArrow + ("=>" + (afterArrow + text))
            && ParseExample(calendar, segment).value.expected == expected.value
  {
    var arrow := SkipBlanks(ParseCall(calendar, segment).rest);
    beforeArrow := BlanksInFront(ParseCall(calendar, segment).rest);
    afterArrow := BlanksInFront(arrow[|ARROW|..]);
    text := SkipBlanks(arrow[|ARROW|..]);
    assert arrow == ARROW + arrow[|ARROW|..];
  }

  /** The call, the arrow and the outcome of an example, spelled one behind the other, are a spelling of it. */
  lemma PartsSpell(calendar: string -> bool, segment: string, example: Example, spelling: Spelling, rest: string)
    requires Name(example.operation) && DistinctNames(example.args)
    requires SpellsArguments(calendar, spelling.args, example.args)
    requires SpellsOutcome(calendar, spelling, example.expected)
    requires Blanks(spelling.beforeOpen) && Blanks(spelling.afterOpen) && Blanks(spelling.beforeArrow)
             && Blanks(spelling.afterArrow) && Blanks(spelling.afterRaises) && Blanks(spelling.behind)
    requires rest == spelling.beforeArrow + ("=>" + (spelling.afterArrow + OutcomeText(example.expected, spelling)))
    requires segment == example.operation
                        + (spelling.beforeOpen
                           + ("(" + (spelling.afterOpen + ArgumentsText(example.args, spelling.args, ")" + rest))))
    ensures Spells(calendar, spelling, example) && segment == SegmentOf(example, spelling)
  {
  }

  lemma SameOutcome(calendar: string -> bool, one: Spelling, other: Spelling, expected: Expected)
    requires one.outcome == other.outcome && one.afterRaises == other.afterRaises && one.behind == other.behind
    requires SpellsOutcome(calendar, one, expected)
    ensures SpellsOutcome(calendar, other, expected) && OutcomeText(expected, other) == OutcomeText(expected, one)
  {
  }

  lemma AcceptedNames(calendar: string -> bool, segment: string)
    requires ParseExample(calendar, segment).Ok?
    ensures var example := ParseExample(calendar, segment).value;
            Name(example.operation) && DistinctNames(example.args)
  {
    AcceptedIsWellFormed(calendar, segment);
    NameShape(ParseExample(calendar, segment).value.operation);
  }

  /** Every accepted segment is a spelling of the example it is read as. */
  lemma AcceptedIsSpelled(calendar: string -> bool, segment: string) returns (spelling: Spelling)
    requires ParseExample(calendar, segment).Ok?
    ensures Spells(calendar, spelling, ParseExample(calendar, segment).value)
    ensures |spelling.args| == |ParseExample(calendar, segment).value.args|
    ensures segment == SegmentOf(ParseExample(calendar, segment).value, spelling)
  {
    var example := ParseExample(calendar, segment).value;
    AcceptedNames(calendar, segment);
    var beforeArrow, afterArrow, text := ArrowIsSpelled(calendar, segment);
    var beforeOpen, afterOpen, args := CallIsSpelled(calendar, segment);
    var afterRaises, outcome := OutcomeIsSpelled(calendar, text);
    var behind := ParseExpected(calendar, text).rest;
    NothingButBlanks(behind);
    spelling := Spelling(beforeOpen, afterOpen, args, beforeArrow, afterArrow, afterRaises, outcome, behind);
    SameOutcome(calendar, Spelling("", "", [], "", "", afterRaises, outcome, behind), spelling, example.expected);
    PartsSpell(calendar, segment, example, spelling, ParseCall(calendar, segment).rest);
  }

  /** A segment is read as an example exactly when it is one of its spellings. */
  lemma AcceptedIffSpelled(calendar: string -> bool, segment: string, example: Example)
    ensures ParseExample(calendar, segment) == Ok(example, "")
            <==> example.index == 0 && exists spelling: Spelling ::
                   && Spells(calendar, spelling, example) && |spelling.args| == |example.args|
                   && segment == SegmentOf(example, spelling)
  {
    if ParseExample(calendar, segment) == Ok(example, "") {
      var spelling := AcceptedIsSpelled(calendar, segment);
    }
    if example.index == 0 {
      forall spelling: Spelling | && Spells(calendar, spelling, example) && |spelling.args| == |example.args|
                                  && segment == SegmentOf(example, spelling)
        ensures ParseExample(calendar, segment) == Ok(example, "")
      {
        SpellingReadsBack(calendar, spelling, example);
        assert example.(index := 0) == example;
      }
    }
  }

  lemma PrintedBehind(example: Example, rest: string)
    ensures PrintExample(example) + rest
            == example.operation
               + ("(" + (PrintArguments(example.args)
                         + (")" + (" " + (ARROW + " " + PrintExpected(example.expected) + rest)))))
  {
    PrintedParts(example);
  }

  lemma ExpectedWithRest(calendar: string -> bool, expected: Expected, rest: string)
    requires WellFormedExpected(calendar, expected) && rest != "" && IsBlank(rest[0])
    ensures ParseExpected(calendar, PrintExpected(expected) + rest) == Ok(expected, rest)
    ensures PrintExpected(expected) != "" && !IsBlank(PrintExpected(expected)[0])
  {
    var text := PrintExpected(expected) + rest;
    if expected.kind == Raises {
      var name := expected.value.value;
      assert text[|RAISES|..] == " " + (name + rest) && text[|RAISES|] == ' ';
      IdentifierIsAWord(name);
      WordReadsBack(name, rest);
      assert name[0] in name;
      SkipOneBlank(name + rest);
    } else {
      LiteralReadsBack(calendar, expected.value, rest);
    }
  }

  lemma {:induction false} OnlyBlanksAreSkipped(text: string)
    requires !Blanks(text)
    ensures SkipBlanks(text) != ""
  {
    if IsBlank(text[0]) {
      assert forall i | 1 <= i < |text| :: text[i] == text[1..][i - 1];
      OnlyBlanksAreSkipped(text[1..]);
    }
  }

  lemma ArrowWithRest(outcome: string, rest: string)
    requires outcome != "" && !IsBlank(outcome[0])
    ensures var arrow := ARROW + " " + outcome + rest;
            && SkipBlanks(" " + arrow) == arrow && ARROW <= arrow && SkipBlanks(arrow[|ARROW|..]) == outcome + rest
  {
    var arrow := ARROW + " " + outcome + rest;
    SkipOneBlank(arrow);
    assert arrow[|ARROW|..] == " " + (outcome + rest);
    SkipOneBlank(outcome + rest);
  }

  /** What stands behind the outcome of an example is refused, unless it is blank. */
  lemma TextBehindIsRefused(calendar: string -> bool, example: Example, text: string)
    requires WellFormed(calendar, example) && !Blanks(text)
    ensures ParseExample(calendar, PrintExample(example) + (" " + text)) == Err(TextAfterOutcome)
  {
    var outcome, rest := PrintExpected(example.expected), " " + text;
    PrintedBehind(example, rest);
    ExpectedWithRest(calendar, example.expected, rest);
    ArrowWithRest(outcome, rest);
    CallReadsBack(calendar, example.operation, example.args, " " + (ARROW + " " + outcome + rest));
    OnlyBlanksAreSkipped(text);
    assert rest[1..] == text;
  }
}
