/** Printing and parsing examples undo each other. */
module ExampleLaws {
  import opened ExampleGrammar

  // ----- Words

  /** A word that holds no terminator is read back whole when a terminator or nothing follows. */
  lemma {:induction false} WordReadsBack(word: string, rest: string)
    requires forall c | c in word :: !EndsWord(c)
    requires rest == "" || EndsWord(rest[0])
    ensures WordLength(word + rest) == |word|
    ensures (word + rest)[..|word|] == word && (word + rest)[|word|..] == rest
  {
    if word == "" {
      assert word + rest == rest;
    } else {
      assert (word + rest)[1..] == word[1..] + rest;
      WordReadsBack(word[1..], rest);
    }
  }

  lemma {:induction false} OperationReadsBack(word: string, rest: string)
    requires forall c | c in word :: c != '(' && !IsBlank(c)
    requires rest != "" && rest[0] == '('
    ensures OperationLength(word + rest) == |word|
    ensures (word + rest)[..|word|] == word && (word + rest)[|word|..] == rest
  {
    if word == "" {
      assert word + rest == rest;
    } else {
      assert (word + rest)[1..] == word[1..] + rest && word[0] in word;
      assert forall c | c in word[1..] :: c in word;
      OperationReadsBack(word[1..], rest);
    }
  }

  lemma IdentifierIsAWord(name: string)
    requires IsIdentifier(name)
    ensures forall c | c in name :: !EndsWord(c) && c != '(' && c != '"'
  {
  }

  // ----- Tokens

  /** The characters a number or a datetime is made of. */
  predicate NumberCharacter(c: char) {
    IsDigit(c) || c in "-+.:TZ"
  }

  lemma DecimalParts(text: string) returns (whole: string, fraction: string)
    requires IsDecimal(text)
    ensures AllDigits(whole) && AllDigits(fraction) && Unsigned(text) == whole + "." + fraction
  {
    var body := Unsigned(text);
    var i :| 0 < i < |body| && body[i] == '.' && AllDigits(body[..i]) && AllDigits(body[i + 1..]);
    whole, fraction := body[..i], body[i + 1..];
    assert body == whole + [body[i]] + fraction;
  }

  lemma DecimalCharacters(text: string)
    requires IsDecimal(text)
    ensures forall c | c in text :: NumberCharacter(c)
    ensures '.' in text && 'T' !in text && text != "" && (IsDigit(text[0]) || text[0] == '-')
  {
    var whole, fraction := DecimalParts(text);
    var body := Unsigned(text);
    assert body[0] == whole[0] && body[|whole|] == '.';
    assert forall c | c in body :: IsDigit(c) || c == '.';
    if text[0] == '-' {
      assert text == ['-'] + body;
    }
  }

  lemma IntegerCharacters(text: string)
    requires IsInteger(text)
    ensures forall c | c in text :: IsDigit(c) || c == '-'
    ensures text != "" && (IsDigit(text[0]) || text[0] == '-')
  {
    if text[0] == '-' {
      assert text == [text[0]] + text[1..];
    }
  }

  lemma {:induction false} DropDigitsCharacters(text: string)
    requires forall c | c in DropDigits(text) :: NumberCharacter(c)
    ensures forall c | c in text :: NumberCharacter(c)
  {
    if text != "" && IsDigit(text[0]) {
      DropDigitsCharacters(text[1..]);
      assert text == [text[0]] + text[1..];
    }
  }

  lemma ZoneCharacters(text: string)
    requires IsZone(text)
    ensures forall c | c in text :: NumberCharacter(c)
  {
    if |text| == 6 {
      assert text == [text[0]] + text[1..3] + [text[3]] + text[4..];
    }
  }

  lemma SecondsAndZoneCharacters(text: string)
    requires IsSecondsAndZone(text)
    ensures forall c | c in text :: NumberCharacter(c)
  {
    if |text| >= 3 && text[0] == ':' && AllDigits(text[1..3]) {
      var after := text[3..];
      if |after| >= 2 && after[0] == '.' && IsDigit(after[1]) {
        ZoneCharacters(DropDigits(after[1..]));
        DropDigitsCharacters(after[1..]);
        assert after == [after[0]] + after[1..];
      } else {
        ZoneCharacters(after);
      }
      assert text == [text[0]] + text[1..3] + after;
    } else {
      ZoneCharacters(text);
    }
  }

  lemma DatetimeCharacters(text: string)
    requires HasDatetimeShape(text)
    ensures forall c | c in text :: NumberCharacter(c)
    ensures text != "" && IsDigit(text[0]) && 'T' in text
  {
    SecondsAndZoneCharacters(text[16..]);
    assert text == text[..4] + [text[4]] + text[5..7] + [text[7]] + text[8..10] + [text[10]]
                   + text[11..13] + [text[13]] + text[14..16] + text[16..];
    assert text[0] == text[..4][0];
    assert text[10] == 'T';
  }

  /** The text of a number or a datetime is one word, and no earlier type claims it. */
  lemma NumbersAndDatetimes(text: string)
    ensures HasDatetimeShape(text) ==> !IsInteger(text) && !IsDecimal(text) && forall c | c in text ::
              NumberCharacter(c)
    ensures IsDecimal(text) ==> !IsInteger(text) && forall c | c in text :: NumberCharacter(c)
    ensures IsInteger(text) ==> forall c | c in text :: NumberCharacter(c)
  {
    if HasDatetimeShape(text) {
      DatetimeCharacters(text);
    }
    if IsDecimal(text) {
      DecimalCharacters(text);
    }
    if IsInteger(text) {
      IntegerCharacters(text);
    }
  }

  lemma NumberIsNonempty(text: string)
    requires HasDatetimeShape(text) || IsDecimal(text) || IsInteger(text)
    ensures text != ""
  {
  }

  lemma NumberCharactersAreOneWord(text: string)
    requires text != "" && forall c | c in text :: NumberCharacter(c)
    ensures text[0] != '"' && text[0] != 'r' && forall c | c in text :: !EndsWord(c)
    ensures text != "true" && text != "false" && text != "null"
  {
    assert text[0] in text;
  }

  lemma TokenIsOneWord(calendar: string -> bool, literal: Literal)
    requires Fits(calendar, literal) && literal.type_ != StringType && literal.type_ != NameType
    ensures literal.value != "" && literal.value[0] != '"' && literal.value[0] != 'r'
            && forall c | c in literal.value :: !EndsWord(c)
  {
    if literal.type_ in {DatetimeType, DecimalType, IntegerType} {
      NumbersAndDatetimes(literal.value);
      NumberIsNonempty(literal.value);
      NumberCharactersAreOneWord(literal.value);
    }
  }

  /** A bare literal reads back as itself: no earlier type claims its text. */
  lemma TokenReadsBack(calendar: string -> bool, literal: Literal, rest: string)
    requires Fits(calendar, literal) && literal.type_ != StringType && literal.type_ != NameType
    ensures ParseToken(calendar, literal.value, rest) == Ok(literal, rest)
  {
    if literal.type_ in {DatetimeType, DecimalType, IntegerType} {
      NumbersAndDatetimes(literal.value);
      NumberIsNonempty(literal.value);
      NumberCharactersAreOneWord(literal.value);
    }
  }

  lemma Regroup(a: string, b: string, c: string, rest: string)
    ensures a + b + rest == a + (b + rest)
    ensures a + b + c + rest == a + (b + (c + rest))
  {
    assert a + b + c + rest == a + b + (c + rest);
  }

  // ----- Quoted strings

  lemma EncodedReadsBack(c: char, tail: string)
    ensures ParseQuoted(Encoded(c) + tail) == Prepend([c], ParseQuoted(tail))
  {
    var all := Encoded(c) + tail;
    assert all[|Encoded(c)|..] == tail;
    if |Encoded(c)| == 2 {
      assert all[0] == '\\' && all[1] == Encoded(c)[1];
    }
  }

  lemma {:induction false} QuotedReadsBack(text: string, rest: string)
    ensures ParseQuoted(EncodedText(text) + "\"" + rest) == Ok(text, rest)
  {
    if text == "" {
      assert EncodedText(text) + "\"" + rest == "\"" + rest;
      assert ("\"" + rest)[1..] == rest;
    } else {
      var tail := EncodedText(text[1..]) + "\"" + rest;
      assert EncodedText(text) + "\"" + rest == Encoded(text[0]) + tail;
      QuotedReadsBack(text[1..], rest);
      EncodedReadsBack(text[0], tail);
      assert text == [text[0]] + text[1..];
    }
  }

  lemma LiteralReadsBack(calendar: string -> bool, literal: Literal, rest: string)
    requires Fits(calendar, literal) && literal.type_ != NameType
    requires rest == "" || EndsWord(rest[0])
    ensures ParseLiteral(calendar, PrintLiteral(literal) + rest) == Ok(literal, rest)
    ensures PrintLiteral(literal) != "" && !IsBlank(PrintLiteral(literal)[0]) && PrintLiteral(literal)[0] != 'r'
  {
    if literal.type_ == StringType {
      var all := PrintLiteral(literal) + rest;
      assert all[1..] == EncodedText(literal.value) + "\"" + rest;
      QuotedReadsBack(literal.value, rest);
    } else {
      TokenIsOneWord(calendar, literal);
      TokenReadsBack(calendar, literal, rest);
      WordReadsBack(literal.value, rest);
      assert literal.value[0] in literal.value;
    }
  }

  // ----- Arguments

  lemma ArgumentNameReadsBack(name: string, bound: string)
    requires IsIdentifier(name) && bound != "" && bound[0] == '='
    ensures ParseIdentifier(name + bound) == Ok(name, bound)
  {
    IdentifierIsAWord(name);
    WordReadsBack(name, bound);
  }

  lemma BoundValueParses(calendar: string -> bool, text: string, name: string, value: string, literal: Literal,
                         rest: string)
    requires ParseIdentifier(text) == Ok(name, "=" + value)
    requires value != "" && !IsBlank(value[0]) && ParseLiteral(calendar, value) == Ok(literal, rest)
    ensures ParseArgument(calendar, text) == Ok(Argument(name, literal), rest)
  {
    assert ("=" + value)[1..] == value;
  }

  lemma ArgumentStarts(argument: Argument)
    requires IsIdentifier(argument.name)
    ensures PrintArgument(argument) != "" && StartsIdentifier(PrintArgument(argument)[0])
  {
    assert PrintArgument(argument)[0] == argument.name[0];
  }

  lemma ArgumentReadsBack(calendar: string -> bool, argument: Argument, rest: string)
    requires WellFormedArgument(calendar, argument)
    requires rest == "" || EndsWord(rest[0])
    ensures ParseArgument(calendar, PrintArgument(argument) + rest) == Ok(argument, rest)
    ensures PrintArgument(argument) != "" && StartsIdentifier(PrintArgument(argument)[0])
  {
    var text, value := PrintArgument(argument) + rest, PrintLiteral(argument.value) + rest;
    ArgumentStarts(argument);
    assert text == argument.name + ("=" + value);
    ArgumentNameReadsBack(argument.name, "=" + value);
    LiteralReadsBack(calendar, argument.value, rest);
    BoundValueParses(calendar, text, argument.name, value, argument.value, rest);
  }

  lemma {:induction false} ArgumentsReadBack(calendar: string -> bool, args: seq<Argument>, rest: string,
                                             seen: set<string>)
    requires args != [] && DistinctNames(args)
    requires forall argument | argument in args :: WellFormedArgument(calendar, argument) && argument.name !in seen
    ensures ParseArguments(calendar, PrintArguments(args) + (")" + rest), seen) == Ok(args, rest)
    ensures PrintArguments(args) != "" && StartsIdentifier(PrintArguments(args)[0])
    decreases |args|
  {
    var first, closing := args[0], ")" + rest;
    assert first in args;
    if |args| == 1 {
      ArgumentReadsBack(calendar, first, closing);
      assert closing[1..] == rest && args == [first];
    } else {
      var more := PrintArguments(args[1..]) + closing;
      Regroup(PrintArgument(first), ", ", PrintArguments(args[1..]), closing);
      LaterArguments(args, seen);
      ArgumentsReadBack(calendar, args[1..], rest, seen + {first.name});
      assert more[0] == PrintArguments(args[1..])[0];
      OneMoreArgument(calendar, first, args[1..], more, rest, seen);
      assert args == [first] + args[1..];
    }
  }

  lemma {:induction false} OneMoreArgument(calendar: string -> bool, first: Argument, later: seq<Argument>,
                                           more: string, rest: string,
                        seen: set<string>)
    requires WellFormedArgument(calendar, first) && first.name !in seen
    requires more != "" && !IsBlank(more[0]) && ParseArguments(calendar, more, seen + {first.name}) == Ok(later, rest)
    ensures ParseArguments(calendar, PrintArgument(first) + (", " + more), seen) == Ok([first] + later, rest)
    ensures PrintArgument(first) != "" && StartsIdentifier(PrintArgument(first)[0])
  {
    var separated := ", " + more;
    ArgumentReadsBack(calendar, first, separated);
    SkipOneBlank(more);
    assert separated[1..] == " " + more;
  }

  lemma LaterArguments(args: seq<Argument>, seen: set<string>)
    requires args != [] && DistinctNames(args) && forall argument | argument in args :: argument.name !in seen
    ensures DistinctNames(args[1..])
    ensures forall argument | argument in args[1..] :: argument in args && argument.name !in seen + {args[0].name}
  {
  }

  lemma SkipOneBlank(text: string)
    requires text != "" && !IsBlank(text[0])
    ensures SkipBlanks(" " + text) == text && SkipBlanks(text) == text
  {
    assert (" " + text)[1..] == text;
  }

  // ----- Calls, outcomes and examples

  lemma CallOpens(calendar: string -> bool, operation: string, inner: string)
    requires IsIdentifier(operation)
    ensures var text := operation + ("(" + inner);
            OperationLength(text) == |operation| && text[..|operation|] == operation
            && SkipBlanks(text[|operation|..]) == "(" + inner
    ensures ("(" + inner)[1..] == inner
  {
    IdentifierIsAWord(operation);
    OperationReadsBack(operation, "(" + inner);
  }

  lemma CallReadsBack(calendar: string -> bool, operation: string, args: seq<Argument>, rest: string)
    requires IsIdentifier(operation) && DistinctNames(args)
    requires forall argument | argument in args :: WellFormedArgument(calendar, argument)
    ensures ParseCall(calendar, operation + ("(" + (PrintArguments(args) + (")" + rest))))
            == Ok(Call(operation, args), rest)
  {
    var inner := PrintArguments(args) + (")" + rest);
    CallOpens(calendar, operation, inner);
    if args == [] {
      assert inner == ")" + rest;
      assert inner[1..] == rest;
    } else {
      ArgumentsReadBack(calendar, args, rest, {});
      assert inner[0] == PrintArguments(args)[0];
      assert SkipBlanks(inner) == inner;
    }
  }

  lemma ExpectedReadsBack(calendar: string -> bool, expected: Expected)
    requires WellFormedExpected(calendar, expected)
    ensures ParseExpected(calendar, PrintExpected(expected)) == Ok(expected, "")
    ensures PrintExpected(expected) != "" && !IsBlank(PrintExpected(expected)[0])
  {
    var text := PrintExpected(expected);
    if expected.kind == Raises {
      var name := expected.value.value;
      assert text[|RAISES|..] == " " + name;
      SkipOneBlank(name);
      IdentifierIsAWord(name);
      WordReadsBack(name, "");
      assert name + "" == name;
    } else {
      LiteralReadsBack(calendar, expected.value, "");
      assert text + "" == text;
    }
  }

  lemma PrintedParts(example: Example)
    ensures PrintExample(example)
            == example.operation
               + ("(" + (PrintArguments(example.args)
                         + (")" + (" " + (ARROW + " " + PrintExpected(example.expected))))))
  {
    var args, outcome := PrintArguments(example.args), PrintExpected(example.expected);
    var call := example.operation + "(" + args + ")";
    var rest := " " + (ARROW + " " + outcome);
    Regroup(call + " ", ARROW, " ", outcome);
    Regroup(call, " ", ARROW + " ", outcome);
    Regroup(example.operation + "(", args, ")", rest);
    Regroup(example.operation, "(", "", args + (")" + rest));
    assert call + rest == PrintExample(example);
  }

  /** Every well-formed example is read back from its own text, to the last character. */
  lemma PrintThenParse(calendar: string -> bool, example: Example)
    requires WellFormed(calendar, example)
    ensures ParseExample(calendar, PrintExample(example)) == Ok(example.(index := 0), "")
  {
    var outcome := PrintExpected(example.expected);
    var arrow := ARROW + " " + outcome;
    var rest := " " + arrow;
    PrintedParts(example);
    CallReadsBack(calendar, example.operation, example.args, rest);
    ArrowReadsBack(outcome);
    ExpectedReadsBack(calendar, example.expected);
    SkipOneBlank(outcome);
  }

  lemma ArrowReadsBack(outcome: string)
    ensures var arrow := ARROW + " " + outcome;
            SkipBlanks(" " + arrow) == arrow && ARROW <= arrow && arrow[|ARROW|..] == " " + outcome
  {
    var arrow := ARROW + " " + outcome;
    assert arrow[0] == '=';
    SkipOneBlank(arrow);
  }

  // ----- What the parser accepts

  lemma TokenFits(calendar: string -> bool, token: string, rest: string)
    ensures ParseToken(calendar, token, rest).Ok? ==>
              var literal := ParseToken(calendar, token, rest).value;
              Fits(calendar, literal) && literal.type_ != NameType
  {
  }

  lemma LiteralFits(calendar: string -> bool, text: string)
    ensures ParseLiteral(calendar, text).Ok? ==>
              Fits(calendar, ParseLiteral(calendar, text).value) && ParseLiteral(calendar, text).value.type_ != NameType
  {
    TokenFits(calendar, text[..WordLength(text)], text[WordLength(text)..]);
  }

  lemma ArgumentFits(calendar: string -> bool, text: string)
    ensures ParseArgument(calendar, text).Ok? ==> WellFormedArgument(calendar, ParseArgument(calendar, text).value)
  {
    var name := ParseIdentifier(text);
    if name.Ok? {
      var bound := SkipBlanks(name.rest);
      if bound != "" && bound[0] == '=' {
        LiteralFits(calendar, SkipBlanks(bound[1..]));
      }
    }
  }

  lemma {:induction false} ArgumentsFit(calendar: string -> bool, text: string, seen: set<string>)
    ensures ParseArguments(calendar, text, seen).Ok? ==>
              var args := ParseArguments(calendar, text, seen).value;
              && DistinctNames(args)
              && forall argument | argument in args :: WellFormedArgument(calendar, argument) && argument.name !in seen
    decreases |text|
  {
    ArgumentFits(calendar, text);
    ParseArgumentShrinks(calendar, text);
    var argument := ParseArgument(calendar, text);
    if argument.Ok? && argument.value.name !in seen {
      var after := SkipBlanks(argument.rest);
      if after != "" && after[0] == ',' {
        ArgumentsFit(calendar, SkipBlanks(after[1..]), seen + {argument.value.name});
      }
    }
  }

  lemma CallFits(calendar: string -> bool, text: string)
    ensures ParseCall(calendar, text).Ok? ==>
              var call := ParseCall(calendar, text).value;
              && IsIdentifier(call.operation) && DistinctNames(call.args)
              && forall argument | argument in call.args :: WellFormedArgument(calendar, argument)
  {
    var open := SkipBlanks(text[OperationLength(text)..]);
    if open != "" {
      ArgumentsFit(calendar, SkipBlanks(open[1..]), {});
    }
  }

  lemma ExpectedFits(calendar: string -> bool, text: string)
    ensures ParseExpected(calendar, text).Ok? ==> WellFormedExpected(calendar, ParseExpected(calendar, text).value)
  {
    LiteralFits(calendar, text);
  }

  /** Every segment the grammar accepts is a well-formed example. */
  lemma AcceptedIsWellFormed(calendar: string -> bool, segment: string)
    requires ParseExample(calendar, segment).Ok?
    ensures WellFormed(calendar, ParseExample(calendar, segment).value)
  {
    var call := ParseCall(calendar, segment);
    CallFits(calendar, segment);
    ExpectedFits(calendar, SkipBlanks(SkipBlanks(call.rest)[|ARROW|..]));
  }

  lemma AcceptedIsWhole(calendar: string -> bool, segment: string)
    requires ParseExample(calendar, segment).Ok?
    ensures ParseExample(calendar, segment) == Ok(ParseExample(calendar, segment).value.(index := 0), "")
  {
  }

  /** Printing what was parsed is a normal form: it parses to the same example, and prints as itself. */
  lemma ParseThenPrintIsNormal(calendar: string -> bool, segment: string)
    requires ParseExample(calendar, segment).Ok?
    ensures var printed := PrintExample(ParseExample(calendar, segment).value);
            && ParseExample(calendar, printed) == ParseExample(calendar, segment)
            && PrintExample(ParseExample(calendar, printed).value) == printed
  {
    AcceptedIsWellFormed(calendar, segment);
    AcceptedIsWhole(calendar, segment);
    PrintThenParse(calendar, ParseExample(calendar, segment).value);
  }

  /** The examples the parser yields are the well-formed ones, and no others. */
  lemma ParserRangeIsWellFormed(calendar: string -> bool, example: Example)
    ensures WellFormed(calendar, example) && example.index == 0
            <==> exists segment :: ParseExample(calendar, segment) == Ok(example, "")
  {
    if WellFormed(calendar, example) && example.index == 0 {
      PrintThenParse(calendar, example);
      assert example.(index := 0) == example;
    }
    if segment :| ParseExample(calendar, segment) == Ok(example, "") {
      AcceptedIsWellFormed(calendar, segment);
    }
  }

  /** Two well-formed examples with the same text are the same example. */
  lemma PrintIsInjective(calendar: string -> bool, a: Example, b: Example)
    requires WellFormed(calendar, a) && WellFormed(calendar, b) && PrintExample(a) == PrintExample(b)
    ensures a.(index := 0) == b.(index := 0)
  {
    PrintThenParse(calendar, a);
    PrintThenParse(calendar, b);
  }
}
