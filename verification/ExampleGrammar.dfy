/**
 Inline examples of a statement: their grammar as functions on what is left of
 the text, and how an example is written back. The calendar check of a datetime
 is a parameter: the grammar only needs it to depend on the token.
 */
module ExampleGrammar {
  import opened Wrappers

  datatype LiteralType = DatetimeType | DecimalType | IntegerType | BooleanType | NullType | StringType | NameType

  /**
   The text of a value: for a string what stands between its quotes,
   decoded, and for any other type the word itself.
   */
  datatype Literal = Literal(type_: LiteralType, value: string)

  datatype Argument = Argument(name: string, value: Literal)

  datatype OutcomeKind = Returns | Raises

  datatype Expected = Expected(kind: OutcomeKind, value: Literal)

  datatype Example = Example(index: int, operation: string, args: seq<Argument>, expected: Expected)

  datatype Reason =
    | EmptyExample
    | NoOperation
    | NoOpenParenthesis
    | NoName
    | NoBinding
    | NoSeparator
    | GivenTwice
    | NoArrow
    | NoValue
    | BadDatetime
    | BadToken
    | Unclosed
    | LoneBackslash
    | UnknownEscape
    | TextAfterOutcome

  /** What a piece of the grammar read and what it left, or why it could not. */
  datatype Parsed<+T> = Ok(value: T, rest: string) | Err(reason: Reason)

  // ----- Characters and words

  predicate IsBlank(c: char) {
    c == ' ' || c == '\t'
  }

  /** A word ends at a blank, a comma, a closing parenthesis or an equal sign. */
  predicate EndsWord(c: char) {
    IsBlank(c) || c == ',' || c == ')' || c == '='
  }

  predicate IsDigit(c: char) {
    '0' <= c <= '9'
  }

  predicate StartsIdentifier(c: char) {
    'A' <= c <= 'Z' || 'a' <= c <= 'z' || c == '_'
  }

  predicate IsIdentifier(text: string) {
    text != "" && StartsIdentifier(text[0]) && forall c | c in text :: StartsIdentifier(c) || IsDigit(c)
  }

  predicate AllDigits(text: string) {
    text != "" && forall c | c in text :: IsDigit(c)
  }

  function Unsigned(text: string): string {
    if text != "" && text[0] == '-' then text[1..] else text
  }

  predicate IsInteger(text: string) {
    AllDigits(Unsigned(text))
  }

  predicate IsDecimal(text: string) {
    var body := Unsigned(text);
    exists i | 0 < i < |body| :: body[i] == '.' && AllDigits(body[..i]) && AllDigits(body[i + 1..])
  }

  function DropDigits(text: string): string {
    if text != "" && IsDigit(text[0]) then DropDigits(text[1..]) else text
  }

  predicate IsZone(text: string) {
    || text == "" || text == "Z"
    || (|text| == 6 && text[0] in "+-" && AllDigits(text[1..3]) && text[3] == ':' && AllDigits(text[4..]))
  }

  /** What may follow the minutes: seconds, their fraction and a zone, all optional. */
  predicate IsSecondsAndZone(text: string) {
    if |text| >= 3 && text[0] == ':' && AllDigits(text[1..3]) then
      var after := text[3..];
      if |after| >= 2 && after[0] == '.' && IsDigit(after[1]) then IsZone(DropDigits(after[1..])) else IsZone(after)
    else IsZone(text)
  }

  /** The shape YYYY-MM-DDThh:mm of an ISO-8601 datetime, with what may follow it. */
  predicate HasDatetimeShape(text: string) {
    && |text| >= 16
    && AllDigits(text[..4]) && text[4] == '-' && AllDigits(text[5..7]) && text[7] == '-' && AllDigits(text[8..10])
    && text[10] == 'T' && AllDigits(text[11..13]) && text[13] == ':' && AllDigits(text[14..16])
    && IsSecondsAndZone(text[16..])
  }

  function SkipBlanks(text: string): (rest: string)
    ensures |rest| <= |text|
    ensures rest != "" ==> !IsBlank(rest[0])
  {
    if text != "" && IsBlank(text[0]) then SkipBlanks(text[1..]) else text
  }

  function WordLength(text: string): (length: nat)
    ensures length <= |text|
  {
    if text == "" || EndsWord(text[0]) then 0 else 1 + WordLength(text[1..])
  }

  function OperationLength(text: string): (length: nat)
    ensures length <= |text|
  {
    if text == "" || text[0] == '(' || IsBlank(text[0]) then 0 else 1 + OperationLength(text[1..])
  }

  // ----- Values

  function Decoded(c: char): Option<char> {
    if c == '"' then Some('"')
    else if c == '\\' then Some('\\')
    else if c == 'n' then Some('\n')
    else if c == 't' then Some('\t')
    else None
  }

  function Prepend(text: string, parsed: Parsed<string>): Parsed<string> {
    if parsed.Ok? then Ok(text + parsed.value, parsed.rest) else parsed
  }

  /** The rest of a quoted string, after its opening quote. */
  function ParseQuoted(text: string): Parsed<string> {
    if text == "" then Err(Unclosed)
    else if text[0] == '"' then Ok("", text[1..])
    else if text[0] == '\\' then
      if |text| == 1 then Err(LoneBackslash)
      else if Decoded(text[1]).None? then Err(UnknownEscape)
      else Prepend([Decoded(text[1]).value], ParseQuoted(text[2..]))
    else Prepend([text[0]], ParseQuoted(text[1..]))
  }

  /** The value a bare word stands for. */
  function ParseToken(calendar: string -> bool, token: string, rest: string): Parsed<Literal> {
    if token == "" then Err(NoValue)
    else if token == "true" || token == "false" then Ok(Literal(BooleanType, token), rest)
    else if token == "null" then Ok(Literal(NullType, token), rest)
    else if IsInteger(token) then Ok(Literal(IntegerType, token), rest)
    else if IsDecimal(token) then Ok(Literal(DecimalType, token), rest)
    else if HasDatetimeShape(token) then
      if calendar(token) then Ok(Literal(DatetimeType, token), rest) else Err(BadDatetime)
    else Err(BadToken)
  }

  function ParseLiteral(calendar: string -> bool, text: string): Parsed<Literal> {
    if text != "" && text[0] == '"' then
      var quoted := ParseQuoted(text[1..]);
      if quoted.Ok? then Ok(Literal(StringType, quoted.value), quoted.rest) else Err(quoted.reason)
    else ParseToken(calendar, text[..WordLength(text)], text[WordLength(text)..])
  }

  // ----- Calls and outcomes

  function ParseIdentifier(text: string): Parsed<string> {
    var word := text[..WordLength(text)];
    if IsIdentifier(word) then Ok(word, text[WordLength(text)..]) else Err(NoName)
  }

  function ParseArgument(calendar: string -> bool, text: string): Parsed<Argument> {
    var name := ParseIdentifier(text);
    if name.Err? then Err(name.reason) else
    var bound := SkipBlanks(name.rest);
    if bound == "" || bound[0] != '=' then Err(NoBinding) else
    var value := ParseLiteral(calendar, SkipBlanks(bound[1..]));
    if value.Ok? then Ok(Argument(name.value, value.value), value.rest) else Err(value.reason)
  }

  lemma {:induction false} ParseQuotedShrinks(text: string)
    ensures ParseQuoted(text).Ok? ==> |ParseQuoted(text).rest| < |text|
    decreases |text|
  {
    if text != "" && text[0] == '\\' && |text| > 1 {
      ParseQuotedShrinks(text[2..]);
    } else if text != "" {
      ParseQuotedShrinks(text[1..]);
    }
  }

  lemma ParseArgumentShrinks(calendar: string -> bool, text: string)
    ensures ParseArgument(calendar, text).Ok? ==> |ParseArgument(calendar, text).rest| < |text|
  {
    var name := ParseIdentifier(text);
    if name.Ok? {
      var bound := SkipBlanks(name.rest);
      if bound != "" && bound[0] == '=' {
        var value := SkipBlanks(bound[1..]);
        if value != "" {
          ParseQuotedShrinks(value[1..]);
        }
      }
    }
  }

  /** The arguments from the next one up to the closing parenthesis; seen are the names before them. */
  function ParseArguments(calendar: string -> bool, text: string, seen: set<string>): Parsed<seq<Argument>>
    decreases |text|
  {
    var argument := ParseArgument(calendar, text);
    if argument.Err? then Err(argument.reason)
    else if argument.value.name in seen then Err(GivenTwice)
    else
      ParseArgumentShrinks(calendar, text);
      var after := SkipBlanks(argument.rest);
      if after != "" && after[0] == ')' then Ok([argument.value], after[1..])
      else if after == "" || after[0] != ',' then Err(NoSeparator)
      else
        var more := ParseArguments(calendar, SkipBlanks(after[1..]), seen + {argument.value.name});
        if more.Ok? then Ok([argument.value] + more.value, more.rest) else more
  }

  datatype Call = Call(operation: string, args: seq<Argument>)

  function ParseCall(calendar: string -> bool, text: string): Parsed<Call> {
    var length := OperationLength(text);
    var operation := text[..length];
    if !IsIdentifier(operation) then Err(NoOperation) else
    var open := SkipBlanks(text[length..]);
    if open == "" || open[0] != '(' then Err(NoOpenParenthesis) else
    var first := SkipBlanks(open[1..]);
    if first != "" && first[0] == ')' then Ok(Call(operation, []), first[1..]) else
    var args := ParseArguments(calendar, first, {});
    if args.Ok? then Ok(Call(operation, args.value), args.rest) else Err(args.reason)
  }

  const RAISES := "raises"
  const ARROW := "=>"

  predicate SaysRaises(text: string) {
    RAISES <= text && (|text| == |RAISES| || IsBlank(text[|RAISES|]))
  }

  function ParseExpected(calendar: string -> bool, text: string): Parsed<Expected> {
    if SaysRaises(text) then
      var name := ParseIdentifier(SkipBlanks(text[|RAISES|..]));
      if name.Ok? then Ok(Expected(Raises, Literal(NameType, name.value)), name.rest) else Err(name.reason)
    else
      var value := ParseLiteral(calendar, text);
      if value.Ok? then Ok(Expected(Returns, value.value), value.rest) else Err(value.reason)
  }

  /** A whole segment is an example, or is not one for a reason. */
  function ParseExample(calendar: string -> bool, segment: string): Parsed<Example> {
    if segment == "" then Err(EmptyExample) else
    var call := ParseCall(calendar, segment);
    if call.Err? then Err(call.reason) else
    var arrow := SkipBlanks(call.rest);
    if !(ARROW <= arrow) then Err(NoArrow) else
    var expected := ParseExpected(calendar, SkipBlanks(arrow[|ARROW|..]));
    if expected.Err? then Err(expected.reason)
    else if SkipBlanks(expected.rest) != "" then Err(TextAfterOutcome)
    else Ok(Example(0, call.value.operation, call.value.args, expected.value), "")
  }

  // ----- Writing back

  function Encoded(c: char): string {
    if c == '"' then "\\\""
    else if c == '\\' then "\\\\"
    else if c == '\n' then "\\n"
    else if c == '\t' then "\\t"
    else [c]
  }

  function EncodedText(text: string): string {
    if text == "" then "" else Encoded(text[0]) + EncodedText(text[1..])
  }

  function PrintLiteral(literal: Literal): string {
    if literal.type_ == StringType then "\"" + EncodedText(literal.value) + "\"" else literal.value
  }

  function PrintArgument(argument: Argument): string {
    argument.name + "=" + PrintLiteral(argument.value)
  }

  /** The arguments joined by commas. */
  function PrintArguments(args: seq<Argument>): string {
    if args == [] then ""
    else if |args| == 1 then PrintArgument(args[0])
    else PrintArgument(args[0]) + ", " + PrintArguments(args[1..])
  }

  function PrintExpected(expected: Expected): string {
    if expected.kind == Raises then RAISES + " " + expected.value.value else PrintLiteral(expected.value)
  }

  function PrintExample(example: Example): string {
    example.operation + "(" + PrintArguments(example.args) + ")" + " " + ARROW + " " + PrintExpected(example.expected)
  }

  // ----- What an example may hold

  /** The text of the value has the form of its type. */
  predicate Fits(calendar: string -> bool, literal: Literal) {
    match literal.type_
    case DatetimeType => HasDatetimeShape(literal.value) && calendar(literal.value)
    case DecimalType => IsDecimal(literal.value)
    case IntegerType => IsInteger(literal.value)
    case BooleanType => literal.value == "true" || literal.value == "false"
    case NullType => literal.value == "null"
    case StringType => true
    case NameType => IsIdentifier(literal.value)
  }

  predicate WellFormedArgument(calendar: string -> bool, argument: Argument) {
    IsIdentifier(argument.name) && Fits(calendar, argument.value) && argument.value.type_ != NameType
  }

  predicate DistinctNames(args: seq<Argument>) {
    forall i, j | 0 <= i < j < |args| :: args[i].name != args[j].name
  }

  predicate WellFormedExpected(calendar: string -> bool, expected: Expected) {
    Fits(calendar, expected.value) && (expected.kind == Raises <==> expected.value.type_ == NameType)
  }

  predicate WellFormed(calendar: string -> bool, example: Example) {
    && IsIdentifier(example.operation)
    && (forall argument | argument in example.args :: WellFormedArgument(calendar, argument))
    && DistinctNames(example.args)
    && WellFormedExpected(calendar, example.expected)
  }
}
