/**
 The scanner of an example: a cursor that every method moves over what it reads,
 proved against the grammar, which says of any text what is read from it and what
 is left.
 */
module ExampleScanner {
  import opened ExampleGrammar

  class Scanner {
    const text: string
    var position: nat

    ghost predicate Valid()
      reads this
    {
      position <= |text|
    }

    /** What is left to read. */
    function Rest(): string
      requires Valid()
      reads this
    {
      text[position..]
    }

    constructor (text: string)
      ensures Valid() && Rest() == text
    {
      this.text := text;
      position := 0;
    }

    method SkipSpace()
      requires Valid()
      modifies this
      ensures Valid() && Rest() == SkipBlanks(old(Rest()))
    {
      while position < |text| && IsBlank(text[position])
        invariant Valid() && SkipBlanks(Rest()) == SkipBlanks(old(Rest()))
      {
        assert Rest()[1..] == text[position + 1..];
        position := position + 1;
      }
    }

    method Consume(token: string) returns (found: bool)
      requires Valid()
      modifies this
      ensures Valid() && found == (token <= old(Rest()))
      ensures Rest() == if found then old(Rest())[|token|..] else old(Rest())
    {
      found := token <= text[position..];
      if found {
        assert text[position..][|token|..] == text[position + |token|..];
        position := position + |token|;
      }
    }

    method ConsumeByte(expected: char) returns (found: bool)
      requires Valid()
      modifies this
      ensures Valid() && found == (old(Rest()) != "" && old(Rest())[0] == expected)
      ensures Rest() == if found then old(Rest())[1..] else old(Rest())
    {
      found := position < |text| && text[position] == expected;
      if found {
        assert text[position..][1..] == text[position + 1..];
        position := position + 1;
      }
    }

    /** Takes the characters before the first terminator and leaves the cursor on it. */
    method Word() returns (word: string)
      requires Valid()
      modifies this
      ensures Valid()
      ensures word == old(Rest())[..WordLength(old(Rest()))] && Rest() == old(Rest())[WordLength(old(Rest()))..]
    {
      var start := position;
      while position < |text| && !EndsWord(text[position])
        invariant start <= position <= |text|
        invariant WordLength(text[start..]) == position - start + WordLength(text[position..])
      {
        assert text[position..][1..] == text[position + 1..];
        position := position + 1;
      }
      word := text[start..position];
      assert text[start..][..position - start] == word && text[start..][position - start..] == text[position..];
    }

    method Identifier() returns (name: Parsed<string>)
      requires Valid()
      modifies this
      ensures Valid() && Agrees(this, name, ParseIdentifier(old(Rest())))
    {
      var word := Word();
      name := if IsIdentifier(word) then Ok(word, Rest()) else Err(NoName);
    }

    method Quoted() returns (value: Parsed<string>)
      requires Valid()
      modifies this
      ensures Valid() && Agrees(this, value, ParseQuoted(old(Rest())))
    {
      var read := "";
      assert forall parsed: Parsed<string> | parsed.Ok? :: "" + parsed.value == parsed.value;
      while position < |text|
        invariant Valid()
        invariant Prepend(read, ParseQuoted(Rest())) == ParseQuoted(old(Rest()))
        decreases |text| - position
      {
        var character := text[position];
        assert Rest()[1..] == text[position + 1..];
        position := position + 1;
        if character == '"' {
          assert read + "" == read;
          return Ok(read, Rest());
        } else if character == '\\' {
          if position >= |text| {
            return Err(LoneBackslash);
          }
          var decoded := Decoded(text[position]);
          if decoded.None? {
            return Err(UnknownEscape);
          }
          assert text[position - 1..][2..] == text[position + 1..];
          position := position + 1;
          PrependTwice(read, [decoded.value], ParseQuoted(Rest()));
          read := read + [decoded.value];
        } else {
          PrependTwice(read, [character], ParseQuoted(Rest()));
          read := read + [character];
        }
      }
      value := Err(Unclosed);
    }

    method ReadLiteral(calendar: string -> bool) returns (literal: Parsed<Literal>)
      requires Valid()
      modifies this
      ensures Valid() && Agrees(this, literal, ParseLiteral(calendar, old(Rest())))
    {
      var quoted := ConsumeByte('"');
      if quoted {
        var value := Quoted();
        return if value.Ok? then Ok(Literal(StringType, value.value), Rest()) else Err(value.reason);
      }
      var token := Word();
      if token == "" {
        return Err(NoValue);
      } else if token == "true" || token == "false" {
        return Ok(Literal(BooleanType, token), Rest());
      } else if token == "null" {
        return Ok(Literal(NullType, token), Rest());
      } else if IsInteger(token) {
        return Ok(Literal(IntegerType, token), Rest());
      } else if IsDecimal(token) {
        return Ok(Literal(DecimalType, token), Rest());
      } else if HasDatetimeShape(token) {
        return if calendar(token) then Ok(Literal(DatetimeType, token), Rest()) else Err(BadDatetime);
      }
      return Err(BadToken);
    }

    method ReadArgument(calendar: string -> bool) returns (argument: Parsed<Argument>)
      requires Valid()
      modifies this
      ensures Valid() && Agrees(this, argument, ParseArgument(calendar, old(Rest())))
    {
      var name := Identifier();
      if name.Err? {
        return Err(name.reason);
      }
      SkipSpace();
      var bound := ConsumeByte('=');
      if !bound {
        return Err(NoBinding);
      }
      SkipSpace();
      var value := ReadLiteral(calendar);
      return if value.Ok? then Ok(Argument(name.value, value.value), Rest()) else Err(value.reason);
    }

    method OperationName() returns (operation: string)
      requires Valid()
      modifies this
      ensures Valid()
      ensures operation == old(Rest())[..OperationLength(old(Rest()))]
              && Rest() == old(Rest())[OperationLength(old(Rest()))..]
    {
      var start := position;
      while position < |text| && text[position] != '(' && !IsBlank(text[position])
        invariant start <= position <= |text|
        invariant OperationLength(text[start..]) == position - start + OperationLength(text[position..])
      {
        assert text[position..][1..] == text[position + 1..];
        position := position + 1;
      }
      operation := text[start..position];
      assert text[start..][..position - start] == operation && text[start..][position - start..] == text[position..];
    }

    method ReadCall(calendar: string -> bool) returns (call: Parsed<Call>)
      requires Valid()
      modifies this
      ensures Valid() && Agrees(this, call, ParseCall(calendar, old(Rest())))
    {
      var operation := OperationName();
      if !IsIdentifier(operation) {
        return Err(NoOperation);
      }
      SkipSpace();
      var open := ConsumeByte('(');
      if !open {
        return Err(NoOpenParenthesis);
      }
      SkipSpace();
      var closed := ConsumeByte(')');
      if closed {
        return Ok(Call(operation, []), Rest());
      }
      var args := ReadArguments(calendar);
      return if args.Ok? then Ok(Call(operation, args.value), Rest()) else Err(args.reason);
    }

    /** The loop over the arguments: each name once, up to the closing parenthesis. */
    method ReadArguments(calendar: string -> bool) returns (args: Parsed<seq<Argument>>)
      requires Valid()
      modifies this
      ensures Valid() && Agrees(this, args, ParseArguments(calendar, old(Rest()), {}))
    {
      var seen: set<string> := {};
      var read: seq<Argument> := [];
      ghost var whole := ParseArguments(calendar, Rest(), {});
      assert whole.Ok? ==> [] + whole.value == whole.value;
      while true
        invariant Valid()
        invariant After(read, ParseArguments(calendar, Rest(), seen)) == whole
        decreases |Rest()|
      {
        ghost var before := Rest();
        ParseArgumentShrinks(calendar, before);
        var argument := ReadArgument(calendar);
        if argument.Err? {
          return Err(argument.reason);
        }
        if argument.value.name in seen {
          return Err(GivenTwice);
        }
        SkipSpace();
        var closed := ConsumeByte(')');
        if closed {
          return Ok(read + [argument.value], Rest());
        }
        var more := ConsumeByte(',');
        if !more {
          return Err(NoSeparator);
        }
        SkipSpace();
        AfterTwice(read, argument.value, ParseArguments(calendar, Rest(), seen + {argument.value.name}));
        seen := seen + {argument.value.name};
        read := read + [argument.value];
      }
    }

    method Outcome(calendar: string -> bool) returns (expected: Parsed<Expected>)
      requires Valid()
      modifies this
      ensures Valid() && Agrees(this, expected, ParseExpected(calendar, old(Rest())))
    {
      if SaysRaises(text[position..]) {
        assert text[position..][|RAISES|..] == text[position + |RAISES|..];
        position := position + |RAISES|;
        SkipSpace();
        var name := Identifier();
        return if name.Ok? then Ok(Expected(Raises, Literal(NameType, name.value)), Rest()) else Err(name.reason);
      }
      var value := ReadLiteral(calendar);
      return if value.Ok? then Ok(Expected(Returns, value.value), Rest()) else Err(value.reason);
    }
  }

  /** The scanner read what the grammar reads, and stands where the grammar stands. */
  ghost predicate Agrees<T(!new)>(scanner: Scanner, read: Parsed<T>, specified: Parsed<T>)
    requires scanner.Valid()
    reads scanner
  {
    read == specified && (read.Ok? ==> scanner.Rest() == read.rest)
  }

  lemma PrependTwice(read: string, more: string, parsed: Parsed<string>)
    ensures Prepend(read + more, parsed) == Prepend(read, Prepend(more, parsed))
  {
    if parsed.Ok? {
      assert read + more + parsed.value == read + (more + parsed.value);
    }
  }

  /** The arguments read so far, before those the grammar still reads. */
  function After(read: seq<Argument>, parsed: Parsed<seq<Argument>>): Parsed<seq<Argument>> {
    if parsed.Ok? then Ok(read + parsed.value, parsed.rest) else parsed
  }

  lemma AfterTwice(read: seq<Argument>, argument: Argument, parsed: Parsed<seq<Argument>>)
    ensures After(read + [argument], parsed) == After(read, After([argument], parsed))
  {
    if parsed.Ok? {
      assert read + [argument] + parsed.value == read + ([argument] + parsed.value);
    }
  }

  method ScanExample(calendar: string -> bool, segment: string) returns (example: Parsed<Example>)
    ensures example == ParseExample(calendar, segment)
  {
    if segment == "" {
      return Err(EmptyExample);
    }
    var scanner := new Scanner(segment);
    var call := scanner.ReadCall(calendar);
    if call.Err? {
      return Err(call.reason);
    }
    scanner.SkipSpace();
    var arrow := scanner.Consume(ARROW);
    if !arrow {
      return Err(NoArrow);
    }
    scanner.SkipSpace();
    var expected := scanner.Outcome(calendar);
    if expected.Err? {
      return Err(expected.reason);
    }
    scanner.SkipSpace();
    if scanner.position < |scanner.text| {
      assert scanner.Rest() != "";
      return Err(TextAfterOutcome);
    }
    return Ok(Example(0, call.value.operation, call.value.args, expected.value), "");
  }

  /** Builds the text of a literal in a loop, quoting and escaping where it is a string. */
  method WriteLiteral(literal: Literal) returns (text: string)
    ensures text == PrintLiteral(literal)
  {
    if literal.type_ != StringType {
      return literal.value;
    }
    text := "\"";
    for index := 0 to |literal.value|
      invariant text + EncodedText(literal.value[index..]) == "\"" + EncodedText(literal.value)
    {
      assert literal.value[index..][1..] == literal.value[index + 1..];
      ghost var tail := EncodedText(literal.value[index + 1..]);
      assert text + (Encoded(literal.value[index]) + tail) == text + Encoded(literal.value[index]) + tail;
      text := text + Encoded(literal.value[index]);
    }
    assert literal.value[|literal.value|..] == "";
    assert text == "\"" + EncodedText(literal.value);
    text := text + "\"";
  }
}
