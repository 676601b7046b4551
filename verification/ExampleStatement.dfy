/** The examples of a statement: the text split at its markers, each segment an example or a malformed one. */
module ExampleStatement {
  import opened ExampleGrammar
  import opened ExampleLaws
  import opened ExampleScanner
  import opened Ordering
  import opened Spaces

  const MARKER := "Example:"

  datatype Malformed = Malformed(index: int, text: string, reason: Reason)

  datatype ExampleSet = ExampleSet(prose: string, examples: seq<Example>, malformed: seq<Malformed>)

  /** A marker with the white space and the list bullet before it. */
  datatype Span = Span(start: nat, end: nat)

  // ----- Markers

  /** White space as the marker pattern reads it. */
  predicate PatternSpace(c: char) {
    c == ' ' || c == '\t' || c == '\n' || c == '\r' || c == '\U{000C}'
  }

  function DropSpaces(text: string): (rest: string)
    ensures |rest| <= |text|
  {
    if text != "" && PatternSpace(text[0]) then DropSpaces(text[1..]) else text
  }

  predicate StartsWithBullet(text: string) {
    |text| >= 2 && text[0] in "-*+" && PatternSpace(text[1])
  }

  function WithoutBullet(text: string): (rest: string)
    ensures |rest| <= |text|
  {
    if StartsWithBullet(text) then DropSpaces(text[1..]) else text
  }

  /** The text starts with a marker, after a bullet or not. */
  predicate StartsWithMarker(text: string) {
    MARKER <= WithoutBullet(text)
  }

  function MarkerLength(text: string): (length: nat)
    requires StartsWithMarker(text)
    ensures 0 < length <= |text|
  {
    |text| - |WithoutBullet(text)| + |MARKER|
  }

  /** A marker stands behind the white space at the index. */
  predicate MarkerBehind(text: string, k: nat) {
    k < |text| && PatternSpace(text[k]) && StartsWithMarker(text[k + 1..])
  }

  /** The first index at or after from with a marker behind it, or the length of the text. */
  function NextMarker(text: string, from: nat): (next: nat)
    requires from <= |text|
    ensures from <= next <= |text| && (next < |text| ==> MarkerBehind(text, next))
    ensures forall k | from <= k < next :: !MarkerBehind(text, k)
    decreases |text| - from
  {
    if from == |text| || MarkerBehind(text, from) then from else NextMarker(text, from + 1)
  }

  function LaterMarkers(text: string, from: nat): (spans: seq<Span>)
    requires from <= |text|
    ensures forall i | 0 <= i < |spans| :: from <= spans[i].start < spans[i].end <= |text|
    ensures forall i, j | 0 <= i < j < |spans| :: spans[i].end <= spans[j].start
    decreases |text| - from
  {
    var next := NextMarker(text, from);
    if next == |text| then []
    else
      var end := next + 1 + MarkerLength(text[next + 1..]);
      [Span(next, end)] + LaterMarkers(text, end)
  }

  /** The markers of a statement: at its start or after white space, from left to right. */
  function Markers(text: string): (spans: seq<Span>)
    ensures forall i | 0 <= i < |spans| :: spans[i].start < spans[i].end <= |text|
    ensures forall i, j | 0 <= i < j < |spans| :: spans[i].end <= spans[j].start
  {
    if StartsWithMarker(text) then [Span(0, MarkerLength(text))] + LaterMarkers(text, MarkerLength(text))
    else LaterMarkers(text, 0)
  }

  // ----- Segments

  /** The markers stand in the text one behind the other. */
  predicate StandIn(spans: seq<Span>, text: string) {
    && (forall i | 0 <= i < |spans| :: spans[i].start < spans[i].end <= |text|)
    && forall i, j | 0 <= i < j < |spans| :: spans[i].end <= spans[j].start
  }

  function SegmentAt(text: string, spans: seq<Span>, i: nat): string
    requires StandIn(spans, text) && i < |spans|
  {
    Trim(text[spans[i].end..if i + 1 < |spans| then spans[i + 1].start else |text|])
  }

  /** What stands between each marker and the next one. */
  function Segments(text: string): (segments: seq<string>)
    ensures |segments| == |Markers(text)|
    ensures forall i | 0 <= i < |segments| :: segments[i] == SegmentAt(text, Markers(text), i)
  {
    var spans := Markers(text);
    seq(|spans|, i requires 0 <= i < |spans| => SegmentAt(text, spans, i))
  }

  function ExamplesIn(calendar: string -> bool, segments: seq<string>): seq<Example> {
    if segments == [] then []
    else
      var parsed := ParseExample(calendar, segments[|segments| - 1]);
      ExamplesIn(calendar, segments[..|segments| - 1]) + if parsed.Ok? then [parsed.value.(index := |segments|)] else []
  }

  function MalformedIn(calendar: string -> bool, segments: seq<string>): seq<Malformed> {
    if segments == [] then []
    else
      var segment := segments[|segments| - 1];
      var parsed := ParseExample(calendar, segment);
      MalformedIn(calendar, segments[..|segments| - 1])
      + if parsed.Err? then [Malformed(|segments|, segment, parsed.reason)] else []
  }

  function ExamplesOf(calendar: string -> bool, text: string): ExampleSet {
    var spans := Markers(text);
    ExampleSet(Trim(if spans == [] then text else text[..spans[0].start]),
               ExamplesIn(calendar, Segments(text)), MalformedIn(calendar, Segments(text)))
  }

  lemma OneMoreSegment(calendar: string -> bool, earlier: seq<string>, segment: string)
    ensures var parsed, longer := ParseExample(calendar, segment), earlier + [segment];
            && ExamplesIn(calendar, longer)
               == ExamplesIn(calendar, earlier) + (if parsed.Ok? then [parsed.value.(index := |earlier| + 1)] else [])
            && MalformedIn(calendar, longer)
               == MalformedIn(calendar, earlier)
                  + (if parsed.Err? then [Malformed(|earlier| + 1, segment, parsed.reason)] else [])
  {
    var longer := earlier + [segment];
    assert longer[..|longer| - 1] == earlier;
  }

  /** Scans one segment: it adds an example, or a malformed one. */
  method AddSegment(calendar: string -> bool, before: ExampleSet, segment: string, index: int)
    returns (found: ExampleSet)
    ensures var parsed := ParseExample(calendar, segment);
            found == before.(examples := before.examples
                             + (if parsed.Ok? then [parsed.value.(index := index)] else []),
                             malformed := before.malformed
                             + (if parsed.Err? then [Malformed(index, segment, parsed.reason)] else []))
  {
    var example := ScanExample(calendar, segment);
    if example.Err? {
      return before.(malformed := before.malformed + [Malformed(index, segment, example.reason)]);
    }
    return before.(examples := before.examples + [example.value.(index := index)]);
  }

  /** Splits a statement at each marker and scans every segment. */
  method ParseExamples(calendar: string -> bool, statement: string) returns (found: ExampleSet)
    ensures found == ExamplesOf(calendar, statement)
  {
    var spans := Markers(statement);
    if |spans| == 0 {
      return ExampleSet(Trim(statement), [], []);
    }
    var prose := Trim(statement[..spans[0].start]);
    ghost var segments := Segments(statement);
    found := ExampleSet(prose, [], []);
    for position := 0 to |spans|
      invariant found == ExampleSet(prose, ExamplesIn(calendar, segments[..position]),
                                    MalformedIn(calendar, segments[..position]))
    {
      var end := |statement|;
      if position + 1 < |spans| {
        end := spans[position + 1].start;
      }
      var segment := Trim(statement[spans[position].end..end]);
      assert segments[position] == segment;
      TakeOneMore(segments, position);
      OneMoreSegment(calendar, segments[..position], segment);
      found := AddSegment(calendar, found, segment, position + 1);
    }
    assert segments[..|spans|] == segments;
  }

  // ----- Every segment counts once

  predicate HasExample(examples: seq<Example>, index: int) {
    exists example | example in examples :: example.index == index
  }

  predicate HasMalformed(malformed: seq<Malformed>, index: int) {
    exists one | one in malformed :: one.index == index
  }

  lemma OneMoreExample(examples: seq<Example>, added: Example, index: int)
    ensures HasExample(examples + [added], index) <==> HasExample(examples, index) || added.index == index
  {
    assert forall example :: example in examples + [added] <==> example in examples || example == added;
  }

  lemma OneMoreMalformed(malformed: seq<Malformed>, added: Malformed, index: int)
    ensures HasMalformed(malformed + [added], index) <==> HasMalformed(malformed, index) || added.index == index
  {
    assert forall one :: one in malformed + [added] <==> one in malformed || one == added;
  }

  lemma {:induction false} SegmentsAreCounted(calendar: string -> bool, segments: seq<string>)
    ensures |ExamplesIn(calendar, segments)| + |MalformedIn(calendar, segments)| == |segments|
  {
    if segments != [] {
      SegmentsAreCounted(calendar, segments[..|segments| - 1]);
    }
  }

  lemma {:induction false} ExampleIndexes(calendar: string -> bool, segments: seq<string>, index: int)
    ensures HasExample(ExamplesIn(calendar, segments), index)
            <==> 1 <= index <= |segments| && ParseExample(calendar, segments[index - 1]).Ok?
  {
    if segments != [] {
      var earlier := segments[..|segments| - 1];
      ExampleIndexes(calendar, earlier, index);
      var parsed := ParseExample(calendar, segments[|segments| - 1]);
      if parsed.Ok? {
        OneMoreExample(ExamplesIn(calendar, earlier), parsed.value.(index := |segments|), index);
      }
    }
  }

  lemma {:induction false} MalformedIndexes(calendar: string -> bool, segments: seq<string>, index: int)
    ensures HasMalformed(MalformedIn(calendar, segments), index)
            <==> 1 <= index <= |segments| && ParseExample(calendar, segments[index - 1]).Err?
  {
    if segments != [] {
      var earlier, segment := segments[..|segments| - 1], segments[|segments| - 1];
      MalformedIndexes(calendar, earlier, index);
      var parsed := ParseExample(calendar, segment);
      if parsed.Err? {
        OneMoreMalformed(MalformedIn(calendar, earlier), Malformed(|segments|, segment, parsed.reason), index);
      }
    }
  }

  /** Each marker is the marker of one example or of one malformed example, which carries its number. */
  lemma EveryMarkerCounts(calendar: string -> bool, text: string, index: int)
    ensures var found, markers := ExamplesOf(calendar, text), |Markers(text)|;
            && |found.examples| + |found.malformed| == markers
            && (HasExample(found.examples, index) || HasMalformed(found.malformed, index) <==> 1 <= index <= markers)
            && !(HasExample(found.examples, index) && HasMalformed(found.malformed, index))
  {
    SegmentsAreCounted(calendar, Segments(text));
    ExampleIndexes(calendar, Segments(text), index);
    MalformedIndexes(calendar, Segments(text), index);
  }

  // ----- A printed example in a statement

  /** A marker stands somewhere inside the text. */
  predicate HoldsMarker(text: string) {
    exists k | 0 <= k < |text| :: MarkerBehind(text, k)
  }

  /** How an example is written into a statement. */
  function Written(example: Example): string {
    MARKER + " " + PrintExample(example)
  }

  lemma MarkersShift(before: string, text: string, k: nat)
    requires |before| <= k
    ensures MarkerBehind(before + text, k) <==> MarkerBehind(text, k - |before|)
  {
    var all := before + text;
    if k < |all| {
      assert all[k] == text[k - |before|] && all[k + 1..] == text[k - |before| + 1..];
    }
  }

  /** The text of a well-formed example starts with an identifier and ends with no white space. */
  lemma PrintedEnds(calendar: string -> bool, example: Example)
    requires WellFormed(calendar, example)
    ensures var text := PrintExample(example);
            text != "" && StartsIdentifier(text[0]) && !IsSpace(text[0]) && !IsSpace(text[|text| - 1])
            && !StartsWithMarker(text)
  {
    var text, outcome := PrintExample(example), PrintExpected(example.expected);
    PrintedParts(example);
    OutcomeEnds(calendar, example.expected);
    assert text[0] == example.operation[0];
    assert text[|text| - 1] == outcome[|outcome| - 1];
    OperationIsNoMarker(example.operation, text);
  }

  lemma OperationIsNoMarker(operation: string, text: string)
    requires IsIdentifier(operation) && operation + "(" <= text
    ensures !StartsWithMarker(text)
  {
    var n := |operation|;
    assert text[..n] == operation && text[n] == '(';
    assert text[0] == operation[0];
    var i := if n < |MARKER| then n else 7;
    assert n >= |MARKER| ==> operation[i] in operation && text[i] == operation[i];
    assert text[i] != MARKER[i];
  }

  lemma IdentifierIsSolid(name: string)
    requires IsIdentifier(name)
    ensures !IsSpace(name[|name| - 1])
  {
    assert name[|name| - 1] in name;
  }

  lemma OutcomeEnds(calendar: string -> bool, expected: Expected)
    requires WellFormedExpected(calendar, expected)
    ensures var text := PrintExpected(expected); text != "" && !IsSpace(text[|text| - 1])
  {
    var value, text := expected.value, PrintExpected(expected);
    if expected.kind == Raises {
      IdentifierIsSolid(value.value);
      assert text[|text| - 1] == value.value[|value.value| - 1];
    } else if value.type_ != StringType {
      TokenEnds(calendar, value);
    }
  }

  lemma TokenEnds(calendar: string -> bool, literal: Literal)
    requires Fits(calendar, literal) && literal.type_ != StringType && literal.type_ != NameType
    ensures literal.value != "" && !IsSpace(literal.value[|literal.value| - 1])
  {
    var text := literal.value;
    match literal.type_ {
      case DatetimeType => DatetimeCharacters(text);
      case DecimalType => DecimalCharacters(text);
      case IntegerType => IntegerCharacters(text);
      case _ =>
    }
    assert text[|text| - 1] in text;
  }

  lemma MarkerFirst(rest: string)
    ensures StartsWithMarker(MARKER + rest) && MarkerLength(MARKER + rest) == |MARKER|
  {
    assert (MARKER + rest)[0] == 'E';
  }

  /** Behind the first marker come the markers inside the text, if it does not itself start with one. */
  lemma MarkersInside(head: string, text: string, from: nat)
    requires from == |head| - 1 && !StartsWithMarker(text)
    ensures LaterMarkers(head + text, from) == [] <==> !HoldsMarker(text)
  {
    var all := head + text;
    assert all[from + 1..] == text;
    assert !MarkerBehind(all, from);
    if HoldsMarker(text) {
      var k :| 0 <= k < |text| && MarkerBehind(text, k);
      MarkersShift(head, text, |head| + k);
    } else if NextMarker(all, from) < |all| {
      MarkersShift(head, text, NextMarker(all, from));
    }
  }

  lemma WrittenMarkers(calendar: string -> bool, example: Example)
    requires WellFormed(calendar, example)
    ensures Markers(Written(example)) == [Span(0, |MARKER|)] + LaterMarkers(Written(example), |MARKER|)
    ensures LaterMarkers(Written(example), |MARKER|) == [] <==> !HoldsMarker(PrintExample(example))
  {
    PrintedEnds(calendar, example);
    MarkersOf(PrintExample(example));
  }

  lemma MarkersOf(text: string)
    requires !StartsWithMarker(text)
    ensures var all := MARKER + " " + text;
            && Markers(all) == [Span(0, |MARKER|)] + LaterMarkers(all, |MARKER|)
            && (LaterMarkers(all, |MARKER|) == [] <==> !HoldsMarker(text))
  {
    assert MARKER + " " + text == MARKER + (" " + text);
    MarkerFirst(" " + text);
    MarkersInside(MARKER + " ", text, |MARKER|);
  }

  lemma TrimSolid(text: string)
    requires text != "" && !IsSpace(text[0]) && !IsSpace(text[|text| - 1])
    ensures Trim(" " + text) == text
  {
    assert (" " + text)[1..] == text;
    assert TrimLeft(" " + text) == text;
  }

  lemma Behind(head: string, text: string)
    ensures (head + " " + text)[|head|..] == " " + text
  {
  }

  lemma TrimmedWritten(calendar: string -> bool, example: Example)
    requires WellFormed(calendar, example)
    ensures Trim(Written(example)[|MARKER|..]) == PrintExample(example)
  {
    PrintedEnds(calendar, example);
    Behind(MARKER, PrintExample(example));
    TrimSolid(PrintExample(example));
  }

  /**
   An example written behind a marker is read back as the only one of its statement exactly when
   its text holds no marker: a marker inside a string cuts the example in two.
   */
  lemma WrittenReadsBackIff(calendar: string -> bool, example: Example)
    requires WellFormed(calendar, example)
    ensures ExamplesOf(calendar, Written(example)) == ExampleSet("", [example.(index := 1)], [])
            <==> !HoldsMarker(PrintExample(example))
  {
    var text := Written(example);
    WrittenMarkers(calendar, example);
    if HoldsMarker(PrintExample(example)) {
      EveryMarkerCounts(calendar, text, 1);
      assert |Markers(text)| >= 2;
    } else {
      TrimmedWritten(calendar, example);
      OnlySegment(calendar, text, example);
    }
  }

  lemma OnlySegment(calendar: string -> bool, text: string, example: Example)
    requires WellFormed(calendar, example) && Markers(text) == [Span(0, |MARKER|)]
             && Trim(text[|MARKER|..]) == PrintExample(example)
    ensures ExamplesOf(calendar, text) == ExampleSet("", [example.(index := 1)], [])
  {
    PrintThenParse(calendar, example);
    var printed := PrintExample(example);
    OneSegment(text);
    OneMoreSegment(calendar, [], printed);
    assert [] + [printed] == [printed];
    assert text[..0] == "";
  }

  lemma OneSegment(text: string)
    requires Markers(text) == [Span(0, |MARKER|)]
    ensures Segments(text) == [Trim(text[|MARKER|..])]
  {
    assert text[|MARKER|..|text|] == text[|MARKER|..];
  }

  lemma {:induction false} DropSpacesBefore(text: string, more: string)
    requires DropSpaces(text) != ""
    ensures DropSpaces(text + more) == DropSpaces(text) + more
  {
    assert (text + more)[0] == text[0];
    if PatternSpace(text[0]) {
      DropSpacesBefore(text[1..], more);
      assert (text + more)[1..] == text[1..] + more;
    }
  }

  /** What follows a marker does not unmake it. */
  lemma MarkerStays(text: string, more: string)
    requires StartsWithMarker(text)
    ensures StartsWithMarker(text + more)
  {
    var all := text + more;
    if StartsWithBullet(text) {
      DropSpacesBefore(text[1..], more);
      assert all[1..] == text[1..] + more && all[0] == text[0] && all[1] == text[1];
    } else {
      assert all[0] == text[0] == 'E';
    }
  }

  lemma SplitAt(text: string, more: string, k: nat)
    requires k < |text|
    ensures (text + more)[k] == text[k] && (text + more)[k + 1..] == text[k + 1..] + more
  {
  }

  lemma MarkerStaysBehind(head: string, text: string, more: string)
    requires HoldsMarker(text)
    ensures HoldsMarker(head + (text + more))
  {
    var k :| 0 <= k < |text| && MarkerBehind(text, k);
    var tail := text + more;
    MarkerStays(text[k + 1..], more);
    SplitAt(text, more, k);
    assert MarkerBehind(tail, k);
    MarkersShift(head, tail, |head| + k);
  }

  lemma PlainString(head: string, text: string)
    requires forall c | c in text :: Encoded(c) == [c]
    ensures head + ("\"" + EncodedText(text) + "\"") == (head + "\"") + (text + "\"")
  {
    EncodedAsItIs(text);
    assert "\"" + text + "\"" == "\"" + (text + "\"");
  }

  /** Such examples exist: every one that returns a string with a marker in it and nothing to escape. */
  lemma ReturnedMarkerCuts(example: Example)
    requires example.expected.kind == Returns && example.expected.value.type_ == StringType
    requires HoldsMarker(example.expected.value.value) && forall c | c in example.expected.value.value ::
               Encoded(c) == [c]
    ensures HoldsMarker(PrintExample(example))
  {
    var head, text := example.operation + "(" + PrintArguments(example.args) + ")" + " " + ARROW + " ",
                      example.expected.value.value;
    assert PrintExample(example) == head + PrintExpected(example.expected);
    PlainString(head, text);
    MarkerStaysBehind(head + "\"", text, "\"");
  }

  lemma {:induction false} EncodedAsItIs(text: string)
    requires forall c | c in text :: Encoded(c) == [c]
    ensures EncodedText(text) == text
  {
    if text != "" {
      EncodedAsItIs(text[1..]);
      assert text == [text[0]] + text[1..];
    }
  }
}
