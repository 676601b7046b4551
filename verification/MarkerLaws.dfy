/** How a statement is cut at its markers, and what becomes of the stretches in between. */
module MarkerLaws {
  import opened ExampleGrammar
  import opened ExampleStatement
  import opened Spaces
  import opened TrimLaws

  // ----- Markers

  /** White space as a pattern knows it: a space, a tab, a newline, a carriage return or a form feed. */
  predicate PatternWhite(c: char) {
    c as int in {0x20, 0x9, 0xA, 0xD, 0xC}
  }

  predicate AllPatternWhite(text: string) {
    forall c | c in text :: PatternWhite(c)
  }

  /** A list bullet with white space behind it, or nothing. */
  predicate BulletOrNothing(text: string) {
    text == "" || (|text| >= 2 && text[0] in {'-', '*', '+'} && AllPatternWhite(text[1..]))
  }

  ghost predicate MarkerText(text: string) {
    exists bullet :: BulletOrNothing(bullet) && text == bullet + "Example:"
  }

  /** The stretch is a marker: at the start of the text, or behind one character of white space that belongs to it. */
  ghost predicate IsMarker(text: string, from: nat, to: nat) {
    && from <= to <= |text|
    && ((from == 0 && MarkerText(text[..to]))
        || (from < to && PatternWhite(text[from]) && MarkerText(text[from + 1..to])))
  }

  /** The first marker from a place on, by the rules of a marker. */
  ghost predicate FirstMarker(text: string, from: nat, span: Span) {
    && from <= span.start && IsMarker(text, span.start, span.end)
    && (forall start: nat, end: nat | from <= start < span.start :: !IsMarker(text, start, end))
  }

  /** From the place on, the text is cut at these markers, each the first behind the one before, and at no other. */
  ghost predicate CutAt(text: string, from: nat, spans: seq<Span>)
    decreases |spans|
  {
    if spans == [] then forall start: nat, end: nat | from <= start :: !IsMarker(text, start, end)
    else FirstMarker(text, from, spans[0]) && CutAt(text, spans[0].end, spans[1..])
  }

  lemma PatternWhiteIs(c: char)
    ensures PatternWhite(c) <==> PatternSpace(c)
  {
  }

  lemma {:induction false} DroppedSpaces(text: string) returns (k: nat)
    ensures k <= |text| && AllPatternWhite(text[..k]) && DropSpaces(text) == text[k..]
    ensures k < |text| ==> !PatternWhite(text[k])
  {
    if text == "" {
      k := 0;
    } else {
      PatternWhiteIs(text[0]);
      if PatternSpace(text[0]) {
        k := DroppedSpaces(text[1..]);
        k := k + 1;
        assert text[..k] == [text[0]] + text[1..][..k - 1];
      } else {
        k := 0;
      }
    }
  }

  /** What is left without the bullet starts where the bullet and its white space end. */
  lemma WithoutBulletIs(text: string) returns (bullet: string)
    ensures BulletOrNothing(bullet) && text == bullet + WithoutBullet(text)
    ensures bullet != "" ==> WithoutBullet(text) == "" || !PatternWhite(WithoutBullet(text)[0])
    ensures bullet == "" <==> !StartsWithBullet(text)
  {
    if StartsWithBullet(text) {
      var k := DroppedSpaces(text[1..]);
      PatternWhiteIs(text[1]);
      bullet := text[..k + 1];
      assert bullet[1..] == text[1..][..k];
      assert "-*+"[0] == '-' && "-*+"[1] == '*' && "-*+"[2] == '+';
    } else {
      bullet := "";
    }
  }

  lemma {:induction false} DropSpacesOf(white: string, rest: string)
    requires AllPatternWhite(white) && rest != "" && !PatternWhite(rest[0])
    ensures DropSpaces(white + rest) == rest
  {
    if white == "" {
      PatternWhiteIs(rest[0]);
      assert white + rest == rest;
    } else {
      PatternWhiteIs(white[0]);
      assert white[0] in white;
      assert (white + rest)[1..] == white[1..] + rest;
      DropSpacesOf(white[1..], rest);
    }
  }

  lemma WithoutBulletOf(bullet: string, rest: string)
    requires BulletOrNothing(bullet) && MARKER <= rest
    ensures WithoutBullet(bullet + rest) == rest
  {
    var text := bullet + rest;
    assert rest[0] == 'E';
    if bullet == "" {
      assert text == rest;
    } else {
      assert text[1] == bullet[1..][0];
      assert bullet[1..][0] in bullet[1..];
      PatternWhiteIs(text[1]);
      assert text[1..] == bullet[1..] + rest;
      DropSpacesOf(bullet[1..], rest);
    }
  }

  /** A text starts with a marker of the length exactly when its first characters are one. */
  lemma MarkerTextIff(text: string, length: nat)
    requires length <= |text|
    ensures MarkerText(text[..length]) <==> StartsWithMarker(text) && MarkerLength(text) == length
  {
    if MarkerText(text[..length]) {
      var bullet :| BulletOrNothing(bullet) && text[..length] == bullet + "Example:";
      var rest := "Example:" + text[length..];
      assert text == text[..length] + text[length..];
      assert text == bullet + rest;
      WithoutBulletOf(bullet, rest);
    }
    if StartsWithMarker(text) && MarkerLength(text) == length {
      var bullet := WithoutBulletIs(text);
      assert text[..length] == bullet + WithoutBullet(text)[..|MARKER|];
    }
  }

  /** Behind the start, or where none stands at it, a marker takes its character of white space with it. */
  lemma MarkerInside(text: string, start: nat, end: nat)
    requires start > 0 || !StartsWithMarker(text)
    ensures IsMarker(text, start, end)
            <==> MarkerBehind(text, start) && end == start + 1 + MarkerLength(text[start + 1..])
  {
    if start == 0 && end <= |text| {
      MarkerTextIff(text, end);
    }
    if start < end <= |text| {
      PatternWhiteIs(text[start]);
      assert text[start + 1..end] == text[start + 1..][..end - start - 1];
      MarkerTextIff(text[start + 1..], end - start - 1);
    }
  }

  lemma MarkerAtStart(text: string, end: nat)
    ensures IsMarker(text, 0, end)
            <==> || (StartsWithMarker(text) && end == MarkerLength(text))
                 || (MarkerBehind(text, 0) && end == 1 + MarkerLength(text[1..]))
  {
    if end <= |text| {
      MarkerTextIff(text, end);
      if 0 < end {
        PatternWhiteIs(text[0]);
        assert text[1..end] == text[1..][..end - 1];
        MarkerTextIff(text[1..], end - 1);
      }
    }
  }

  /** A text that starts with a marker does not start with white space. */
  lemma OneAtStart(text: string)
    requires StartsWithMarker(text)
    ensures !MarkerBehind(text, 0)
  {
    var bullet := WithoutBulletIs(text);
    assert text[0] == if bullet == "" then 'E' else bullet[0];
  }

  lemma NoneBefore(text: string, from: nat, next: nat)
    requires (from > 0 || !StartsWithMarker(text)) && forall k: nat | from <= k < next :: !MarkerBehind(text, k)
    ensures forall start: nat, end: nat | from <= start < next :: !IsMarker(text, start, end)
  {
    forall start: nat, end: nat | from <= start < next ensures !IsMarker(text, start, end) {
      MarkerInside(text, start, end);
    }
  }

  lemma NoneLater(text: string, from: nat)
    requires from <= |text| && (from > 0 || !StartsWithMarker(text)) && NextMarker(text, from) == |text|
    ensures CutAt(text, from, [])
  {
    forall start: nat, end: nat | from <= start ensures !IsMarker(text, start, end) {
      MarkerInside(text, start, end);
    }
  }

  lemma NextIsFirst(text: string, from: nat, span: Span)
    requires from <= |text| && (from > 0 || !StartsWithMarker(text)) && NextMarker(text, from) < |text|
    requires span.start == NextMarker(text, from) && span.end == span.start + 1 + MarkerLength(text[span.start + 1..])
    ensures FirstMarker(text, from, span)
  {
    NoneBefore(text, from, span.start);
    MarkerInside(text, span.start, span.end);
  }

  lemma FirstThenLater(text: string, from: nat, span: Span, later: seq<Span>)
    requires FirstMarker(text, from, span) && CutAt(text, span.end, later)
    ensures CutAt(text, from, [span] + later)
  {
    assert ([span] + later)[1..] == later;
  }

  /** What is found from a place on: the first marker with the character before it, then what is found behind it. */
  ghost predicate FoundFirst(text: string, from: nat, span: Span, later: seq<Span>, spans: seq<Span>)
    requires from <= |text| && NextMarker(text, from) < |text|
  {
    && span.start == NextMarker(text, from)
    && span.end == span.start + 1 + MarkerLength(text[span.start + 1..]) && span.end <= |text|
    && later == LaterMarkers(text, span.end) && spans == [span] + later
  }

  lemma LaterMarkersUnfold(text: string, from: nat) returns (span: Span, later: seq<Span>)
    requires from <= |text| && NextMarker(text, from) < |text|
    ensures FoundFirst(text, from, span, later, LaterMarkers(text, from))
  {
    var next := NextMarker(text, from);
    var end := next + 1 + MarkerLength(text[next + 1..]);
    return Span(next, end), LaterMarkers(text, end);
  }

  lemma {:induction false} LaterMarkersCut(text: string, from: nat)
    requires from <= |text| && (from > 0 || !StartsWithMarker(text))
    ensures CutAt(text, from, LaterMarkers(text, from))
    decreases |text| - from
  {
    if NextMarker(text, from) < |text| {
      var span, later := LaterMarkersUnfold(text, from);
      LaterMarkersCut(text, span.end);
      NextIsFirst(text, from, span);
      FirstThenLater(text, from, span, later);
    } else {
      NoneLater(text, from);
    }
  }

  /** The markers of a statement are where it is cut. */
  lemma MarkersCut(text: string)
    ensures CutAt(text, 0, Markers(text))
  {
    if StartsWithMarker(text) {
      var end := MarkerLength(text);
      MarkerAtStart(text, end);
      LaterMarkersCut(text, end);
      assert Markers(text)[1..] == LaterMarkers(text, end);
    } else {
      LaterMarkersCut(text, 0);
    }
  }

  lemma OneEnd(text: string, start: nat, one: nat, other: nat)
    requires IsMarker(text, start, one) && IsMarker(text, start, other)
    ensures one == other
  {
    if start > 0 {
      MarkerInside(text, start, one);
      MarkerInside(text, start, other);
    } else {
      MarkerAtStart(text, one);
      MarkerAtStart(text, other);
      if StartsWithMarker(text) {
        OneAtStart(text);
      }
    }
  }

  /** It can be cut in one way only. */
  lemma {:induction false} OneCut(text: string, from: nat, one: seq<Span>, other: seq<Span>)
    requires CutAt(text, from, one) && CutAt(text, from, other)
    ensures one == other
    decreases |one|
  {
    if one != [] && other != [] {
      assert one[0].start == other[0].start;
      OneEnd(text, one[0].start, one[0].end, other[0].end);
      OneCut(text, one[0].end, one[1..], other[1..]);
      assert one == [one[0]] + one[1..] && other == [other[0]] + other[1..];
    }
  }

  /** A statement is cut at its markers and nowhere else. */
  lemma MarkersAre(text: string, spans: seq<Span>)
    ensures CutAt(text, 0, spans) <==> spans == Markers(text)
  {
    MarkersCut(text);
    if CutAt(text, 0, spans) {
      OneCut(text, 0, spans, Markers(text));
    }
  }

  // ----- The stretches in between

  /** What stands behind the marker, up to the next one or the end. */
  function Behind(text: string, spans: seq<Span>, i: nat): string
    requires i < |spans| && spans[i].end <= |text|
    requires i + 1 < |spans| ==> spans[i].end <= spans[i + 1].start <= |text|
  {
    text[spans[i].end..if i + 1 < |spans| then spans[i + 1].start else |text|]
  }

  /** The segment is an example, the one given but for its number. */
  predicate ReadsAs(calendar: string -> bool, segment: string, example: Example) {
    var parsed := ParseExample(calendar, segment);
    parsed.Ok? && parsed.value.(index := example.index) == example
  }

  lemma LastIsExample(calendar: string -> bool, earlier: seq<string>, segment: string, example: Example)
    ensures example in ExamplesIn(calendar, earlier + [segment])
            <==> || example in ExamplesIn(calendar, earlier)
                 || (example.index == |earlier| + 1 && ReadsAs(calendar, segment, example))
  {
    OneMoreSegment(calendar, earlier, segment);
  }

  lemma {:induction false} ExamplesAre(calendar: string -> bool, segments: seq<string>, example: Example)
    ensures example in ExamplesIn(calendar, segments)
            <==> 1 <= example.index <= |segments| && ReadsAs(calendar, segments[example.index - 1], example)
  {
    if segments != [] {
      var earlier, last := segments[..|segments| - 1], segments[|segments| - 1];
      ExamplesAre(calendar, earlier, example);
      assert segments == earlier + [last];
      LastIsExample(calendar, earlier, last, example);
      ExamplesNumbered(calendar, earlier);
    }
  }

  lemma {:induction false} ExamplesNumbered(calendar: string -> bool, segments: seq<string>)
    ensures forall i | 0 <= i < |ExamplesIn(calendar, segments)| ::
              1 <= ExamplesIn(calendar, segments)[i].index <= |segments|
    ensures forall i, j | 0 <= i < j < |ExamplesIn(calendar, segments)| ::
              ExamplesIn(calendar, segments)[i].index < ExamplesIn(calendar, segments)[j].index
  {
    if segments != [] {
      ExamplesNumbered(calendar, segments[..|segments| - 1]);
    }
  }

  lemma {:induction false} MalformedNumbered(calendar: string -> bool, segments: seq<string>)
    ensures forall i | 0 <= i < |MalformedIn(calendar, segments)| ::
              1 <= MalformedIn(calendar, segments)[i].index <= |segments|
    ensures forall i, j | 0 <= i < j < |MalformedIn(calendar, segments)| ::
              MalformedIn(calendar, segments)[i].index < MalformedIn(calendar, segments)[j].index
  {
    if segments != [] {
      MalformedNumbered(calendar, segments[..|segments| - 1]);
    }
  }

  predicate RefusedAs(calendar: string -> bool, segment: string, reason: Reason) {
    ParseExample(calendar, segment) == Err(reason)
  }

  lemma LastIsMalformed(calendar: string -> bool, earlier: seq<string>, segment: string, one: Malformed)
    ensures one in MalformedIn(calendar, earlier + [segment])
            <==> || one in MalformedIn(calendar, earlier)
                 || (one.index == |earlier| + 1 && one.text == segment && RefusedAs(calendar, segment, one.reason))
  {
    OneMoreSegment(calendar, earlier, segment);
  }

  lemma {:induction false} MalformedAre(calendar: string -> bool, segments: seq<string>, one: Malformed)
    ensures one in MalformedIn(calendar, segments)
            <==> 1 <= one.index <= |segments| && one.text == segments[one.index - 1]
                 && RefusedAs(calendar, one.text, one.reason)
  {
    if segments != [] {
      var earlier, last := segments[..|segments| - 1], segments[|segments| - 1];
      MalformedAre(calendar, earlier, one);
      assert segments == earlier + [last];
      LastIsMalformed(calendar, earlier, last, one);
      MalformedNumbered(calendar, earlier);
    }
  }

  /** What stands behind the marker, trimmed, is accepted as the example, but for its number. */
  ghost predicate AcceptedAs(calendar: string -> bool, stretch: string, example: Example) {
    exists segment, read: Example ::
      Trimmed(stretch, segment) && ParseExample(calendar, segment) == Ok(read, "")
      && example == read.(index := example.index)
  }

  lemma AcceptedAsIff(calendar: string -> bool, stretch: string, example: Example)
    ensures AcceptedAs(calendar, stretch, example) <==> ReadsAs(calendar, Trim(stretch), example)
  {
    TrimIsTrimmed(stretch);
    if segment, read: Example :| Trimmed(stretch, segment) && ParseExample(calendar, segment) == Ok(read, "")
                                 && example == read.(index := example.index) {
      TrimmedIff(stretch, segment);
    }
    var parsed := ParseExample(calendar, Trim(stretch));
    if ReadsAs(calendar, Trim(stretch), example) {
      assert Trimmed(stretch, Trim(stretch)) && parsed == Ok(parsed.value, "");
    }
  }

  /** A statement is the prose in front of its first marker. */
  lemma ProseIs(calendar: string -> bool, text: string)
    ensures var spans := Markers(text);
            Trimmed(if spans == [] then text else text[..spans[0].start], ExamplesOf(calendar, text).prose)
  {
    var spans := Markers(text);
    TrimIsTrimmed(if spans == [] then text else text[..spans[0].start]);
  }

  lemma SegmentIs(text: string, spans: seq<Span>, i: nat)
    requires StandIn(spans, text) && i < |spans|
    ensures SegmentAt(text, spans, i) == Trim(Behind(text, spans, i))
  {
  }

  predicate AreSegments(segments: seq<string>, text: string, spans: seq<Span>)
    requires StandIn(spans, text)
  {
    |segments| == |spans| && forall i | 0 <= i < |spans| :: segments[i] == SegmentAt(text, spans, i)
  }

  lemma ExampleReadsAs(calendar: string -> bool, text: string, spans: seq<Span>, segments: seq<string>,
                       example: Example)
    requires StandIn(spans, text) && AreSegments(segments, text, spans)
    ensures example in ExamplesIn(calendar, segments)
            <==> && 1 <= example.index <= |spans|
                 && AcceptedAs(calendar, Behind(text, spans, example.index - 1), example)
  {
    ExamplesAre(calendar, segments, example);
    if 1 <= example.index <= |spans| {
      SegmentIs(text, spans, example.index - 1);
      AcceptedAsIff(calendar, Behind(text, spans, example.index - 1), example);
    }
  }

  lemma MalformedReadsAs(calendar: string -> bool, text: string, spans: seq<Span>, segments: seq<string>,
                         one: Malformed)
    requires StandIn(spans, text) && AreSegments(segments, text, spans)
    ensures one in MalformedIn(calendar, segments)
            <==> && 1 <= one.index <= |spans| && Trimmed(Behind(text, spans, one.index - 1), one.text)
                 && RefusedAs(calendar, one.text, one.reason)
  {
    MalformedAre(calendar, segments, one);
    if 1 <= one.index <= |spans| {
      SegmentIs(text, spans, one.index - 1);
      TrimmedIff(Behind(text, spans, one.index - 1), one.text);
    }
  }

  /** And for each marker, numbered from one, an example or a malformed one: what stands behind it, read or refused. */
  lemma StatementReadsAs(calendar: string -> bool, text: string, example: Example, one: Malformed)
    ensures example in ExamplesOf(calendar, text).examples
            <==> && 1 <= example.index <= |Markers(text)|
                 && AcceptedAs(calendar, Behind(text, Markers(text), example.index - 1), example)
    ensures one in ExamplesOf(calendar, text).malformed
            <==> && 1 <= one.index <= |Markers(text)|
                 && Trimmed(Behind(text, Markers(text), one.index - 1), one.text)
                 && RefusedAs(calendar, one.text, one.reason)
  {
    ExampleReadsAs(calendar, text, Markers(text), Segments(text), example);
    MalformedReadsAs(calendar, text, Markers(text), Segments(text), one);
  }

  /** Both lists are in the order of the markers. */
  lemma NumbersAscend(calendar: string -> bool, text: string, i: nat, j: nat)
    requires i < j
    ensures var found := ExamplesOf(calendar, text);
            && (j < |found.examples| ==> found.examples[i].index < found.examples[j].index)
            && (j < |found.malformed| ==> found.malformed[i].index < found.malformed[j].index)
  {
    ExamplesNumbered(calendar, Segments(text));
    MalformedNumbered(calendar, Segments(text));
  }
}
