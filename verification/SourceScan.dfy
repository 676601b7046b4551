/**
 Locating a tag in a test source: the line it starts on, found by a binary search in
 an index of line starts, and the fixed text around it where it stands in a literal,
 found by an automaton over the quotes of the line.
 */
module SourceScan {
  import opened Spaces
  import opened Traceability
  import opened Wrappers

  // ----- Lines

  function Newlines(text: string): nat {
    if text == "" then 0 else Newlines(text[..|text| - 1]) + if text[|text| - 1] == '\n' then 1 else 0
  }

  /** The offsets at which a line starts. */
  function LineStarts(content: string): seq<nat> {
    if content == "" then [0]
    else LineStarts(content[..|content| - 1]) + if content[|content| - 1] == '\n' then [|content|] else []
  }

  method NewLineIndex(content: string) returns (starts: seq<nat>)
    ensures starts == LineStarts(content)
  {
    starts := [0];
    for offset := 0 to |content|
      invariant starts == LineStarts(content[..offset])
    {
      assert content[..offset + 1][..offset] == content[..offset];
      if content[offset] == '\n' {
        starts := starts + [offset + 1];
      }
    }
    assert content[..|content|] == content;
  }

  /** The lines that start at or before an offset are one more than the newlines before it. */
  lemma {:induction false} StartsSplit(content: string, offset: nat)
    requires offset <= |content|
    ensures Newlines(content[..offset]) < |LineStarts(content)|
    ensures forall i | 0 <= i < |LineStarts(content)| ::
              LineStarts(content)[i] <= offset <==> i <= Newlines(content[..offset])
  {
    if offset < |content| {
      StartsSplit(content[..|content| - 1], offset);
      assert content[..|content| - 1][..offset] == content[..offset];
    } else {
      assert content[..offset] == content;
      StartsAreBounded(content);
    }
  }

  /** There is one line more than newlines, and each but the first starts behind one. */
  lemma {:induction false} StartsAreBounded(content: string)
    ensures |LineStarts(content)| == 1 + Newlines(content)
    ensures forall i | 0 <= i < |LineStarts(content)| ::
              var start := LineStarts(content)[i]; start <= |content| && (start == 0 || content[start - 1] == '\n')
  {
    if content != "" {
      StartsAreBounded(content[..|content| - 1]);
    }
  }

  /** Binary search for the last line that starts at or before the offset. */
  method LineOf(content: string, starts: seq<nat>, offset: nat) returns (line: nat)
    requires starts == LineStarts(content) && offset <= |content|
    ensures line == 1 + Newlines(content[..offset])
  {
    StartsSplit(content, offset);
    var low, high := 0, |starts| - 1;
    while low < high
      invariant 0 <= low <= Newlines(content[..offset]) <= high < |starts|
    {
      var middle := (low + high + 1) / 2;
      if starts[middle] <= offset {
        low := middle;
      } else {
        high := middle - 1;
      }
    }
    line := low + 1;
  }

  /** No newline stands between the start of the line of an offset and the offset. */
  method LineStart(content: string, starts: seq<nat>, offset: nat) returns (start: nat)
    requires starts == LineStarts(content) && offset <= |content|
    ensures start <= offset && (start == 0 || content[start - 1] == '\n') && '\n' !in content[start..offset]
  {
    StartsSplit(content, offset);
    StartsAreBounded(content);
    var line := LineOf(content, starts, offset);
    start := starts[line - 1];
    NoNewlineSince(content, offset);
  }

  /** Behind the last line that starts at or before an offset comes no other before the offset. */
  lemma {:induction false} NoNewlineSince(content: string, offset: nat)
    requires offset <= |content| && Newlines(content[..offset]) < |LineStarts(content)|
    requires LineStarts(content)[Newlines(content[..offset])] <= offset
    ensures '\n' !in content[LineStarts(content)[Newlines(content[..offset])]..offset]
  {
    StartsSplit(content, offset);
    if content != "" {
      var shorter := content[..|content| - 1];
      if offset < |content| {
        assert shorter[..offset] == content[..offset];
        StartsSplit(shorter, offset);
        NoNewlineSince(shorter, offset);
        var start := LineStarts(shorter)[Newlines(content[..offset])];
        assert content[start..offset] == shorter[start..offset];
      } else {
        NoNewlineAtTheEnd(content);
        assert content[..offset] == content;
      }
    }
  }

  lemma {:induction false} NoNewlineAtTheEnd(content: string)
    ensures |LineStarts(content)| == 1 + Newlines(content)
    ensures var start := LineStarts(content)[Newlines(content)]; start <= |content| && '\n' !in content[start..]
  {
    StartsAreBounded(content);
    if content != "" {
      NoNewlineAtTheEnd(content[..|content| - 1]);
    }
  }

  /** The rest of the line from an offset. */
  function LineAt(content: string, start: nat): (line: string)
    requires start <= |content|
    ensures '\n' !in line && start + |line| <= |content| && line == content[start..start + |line|]
    ensures start + |line| == |content| || content[start + |line|] == '\n'
    decreases |content| - start
  {
    if start == |content| || content[start] == '\n' then ""
    else [content[start]] + LineAt(content, start + 1)
  }

  // ----- String literals

  datatype Literal = Literal(start: nat, end: nat)

  predicate IsDelimiter(c: char) {
    c == '"' || c == '\'' || c == '`'
  }

  /** The first delimiter at or after an index, or the length of the line. */
  function Opening(line: string, index: nat): (open: nat)
    requires index <= |line|
    ensures index <= open <= |line| && (open < |line| ==> IsDelimiter(line[open]))
    ensures forall k | index <= k < open :: !IsDelimiter(line[k])
    decreases |line| - index
  {
    if index == |line| || IsDelimiter(line[index]) then index else Opening(line, index + 1)
  }

  /** The first unescaped delimiter at or after an index; a backslash escapes the character after it. */
  function Closing(line: string, delimiter: char, index: nat): (close: nat)
    requires index <= |line|
    ensures index <= close <= |line| && (close < |line| ==> line[close] == delimiter)
    decreases |line| - index
  {
    if index == |line| then |line|
    else if line[index] == '\\' then (if index + 2 <= |line| then Closing(line, delimiter, index + 2) else |line|)
    else if line[index] == delimiter then index
    else Closing(line, delimiter, index + 1)
  }

  /** The closed literals of a line from an index on, left to right. */
  function Literals(line: string, index: nat): seq<Literal>
    requires index <= |line|
    decreases |line| - index
  {
    var open := Opening(line, index);
    if open == |line| then []
    else LiteralsFrom(line, line[open], open + 1, open + 1)
  }

  /** The closed literals of a line, the first of which is being read and starts at literalStart. */
  function LiteralsFrom(line: string, delimiter: char, literalStart: nat, index: nat): seq<Literal>
    requires literalStart <= index <= |line|
    decreases |line| - index, 0
  {
    var close := Closing(line, delimiter, index);
    if close == |line| then [] else [Literal(literalStart, close)] + Literals(line, close + 1)
  }

  predicate Encloses(literal: Literal, start: nat, end: nat) {
    literal.start <= start && end <= literal.end
  }

  function FirstEnclosing(literals: seq<Literal>, start: nat, end: nat): Option<Literal> {
    if literals == [] then None
    else if Encloses(literals[0], start, end) then Some(literals[0])
    else FirstEnclosing(literals[1..], start, end)
  }

  /** The literals still to come when the scan is at an index, inside a literal or between two. */
  function Ahead(line: string, delimiter: Option<char>, literalStart: nat, index: nat): seq<Literal>
    requires delimiter.Some? ==> literalStart <= index
  {
    if index > |line| then []
    else if delimiter.None? then Literals(line, index)
    else LiteralsFrom(line, delimiter.value, literalStart, index)
  }

  lemma AheadStep(line: string, delimiter: Option<char>, literalStart: nat, index: nat)
    requires index < |line| && (delimiter.Some? ==> literalStart <= index)
    ensures Ahead(line, delimiter, literalStart, index)
            == if delimiter.None? then
                 if IsDelimiter(line[index]) then Ahead(line, Some(line[index]), index + 1, index + 1)
                 else Ahead(line, None, literalStart, index + 1)
               else if line[index] == '\\' then Ahead(line, delimiter, literalStart, index + 2)
               else if line[index] == delimiter.value then
                 [Literal(literalStart, index)] + Ahead(line, None, literalStart, index + 1)
               else Ahead(line, delimiter, literalStart, index + 1)
  {
  }

  /** Runs a small automaton along the line: it opens, escapes and closes literals until one holds the range. */
  method EnclosingLiteral(line: string, start: nat, end: nat) returns (literal: Option<Literal>)
    ensures literal == FirstEnclosing(Literals(line, 0), start, end)
  {
    var delimiter: Option<char> := None;
    var literalStart: nat := 0;
    var index: nat := 0;
    while index < |line|
      invariant delimiter.Some? ==> literalStart <= index
      invariant FirstEnclosing(Literals(line, 0), start, end)
                == FirstEnclosing(Ahead(line, delimiter, literalStart, index), start, end)
    {
      AheadStep(line, delimiter, literalStart, index);
      var here := line[index];
      if delimiter.None? && IsDelimiter(here) {
        delimiter, literalStart := Some(here), index + 1;
      } else if delimiter.Some? && here == '\\' {
        index := index + 1;
      } else if delimiter.Some? && here == delimiter.value {
        if literalStart <= start && end <= index {
          return Some(Literal(literalStart, index));
        }
        delimiter := None;
      }
      index := index + 1;
    }
    literal := None;
  }

  /** The characters of a literal read in units: an escape is a backslash and the character after it. */
  predicate Unclosed(text: string, delimiter: char)
    decreases |text|
  {
    if text == "" then true
    else if text[0] == '\\' then |text| >= 2 && Unclosed(text[2..], delimiter)
    else text[0] != delimiter && Unclosed(text[1..], delimiter)
  }

  lemma {:induction false} UnclosedUpToClosing(line: string, delimiter: char, index: nat)
    requires index <= |line| && delimiter != '\\' && Closing(line, delimiter, index) < |line|
    ensures Unclosed(line[index..Closing(line, delimiter, index)], delimiter)
    decreases |line| - index
  {
    var close := Closing(line, delimiter, index);
    if close != index {
      var text := line[index..close];
      if line[index] == '\\' {
        UnclosedUpToClosing(line, delimiter, index + 2);
        assert text[2..] == line[index + 2..close];
      } else {
        UnclosedUpToClosing(line, delimiter, index + 1);
        assert text[1..] == line[index + 1..close];
      }
    }
  }

  /** A literal stands between two equal delimiters with no unescaped one of them inside. */
  predicate IsClosedLiteral(line: string, literal: Literal) {
    && 1 <= literal.start <= literal.end < |line|
    && IsDelimiter(line[literal.end]) && line[literal.start - 1] == line[literal.end]
    && Unclosed(line[literal.start..literal.end], line[literal.end])
  }

  lemma {:induction false} LiteralsAreClosed(line: string, index: nat, literal: Literal)
    requires index <= |line| && literal in Literals(line, index)
    ensures IsClosedLiteral(line, literal) && literal.start > index
    decreases |line| - index
  {
    var open := Opening(line, index);
    var close := Closing(line, line[open], open + 1);
    UnclosedUpToClosing(line, line[open], open + 1);
    if literal != Literal(open + 1, close) {
      LiteralsAreClosed(line, close + 1, literal);
    }
  }

  /** Literals follow one another: at most one of them contains a given character. */
  lemma {:induction false} LiteralsFollow(line: string, index: nat, i: nat, j: nat)
    requires index <= |line| && i < j < |Literals(line, index)|
    ensures Literals(line, index)[i].end < Literals(line, index)[j].start
    decreases |line| - index
  {
    var open := Opening(line, index);
    var close := Closing(line, line[open], open + 1);
    var rest := Literals(line, close + 1);
    if i == 0 {
      LiteralsAreClosed(line, close + 1, rest[j - 1]);
    } else {
      LiteralsFollow(line, close + 1, i - 1, j - 1);
    }
  }

  lemma {:induction false} FirstEnclosingIsOne(literals: seq<Literal>, start: nat, end: nat)
    ensures var first := FirstEnclosing(literals, start, end);
            if first.Some? then first.value in literals && Encloses(first.value, start, end)
            else forall literal | literal in literals :: !Encloses(literal, start, end)
  {
    if literals != [] {
      FirstEnclosingIsOne(literals[1..], start, end);
    }
  }

  /** A range is found enclosed exactly when it lies in a closed literal of the line, and then in that one. */
  lemma EnclosedIffInLiteral(line: string, start: nat, end: nat)
    requires start < end
    ensures var found := FirstEnclosing(Literals(line, 0), start, end);
            && (found.Some? <==> exists literal | literal in Literals(line, 0) :: Encloses(literal, start, end))
            && (found.Some? ==> Encloses(found.value, start, end) && IsClosedLiteral(line, found.value))
            && forall literal | literal in Literals(line, 0) && Encloses(literal, start, end) :: found == Some(literal)
  {
    var literals := Literals(line, 0);
    var found := FirstEnclosing(literals, start, end);
    FirstEnclosingIsOne(literals, start, end);
    if found.Some? {
      LiteralsAreClosed(line, 0, found.value);
    }
    forall literal | literal in literals && Encloses(literal, start, end) ensures found == Some(literal) {
      var i :| 0 <= i < |literals| && literals[i] == literal;
      var j :| 0 <= j < |literals| && literals[j] == found.value;
      if i < j {
        LiteralsFollow(line, 0, i, j);
      } else if j < i {
        LiteralsFollow(line, 0, j, i);
      }
    }
  }

  // ----- The title around a tag

  datatype Span = Span(start: nat, end: nat)

  /** Where the static part of a literal starts: after the last placeholder that ends before the tag. */
  predicate IsFragmentStart(spans: seq<Span>, literal: Literal, start: nat, fragmentStart: nat) {
    && literal.start <= fragmentStart <= start
    && (fragmentStart == literal.start || exists span | span in spans :: fragmentStart == literal.start + span.end)
    && forall span | span in spans && literal.start + span.end <= start :: literal.start + span.end <= fragmentStart
  }

  /** Where it ends: before the first placeholder that starts after the tag. */
  predicate IsFragmentEnd(spans: seq<Span>, literal: Literal, end: nat, fragmentEnd: nat) {
    && end <= fragmentEnd <= literal.end
    && (fragmentEnd == literal.end || exists span | span in spans :: fragmentEnd == literal.start + span.start)
    && forall span | span in spans && end <= literal.start + span.start :: fragmentEnd <= literal.start + span.start
  }

  ghost predicate IsFragment(line: string, spans: seq<Span>, literal: Literal, start: nat, end: nat, fragment: Span) {
    && IsFragmentStart(spans, literal, start, fragment.start) && IsFragmentEnd(spans, literal, end, fragment.end)
    && fragment.start <= fragment.end <= |line|
  }

  /** The title is the trimmed static part, around the tag, of the one literal that encloses it. */
  ghost predicate IsTitle(placeholders: string -> seq<Span>, line: string, start: nat, end: nat, title: string)
    requires start < end
  {
    EnclosedIffInLiteral(line, start, end);
    match FirstEnclosing(Literals(line, 0), start, end)
    case None => title == ""
    case Some(literal) =>
      exists fragment: Span ::
        && IsFragment(line, placeholders(line[literal.start..literal.end]), literal, start, end, fragment)
        && title == Trim(line[fragment.start..fragment.end])
  }

  method FragmentAround(line: string, spans: seq<Span>, literal: Literal, start: nat, end: nat) returns (fragment: Span)
    requires start < end && Encloses(literal, start, end) && literal.end <= |line|
    ensures IsFragment(line, spans, literal, start, end, fragment)
  {
    var fragmentStart: nat, fragmentEnd: nat := literal.start, literal.end;
    for i := 0 to |spans|
      invariant IsFragmentStart(spans[..i], literal, start, fragmentStart)
      invariant IsFragmentEnd(spans[..i], literal, end, fragmentEnd)
    {
      assert spans[..i + 1] == spans[..i] + [spans[i]];
      assert spans[i] in spans[..i + 1];
      var spanStart, spanEnd := literal.start + spans[i].start, literal.start + spans[i].end;
      if spanEnd <= start && spanEnd > fragmentStart {
        fragmentStart := spanEnd;
      }
      if spanStart >= end && spanStart < fragmentEnd {
        fragmentEnd := spanStart;
      }
    }
    assert spans[..|spans|] == spans;
    fragment := Span(fragmentStart, fragmentEnd);
  }

  method TitleAround(placeholders: string -> seq<Span>, line: string, start: nat, end: nat) returns (title: string)
    requires start < end
    ensures IsTitle(placeholders, line, start, end, title)
  {
    var literal := EnclosingLiteral(line, start, end);
    EnclosedIffInLiteral(line, start, end);
    if literal.None? {
      return "";
    }
    var spans := placeholders(line[literal.value.start..literal.value.end]);
    var fragment := FragmentAround(line, spans, literal.value, start, end);
    title := Trim(line[fragment.start..fragment.end]);
  }

  ghost predicate HoldsTag(line: string, literal: Literal, start: nat, end: nat, title: string) {
    exists from: nat, to: nat | literal.start <= from <= start && end <= to <= literal.end && to <= |line|
    && from <= to :: title == line[from..to]
  }

  lemma FragmentHoldsTag(line: string, spans: seq<Span>, literal: Literal, start: nat, end: nat, fragment: Span)
    requires start < end <= |line| && !IsSpace(line[start]) && !IsSpace(line[end - 1])
    requires IsFragment(line, spans, literal, start, end, fragment)
    ensures HoldsTag(line, literal, start, end, Trim(line[fragment.start..fragment.end]))
  {
    var text := line[fragment.start..fragment.end];
    var from, to := TrimKeeps(text, start - fragment.start, end - 1 - fragment.start);
    SliceOfSlice(line, fragment.start, fragment.end, from, to);
  }

  /**
   A title is empty where no literal encloses the tag, and else a part
   of the literal that still holds the whole tag.
   */
  lemma TitleHoldsTag(placeholders: string -> seq<Span>, line: string, start: nat, end: nat, title: string)
    requires start < end <= |line| && !IsSpace(line[start]) && !IsSpace(line[end - 1])
    requires IsTitle(placeholders, line, start, end, title)
    ensures match FirstEnclosing(Literals(line, 0), start, end)
            case None => title == ""
            case Some(literal) =>
              title != "" && IsClosedLiteral(line, literal) && HoldsTag(line, literal, start, end, title)
  {
    EnclosedIffInLiteral(line, start, end);
    var found := FirstEnclosing(Literals(line, 0), start, end);
    if found.Some? {
      var spans := placeholders(line[found.value.start..found.value.end]);
      var fragment :| IsFragment(line, spans, found.value, start, end, fragment)
                      && title == Trim(line[fragment.start..fragment.end]);
      FragmentHoldsTag(line, spans, found.value, start, end, fragment);
    }
  }

  // ----- Extraction

  datatype TagMatch = TagMatch(start: nat, end: nat, refs: seq<Ref>, malformed: seq<MalformedTag>)

  /** The index starts the line that holds the offset. */
  predicate StartsLineOf(content: string, offset: nat, lineStart: nat)
    requires offset <= |content|
  {
    lineStart <= offset && (lineStart == 0 || content[lineStart - 1] == '\n') && '\n' !in content[lineStart..offset]
  }

  /** The tag of a match: on the line that holds its first character, titled by the literal around it. */
  ghost predicate LocatesMatch(placeholders: string -> seq<Span>, path: string, content: string, found: TagMatch,
                               tag: SourceTag)
    requires found.start < found.end && found.start <= |content|
  {
    && tag.location == Location(path, 1 + Newlines(content[..found.start]))
    && tag.refs == found.refs && tag.malformed == found.malformed
    && exists lineStart: nat | StartsLineOf(content, found.start, lineStart) ::
      IsTitle(placeholders, LineAt(content, lineStart), found.start - lineStart, found.end - lineStart, tag.title)
  }

  method ExtractOne(placeholders: string -> seq<Span>, path: string, content: string, lines: seq<nat>, found: TagMatch)
    returns (tag: SourceTag)
    requires lines == LineStarts(content) && found.start < found.end <= |content|
    ensures LocatesMatch(placeholders, path, content, found, tag)
  {
    var lineStart := LineStart(content, lines, found.start);
    var lineEnd := lineStart + |LineAt(content, lineStart)|;
    var line := content[lineStart..lineEnd];
    var number := LineOf(content, lines, found.start);
    var title := TitleAround(placeholders, line, found.start - lineStart, found.end - lineStart);
    tag := SourceTag(Location(path, number), title, found.refs, found.malformed);
  }

  /** The tags of a file, one for each match in its order. */
  method Extract(placeholders: string -> seq<Span>, path: string, content: string, matches: seq<TagMatch>)
    returns (tags: seq<SourceTag>)
    requires forall found | found in matches :: found.start < found.end <= |content|
    ensures |tags| == |matches|
    ensures forall i | 0 <= i < |matches| :: LocatesMatch(placeholders, path, content, matches[i], tags[i])
  {
    var lines := NewLineIndex(content);
    tags := [];
    for i := 0 to |matches|
      invariant |tags| == i
      invariant forall k | 0 <= k < i :: LocatesMatch(placeholders, path, content, matches[k], tags[k])
    {
      var tag := ExtractOne(placeholders, path, content, lines, matches[i]);
      tags := tags + [tag];
    }
  }
}
