/** Where the literals of a line are: read from left to right, each from the first quote to the next unescaped one. */
module LiteralLaws {
  import opened SourceScan

  /** A double, a single or a back quote. */
  predicate Quote(c: char) {
    c in {'"', '\'', '`'}
  }

  predicate Plain(line: string, from: nat, to: nat) {
    from <= to <= |line| && forall k | from <= k < to :: !Quote(line[k])
  }

  /** A quote opens at the one place and closes at the other; read in units, no such quote stands in between. */
  predicate Closes(line: string, open: nat, close: nat) {
    && open < close < |line| && Quote(line[open]) && line[close] == line[open]
    && Unclosed(line[open + 1..close], line[open])
  }

  /** The quote at the place is the first one, and no other closes it. */
  ghost predicate NeverCloses(line: string, from: nat, open: nat) {
    && from <= open < |line| && Plain(line, from, open) && Quote(line[open])
    && forall close: nat :: !Closes(line, open, close)
  }

  /** The first literal from the place on. */
  predicate ComesNext(line: string, from: nat, literal: Literal) {
    && from < literal.start && Plain(line, from, literal.start - 1)
    && Closes(line, literal.start - 1, literal.end)
  }

  ghost predicate NoneFollows(line: string, from: nat) {
    Plain(line, from, |line|) || exists open: nat :: NeverCloses(line, from, open)
  }

  /** Read from the place on, the line holds these literals, each behind the one before, and no other. */
  ghost predicate ReadAs(line: string, from: nat, literals: seq<Literal>)
    decreases |literals|
  {
    if literals == [] then NoneFollows(line, from)
    else ComesNext(line, from, literals[0]) && ReadAs(line, literals[0].end + 1, literals[1..])
  }

  lemma {:induction false} ClosingIs(line: string, delimiter: char, index: nat, close: nat)
    requires index <= close < |line| && line[close] == delimiter && delimiter != '\\'
    requires Unclosed(line[index..close], delimiter)
    ensures Closing(line, delimiter, index) == close
    decreases |line| - index
  {
    if index < close {
      var text := line[index..close];
      var unit := if line[index] == '\\' then 2 else 1;
      assert text[unit..] == line[index + unit..close];
      ClosingIs(line, delimiter, index + unit, close);
    }
  }

  /** A literal that opens at the place is closed in one place, if any. */
  lemma ClosesIff(line: string, open: nat, close: nat)
    requires open < |line| && Quote(line[open])
    ensures Closes(line, open, close) <==> Closing(line, line[open], open + 1) == close < |line|
  {
    if Closes(line, open, close) {
      ClosingIs(line, line[open], open + 1, close);
    } else if Closing(line, line[open], open + 1) == close < |line| {
      UnclosedUpToClosing(line, line[open], open + 1);
    }
  }

  lemma OpeningIs(line: string, from: nat, open: nat)
    requires from <= |line|
    ensures from <= open < |line| && Plain(line, from, open) && Quote(line[open])
            <==> Opening(line, from) == open < |line|
    ensures Plain(line, from, |line|) <==> Opening(line, from) == |line|
  {
    assert forall c :: Quote(c) <==> IsDelimiter(c);
  }

  /** The literal that comes next is the one that is found next. */
  lemma ComesNextIff(line: string, from: nat, literal: Literal)
    requires from <= |line| && literal.start > 0
    ensures ComesNext(line, from, literal)
            <==> var open := Opening(line, from);
                 open < |line| && literal.start == open + 1
                 && Closing(line, line[open], open + 1) == literal.end < |line|
  {
    OpeningIs(line, from, literal.start - 1);
    if literal.start - 1 < |line| && Quote(line[literal.start - 1]) {
      ClosesIff(line, literal.start - 1, literal.end);
    }
  }

  lemma NoneFollowsIff(line: string, from: nat)
    requires from <= |line|
    ensures NoneFollows(line, from) <==> Literals(line, from) == []
  {
    var open := Opening(line, from);
    OpeningIs(line, from, open);
    if open < |line| {
      var close := Closing(line, line[open], open + 1);
      forall other: nat ensures Closes(line, open, other) <==> close == other < |line| {
        ClosesIff(line, open, other);
      }
      assert close < |line| <==> Closes(line, open, close);
      assert NeverCloses(line, from, open) <==> close == |line|;
      forall other: nat | NeverCloses(line, from, other) ensures other == open {
        OpeningIs(line, from, other);
      }
    }
  }

  lemma FirstComesNext(line: string, from: nat, first: Literal)
    requires from <= |line|
    ensures ComesNext(line, from, first) <==> Literals(line, from) != [] && Literals(line, from)[0] == first
    ensures ComesNext(line, from, first) ==>
              from <= first.end < |line| && Literals(line, from)[1..] == Literals(line, first.end + 1)
  {
    if first.start > 0 {
      ComesNextIff(line, from, first);
    }
    var open := Opening(line, from);
    if open < |line| {
      var close := Closing(line, line[open], open + 1);
      assert close < |line| ==> Literals(line, from) == [Literal(open + 1, close)] + Literals(line, close + 1);
    }
  }

  /** A line is read as the literals that are found in it, and as no others. */
  lemma {:induction false} LiteralsAreRead(line: string, from: nat, literals: seq<Literal>)
    requires from <= |line|
    ensures ReadAs(line, from, literals) <==> literals == Literals(line, from)
    decreases |line| - from
  {
    if literals == [] {
      NoneFollowsIff(line, from);
    } else {
      var first, rest := literals[0], literals[1..];
      assert literals == [first] + rest;
      FirstComesNext(line, from, first);
      if ComesNext(line, from, first) {
        LiteralsAreRead(line, first.end + 1, rest);
        assert Literals(line, from) == [first] + Literals(line, from)[1..];
      }
    }
  }

  // ----- The title around a tag

  /** The placeholder of the literal and the stretch of the line share a character. */
  predicate Overlaps(literal: Literal, span: Span, from: nat, to: nat) {
    literal.start + span.start < to && from < literal.start + span.end
  }

  /** A stretch of the literal around the tag that no placeholder overlaps but one that overlaps the tag itself. */
  predicate FreeAround(spans: seq<Span>, literal: Literal, start: nat, end: nat, from: nat, to: nat) {
    && literal.start <= from <= start && end <= to <= literal.end
    && forall span | span in spans && !Overlaps(literal, span, start, end) :: !Overlaps(literal, span, from, to)
  }

  /** The fixed text around a tag is the longest such stretch. */
  lemma FragmentIsLongest(line: string, spans: seq<Span>, literal: Literal, start: nat, end: nat, fragment: Span,
                          from: nat, to: nat)
    requires start < end && IsFragment(line, spans, literal, start, end, fragment)
    requires forall span | span in spans :: span.start < span.end
    ensures FreeAround(spans, literal, start, end, fragment.start, fragment.end)
    ensures FreeAround(spans, literal, start, end, from, to) ==> fragment.start <= from && to <= fragment.end
  {
  }
}
