/** What the text files of init come to, character by character: their markers, their lines and what is kept. */
module ProjectTextLaws {
  import opened Labels
  import opened ProjectText
  import opened Spaces
  import opened TrimLaws

  // ----- Texts in texts

  ghost predicate HasText(text: string, wanted: string) {
    exists left, right :: text == left + wanted + right
  }

  lemma HoldsIff(text: string, wanted: string)
    ensures Holds(text, wanted) <==> HasText(text, wanted)
  {
    if k: nat :| k <= |text| && OccursAt(text, wanted, k) {
      assert text == text[..k] + wanted + text[k + |wanted|..];
    }
    if left, right :| text == left + wanted + right {
      assert text[|left|..|left| + |wanted|] == wanted;
      assert OccursAt(text, wanted, |left|);
    }
  }

  lemma BlankIff(text: string)
    ensures Blank(text) <==> AllWhite(text)
  {
    forall c ensures White(c) <==> IsSpace(c) {
      WhiteIsSpace(c);
    }
  }

  /** The text is its core with nothing but newlines behind it. */
  ghost predicate UpToNewlines(text: string, core: string) {
    && (core == "" || core[|core| - 1] != '\n')
    && exists newlines :: text == core + newlines && OnlyNewlines(newlines)
  }

  predicate OnlyNewlines(text: string) {
    forall c | c in text :: c == '\n'
  }

  lemma LastIsNewline(newlines: string)
    requires OnlyNewlines(newlines) && newlines != ""
    ensures newlines[|newlines| - 1] == '\n' && OnlyNewlines(newlines[..|newlines| - 1])
  {
    assert newlines[|newlines| - 1] in newlines;
    var front := newlines[..|newlines| - 1];
    forall c | c in front ensures c == '\n' {
      var i :| 0 <= i < |front| && front[i] == c;
      assert newlines[i] in newlines;
    }
  }

  lemma {:induction false} TrimmedIsUpToNewlines(text: string) returns (newlines: string)
    ensures OnlyNewlines(newlines) && text == TrimNewlines(text) + newlines
    ensures TrimNewlines(text) == "" || TrimNewlines(text)[|TrimNewlines(text)| - 1] != '\n'
  {
    if text != "" && text[|text| - 1] == '\n' {
      newlines := TrimmedIsUpToNewlines(text[..|text| - 1]);
      newlines := newlines + "\n";
    } else {
      newlines := "";
    }
  }

  lemma {:induction false} TrimsToCore(core: string, newlines: string)
    requires OnlyNewlines(newlines) && (core == "" || core[|core| - 1] != '\n')
    ensures TrimNewlines(core + newlines) == core
  {
    if newlines == "" {
      assert core + newlines == core;
    } else {
      var fewer := newlines[..|newlines| - 1];
      LastIsNewline(newlines);
      assert (core + newlines)[..|core + newlines| - 1] == core + fewer;
      TrimsToCore(core, fewer);
    }
  }

  lemma UpToNewlinesIff(text: string, core: string)
    ensures UpToNewlines(text, core) <==> core == TrimNewlines(text)
  {
    var newlines := TrimmedIsUpToNewlines(text);
    if UpToNewlines(text, core) {
      var behind :| text == core + behind && OnlyNewlines(behind);
      TrimsToCore(core, behind);
    }
  }

  // ----- AGENTS.md

  const BEGIN := "<!-- shallnot:begin -->"
  const END := "<!-- shallnot:end -->"

  function SectionOf(body: string): string {
    "<!-- shallnot:begin -->\n" + body + "\n<!-- shallnot:end -->\n"
  }

  /** The text has a section: from the first begin marker to the first end marker and the newline behind it, if any. */
  ghost predicate HasSection(text: string, before: string, inner: string, line: string, after: string) {
    && text == before + (BEGIN + inner + END + line) + after
    && (line == "\n" || (line == "" && !("\n" <= after)))
    && !HasText(before, BEGIN) && !HasText(before, END) && !HasText(inner, END)
  }

  ghost predicate HasNoMarker(text: string) {
    !HasText(text, BEGIN) && !HasText(text, END)
  }

  /** The section takes the place of the one that is there, or goes to the end of a text without any marker. */
  ghost predicate Rewritten(body: string, text: string, written: string) {
    || (exists before, inner, line, after ::
          HasSection(text, before, inner, line, after) && written == before + SectionOf(body) + after)
    || (HasNoMarker(text) && AllWhite(text) && written == SectionOf(body))
    || (&& HasNoMarker(text) && !AllWhite(text)
        && exists core :: UpToNewlines(text, core) && written == core + "\n\n" + SectionOf(body))
  }

  lemma SectionIs(body: string)
    ensures Section(body) == SectionOf(body)
  {
    assert SECTION_BEGIN + "\n" == "<!-- shallnot:begin -->\n";
    assert "\n" + SECTION_END + "\n" == "\n<!-- shallnot:end -->\n";
    assert SECTION_BEGIN + "\n" + body + "\n" + SECTION_END + "\n"
           == (SECTION_BEGIN + "\n") + body + ("\n" + SECTION_END + "\n");
  }

  /** A marker in front of which it does not stand is the first one. */
  lemma MarkerIsFirst(left: string, marker: string, rest: string)
    requires IsMarker(marker) && !Holds(left, marker)
    ensures IndexFrom(left + (marker + rest), marker, 0) == |left|
  {
    var marked := marker + rest;
    assert OccursAt(marked, marker, 0);
    OccursInRight(left, marked, marker, 0);
    forall k: nat | k < |left| ensures !OccursAt(left + marked, marker, k) {
      if OccursAt(left + marked, marker, k) {
        OccursOnOneSide(left, marked, marker, k);
      }
    }
    FirstIndex(left + marked, marker, |left|);
  }

  /** No marker begins in another that it differs from. */
  lemma NoneInAnother(before: string, begin: string, inner: string, end: string, i: nat)
    requires IsMarker(begin) && IsMarker(end) && i < |begin| && i < |end| && begin[i] != end[i]
    requires !Holds(before, end) && !Holds(inner, end)
    ensures !Holds(before + (begin + inner), end)
  {
    var tail := begin + inner;
    if k: nat :| k <= |before + tail| && OccursAt(before + tail, end, k) {
      OccursOnOneSide(before, tail, end, k);
      var j := k - |before|;
      assert OccursAt(tail, end, j);
      OccursChar(tail, end, j, 0);
      assert tail[j + i] == end[i] by {
        OccursChar(tail, end, j, i);
      }
      if j > 0 {
        assert tail[j..j + |end|] == inner[j - |begin|..j - |begin| + |end|];
        assert OccursAt(inner, end, j - |begin|);
      }
    }
  }

  lemma Grouped(before: string, begin: string, inner: string, end: string, line: string, after: string)
    ensures before + (begin + inner + end + line) + after == before + (begin + inner) + (end + (line + after))
  {
  }

  /** The newline behind a section is dropped. */
  lemma DroppedLine(line: string, after: string)
    requires line == "\n" || (line == "" && !("\n" <= after))
    ensures DropNewline(line + after) == after
  {
    assert line == "\n" ==> (line + after)[1..] == after;
    assert line == "" ==> line + after == after;
  }

  lemma SectionIsFound(text: string, before: string, inner: string, line: string, after: string)
    requires HasSection(text, before, inner, line, after)
    ensures Marked(text) && Before(text) == before && After(text) == after
  {
    MarkersAreMarkers();
    HoldsIff(before, BEGIN);
    HoldsIff(before, END);
    HoldsIff(inner, END);
    NoneInAnother(before, SECTION_BEGIN, inner, SECTION_END, 14);
    Grouped(before, SECTION_BEGIN, inner, SECTION_END, line, after);
    FoundBetween(text, before, SECTION_BEGIN, inner, SECTION_END, line + after);
    DroppedLine(line, after);
  }

  lemma Pieces(before: string, begin: string, inner: string, end: string, rest: string)
    ensures var text := before + (begin + inner) + (end + rest);
            && text == before + (begin + (inner + (end + rest)))
            && text[..|before|] == before
            && text[|before| + |begin| + |inner| + |end|..] == rest
  {
  }

  lemma FoundBetween(text: string, before: string, begin: string, inner: string, end: string, rest: string)
    requires IsMarker(begin) && IsMarker(end) && !Holds(before, begin) && !Holds(before + (begin + inner), end)
    requires text == before + (begin + inner) + (end + rest)
    ensures var i, j := IndexFrom(text, begin, 0), IndexFrom(text, end, 0);
            0 <= i < j && text[..i] == before && text[j + |end|..] == rest
  {
    Pieces(before, begin, inner, end, rest);
    var left, right := before + (begin + inner), inner + (end + rest);
    MarkerIsFirst(before, begin, right);
    assert IndexFrom(text, begin, 0) == |before|;
    MarkerIsFirst(left, end, rest);
    assert IndexFrom(text, end, 0) == |left| == |before| + |begin| + |inner|;
  }

  lemma UnmarkedIff(text: string)
    ensures Unmarked(text) <==> HasNoMarker(text)
  {
    HoldsIff(text, BEGIN);
    HoldsIff(text, END);
  }

  lemma RewrittenIsWritten(body: string, text: string, written: string)
    requires Rewritten(body, text, written)
    ensures AgentsFile(body, text) == Ok(written)
  {
    AgentsFileReplaces(body, text);
    SectionIs(body);
    UnmarkedIff(text);
    BlankIff(text);
    if before, inner, line, after :| HasSection(text, before, inner, line, after)
                                     && written == before + SectionOf(body) + after {
      SectionIsFound(text, before, inner, line, after);
    } else if core :| HasNoMarker(text) && !AllWhite(text) && UpToNewlines(text, core)
                      && written == core + "\n\n" + SectionOf(body) {
      UpToNewlinesIff(text, core);
    }
  }

  lemma MarkedHasSection(text: string) returns (inner: string, line: string)
    requires Marked(text)
    ensures HasSection(text, Before(text), inner, line, After(text))
  {
    inner, line := MarkedIsSplit(text);
    HoldsIff(Before(text), BEGIN);
    HoldsIff(Before(text), END);
    HoldsIff(inner, END);
  }

  /** AGENTS.md is rewritten in this way; a file with one marker and not the other, or with an end first, is refused. */
  lemma AgentsFileExactly(body: string, text: string, written: string)
    ensures AgentsFile(body, text) == Ok(written) <==> Rewritten(body, text, written)
    ensures AgentsFile(body, text).Ok? || AgentsFile(body, text).Err?
  {
    AgentsFileReplaces(body, text);
    SectionIs(body);
    UnmarkedIff(text);
    BlankIff(text);
    if AgentsFile(body, text) == Ok(written) {
      if Marked(text) {
        var inner, line := MarkedHasSection(text);
      } else {
        UpToNewlinesIff(text, TrimNewlines(text));
      }
    } else if Rewritten(body, text, written) {
      RewrittenIsWritten(body, text, written);
    }
  }

  // ----- CLAUDE.md

  predicate EndsALine(text: string) {
    text == "" || text[|text| - 1] == '\n'
  }

  predicate StartsALine(text: string) {
    text == "" || text[0] == '\n'
  }

  /** The line stands in the text between two newlines, or between one and an end. */
  ghost predicate HasLine(text: string, line: string) {
    '\n' !in line && exists left, right :: EndsALine(left) && StartsALine(right) && text == left + line + right
  }

  lemma {:induction false} FirstLine(text: string)
    ensures var first := Lines(text)[0];
            '\n' !in first && first <= text && (text == first || text[|first|] == '\n')
  {
    if text != "" && text[0] != '\n' {
      FirstLine(text[1..]);
      assert text == [text[0]] + text[1..];
    }
  }

  lemma StandsThere(text: string, left: string, line: string, right: string)
    requires '\n' !in line && EndsALine(left) && StartsALine(right) && text == left + line + right
    ensures HasLine(text, line)
  {
  }

  /** A line of the rest is one of the text, behind the first line. */
  lemma LineOfRest(text: string, first: string, rest: string, line: string)
    requires text == first + "\n" + rest && HasLine(rest, line)
    ensures HasLine(text, line)
  {
    var left, right :| EndsALine(left) && StartsALine(right) && rest == left + line + right;
    StandsThere(text, first + "\n" + left, line, right);
  }

  lemma FirstAndRest(text: string, first: string, rest: string)
    requires text == first + "\n" + rest && '\n' !in first
    ensures Lines(text) == [first] + Lines(rest)
  {
    LinesConcat(first, rest);
    OneLine(first);
  }

  lemma {:induction false} LinesAreLines(text: string, line: string)
    requires line in Lines(text)
    ensures HasLine(text, line)
    decreases |text|
  {
    var first := Lines(text)[0];
    FirstLine(text);
    if text == first {
      OneLine(text);
      StandsThere(text, "", line, "");
    } else {
      var rest := text[|first| + 1..];
      assert text == first + "\n" + rest;
      FirstAndRest(text, first, rest);
      if line == first {
        StandsThere(text, "", line, "\n" + rest);
      } else {
        LinesAreLines(rest, line);
        LineOfRest(text, first, rest, line);
      }
    }
  }

  lemma LineIsInFront(line: string, right: string)
    requires '\n' !in line && StartsALine(right)
    ensures line in Lines(line + right)
  {
    OneLine(line);
    if right == "" {
      assert line + right == line;
    } else {
      LinesConcat(line, right[1..]);
      assert line + right == line + "\n" + right[1..];
    }
  }

  /** The lines of a text are those that stand in it between newlines. */
  lemma LinesIff(text: string, line: string)
    ensures line in Lines(text) <==> HasLine(text, line)
  {
    if line in Lines(text) {
      LinesAreLines(text, line);
    }
    if '\n' !in line {
      if left, right :| EndsALine(left) && StartsALine(right) && text == left + line + right {
        LineIsInFront(line, right);
        if left == "" {
          assert text == line + right;
        } else {
          var front := left[..|left| - 1];
          assert text == front + "\n" + (line + right);
          LinesConcat(front, line + right);
        }
      }
    }
  }

  /** Some line is the import, but for white space around it. */
  ghost predicate ImportsAgents(text: string) {
    exists line :: HasLine(text, line) && Trimmed(line, "@AGENTS.md")
  }

  lemma ImportsIff(text: string)
    ensures Imports(text) <==> ImportsAgents(text)
  {
    forall line ensures line in Lines(text) <==> HasLine(text, line) {
      LinesIff(text, line);
    }
    forall line ensures Trim(line) == AGENTS_IMPORT <==> Trimmed(line, "@AGENTS.md") {
      TrimmedIff(line, "@AGENTS.md");
    }
  }

  /** CLAUDE.md keeps a text that has the import; else the import goes behind the text, with an empty line between. */
  lemma ClaudeMemoryIs(text: string, core: string)
    requires UpToNewlines(text, core)
    ensures ClaudeMemory(text) == if ImportsAgents(text) then text
                                  else if AllWhite(text) then "@AGENTS.md\n" else core + "\n\n@AGENTS.md\n"
  {
    ImportsIff(text);
    BlankIff(text);
    UpToNewlinesIff(text, core);
    assert AGENTS_IMPORT + "\n" == "@AGENTS.md\n";
    assert core + "\n\n" + AGENTS_IMPORT + "\n" == core + "\n\n@AGENTS.md\n";
  }

  // ----- conftest.py

  /** The text is its core with nothing but newlines in front of it. */
  ghost predicate BehindNewlines(text: string, core: string) {
    && (core == "" || core[0] != '\n')
    && exists newlines :: text == newlines + core && OnlyNewlines(newlines)
  }

  lemma {:induction false} BehindNewlinesAre(text: string)
    ensures BehindNewlines(text, TrimLeadingNewlines(text))
  {
    if text != "" && text[0] == '\n' {
      BehindNewlinesAre(text[1..]);
      var newlines :| text[1..] == newlines + TrimLeadingNewlines(text) && OnlyNewlines(newlines);
      assert text == ("\n" + newlines) + TrimLeadingNewlines(text);
    } else {
      assert text == "" + text;
    }
  }

  /** A file with the hook stays, one with a hook of its own is refused, and any other gets the hook at its end. */
  lemma ConftestIs(hook: string, text: string, core: string)
    requires UpToNewlines(text, core)
    ensures var written := PytestConftest(hook, text);
            if HasText(text, "item.iter_markers(name=\"verifies\")") then written == Ok(text)
            else if HasText(text, "def pytest_collection_modifyitems") || HasText(text, "def pytest_configure") then
              written.Err?
            else if AllWhite(text) then written.Ok? && BehindNewlines(hook, written.value)
            else written == Ok(core + "\n\n" + hook)
  {
    HoldsIff(text, CONFTEST_MARKER);
    HoldsIff(text, MODIFY_ITEMS);
    HoldsIff(text, CONFIGURE);
    BlankIff(text);
    UpToNewlinesIff(text, core);
    BehindNewlinesAre(hook);
  }
}
