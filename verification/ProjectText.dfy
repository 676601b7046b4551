/**
 The text files init keeps current: the section of AGENTS.md between its markers,
 the import that CLAUDE.md needs for it, and the hook of conftest.py. Each is
 rewritten from what it holds, so that the rest of it stays.
 */
module ProjectText {
  import opened Labels
  import opened Spaces

  /** What a provisioner comes to; a panic ends the program where an error is reported. */
  datatype Result<+T> = Ok(value: T) | Err | Panic

  const SECTION_BEGIN := "<!-- shallnot:begin -->"
  const SECTION_END := "<!-- shallnot:end -->"
  const AGENTS_IMPORT := "@AGENTS.md"

  predicate Blank(text: string) {
    forall c | c in text :: IsSpace(c)
  }

  predicate Holds(text: string, wanted: string) {
    exists k: nat | k <= |text| :: OccursAt(text, wanted, k)
  }

  function TrimNewlines(text: string): string {
    if text != "" && text[|text| - 1] == '\n' then TrimNewlines(text[..|text| - 1]) else text
  }

  function DropNewline(text: string): string {
    if text != "" && text[0] == '\n' then text[1..] else text
  }

  // ----- The section of AGENTS.md

  function Section(body: string): string {
    SECTION_BEGIN + "\n" + body + "\n" + SECTION_END + "\n"
  }

  /**
   A marked file gets the section in place of its own, an unmarked one at
   its end; one marker without the other is an error.
   */
  function AgentsFile(body: string, text: string): Result<string> {
    var begin, end := IndexFrom(text, SECTION_BEGIN, 0), IndexFrom(text, SECTION_END, 0);
    if begin >= 0 && end > begin then Ok(text[..begin] + Section(body) + DropNewline(text[end + |SECTION_END|..]))
    else if begin >= 0 || end >= 0 then Err
    else if Blank(text) then Ok(Section(body))
    else Ok(TrimNewlines(text) + "\n\n" + Section(body))
  }

  /** Both markers are there, the first end after the first begin. */
  predicate Marked(text: string) {
    0 <= IndexFrom(text, SECTION_BEGIN, 0) < IndexFrom(text, SECTION_END, 0)
  }

  predicate Unmarked(text: string) {
    IndexFrom(text, SECTION_BEGIN, 0) < 0 && IndexFrom(text, SECTION_END, 0) < 0
  }

  /** What stands before the section, or before where it would be added. */
  function Before(text: string): string {
    if Marked(text) then text[..IndexFrom(text, SECTION_BEGIN, 0)]
    else if Blank(text) then ""
    else TrimNewlines(text) + "\n\n"
  }

  function After(text: string): string {
    if Marked(text) then DropNewline(text[IndexFrom(text, SECTION_END, 0) + |SECTION_END|..]) else ""
  }

  /** The first occurrence is at an index when one is there and none is before. */
  lemma FirstIndex(text: string, wanted: string, index: nat)
    requires OccursAt(text, wanted, index) && forall k: nat | k < index :: !OccursAt(text, wanted, k)
    ensures IndexFrom(text, wanted, 0) == index
  {
  }

  /** A marker starts with a character that it holds nowhere else, and holds no newline. */
  predicate IsMarker(marker: string) {
    && marker != "" && marker[0] == '<' && '\n' !in marker
    && forall k | 1 <= k < |marker| :: marker[k] != '<'
  }

  lemma MarkersAreMarkers()
    ensures IsMarker(SECTION_BEGIN) && IsMarker(SECTION_END)
    ensures |SECTION_BEGIN| == 23 && |SECTION_END| == 21 && SECTION_BEGIN[14] != SECTION_END[14]
  {
  }

  /** Neither marker occurs in the other. */
  lemma BeginHoldsNoEnd(i: nat)
    ensures !OccursAt(SECTION_BEGIN, SECTION_END, i)
  {
    MarkersAreMarkers();
    if i + |SECTION_END| <= |SECTION_BEGIN| {
      var j := if i == 0 then 14 else 0;
      assert SECTION_BEGIN[i..i + |SECTION_END|][j] == SECTION_BEGIN[i + j] != SECTION_END[j];
    }
  }

  lemma NoMarkerAtNewline(text: string, marker: string, k: nat)
    requires IsMarker(marker) && k < |text| && text[k] == '\n'
    ensures !OccursAt(text, marker, k)
  {
    if k + |marker| <= |text| {
      assert text[k..k + |marker|][0] == '\n';
    }
  }

  lemma OccursChar(text: string, wanted: string, k: nat, i: nat)
    requires OccursAt(text, wanted, k) && i < |wanted|
    ensures text[k + i] == wanted[i]
  {
    assert text[k..k + |wanted|][i] == text[k + i];
  }

  /**
   An occurrence of a marker lies wholly to one side of a cut in front
   of a newline or of a marker's first character.
   */
  lemma OccursOnOneSide(left: string, right: string, marker: string, k: nat)
    requires IsMarker(marker) && right != "" && (right[0] == '<' || right[0] == '\n')
             && OccursAt(left + right, marker, k)
    ensures OccursAt(left, marker, k) || (k >= |left| && OccursAt(right, marker, k - |left|))
  {
    var text := left + right;
    if k + |marker| <= |left| {
      assert text[k..k + |marker|] == left[k..k + |marker|];
    } else if k < |left| {
      OccursChar(text, marker, k, |left| - k);
    } else {
      assert text[k..k + |marker|] == right[k - |left|..k - |left| + |marker|];
    }
  }

  lemma OccursInLeft(left: string, right: string, wanted: string, k: nat)
    requires OccursAt(left, wanted, k)
    ensures OccursAt(left + right, wanted, k)
  {
    assert (left + right)[k..k + |wanted|] == left[k..k + |wanted|];
  }

  lemma OccursInRight(left: string, right: string, wanted: string, k: nat)
    requires OccursAt(right, wanted, k)
    ensures OccursAt(left + right, wanted, |left| + k)
  {
    assert (left + right)[|left| + k..|left| + k + |wanted|] == right[k..k + |wanted|];
  }

  /** Text free of the markers, put before a section, leaves the begin marker where the section starts. */
  lemma BeginIsFirst(before: string, body: string, after: string)
    requires !Holds(before, SECTION_BEGIN)
    ensures IndexFrom(before + Section(body) + after, SECTION_BEGIN, 0) == |before|
  {
    MarkersAreMarkers();
    var rest := Section(body) + after;
    var text := before + rest;
    assert text == before + Section(body) + after;
    assert OccursAt(rest, SECTION_BEGIN, 0);
    OccursInRight(before, rest, SECTION_BEGIN, 0);
    forall k: nat | k < |before| ensures !OccursAt(text, SECTION_BEGIN, k) {
      if OccursAt(text, SECTION_BEGIN, k) {
        OccursOnOneSide(before, rest, SECTION_BEGIN, k);
      }
    }
    FirstIndex(text, SECTION_BEGIN, |before|);
  }

  /** Everything behind the begin marker's text and before the end marker of the section. */
  function Inner(body: string): string {
    SECTION_BEGIN + "\n" + body
  }

  /** The first end marker behind such text is the section's own, unless the body holds one. */
  lemma NoEndInside(before: string, body: string, k: nat)
    requires !Holds(before, SECTION_END) && OccursAt(before + Inner(body), SECTION_END, k)
    ensures k >= |before| + |SECTION_BEGIN| + 1 && OccursAt(body, SECTION_END, k - |before| - |SECTION_BEGIN| - 1)
  {
    MarkersAreMarkers();
    OccursOnOneSide(before, Inner(body), SECTION_END, k);
    var i := k - |before|;
    assert OccursAt(Inner(body), SECTION_END, i);
    var line := "\n" + body;
    assert Inner(body) == SECTION_BEGIN + line;
    OccursOnOneSide(SECTION_BEGIN, line, SECTION_END, i);
    BeginHoldsNoEnd(i);
    var j := i - |SECTION_BEGIN|;
    NoMarkerAtNewline(line, SECTION_END, 0);
    assert line[j..j + |SECTION_END|] == body[j - 1..j - 1 + |SECTION_END|];
  }

  lemma SectionSplits(before: string, body: string, after: string)
    ensures before + Section(body) + after == (before + Inner(body)) + ("\n" + (SECTION_END + ("\n" + after)))
  {
    var tail := "\n" + SECTION_END + "\n";
    assert Section(body) == Inner(body) + tail;
    assert tail + after == "\n" + (SECTION_END + ("\n" + after));
    assert before + Section(body) + after == before + (Inner(body) + (tail + after));
  }

  lemma EndIsOwn(before: string, body: string, after: string)
    requires !Holds(before, SECTION_END) && !Holds(body, SECTION_END)
    ensures IndexFrom(before + Section(body) + after, SECTION_END, 0) == |before| + |Inner(body)| + 1
  {
    MarkersAreMarkers();
    SectionSplits(before, body, after);
    var left, marked := before + Inner(body), SECTION_END + ("\n" + after);
    var right := "\n" + marked;
    var text := left + right;
    assert OccursAt(marked, SECTION_END, 0);
    OccursInRight("\n", marked, SECTION_END, 0);
    OccursInRight(left, right, SECTION_END, 1);
    forall k: nat | k < |left| + 1 ensures !OccursAt(text, SECTION_END, k) {
      if OccursAt(text, SECTION_END, k) {
        OccursOnOneSide(left, right, SECTION_END, k);
        NoMarkerAtNewline(right, SECTION_END, 0);
        NoEndInside(before, body, k);
      }
    }
    FirstIndex(text, SECTION_END, |left| + 1);
  }

  lemma BeforeIsUnmarked(text: string)
    requires Marked(text) || Unmarked(text)
    ensures !Holds(Before(text), SECTION_BEGIN) && !Holds(Before(text), SECTION_END)
  {
    UnmarkedBefore(text, SECTION_BEGIN);
    UnmarkedBefore(text, SECTION_END);
  }

  lemma UnmarkedBefore(text: string, marker: string)
    requires (Marked(text) || Unmarked(text)) && marker in {SECTION_BEGIN, SECTION_END}
    ensures !Holds(Before(text), marker)
  {
    MarkersAreMarkers();
    if Holds(Before(text), marker) {
      var k: nat :| k <= |Before(text)| && OccursAt(Before(text), marker, k);
      if Marked(text) {
        OccursInPrefix(text, IndexFrom(text, SECTION_BEGIN, 0), marker, k);
        assert false;
      } else {
        OccursBeforeNewlines(text, marker, k);
        assert false;
      }
    }
  }

  lemma OccursInPrefix(text: string, end: nat, wanted: string, k: nat)
    requires end <= |text| && OccursAt(text[..end], wanted, k)
    ensures OccursAt(text, wanted, k)
  {
    assert text == text[..end] + text[end..];
    OccursInLeft(text[..end], text[end..], wanted, k);
  }

  /** A marker in the text a section is added to was in the file. */
  lemma OccursBeforeNewlines(text: string, marker: string, k: nat)
    requires IsMarker(marker) && OccursAt(TrimNewlines(text) + "\n\n", marker, k)
    ensures OccursAt(text, marker, k)
  {
    var trimmed := TrimNewlines(text);
    NoMarkerAtNewline("\n\n", marker, 0);
    NoMarkerAtNewline("\n\n", marker, 1);
    OccursOnOneSide(trimmed, "\n\n", marker, k);
    TrimmedIsPrefix(text);
    OccursInPrefix(text, |trimmed|, marker, k);
  }

  lemma {:induction false} TrimmedIsPrefix(text: string)
    ensures TrimNewlines(text) <= text
  {
    if text != "" && text[|text| - 1] == '\n' {
      TrimmedIsPrefix(text[..|text| - 1]);
    }
  }

  /** What is written: what stood before, the section, what stood after; a file with unbalanced markers is refused. */
  lemma AgentsFileReplaces(body: string, text: string)
    ensures AgentsFile(body, text)
            == if Marked(text) || Unmarked(text) then Ok(Before(text) + Section(body) + After(text)) else Err
  {
    if !Marked(text) {
      assert After(text) == "";
      assert Before(text) + Section(body) + "" == Before(text) + Section(body);
      assert "" + Section(body) == Section(body);
    }
  }

  /**
   The text is a section between what stands before and after it, its
   first begin marker matched by its first end marker.
   */
  ghost predicate SplitAtSection(text: string, before: string, inner: string, line: string, after: string) {
    && text == before + (SECTION_BEGIN + inner + SECTION_END + line) + after
    && (line == "\n" || (line == "" && !("\n" <= after)))
    && !Holds(before, SECTION_BEGIN) && !Holds(before, SECTION_END) && !Holds(inner, SECTION_END)
  }

  /** The text has nothing but newlines behind its core. */
  ghost predicate EndsInNewlines(text: string, core: string, newlines: string) {
    && text == core + newlines && (forall c | c in newlines :: c == '\n')
    && core != "" && core[|core| - 1] != '\n'
  }

  /** No end marker begins inside the begin marker in front of it. */
  lemma EndIsBehindBegin(text: string, begin: nat, end: nat)
    requires OccursAt(text, SECTION_BEGIN, begin) && OccursAt(text, SECTION_END, end) && begin < end
    ensures begin + |SECTION_BEGIN| <= end
  {
    MarkersAreMarkers();
    if end < begin + |SECTION_BEGIN| {
      OccursChar(text, SECTION_END, end, 0);
      OccursChar(text, SECTION_BEGIN, begin, end - begin);
    }
  }

  lemma SplitsAtBoth(text: string, first: string, second: string, i: nat, j: nat)
    requires OccursAt(text, first, i) && OccursAt(text, second, j) && i + |first| <= j
    ensures text == text[..i] + (first + text[i + |first|..j] + second) + text[j + |second|..]
  {
    var inner := text[i + |first|..j];
    assert text[..j] == text[..i] + first + inner;
    assert text == text[..j] + second + text[j + |second|..];
    assert text[..i] + first + inner + second == text[..i] + (first + inner + second);
  }

  lemma NotInBetween(text: string, wanted: string, start: nat, end: nat)
    requires start <= end <= |text| && wanted != "" && forall k: nat | k < end :: !OccursAt(text, wanted, k)
    ensures !Holds(text[start..end], wanted)
  {
    var inner := text[start..end];
    if k: nat :| k <= |inner| && OccursAt(inner, wanted, k) {
      assert text == text[..start] + inner + text[end..];
      OccursInRight(text[..start], inner, wanted, k);
      OccursInLeft(text[..start] + inner, text[end..], wanted, start + k);
    }
  }

  lemma DroppedNewline(tail: string) returns (line: string)
    ensures tail == line + DropNewline(tail) && (line == "\n" || (line == "" && !("\n" <= DropNewline(tail))))
  {
    line := if tail != "" && tail[0] == '\n' then "\n" else "";
  }

  lemma Reassemble(before: string, section: string, line: string, after: string)
    ensures before + section + (line + after) == before + (section + line) + after
  {
    assert before + section + (line + after) == before + section + line + after;
  }

  lemma MarkedIsSplit(text: string) returns (inner: string, line: string)
    requires Marked(text)
    ensures SplitAtSection(text, Before(text), inner, line, After(text))
  {
    var begin, end := IndexFrom(text, SECTION_BEGIN, 0), IndexFrom(text, SECTION_END, 0);
    EndIsBehindBegin(text, begin, end);
    BeforeIsUnmarked(text);
    inner := text[begin + |SECTION_BEGIN|..end];
    line := DroppedNewline(text[end + |SECTION_END|..]);
    NotInBetween(text, SECTION_END, begin + |SECTION_BEGIN|, end);
    SplitsAtBoth(text, SECTION_BEGIN, SECTION_END, begin, end);
    Reassemble(Before(text), SECTION_BEGIN + inner + SECTION_END, line, After(text));
  }

  lemma {:induction false} TrimmedEnds(text: string) returns (newlines: string)
    requires !Blank(text)
    ensures EndsInNewlines(text, TrimNewlines(text), newlines)
  {
    var last := |text| - 1;
    if text[last] == '\n' {
      assert text == text[..last] + [text[last]];
      newlines := TrimmedEnds(text[..last]);
      newlines := newlines + "\n";
    } else {
      newlines := "";
    }
  }

  /**
   What stands before and after is the file's own text around its section;
   where there is none, all of it but newlines at the end.
   */
  lemma AgentsFileKeepsTheRest(text: string)
    ensures Marked(text) ==> exists inner, line :: SplitAtSection(text, Before(text), inner, line, After(text))
    ensures Unmarked(text) ==> After(text) == ""
    ensures Unmarked(text) && Blank(text) ==> Before(text) == ""
    ensures Unmarked(text) && !Blank(text) ==> exists core, newlines ::
              Before(text) == core + "\n\n" && EndsInNewlines(text, core, newlines)
  {
    if Marked(text) {
      var inner, line := MarkedIsSplit(text);
    } else if !Blank(text) {
      var newlines := TrimmedEnds(text);
    }
  }

  /** Where the body holds no end marker, the file written is split at its section again, in the same way. */
  lemma WrittenSplitsAgain(body: string, text: string)
    requires (Marked(text) || Unmarked(text)) && !Holds(body, SECTION_END)
    ensures var written := Before(text) + Section(body) + After(text);
            Marked(written) && Before(written) == Before(text) && After(written) == After(text)
  {
    var before, after := Before(text), After(text);
    var written := before + Section(body) + after;
    BeforeIsUnmarked(text);
    BeginIsFirst(before, body, after);
    EndIsOwn(before, body, after);
    SectionSplits(before, body, after);
    var end := |before| + |Inner(body)| + 1;
    assert written[end + |SECTION_END|..] == "\n" + after;
  }

  /**
   Updating to one body and then to another is updating to the other: nothing
   outside the section is touched, and none of the first is left.
   */
  lemma LastSectionWins(first: string, second: string, text: string)
    requires !Holds(first, SECTION_END) && AgentsFile(first, text).Ok?
    ensures AgentsFile(second, AgentsFile(first, text).value) == AgentsFile(second, text)
  {
    AgentsFileReplaces(first, text);
    AgentsFileReplaces(second, text);
    WrittenSplitsAgain(first, text);
    AgentsFileReplaces(second, AgentsFile(first, text).value);
  }

  /** A second run changes nothing exactly when the section's body holds no end marker. */
  lemma AgentsFileIsIdempotentIff(body: string, text: string)
    requires AgentsFile(body, text).Ok?
    ensures AgentsFile(body, AgentsFile(body, text).value) == AgentsFile(body, text) <==> !Holds(body, SECTION_END)
  {
    if Holds(body, SECTION_END) {
      GrowsEachTime(body, text);
    } else {
      LastSectionWins(body, body, text);
    }
  }

  /** A body with an end marker is cut at the first one or earlier. */
  lemma CutInside(before: string, body: string, after: string)
    requires !Holds(before, SECTION_END) && Holds(body, SECTION_END)
    ensures |before| < IndexFrom(before + Section(body) + after, SECTION_END, 0) < |before| + |Inner(body)|
  {
    MarkersAreMarkers();
    SectionSplits(before, body, after);
    var left, right := before + Inner(body), "\n" + (SECTION_END + ("\n" + after));
    var j: nat :| j <= |body| && OccursAt(body, SECTION_END, j);
    var open := SECTION_BEGIN + "\n";
    OccursInRight(open, body, SECTION_END, j);
    OccursInRight(before, open + body, SECTION_END, |open| + j);
    OccursInLeft(left, right, SECTION_END, |before| + (|open| + j));
    var end := IndexFrom(left + right, SECTION_END, 0);
    assert end <= |before| + (|open| + j);
    OccursOnOneSide(left, right, SECTION_END, end);
    if OccursAt(left, SECTION_END, end) {
      NoEndInside(before, body, end);
    }
  }

  /** What follows the cut is kept once more. */
  lemma GrowsEachTime(body: string, text: string)
    requires AgentsFile(body, text).Ok? && Holds(body, SECTION_END)
    ensures var written := AgentsFile(body, text).value;
            AgentsFile(body, written).Ok? && |AgentsFile(body, written).value| > |written|
  {
    AgentsFileReplaces(body, text);
    var before, after := Before(text), After(text);
    BeforeIsUnmarked(text);
    BeginIsFirst(before, body, after);
    CutInside(before, body, after);
    var written := before + Section(body) + after;
    AgentsFileReplaces(body, written);
    assert |written| == |before| + |Inner(body)| + 1 + |SECTION_END| + 1 + |after|;
    assert |After(written)| >= |written| - (IndexFrom(written, SECTION_END, 0) + |SECTION_END|) - 1;
  }

  // ----- The import of CLAUDE.md

  function Lines(text: string): (lines: seq<string>)
    ensures lines != []
  {
    if text == "" then [""] else WithFirst(text[0], Lines(text[1..]))
  }

  /** The lines of a text, given those of all but its first character. */
  function WithFirst(c: char, rest: seq<string>): seq<string>
    requires rest != []
  {
    if c == '\n' then [""] + rest else [[c] + rest[0]] + rest[1..]
  }

  lemma WithFirstConcat(c: char, xs: seq<string>, ys: seq<string>)
    requires xs != []
    ensures WithFirst(c, xs + ys) == WithFirst(c, xs) + ys
  {
    if c != '\n' {
      assert (xs + ys)[1..] == xs[1..] + ys;
    }
  }

  lemma {:induction false} LinesConcat(a: string, b: string)
    ensures Lines(a + "\n" + b) == Lines(a) + Lines(b)
  {
    var text := a + "\n" + b;
    if a == "" {
      assert text == ['\n'] + b;
      assert text[1..] == b;
    } else {
      LinesConcat(a[1..], b);
      assert text[1..] == a[1..] + "\n" + b;
      WithFirstConcat(a[0], Lines(a[1..]), Lines(b));
    }
  }

  predicate Imports(text: string) {
    exists line | line in Lines(text) :: Trim(line) == AGENTS_IMPORT
  }

  /** Makes the file import AGENTS.md. */
  function ClaudeMemory(text: string): string {
    if Imports(text) then text
    else if Blank(text) then AGENTS_IMPORT + "\n"
    else TrimNewlines(text) + "\n\n" + AGENTS_IMPORT + "\n"
  }

  /** A text with the import on its last line imports it. */
  lemma ImportedLast(text: string)
    ensures Imports(AGENTS_IMPORT + "\n") && Imports(text + "\n" + (AGENTS_IMPORT + "\n"))
  {
    ImportIsALine();
    LinesConcat(AGENTS_IMPORT, "");
    assert AGENTS_IMPORT + "\n" + "" == AGENTS_IMPORT + "\n";
    LinesConcat(text, AGENTS_IMPORT + "\n");
  }

  /** The file imports AGENTS.md afterwards and keeps its text, so that a second run changes nothing. */
  lemma {:induction false} ClaudeMemoryImports(text: string)
    ensures Imports(ClaudeMemory(text)) && ClaudeMemory(ClaudeMemory(text)) == ClaudeMemory(text)
    ensures TrimNewlines(text) <= ClaudeMemory(text) || Blank(text)
  {
    TrimmedIsPrefix(text);
    var trimmed := TrimNewlines(text);
    ImportedLast(trimmed + "\n");
    assert trimmed + "\n" + "\n" + (AGENTS_IMPORT + "\n") == trimmed + "\n\n" + AGENTS_IMPORT + "\n";
  }

  lemma ImportIsALine()
    ensures Lines(AGENTS_IMPORT) == [AGENTS_IMPORT] && Trim(AGENTS_IMPORT) == AGENTS_IMPORT
  {
    ImportIsALineOfItsOwn();
    ImportHasNothingToTrim();
  }

  lemma ImportIsALineOfItsOwn()
    ensures Lines(AGENTS_IMPORT) == [AGENTS_IMPORT]
  {
    OneLine(AGENTS_IMPORT);
  }

  lemma ImportHasNothingToTrim()
    ensures Trim(AGENTS_IMPORT) == AGENTS_IMPORT
  {
    NothingToTrim(AGENTS_IMPORT);
  }

  lemma NothingToTrim(text: string)
    requires text != "" && !IsSpace(text[0]) && !IsSpace(text[|text| - 1])
    ensures Trim(text) == text
  {
  }

  lemma {:induction false} OneLine(text: string)
    requires '\n' !in text
    ensures Lines(text) == [text]
  {
    if text != "" {
      OneLine(text[1..]);
      assert text == [text[0]] + text[1..];
    }
  }

  // ----- The hook of conftest.py

  const CONFTEST_MARKER := "item.iter_markers(name=\"verifies\")"
  const CONFIGURE := "def pytest_configure"
  const MODIFY_ITEMS := "def pytest_collection_modifyitems"

  /** Adds a hook to a file that defines none; the hook starts with a newline and holds the marker. */
  function PytestConftest(hook: string, text: string): Result<string> {
    if Holds(text, CONFTEST_MARKER) then Ok(text)
    else if Holds(text, MODIFY_ITEMS) || Holds(text, CONFIGURE) then Err
    else if Blank(text) then Ok(TrimLeadingNewlines(hook))
    else Ok(TrimNewlines(text) + "\n\n" + hook)
  }

  function TrimLeadingNewlines(text: string): string {
    if text != "" && text[0] == '\n' then TrimLeadingNewlines(text[1..]) else text
  }

  lemma {:induction false} LeadingNewlinesHoldNothing(text: string, wanted: string)
    requires wanted != "" && wanted[0] != '\n' && Holds(text, wanted)
    ensures Holds(TrimLeadingNewlines(text), wanted)
  {
    if text != "" && text[0] == '\n' {
      var k: nat :| k <= |text| && OccursAt(text, wanted, k);
      OccursChar(text, wanted, k, 0);
      SliceOfSlice(text, 1, |text|, k - 1, k - 1 + |wanted|);
      assert text[1..|text|] == text[1..];
      assert OccursAt(text[1..], wanted, k - 1);
      LeadingNewlinesHoldNothing(text[1..], wanted);
    }
  }

  /** The hook is added once. */
  lemma ConftestIsIdempotent(hook: string, text: string)
    requires Holds(hook, CONFTEST_MARKER) && PytestConftest(hook, text).Ok?
    ensures PytestConftest(hook, PytestConftest(hook, text).value) == PytestConftest(hook, text)
  {
    if !Holds(text, CONFTEST_MARKER) {
      if Blank(text) {
        LeadingNewlinesHoldNothing(hook, CONFTEST_MARKER);
      } else {
        var k: nat :| k <= |hook| && OccursAt(hook, CONFTEST_MARKER, k);
        OccursInRight(TrimNewlines(text) + "\n\n", hook, CONFTEST_MARKER, k);
      }
    }
  }
}
