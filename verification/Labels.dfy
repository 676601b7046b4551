/** Whole-word occurrences of a source tag's label in the identity of a test. */
module Labels {

  /** The label occurs in the text at the index. */
  predicate OccursAt(text: string, wanted: string, index: nat) {
    index + |wanted| <= |text| && text[index..index + |wanted|] == wanted
  }

  /** The first index of the label at or after offset, or -1. */
  function IndexFrom(text: string, wanted: string, offset: nat): (index: int)
    requires offset <= |text|
    ensures index == -1 || (offset <= index && OccursAt(text, wanted, index))
    ensures forall k: nat | offset <= k && (index == -1 || k < index) :: !OccursAt(text, wanted, k)
    decreases |text| - offset
  {
    if OccursAt(text, wanted, offset) then offset
    else if offset == |text| then -1
    else IndexFrom(text, wanted, offset + 1)
  }

  predicate BoundaryBefore(isWord: char -> bool, text: string, index: nat, guarded: bool)
    requires index <= |text|
  {
    !guarded || index == 0 || !isWord(text[index - 1])
  }

  predicate BoundaryAfter(isWord: char -> bool, text: string, index: nat, guarded: bool) {
    !guarded || index >= |text| || !isWord(text[index])
  }

  /** The label occurs at the index, and no word of the text continues over either end of it. */
  predicate OccursWhole(isWord: char -> bool, text: string, wanted: string, index: nat)
    requires wanted != ""
  {
    && OccursAt(text, wanted, index)
    && (isWord(wanted[0]) && index > 0 ==> !isWord(text[index - 1]))
    && (isWord(wanted[|wanted| - 1]) && index + |wanted| < |text| ==> !isWord(text[index + |wanted|]))
  }

  predicate Contains(isWord: char -> bool, identity: string, wanted: string) {
    wanted == "" || exists index: nat | index <= |identity| :: OccursWhole(isWord, identity, wanted, index)
  }

  /** Tries each occurrence in turn, from one past the start of the one before. */
  method ContainsLabel(isWord: char -> bool, identity: string, wanted: string) returns (found: bool)
    ensures found == Contains(isWord, identity, wanted)
  {
    if wanted == "" {
      return true;
    }
    var guardStart, guardEnd := isWord(wanted[0]), isWord(wanted[|wanted| - 1]);
    var offset := 0;
    while true
      invariant 0 <= offset <= |identity|
      invariant forall k: nat | k < offset :: !OccursWhole(isWord, identity, wanted, k)
      decreases |identity| - offset
    {
      var index := IndexFrom(identity, wanted, offset);
      if index < 0 {
        return false;
      }
      var end := index + |wanted|;
      if BoundaryBefore(isWord, identity, index, guardStart) && BoundaryAfter(isWord, identity, end, guardEnd) {
        assert OccursWhole(isWord, identity, wanted, index);
        return true;
      }
      offset := index + 1;
    }
  }

  // ----- Folding names

  /** Whitespace and underscores separate the fields of a name. */
  predicate Separates(isSpace: char -> bool, c: char) {
    isSpace(c) || c == '_'
  }

  /** The fields of the text joined by single spaces; pending says that a field came before a separator. */
  function Folded(isSpace: char -> bool, text: string, started: bool, pending: bool): string {
    if text == "" then ""
    else if Separates(isSpace, text[0]) then Folded(isSpace, text[1..], started, started)
    else (if pending then " " else "") + [text[0]] + Folded(isSpace, text[1..], true, false)
  }

  function Normalize(isSpace: char -> bool, text: string): string {
    Folded(isSpace, text, false, false)
  }

  lemma FoldedField(isSpace: char -> bool, c: char, rest: string, started: bool, pending: bool)
    requires !Separates(isSpace, c)
    ensures Folded(isSpace, [c] + rest, started, pending)
            == if pending then " " + ([c] + Folded(isSpace, rest, true, false))
            else [c] + Folded(isSpace, rest, true, false)
  {
    assert ([c] + rest)[1..] == rest;
    var tail := Folded(isSpace, rest, true, false);
    assert " " + [c] + tail == " " + ([c] + tail) && "" + [c] + tail == [c] + tail;
  }

  lemma FoldedSpace(isSpace: char -> bool, rest: string, started: bool)
    requires isSpace(' ')
    ensures Folded(isSpace, " " + rest, started, false) == Folded(isSpace, rest, started, started)
  {
    assert (" " + rest)[1..] == rest;
  }

  /** A folded text folds to itself. */
  lemma {:induction false} FoldedAgain(isSpace: char -> bool, text: string, started: bool, pending: bool)
    requires isSpace(' ') && (pending ==> started)
    ensures Folded(isSpace, Folded(isSpace, text, started, pending), started, false)
            == Folded(isSpace, text, started, pending)
  {
    if text != "" {
      if Separates(isSpace, text[0]) {
        FoldedAgain(isSpace, text[1..], started, started);
      } else {
        FoldedAgain(isSpace, text[1..], true, false);
        var tail := Folded(isSpace, text[1..], true, false);
        var shown := [text[0]] + tail;
        assert text == [text[0]] + text[1..];
        FoldedField(isSpace, text[0], text[1..], started, pending);
        FoldedField(isSpace, text[0], tail, started, pending);
        if pending {
          FoldedSpace(isSpace, shown, started);
        }
      }
    }
  }

  /** Folding a name twice changes nothing more. */
  lemma NormalizeIsIdempotent(isSpace: char -> bool, text: string)
    requires isSpace(' ')
    ensures Normalize(isSpace, Normalize(isSpace, text)) == Normalize(isSpace, text)
  {
    FoldedAgain(isSpace, text, false, false);
  }

  /** Spaces and underscores in a name are read alike. */
  lemma {:induction false} SeparatorsReadAlike(isSpace: char -> bool, a: string, b: string, started: bool,
                                               pending: bool)
    requires |a| == |b|
    requires forall i | 0 <= i < |a| :: a[i] == b[i] || (Separates(isSpace, a[i]) && Separates(isSpace, b[i]))
    ensures Folded(isSpace, a, started, pending) == Folded(isSpace, b, started, pending)
  {
    if a != "" {
      if Separates(isSpace, a[0]) {
        SeparatorsReadAlike(isSpace, a[1..], b[1..], started, started);
      } else {
        SeparatorsReadAlike(isSpace, a[1..], b[1..], true, false);
      }
    }
  }
}
