/** What it means for a label to occur in a name, and what folding makes of a name. */
module LabelLaws {
  import opened Labels

  // ----- Whole words

  /** A word runs on from the end of the first text into the second. */
  predicate RunsOn(isWord: char -> bool, left: string, right: string) {
    left != "" && right != "" && isWord(left[|left| - 1]) && isWord(right[0])
  }

  /** The label stands in the text, and no word runs on over either end of it. */
  ghost predicate Stands(isWord: char -> bool, text: string, wanted: string) {
    exists before, after ::
      text == before + (wanted + after) && !RunsOn(isWord, before, wanted) && !RunsOn(isWord, wanted, after)
  }

  lemma StandsAt(isWord: char -> bool, before: string, wanted: string, after: string)
    requires wanted != "" && !RunsOn(isWord, before, wanted) && !RunsOn(isWord, wanted, after)
    ensures OccursWhole(isWord, before + (wanted + after), wanted, |before|)
  {
    var text, end := before + (wanted + after), |before| + |wanted|;
    assert text[|before|..end] == wanted && text[end..] == after && text[..|before|] == before;
    assert before != "" ==> text[|before| - 1] == before[|before| - 1];
    assert after != "" ==> text[end] == after[0];
  }

  /** A label occurs in a text where it is empty or stands in it. */
  lemma ContainsIff(isWord: char -> bool, text: string, wanted: string)
    ensures Contains(isWord, text, wanted) <==> wanted == "" || Stands(isWord, text, wanted)
  {
    if wanted != "" && Contains(isWord, text, wanted) {
      var index: nat :| index <= |text| && OccursWhole(isWord, text, wanted, index);
      var before, after := text[..index], text[index + |wanted|..];
      assert text == before + (wanted + after);
      assert !RunsOn(isWord, before, wanted) && !RunsOn(isWord, wanted, after);
    }
    if wanted != "" && Stands(isWord, text, wanted) {
      var before, after :| text == before + (wanted + after)
                           && !RunsOn(isWord, before, wanted) && !RunsOn(isWord, wanted, after);
      StandsAt(isWord, before, wanted, after);
      assert |before| <= |text|;
    }
  }

  // ----- Folding

  /** A field of a name: characters that separate nothing. */
  predicate IsField(isSpace: char -> bool, field: string) {
    field != "" && forall i | 0 <= i < |field| :: !isSpace(field[i]) && field[i] != '_'
  }

  /** Whitespace and underscores, at least one. */
  predicate IsGap(isSpace: char -> bool, gap: string) {
    gap != "" && forall i | 0 <= i < |gap| :: isSpace(gap[i]) || gap[i] == '_'
  }

  /** The fields with a gap in front of each but perhaps the first, and perhaps one at the end. */
  ghost predicate MadeOf(isSpace: char -> bool, text: string, fields: seq<string>) {
    if fields == [] then text == "" || IsGap(isSpace, text)
    else
      exists front, rest :: StartsWith(isSpace, text, front, fields[0], rest) && Follows(isSpace, rest, fields[1..])
  }

  /** Perhaps a gap, then the field, then the rest. */
  predicate StartsWith(isSpace: char -> bool, text: string, front: string, field: string, rest: string) {
    (front == "" || IsGap(isSpace, front)) && IsField(isSpace, field) && text == front + (field + rest)
  }

  /** What follows a field: nothing, or a gap and then the other fields. */
  ghost predicate Follows(isSpace: char -> bool, text: string, fields: seq<string>)
    decreases |fields|
  {
    if fields == [] then text == "" || IsGap(isSpace, text)
    else
      exists gap, rest ::
        && IsGap(isSpace, gap) && IsField(isSpace, fields[0])
        && text == gap + (fields[0] + rest) && Follows(isSpace, rest, fields[1..])
  }

  /** The fields with single spaces in between. */
  function Spaced(fields: seq<string>): string {
    if fields == [] then "" else fields[0] + SpacedBehind(fields[1..])
  }

  function SpacedBehind(fields: seq<string>): string {
    if fields == [] then "" else " " + (fields[0] + SpacedBehind(fields[1..]))
  }

  lemma {:induction false} GapIsDropped(isSpace: char -> bool, gap: string, rest: string, started: bool, pending: bool)
    requires IsGap(isSpace, gap)
    ensures Folded(isSpace, gap + rest, started, pending) == Folded(isSpace, rest, started, started)
  {
    assert (gap + rest)[1..] == gap[1..] + rest && (gap + rest)[0] == gap[0];
    if |gap| == 1 {
      assert gap[1..] + rest == rest;
    } else {
      GapIsDropped(isSpace, gap[1..], rest, started, started);
    }
  }

  lemma {:induction false} FieldIsKept(isSpace: char -> bool, field: string, rest: string, started: bool, pending: bool)
    requires IsField(isSpace, field)
    ensures Folded(isSpace, field + rest, started, pending)
            == (if pending then " " else "") + (field + Folded(isSpace, rest, true, false))
  {
    assert (field + rest)[1..] == field[1..] + rest && (field + rest)[0] == field[0];
    if |field| == 1 {
      assert field[1..] + rest == rest && field == [field[0]];
    } else {
      FieldIsKept(isSpace, field[1..], rest, true, false);
      assert field == [field[0]] + field[1..];
    }
  }

  lemma {:induction false} FoldedBehind(isSpace: char -> bool, text: string, fields: seq<string>)
    requires Follows(isSpace, text, fields)
    ensures Folded(isSpace, text, true, false) == SpacedBehind(fields)
    decreases |fields|
  {
    if fields == [] {
      if text != "" {
        GapIsDropped(isSpace, text, "", true, false);
        assert text + "" == text;
      }
    } else {
      var gap, rest :| IsGap(isSpace, gap) && IsField(isSpace, fields[0])
                       && text == gap + (fields[0] + rest) && Follows(isSpace, rest, fields[1..]);
      GapIsDropped(isSpace, gap, fields[0] + rest, true, false);
      FieldIsKept(isSpace, fields[0], rest, true, true);
      FoldedBehind(isSpace, rest, fields[1..]);
    }
  }

  /** A name folds to its fields with single spaces in between. */
  lemma NormalizeSpaces(isSpace: char -> bool, text: string, fields: seq<string>)
    requires MadeOf(isSpace, text, fields)
    ensures Normalize(isSpace, text) == Spaced(fields)
  {
    if fields == [] {
      if text != "" {
        GapIsDropped(isSpace, text, "", false, false);
        assert text + "" == text;
      }
    } else {
      var front, rest :| StartsWith(isSpace, text, front, fields[0], rest) && Follows(isSpace, rest, fields[1..]);
      if front == "" {
        assert text == fields[0] + rest;
      } else {
        GapIsDropped(isSpace, front, fields[0] + rest, false, false);
      }
      FieldIsKept(isSpace, fields[0], rest, false, false);
      FoldedBehind(isSpace, rest, fields[1..]);
    }
  }

  // ----- Every name has fields

  lemma {:induction false} LeadingField(isSpace: char -> bool, text: string) returns (field: string, rest: string)
    requires text != "" && !Separates(isSpace, text[0])
    ensures IsField(isSpace, field) && text == field + rest && (rest == "" || Separates(isSpace, rest[0]))
  {
    if |text| == 1 || Separates(isSpace, text[1]) {
      field, rest := text[..1], text[1..];
    } else {
      field, rest := LeadingField(isSpace, text[1..]);
      field := [text[0]] + field;
    }
  }

  lemma {:induction false} LeadingGap(isSpace: char -> bool, text: string) returns (gap: string, rest: string)
    requires text != "" && Separates(isSpace, text[0])
    ensures IsGap(isSpace, gap) && text == gap + rest && (rest == "" || !Separates(isSpace, rest[0]))
  {
    if |text| == 1 || !Separates(isSpace, text[1]) {
      gap, rest := text[..1], text[1..];
    } else {
      gap, rest := LeadingGap(isSpace, text[1..]);
      gap := [text[0]] + gap;
    }
  }

  lemma {:induction false} FieldsBehind(isSpace: char -> bool, text: string) returns (fields: seq<string>)
    requires text == "" || Separates(isSpace, text[0])
    ensures Follows(isSpace, text, fields)
    decreases |text|
  {
    fields := [];
    if text != "" {
      var gap, rest := LeadingGap(isSpace, text);
      if rest == "" {
        assert text == gap;
      } else {
        var field, behind := LeadingField(isSpace, rest);
        var more := FieldsBehind(isSpace, behind);
        fields := [field] + more;
        assert fields[1..] == more && text == gap + (fields[0] + behind);
      }
    }
  }

  lemma FieldsFrom(isSpace: char -> bool, front: string, rest: string) returns (fields: seq<string>)
    requires front == "" || IsGap(isSpace, front)
    requires rest != "" && !Separates(isSpace, rest[0])
    ensures MadeOf(isSpace, front + rest, fields)
  {
    var field, behind := LeadingField(isSpace, rest);
    var more := FieldsBehind(isSpace, behind);
    fields := [field] + more;
    assert fields[1..] == more && StartsWith(isSpace, front + rest, front, fields[0], behind);
  }

  /** Every name is made of fields. */
  lemma HasFields(isSpace: char -> bool, text: string) returns (fields: seq<string>)
    ensures MadeOf(isSpace, text, fields)
  {
    if text != "" && !Separates(isSpace, text[0]) {
      fields := FieldsFrom(isSpace, "", text);
      assert "" + text == text;
    } else {
      fields := [];
      if text != "" {
        var front, rest := LeadingGap(isSpace, text);
        if rest == "" {
          assert text == front;
        } else {
          fields := FieldsFrom(isSpace, front, rest);
        }
      }
    }
  }
}
