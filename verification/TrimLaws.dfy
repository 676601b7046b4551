/** What trimming leaves: the text between the white space at its ends, which starts and ends with something else. */
module TrimLaws {
  import opened Spaces

  /** White space by its code points. */
  predicate White(c: char) {
    c as int in {0x9, 0xA, 0xB, 0xC, 0xD, 0x20, 0x85, 0xA0, 0x1680, 0x2000, 0x2001, 0x2002, 0x2003, 0x2004, 0x2005,
                 0x2006, 0x2007, 0x2008, 0x2009, 0x200A, 0x2028, 0x2029, 0x202F, 0x205F, 0x3000}
  }

  predicate AllWhite(text: string) {
    forall c | c in text :: White(c)
  }

  /** The core is all of the text but white space at the ends, and it neither starts nor ends with any. */
  ghost predicate Trimmed(text: string, core: string) {
    && (core == "" || (!White(core[0]) && !White(core[|core| - 1])))
    && exists left, right :: AllWhite(left) && AllWhite(right) && text == left + core + right
  }

  lemma WhiteIsSpace(c: char)
    ensures White(c) <==> IsSpace(c)
  {
  }

  lemma {:induction false} LeftIsWhite(text: string) returns (left: string)
    ensures AllWhite(left) && text == left + TrimLeft(text)
    ensures TrimLeft(text) == "" || !White(TrimLeft(text)[0])
  {
    if text == "" {
      left := "";
    } else {
      WhiteIsSpace(text[0]);
      if IsSpace(text[0]) {
        left := LeftIsWhite(text[1..]);
        left := [text[0]] + left;
      } else {
        left := "";
      }
    }
  }

  lemma {:induction false} RightIsWhite(text: string) returns (right: string)
    ensures AllWhite(right) && text == TrimRight(text) + right
    ensures TrimRight(text) == "" || !White(TrimRight(text)[|TrimRight(text)| - 1])
  {
    if text == "" {
      right := "";
    } else {
      var last := |text| - 1;
      WhiteIsSpace(text[last]);
      if IsSpace(text[last]) {
        right := RightIsWhite(text[..last]);
        right := right + [text[last]];
        assert text == text[..last] + [text[last]];
      } else {
        right := "";
      }
    }
  }

  lemma TrimIsTrimmed(text: string)
    ensures Trimmed(text, Trim(text))
  {
    var left := LeftIsWhite(text);
    var kept := TrimLeft(text);
    var right := RightIsWhite(kept);
    assert text == left + Trim(text) + right;
    if Trim(text) != "" {
      assert Trim(text)[0] == kept[0];
    }
  }

  lemma {:induction false} TrimLeftOf(left: string, rest: string)
    requires AllWhite(left) && (rest == "" || !White(rest[0]))
    ensures TrimLeft(left + rest) == rest
  {
    if left == "" {
      assert left + rest == rest;
      if rest != "" {
        WhiteIsSpace(rest[0]);
      }
    } else {
      WhiteIsSpace(left[0]);
      assert left[0] in left;
      assert (left + rest)[1..] == left[1..] + rest;
      TrimLeftOf(left[1..], rest);
    }
  }

  lemma {:induction false} TrimRightOf(rest: string, right: string)
    requires AllWhite(right) && (rest == "" || !White(rest[|rest| - 1]))
    ensures TrimRight(rest + right) == rest
  {
    if right == "" {
      assert rest + right == rest;
      if rest != "" {
        WhiteIsSpace(rest[|rest| - 1]);
      }
    } else {
      var last := |right| - 1;
      WhiteIsSpace(right[last]);
      assert right[last] in right;
      assert (rest + right)[..|rest + right| - 1] == rest + right[..last];
      assert forall c | c in right[..last] :: c in right;
      TrimRightOf(rest, right[..last]);
    }
  }

  /** Trimming leaves the one core there is. */
  lemma TrimmedIff(text: string, core: string)
    ensures Trimmed(text, core) <==> core == Trim(text)
  {
    TrimIsTrimmed(text);
    if Trimmed(text, core) {
      var left, right :| AllWhite(left) && AllWhite(right) && text == left + core + right;
      assert text == left + (core + right);
      if core == "" {
        assert core + right == right && left + right == text;
        assert AllWhite(left + right);
        TrimLeftOf(text, "");
        assert text + "" == text;
      } else {
        TrimLeftOf(left, core + right);
        TrimRightOf(core, right);
      }
    }
  }
}
