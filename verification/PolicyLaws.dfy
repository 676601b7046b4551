/** What the policy reads off a text: the threshold of a confidence source and the strength of an isolation level. */
module PolicyLaws {
  import opened CriterionNames
  import opened ProofConfig
  import opened ProofFormat
  import opened Wrappers

  // ----- Isolation

  /** The levels from the strongest to the weakest. */
  const LEVELS := [RestrictedAttested, Restricted, RestrictedUnverified, Unrestricted, Inline]

  /**
   A level reaches those behind it on the ladder; a text that is no
   level reaches none, and every level reaches it.
   */
  lemma IsolationIsALadder(i: nat, j: nat, text: string, other: Isolation)
    requires i < |LEVELS| && j < |LEVELS|
    ensures LEVELS[i].AtLeast(LEVELS[j]) <==> i <= j
    ensures !UnknownIsolation(text).AtLeast(other) && LEVELS[i].AtLeast(UnknownIsolation(text))
  {
    assert LEVELS[i].Strength() == 5 - i && LEVELS[j].Strength() == 5 - j;
  }

  // ----- Confidence sources

  function VotesSource(text: string): string {
    "host-votes(" + text + ")"
  }

  function SystemSource(detail: string): string {
    "system-one:" + detail
  }

  lemma VotesAreKnown(text: string)
    ensures IsKnownSource(VotesSource(text)) <==> CountsVotes(text)
    ensures IsKnownSource(VotesSource(text)) ==> SourceKind(VotesSource(text)) == Some("host-votes")
  {
    var source := VotesSource(text);
    assert source[|HOST_VOTES| + 1..|source| - 1] == text;
    assert source[0] == 'h' && "execution"[0] == 'e' && "system-one:"[0] == 's';
    KindStandsInFront("host-votes", "(" + text + ")");
    assert source == "host-votes" + ("(" + text + ")");
  }

  lemma SystemsAreKnown(detail: string)
    ensures IsKnownSource(SystemSource(detail)) <==> detail != ""
    ensures detail != "" ==> SourceKind(SystemSource(detail)) == Some("system-one")
  {
    var source := SystemSource(detail);
    assert source[0] == 's' && "execution"[0] == 'e' && "host-votes("[0] == 'h';
    KindStandsInFront("system-one", ":" + detail);
    assert source == "system-one" + (":" + detail);
  }

  lemma {:induction false} KindStandsInFront(kind: string, rest: string)
    requires '(' !in kind && ':' !in kind && rest != "" && (rest[0] == '(' || rest[0] == ':')
    ensures UpToDetail(kind + rest) == kind
  {
    if kind == "" {
      assert kind + rest == rest;
    } else {
      assert (kind + rest)[1..] == kind[1..] + rest;
      KindStandsInFront(kind[1..], rest);
    }
  }

  /** A number of votes is a source exactly when a machine integer counts it, from one vote on. */
  lemma VoteCounts(votes: nat)
    ensures IsKnownSource(VotesSource(Decimal(votes))) <==> 1 <= votes <= 0x7FFF_FFFF_FFFF_FFFF
  {
    VotesAreKnown(Decimal(votes));
    DigitsReadBack(votes);
  }

  predicate OnlyZeros(text: string) {
    forall c | c in text :: c == '0'
  }

  /** A vote count as a source may spell it: with a plus sign or none and with any number of zeros in front. */
  ghost predicate SpellsVotes(text: string) {
    exists plus: bool, zeros: string, votes: nat :: SpelledAs(text, plus, zeros, votes)
  }

  ghost predicate SpelledAs(text: string, plus: bool, zeros: string, votes: nat) {
    && OnlyZeros(zeros) && 1 <= votes <= 0x7FFF_FFFF_FFFF_FFFF
    && text == (if plus then "+" else "") + zeros + Decimal(votes)
  }

  lemma FrontOf(text: string)
    requires text != ""
    ensures OnlyZeros(text) ==> OnlyZeros(text[..|text| - 1])
    ensures AllDigits(text) && |text| > 1 ==> AllDigits(text[..|text| - 1])
  {
    var front := text[..|text| - 1];
    forall c | c in front ensures c in text {
      var i :| 0 <= i < |front| && front[i] == c;
      assert text[i] == c;
    }
  }

  lemma {:induction false} ValueOfPadded(zeros: string, digits: string)
    requires OnlyZeros(zeros) && AllDigits(digits)
    ensures AllDigits(zeros + digits) && DigitsValue(zeros + digits) == DigitsValue(digits)
  {
    var text := zeros + digits;
    assert text[..|text| - 1] == zeros + digits[..|digits| - 1];
    if |digits| == 1 {
      ZerosAreNothing(zeros);
      assert zeros + digits[..0] == zeros;
    } else {
      FrontOf(digits);
      ValueOfPadded(zeros, digits[..|digits| - 1]);
    }
  }

  lemma {:induction false} ZerosAreNothing(zeros: string)
    requires OnlyZeros(zeros)
    ensures DigitsValue(zeros) == 0
  {
    if zeros != "" {
      FrontOf(zeros);
      ZerosAreNothing(zeros[..|zeros| - 1]);
      assert zeros[|zeros| - 1] in zeros;
    }
  }

  lemma LastDigit(digits: string) returns (earlier: string, last: char)
    requires AllDigits(digits)
    ensures digits == earlier + [last] && '0' <= last <= '9' && |earlier| < |digits|
    ensures earlier != "" ==> AllDigits(earlier)
    ensures DigitsValue(digits) == 10 * DigitsValue(earlier) + (last as int - '0' as int)
  {
    earlier, last := digits[..|digits| - 1], digits[|digits| - 1];
    assert last in digits;
    FrontOf(digits);
  }

  /** Digits that stand for a number are the number behind some zeros. */
  lemma {:induction false} PaddingOf(digits: string) returns (zeros: string)
    requires AllDigits(digits)
    ensures OnlyZeros(zeros) && DigitsValue(digits) >= 0
    ensures DigitsValue(digits) > 0 ==> digits == zeros + Digits(DigitsValue(digits))
    ensures DigitsValue(digits) == 0 ==> zeros == digits
    decreases |digits|
  {
    var earlier, last := LastDigit(digits);
    var value := DigitsValue(digits);
    if earlier == "" {
      assert value == last as int - '0' as int;
      zeros := if last == '0' then digits else "";
    } else {
      zeros := PaddingOf(earlier);
      if DigitsValue(earlier) == 0 {
        assert value == last as int - '0' as int;
        zeros := if last == '0' then digits else earlier;
      } else {
        assert Digits(value) == Digits(DigitsValue(earlier)) + [last];
      }
    }
  }

  lemma DigitsAreSpelled(plus: bool, digits: string)
    requires AllDigits(digits) && 1 <= DigitsValue(digits) <= 0x7FFF_FFFF_FFFF_FFFF
    ensures SpellsVotes((if plus then "+" else "") + digits)
  {
    var votes := DigitsValue(digits);
    var zeros := PaddingOf(digits);
    var sign := if plus then "+" else "";
    assert sign + digits == sign + zeros + Decimal(votes);
    assert SpelledAs(sign + digits, plus, zeros, votes);
  }

  lemma CountedIsSpelled(text: string)
    requires CountsVotes(text)
    ensures SpellsVotes(text)
  {
    if text[0] == '+' {
      DigitsAreSpelled(true, text[1..]);
      assert "+" + text[1..] == text;
    } else {
      DigitsAreSpelled(false, text);
      assert "" + text == text;
    }
  }

  lemma SpelledIsCounted(text: string, plus: bool, zeros: string, votes: nat)
    requires SpelledAs(text, plus, zeros, votes)
    ensures CountsVotes(text)
  {
    var padded := zeros + Decimal(votes);
    DigitsReadBack(votes);
    ValueOfPadded(zeros, Decimal(votes));
    assert padded[0] in padded;
    if plus {
      assert text == "+" + padded;
      assert text[1..] == padded;
    } else {
      assert text == padded;
    }
  }

  lemma CountsIffSpelled(text: string)
    ensures CountsVotes(text) <==> SpellsVotes(text)
  {
    if CountsVotes(text) {
      CountedIsSpelled(text);
    }
    if plus: bool, zeros: string, votes: nat :| SpelledAs(text, plus, zeros, votes) {
      SpelledIsCounted(text, plus, zeros, votes);
    }
  }

  /** The sources of the format: execution, votes that a machine integer counts, and a system with a detail. */
  ghost predicate KnownSource(source: string) {
    || source == "execution"
    || (exists votes :: SpellsVotes(votes) && source == "host-votes(" + votes + ")")
    || (exists detail :: detail != "" && source == "system-one:" + detail)
  }

  /** A text in front, something between, and a text behind. */
  lemma Between(text: string, front: string, behind: string)
    requires front <= text && |front| + |behind| <= |text| && text[|text| - |behind|..] == behind
    ensures text == front + text[|front|..|text| - |behind|] + behind
  {
  }

  lemma VotesAreOne(source: string)
    requires HOST_VOTES + "(" <= source && source[|source| - 1] == ')'
             && CountsVotes(source[|HOST_VOTES| + 1..|source| - 1])
    ensures KnownSource(source)
  {
    var front, votes := HOST_VOTES + "(", source[|HOST_VOTES| + 1..|source| - 1];
    CountsIffSpelled(votes);
    Between(source, front, ")");
    assert front == "host-votes(";
  }

  lemma SystemIsOne(source: string)
    requires SYSTEM_ONE + ":" < source
    ensures KnownSource(source)
  {
    var front, detail := SYSTEM_ONE + ":", source[|SYSTEM_ONE| + 1..];
    assert source == front + detail && detail != "";
    assert front == "system-one:";
  }

  lemma KnownIff(source: string)
    ensures IsKnownSource(source) <==> KnownSource(source)
  {
    if IsKnownSource(source) && source != "execution" {
      if HOST_VOTES + "(" <= source && source[|source| - 1] == ')' {
        VotesAreOne(source);
      } else {
        SystemIsOne(source);
      }
    }
    forall votes | SpellsVotes(votes) ensures IsKnownSource("host-votes(" + votes + ")") {
      VotesAreKnown(votes);
      CountsIffSpelled(votes);
    }
    forall detail | detail != "" ensures IsKnownSource("system-one:" + detail) {
      SystemsAreKnown(detail);
    }
  }

  /** An entry for the source itself decides, whatever it is. */
  lemma ExactEntryDecides(threshold: Threshold, source: string)
    requires source in threshold.bySource
    ensures threshold.For(source) == threshold.bySource[source]
  {
  }

  /** Else the entry for its kind does; else, and for a text that is no source, the default. */
  lemma KindEntryDecides(threshold: Threshold, votes: nat, detail: string)
    requires 1 <= votes <= 0x7FFF_FFFF_FFFF_FFFF && detail != ""
    ensures var source := VotesSource(Decimal(votes));
            source !in threshold.bySource ==>
              threshold.For(source) == if "host-votes" in threshold.bySource then threshold.bySource["host-votes"]
                                       else threshold.default_
    ensures var source := SystemSource(detail);
            source !in threshold.bySource ==>
              threshold.For(source) == if "system-one" in threshold.bySource then threshold.bySource["system-one"]
                                       else threshold.default_
  {
    VoteCounts(votes);
    VotesAreKnown(Decimal(votes));
    SystemsAreKnown(detail);
  }

  lemma OthersTakeTheDefault(threshold: Threshold, source: string)
    requires source !in threshold.bySource && (source == "execution" || !IsKnownSource(source))
    ensures threshold.For(source) == threshold.default_
  {
    NoDetail("execution");
  }

  lemma {:induction false} NoDetail(text: string)
    requires '(' !in text && ':' !in text
    ensures UpToDetail(text) == text
  {
    if text != "" {
      NoDetail(text[1..]);
    }
  }
}
