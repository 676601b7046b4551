/** The name of a criterion read back: its ID, and its revision as the decimal text the name was built with. */
module CriterionNames {
  import opened ProofConfig
  import opened ProofFormat
  import opened Wrappers

  const MINIMUM_REVISION := 1

  /** The length of the text in front of the first separator. */
  function CutAt(text: string): (cut: nat)
    ensures cut <= |text| && '~' !in text[..cut]
    ensures cut < |text| ==> text[cut] == '~'
  {
    if text == "" || text[0] == '~' then 0
    else
      assert forall c | c in text[..1 + CutAt(text[1..])] :: c == text[0] || c in text[1..][..CutAt(text[1..])];
      1 + CutAt(text[1..])
  }

  predicate AllDigits(text: string) {
    text != "" && forall c | c in text :: '0' <= c <= '9'
  }

  /** The revision a text stands for, where it is the decimal form of a machine integer from 1 on. */
  function ParseRevision(text: string): Option<int> {
    if AllDigits(text) && MINIMUM_REVISION <= DigitsValue(text) <= LARGEST_INT
       && Decimal(DigitsValue(text)) == text then
      Some(DigitsValue(text))
    else None
  }

  function ParseCriterion(text: string): Option<Requirement> {
    var cut := CutAt(text);
    if cut == |text| || cut == 0 then None
    else
      var revision := ParseRevision(text[cut + 1..]);
      if revision.Some? then Some(Requirement(text[..cut], revision.value)) else None
  }

  lemma {:induction false} DigitsReadBack(n: nat)
    ensures AllDigits(Digits(n)) && DigitsValue(Digits(n)) == n
  {
    var text := Digits(n);
    if n < 10 {
      assert text[..0] == "";
    } else {
      DigitsReadBack(n / 10);
      assert text[..|text| - 1] == Digits(n / 10) && text[|text| - 1] == ('0' as int + n % 10) as char;
    }
  }

  lemma RevisionReadsBack(text: string, revision: int)
    ensures ParseRevision(text) == Some(revision)
            <==> MINIMUM_REVISION <= revision <= LARGEST_INT && text == Decimal(revision)
  {
    if MINIMUM_REVISION <= revision {
      DigitsReadBack(revision);
    }
  }

  lemma CutOfName(id: string, rest: string)
    requires '~' !in id
    ensures CutAt(id + "~" + rest) == |id|
  {
    var text := id + "~" + rest;
    assert text[|id|] == '~' && text[..|id|] == id;
  }

  /**
   A text is read as a criterion exactly when it is the criterion's name, whose
   ID holds no separator and whose revision counts from 1.
   */
  lemma ParseCriterionIff(text: string, requirement: Requirement)
    ensures ParseCriterion(text) == Some(requirement)
            <==> && requirement.id != "" && '~' !in requirement.id
                 && 1 <= requirement.revision <= 0x7FFF_FFFF_FFFF_FFFF
                 && text == requirement.id + "~" + Decimal(requirement.revision)
  {
    var cut := CutAt(text);
    if 0 < cut < |text| {
      RevisionReadsBack(text[cut + 1..], requirement.revision);
      assert text == text[..cut] + "~" + text[cut + 1..];
    }
    if '~' !in requirement.id && text == SubjectName(requirement.id, requirement.revision) {
      CutOfName(requirement.id, Decimal(requirement.revision));
      SubjectNameSplits(requirement.id, requirement.revision);
    }
  }
}
