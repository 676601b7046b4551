/** Laws of the whole gate for one criterion: what a pass rests on, and what added evidence can do to it. */
module GateLaws {
  import opened ClaimPower
  import opened ClaimPowerLaws
  import opened Composition
  import opened GateFindings
  import opened GateInput
  import opened ProofConfig
  import opened ProofFormat
  import opened Wrappers

  // ----- Alignment

  /** The verdict stands at place i, and is the only one of the slice that names the test. */
  ghost predicate OnlyNamedAt(alignments: seq<Alignment>, test: TestName, i: nat) {
    && i < |alignments| && alignments[i].test in NamesOf(test)
    && forall j | 0 <= j < |alignments| && j != i :: alignments[j].test !in NamesOf(test)
  }

  ghost predicate OnlyVerdict(alignments: seq<Alignment>, test: TestName, alignment: Alignment) {
    exists i: nat :: OnlyNamedAt(alignments, test, i) && alignments[i] == alignment
  }

  ghost predicate Unnamed(alignments: seq<Alignment>, test: TestName) {
    forall i | 0 <= i < |alignments| :: alignments[i].test !in NamesOf(test)
  }

  ghost predicate NamedTwice(alignments: seq<Alignment>, test: TestName) {
    exists i, j :: 0 <= i < j < |alignments| && alignments[i].test in NamesOf(test)
      && alignments[j].test in NamesOf(test)
  }

  /**
   The verdict is ALIGNED, of a test that killed no sentinel, sure and isolated
   enough, and unless a judgment suffices backed by a specific matrix.
   */
  ghost predicate Vindicates(config: Config, alignment: Alignment, test: TestName, tainted: set<string>) {
    && alignment.verdict.value == ProofFormat.Aligned
    && NamesOf(test) !! tainted
    && Reaches(config.alignment, alignment.verdict.confidence,
               match alignment.decision case Some(own) => own.confidenceSource case None => "")
    && IsolatedEnough(config, alignment.verdict.executor, alignment.executor)
    && (JudgmentSuffices(config) || alignment.verdict.Corroborates(SpecificMatrix))
  }

  lemma ClearsIff(config: Config, alignment: Alignment, test: TestName, tainted: set<string>)
    ensures Clears(config, alignment, test, tainted) <==> Vindicates(config, alignment, test, tainted)
  {
    assert test.name in NamesOf(test);
    assert test.className != "" ==> test.className + "." + test.name in NamesOf(test);
    assert alignment.verdict.Has(ALIGNMENT_MATRIX) <==> alignment.verdict.Corroborates(SpecificMatrix);
  }

  lemma OnlyNamedStep(earlier: seq<Alignment>, last: Alignment, test: TestName, i: nat)
    ensures OnlyNamedAt(earlier + [last], test, i)
            <==> if i == |earlier| then last.test in NamesOf(test) && Unnamed(earlier, test)
                 else last.test !in NamesOf(test) && OnlyNamedAt(earlier, test, i)
  {
    var all := earlier + [last];
    assert all[|earlier|] == last && forall j | 0 <= j < |earlier| :: all[j] == earlier[j];
  }

  /** One more verdict that names the test is the only one if there was none; any other changes nothing. */
  lemma OnlyVerdictStep(earlier: seq<Alignment>, last: Alignment, test: TestName, alignment: Alignment)
    ensures OnlyVerdict(earlier + [last], test, alignment)
            <==> if last.test in NamesOf(test) then Unnamed(earlier, test) && last == alignment
                 else OnlyVerdict(earlier, test, alignment)
  {
    var all := earlier + [last];
    if i: nat :| OnlyNamedAt(all, test, i) && all[i] == alignment {
      OnlyNamedStep(earlier, last, test, i);
    }
    if last.test in NamesOf(test) && Unnamed(earlier, test) {
      OnlyNamedStep(earlier, last, test, |earlier|);
      assert all[|earlier|] == last;
    }
    if i: nat :| OnlyNamedAt(earlier, test, i) && earlier[i] == alignment {
      OnlyNamedStep(earlier, last, test, i);
      assert all[i] == earlier[i];
    }
  }

  lemma NamedStep(earlier: seq<Alignment>, last: Alignment, test: TestName)
    ensures Unnamed(earlier + [last], test) <==> Unnamed(earlier, test) && last.test !in NamesOf(test)
    ensures NamedTwice(earlier + [last], test)
            <==> NamedTwice(earlier, test) || (last.test in NamesOf(test) && !Unnamed(earlier, test))
  {
    var all := earlier + [last];
    assert all[|earlier|] == last && forall i | 0 <= i < |earlier| :: all[i] == earlier[i];
    if NamedTwice(earlier, test) {
      var i, j :| 0 <= i < j < |earlier| && earlier[i].test in NamesOf(test) && earlier[j].test in NamesOf(test);
      assert all[i].test in NamesOf(test) && all[j].test in NamesOf(test);
    }
  }

  lemma {:induction false} MatchingIs(alignments: seq<Alignment>, test: TestName)
    ensures Matching(alignments, test) == [] <==> Unnamed(alignments, test)
    ensures forall alignment :: Matching(alignments, test) == [alignment] <==> OnlyVerdict(alignments, test, alignment)
    ensures |Matching(alignments, test)| > 1 <==> NamedTwice(alignments, test)
  {
    if alignments != [] {
      var earlier, last := alignments[..|alignments| - 1], alignments[|alignments| - 1];
      assert alignments == earlier + [last];
      MatchingIs(earlier, test);
      MatchesIff(last.test, test);
      NamedStep(earlier, last, test);
      forall alignment ensures Matching(alignments, test) == [alignment] <==> OnlyVerdict(alignments, test, alignment) {
        OnlyVerdictStep(earlier, last, test, alignment);
        OneBehind(Matching(earlier, test), last, alignment);
      }
    }
  }

  lemma OneBehind<T>(front: seq<T>, last: T, only: T)
    ensures front + [last] == [only] <==> front == [] && last == only
    ensures front + [] == [only] <==> front == [only]
  {
    assert (front + [last])[|front|] == last && front + [] == front;
  }

  lemma OnlyVerdictIsOne(alignments: seq<Alignment>, test: TestName, alignment: Alignment)
    requires OnlyVerdict(alignments, test, alignment)
    ensures alignment in alignments && !Unnamed(alignments, test) && !NamedTwice(alignments, test)
  {
    var i: nat :| OnlyNamedAt(alignments, test, i) && alignments[i] == alignment;
    assert alignments[i] in alignments;
  }

  /** Exactly one valid alignment proof names the test, and it speaks for it. */
  ghost predicate Aligned(config: Config, alignments: seq<Alignment>, test: TestName, tainted: set<string>) {
    exists alignment :: OnlyVerdict(alignments, test, alignment) && Vindicates(config, alignment, test, tainted)
  }

  lemma AlignedIff(config: Config, alignments: seq<Alignment>, test: TestName, tainted: set<string>)
    ensures Aligned(config, alignments, test, tainted)
            <==> |Matching(alignments, test)| == 1 && Clears(config, Matching(alignments, test)[0], test, tainted)
  {
    var matching := Matching(alignments, test);
    MatchingIs(alignments, test);
    if |matching| == 1 {
      assert matching == [matching[0]];
      ClearsIff(config, matching[0], test, tainted);
    }
  }

  /** What the alignment module asks of the tests of a criterion. */
  ghost predicate AllAligned(input: Input, criterion: Criterion, alignments: seq<Alignment>, tainted: set<string>) {
    forall test | test in criterion.passingTests ::
      || Aligned(input.config, alignments, test, tainted)
      || (!input.config.Requires(AlignmentKind) && Unnamed(alignments, test))
  }

  ghost predicate SomeAmbiguous(tests: seq<TestName>, alignments: seq<Alignment>) {
    exists test | test in tests :: NamedTwice(alignments, test)
  }

  /** One verdict names the test, and does not speak for it. */
  ghost predicate Uncleared(config: Config, alignments: seq<Alignment>, tainted: set<string>, test: TestName) {
    exists alignment :: OnlyVerdict(alignments, test, alignment) && !Vindicates(config, alignment, test, tainted)
  }

  ghost predicate SomeUncleared(config: Config, tests: seq<TestName>, alignments: seq<Alignment>, tainted: set<string>)
  {
    exists test | test in tests :: Uncleared(config, alignments, tainted, test)
  }

  ghost predicate SomeUnmatched(tests: seq<TestName>, alignments: seq<Alignment>) {
    exists test | test in tests :: Unnamed(alignments, test)
  }

  lemma UnclearedIff(config: Config, alignments: seq<Alignment>, tainted: set<string>, test: TestName)
    ensures Uncleared(config, alignments, tainted, test)
            <==> |Matching(alignments, test)| == 1 && !Clears(config, Matching(alignments, test)[0], test, tainted)
  {
    var matching := Matching(alignments, test);
    MatchingIs(alignments, test);
    if |matching| == 1 {
      assert matching == [matching[0]];
      ClearsIff(config, matching[0], test, tainted);
    }
  }

  lemma OneTestEffect(config: Config, criterion: Criterion, test: TestName, alignments: seq<Alignment>,
                      tainted: set<string>)
    ensures var added := TestFinding(config, criterion, test, Matching(alignments, test), tainted);
            && (HasEffect(added, EffectBlock) <==> NamedTwice(alignments, test))
            && (HasEffect(added, EffectEscalate) <==> Uncleared(config, alignments, tainted, test))
  {
    var added := TestFinding(config, criterion, test, Matching(alignments, test), tainted);
    MatchingIs(alignments, test);
    UnclearedIff(config, alignments, tainted, test);
    if added != [] {
      HasEffectOne(added[0], EffectBlock);
      HasEffectOne(added[0], EffectEscalate);
    }
  }

  lemma OneMoreTest(config: Config, earlier: seq<TestName>, test: TestName, alignments: seq<Alignment>,
                    tainted: set<string>)
    ensures SomeAmbiguous(earlier + [test], alignments)
            <==> SomeAmbiguous(earlier, alignments) || NamedTwice(alignments, test)
    ensures SomeUncleared(config, earlier + [test], alignments, tainted)
            <==> SomeUncleared(config, earlier, alignments, tainted) || Uncleared(config, alignments, tainted, test)
  {
    assert forall t :: t in earlier + [test] <==> t in earlier || t == test;
  }

  /** The findings about the tests block exactly on an ambiguous one and escalate exactly on an uncleared one. */
  ghost predicate EffectsAre(config: Config, criterion: Criterion, tests: seq<TestName>, alignments: seq<Alignment>,
                             tainted: set<string>)
  {
    var found := TestFindings(config, criterion, tests, alignments, tainted);
    && (HasEffect(found, EffectBlock) <==> SomeAmbiguous(tests, alignments))
    && (HasEffect(found, EffectEscalate) <==> SomeUncleared(config, tests, alignments, tainted))
  }

  lemma TestFindingsStep(config: Config, criterion: Criterion, earlier: seq<TestName>, test: TestName,
                         alignments: seq<Alignment>, tainted: set<string>)
    requires EffectsAre(config, criterion, earlier, alignments, tainted)
    ensures EffectsAre(config, criterion, earlier + [test], alignments, tainted)
  {
    OneTestEffect(config, criterion, test, alignments, tainted);
    OneMoreTest(config, earlier, test, alignments, tainted);
    assert (earlier + [test])[..|earlier + [test]| - 1] == earlier;
    var before := TestFindings(config, criterion, earlier, alignments, tainted);
    var added := TestFinding(config, criterion, test, Matching(alignments, test), tainted);
    HasEffectConcat(before, added, EffectBlock);
    HasEffectConcat(before, added, EffectEscalate);
  }

  lemma {:induction false} TestFindingsEffect(config: Config, criterion: Criterion, tests: seq<TestName>,
                                              alignments: seq<Alignment>, tainted: set<string>)
    ensures EffectsAre(config, criterion, tests, alignments, tainted)
  {
    if tests == [] {
    } else {
      var earlier, test := tests[..|tests| - 1], tests[|tests| - 1];
      TestFindingsEffect(config, criterion, earlier, alignments, tainted);
      TestFindingsStep(config, criterion, earlier, test, alignments, tainted);
      assert tests == earlier + [test];
    }
  }

  lemma OneMoreUnmatched(earlier: seq<TestName>, last: TestName, alignments: seq<Alignment>)
    ensures SomeUnmatched(earlier + [last], alignments)
            <==> SomeUnmatched(earlier, alignments) || Unnamed(alignments, last)
  {
    assert forall test :: test in earlier + [last] <==> test in earlier || test == last;
  }

  /** A test is listed exactly where no verdict names it. */
  lemma UnmatchedOfMore(earlier: seq<TestName>, last: TestName, alignments: seq<Alignment>)
    ensures Unmatched(earlier + [last], alignments)
            == Unmatched(earlier, alignments) + (if Unnamed(alignments, last) then [last.name] else [])
  {
    assert (earlier + [last])[..|earlier|] == earlier;
    MatchingIs(alignments, last);
  }

  lemma {:induction false} UnmatchedAre(tests: seq<TestName>, alignments: seq<Alignment>)
    ensures Unmatched(tests, alignments) != [] <==> SomeUnmatched(tests, alignments)
  {
    if tests == [] {
    } else {
      var earlier, last := tests[..|tests| - 1], tests[|tests| - 1];
      UnmatchedAre(earlier, alignments);
      UnmatchedOfMore(earlier, last, alignments);
      OneMoreUnmatched(earlier, last, alignments);
      assert tests == earlier + [last];
    }
  }

  /** The effects of the alignment part, test by test. */
  lemma AlignmentPartEffect(input: Input, criterion: Criterion, alignments: seq<Alignment>, tainted: set<string>)
    ensures HasEffect(AlignmentPart(input, criterion, alignments, tainted), EffectBlock)
            <==> SomeAmbiguous(criterion.passingTests, alignments)
    ensures HasEffect(AlignmentPart(input, criterion, alignments, tainted), EffectEscalate)
            <==> || SomeUncleared(input.config, criterion.passingTests, alignments, tainted)
                 || (input.config.Requires(AlignmentKind) && SomeUnmatched(criterion.passingTests, alignments))
  {
    var tests, absent := criterion.passingTests, Unmatched(criterion.passingTests, alignments);
    var absence := AbsenceFinding(input.evidence.pending, AlignmentKind, criterion, OfTests(absent));
    TestFindingsEffect(input.config, criterion, tests, alignments, tainted);
    UnmatchedAre(tests, alignments);
    assert forall test, alignment :: OnlyVerdict(alignments, test, alignment) ==> alignments != [];
    HasEffectOne(absence, EffectBlock);
    HasEffectOne(absence, EffectEscalate);
    var ofTests := TestFindings(input.config, criterion, tests, alignments, tainted);
    HasEffectConcat(ofTests, [absence], EffectBlock);
    HasEffectConcat(ofTests, [absence], EffectEscalate);
    HasEffectConcat(ofTests, [], EffectBlock);
    HasEffectConcat(ofTests, [], EffectEscalate);
  }

  lemma AlignmentPassIff(input: Input, criterion: Criterion, alignments: seq<Alignment>, tainted: set<string>)
    ensures Strongest(AlignmentPart(input, criterion, alignments, tainted)) == Pass
            <==> AllAligned(input, criterion, alignments, tainted)
  {
    AlignmentPartEffect(input, criterion, alignments, tainted);
    forall test | test in criterion.passingTests
      ensures Aligned(input.config, alignments, test, tainted)
              <==> !Unnamed(alignments, test) && !NamedTwice(alignments, test)
                   && !Uncleared(input.config, alignments, tainted, test)
    {
      AlignedIff(input.config, alignments, test, tainted);
      UnclearedIff(input.config, alignments, tainted, test);
      MatchingIs(alignments, test);
    }
  }

  // ----- Discriminating power

  lemma PowerPartEffect(input: Input, criterion: Criterion, powers: seq<DiscriminatingPower>)
    ensures Strongest(PowerPart(input, criterion, powers))
            == if |powers| == 1 then DpOutcome(input.config, powers[0])
               else if |powers| > 1 then Block
               else if !input.config.Requires(DiscriminatingPowerKind) then Pass
               else if AbsenceFinding(input.evidence.pending, DiscriminatingPowerKind, criterion, NoTopic).effect
               == EffectBlock then Block
               else Escalate
  {
    var absence := AbsenceFinding(input.evidence.pending, DiscriminatingPowerKind, criterion, NoTopic);
    var ambiguity := AmbiguityFinding(DiscriminatingPowerKind, criterion, NoTopic);
    HasEffectOne(absence, EffectBlock);
    HasEffectOne(absence, EffectEscalate);
    HasEffectOne(ambiguity, EffectBlock);
    HasEffectConcat([ambiguity], [absence], EffectBlock);
    assert [ambiguity] + [absence] == [ambiguity, absence];
    if |powers| == 1 {
      ClosedForm(input.config, criterion.ref.id, powers[0]);
    }
  }

  // ----- What a pass rests on

  /** The evidence under which the proofs let a criterion pass. */
  ghost predicate Proven(input: Input, criterion: Criterion, powers: seq<DiscriminatingPower>,
                         alignments: seq<Alignment>)
  {
    && (|| (|powers| == 1 && Discriminates(input.config, powers[0]))
        || (|powers| == 0 && !input.config.Requires(DiscriminatingPowerKind)))
    && AllAligned(input, criterion, alignments, TaintedTests(powers))
  }

  /** A criterion passes exactly on that evidence; so a missing proof of a required kind rules a pass out. */
  lemma PassIffProven(input: Input, criterion: Criterion, powers: seq<DiscriminatingPower>, alignments: seq<Alignment>)
    ensures CriterionOutcome(input, criterion, powers, alignments) == Pass
            <==> Proven(input, criterion, powers, alignments)
  {
    PowerPartEffect(input, criterion, powers);
    AlignmentPassIff(input, criterion, alignments, TaintedTests(powers));
    StrongestConcat(PowerPart(input, criterion, powers),
                    AlignmentPart(input, criterion, alignments, TaintedTests(powers)));
    if |powers| == 1 {
      PassIffDiscriminates(input.config, powers[0]);
    }
  }

  /**
   With both kinds required and at least one passing test, a pass rests on
   one matrix and one clearing verdict for each test.
   */
  lemma {:induction false} SoundPass(input: Input, criterion: Criterion, powers: seq<DiscriminatingPower>,
                                     alignments: seq<Alignment>)
    requires input.config.Requires(DiscriminatingPowerKind) && input.config.Requires(AlignmentKind)
    requires CriterionOutcome(input, criterion, powers, alignments) == Pass
    ensures |powers| == 1 && Discriminates(input.config, powers[0])
    ensures forall test | test in criterion.passingTests :: Aligned(input.config, alignments, test, {})
    ensures criterion.passingTests != [] ==> alignments != []
  {
    PassIffProven(input, criterion, powers, alignments);
    TaintIsAKilledSentinel(powers[0].mutants);
    if criterion.passingTests != [] {
      assert Aligned(input.config, alignments, criterion.passingTests[0], {});
    }
  }

  /** A discriminating matrix and one clearing verdict prove a criterion whose other tests need no verdict. */
  lemma OneVerdictProves(input: Input, criterion: Criterion, power: DiscriminatingPower, alignment: Alignment,
                         test: TestName)
    requires Discriminates(input.config, power)
    requires alignment.test in NamesOf(test) && Vindicates(input.config, alignment, test, {})
    requires forall other | other in criterion.passingTests ::
               other == test || (!input.config.Requires(AlignmentKind) && Unnamed([alignment], other))
    ensures CriterionOutcome(input, criterion, [power], [alignment]) == Pass
  {
    DiscriminatingTaintsNone(input.config, power);
    assert OnlyNamedAt([alignment], test, 0);
    assert Aligned(input.config, [alignment], test, {});
    assert AllAligned(input, criterion, [alignment], {});
    PassIffProven(input, criterion, [power], [alignment]);
  }

  lemma DiscriminatingTaintsNone(config: Config, power: DiscriminatingPower)
    requires Discriminates(config, power)
    ensures TaintedTests([power]) == {}
  {
    TaintIsAKilledSentinel(power.mutants);
  }

  /** Without a passing test a required alignment asks for nothing: the callers must not evaluate such a criterion. */
  lemma NoTestsNoAlignment(input: Input, criterion: Criterion, tainted: set<string>)
    requires criterion.passingTests == []
    ensures Strongest(AlignmentPart(input, criterion, [], tainted)) == Pass
  {
    AlignmentPassIff(input, criterion, [], tainted);
  }

  // ----- Adding evidence

  lemma MoreTaintNeverWeakens(input: Input, criterion: Criterion, alignments: seq<Alignment>, tainted: set<string>,
                              more: set<string>)
    requires tainted <= more
    ensures Strongest(AlignmentPart(input, criterion, alignments, tainted)).Rank()
            <= Strongest(AlignmentPart(input, criterion, alignments, more)).Rank()
  {
    AlignmentRank(input, criterion, alignments, tainted);
    AlignmentRank(input, criterion, alignments, more);
    forall test | test in criterion.passingTests && Uncleared(input.config, alignments, tainted, test)
      ensures Uncleared(input.config, alignments, more, test)
    {
      var alignment :| OnlyVerdict(alignments, test, alignment) && !Vindicates(input.config, alignment, test, tainted);
      assert NamesOf(test) !! more ==> NamesOf(test) !! tainted;
    }
  }

  /**
   Surviving mutants, killed sentinels, failing examples and a failing
   reference keep a criterion's outcome at least as strong.
   */
  lemma AddedResponsesNeverWeaken(input: Input, criterion: Criterion, power: DiscriminatingPower,
                                  alignments: seq<Alignment>, responses: seq<Response>)
    requires Unfavourable(responses)
    ensures CriterionOutcome(input, criterion, [power], alignments).Rank()
            <= CriterionOutcome(input, criterion, [RespondAll(power, responses)], alignments).Rank()
  {
    var after := RespondAll(power, responses);
    ResponsesNeverWeaken(input.config, power, responses);
    PowerPartEffect(input, criterion, [power]);
    PowerPartEffect(input, criterion, [after]);
    MoreTaintNeverWeakens(input, criterion, alignments, TaintedTests([power]), TaintedTests([after]));
    StrongestConcat(PowerPart(input, criterion, [power]),
                    AlignmentPart(input, criterion, alignments, TaintedTests([power])));
    StrongestConcat(PowerPart(input, criterion, [after]),
                    AlignmentPart(input, criterion, alignments, TaintedTests([after])));
  }

  lemma {:induction false} MatchingConcat(xs: seq<Alignment>, ys: seq<Alignment>, test: TestName)
    ensures Matching(xs + ys, test) == Matching(xs, test) + Matching(ys, test)
  {
    if ys == [] {
      assert xs + ys == xs;
    } else {
      assert (xs + ys)[..|xs + ys| - 1] == xs + ys[..|ys| - 1];
      MatchingConcat(xs, ys[..|ys| - 1], test);
    }
  }

  lemma MatchingAfterAdding(before: seq<Alignment>, added: Alignment, after: seq<Alignment>, test: TestName)
    ensures var all, more := Matching(before + after, test), Matching(before + [added] + after, test);
            more == all || (|more| == |all| + 1 && (all == [] ==> more == [added]))
  {
    MatchingConcat(before, after, test);
    MatchingConcat(before, [added], test);
    MatchingConcat(before + [added], after, test);
  }

  lemma AddedVerdictAmbiguity(tests: seq<TestName>, before: seq<Alignment>, added: Alignment, after: seq<Alignment>)
    requires SomeAmbiguous(tests, before + after)
    ensures SomeAmbiguous(tests, before + [added] + after)
  {
    var test :| test in tests && NamedTwice(before + after, test);
    MatchingIs(before + after, test);
    MatchingIs(before + [added] + after, test);
    MatchingAfterAdding(before, added, after, test);
  }

  /** A test that was not cleared, or that no proof named, stays so or has several proofs. */
  lemma AddedVerdictTest(config: Config, tests: seq<TestName>, tainted: set<string>, before: seq<Alignment>,
                         added: Alignment, after: seq<Alignment>, test: TestName)
    requires test in tests && !Vindicates(config, added, test, tainted)
    requires Uncleared(config, before + after, tainted, test) || Unnamed(before + after, test)
    ensures var more := before + [added] + after;
            || Uncleared(config, more, tainted, test) || NamedTwice(more, test)
            || (Unnamed(more, test) && Unnamed(before + after, test))
  {
    MatchingAfterAdding(before, added, after, test);
    MatchingIs(before + after, test);
    MatchingIs(before + [added] + after, test);
    UnclearedIff(config, before + after, tainted, test);
    UnclearedIff(config, before + [added] + after, tainted, test);
    ClearsIff(config, added, test, tainted);
  }

  lemma AddedVerdictEscalation(config: Config, tests: seq<TestName>, tainted: set<string>, before: seq<Alignment>,
                               added: Alignment, after: seq<Alignment>)
    requires forall test | test in tests :: !Vindicates(config, added, test, tainted)
    ensures var more := before + [added] + after;
            && (SomeUncleared(config, tests, before + after, tainted)
                ==> SomeUncleared(config, tests, more, tainted) || SomeAmbiguous(tests, more))
            && (SomeUnmatched(tests, before + after)
                ==> SomeUnmatched(tests, more) || SomeUncleared(config, tests, more, tainted)
                    || SomeAmbiguous(tests, more))
  {
    if SomeUncleared(config, tests, before + after, tainted) {
      var test :| test in tests && Uncleared(config, before + after, tainted, test);
      AddedVerdictTest(config, tests, tainted, before, added, after, test);
    }
    if SomeUnmatched(tests, before + after) {
      var test :| test in tests && Unnamed(before + after, test);
      AddedVerdictTest(config, tests, tainted, before, added, after, test);
    }
  }

  lemma AlignmentRank(input: Input, criterion: Criterion, alignments: seq<Alignment>, tainted: set<string>)
    ensures Strongest(AlignmentPart(input, criterion, alignments, tainted)).Rank()
            == if SomeAmbiguous(criterion.passingTests, alignments) then 2
               else if SomeUncleared(input.config, criterion.passingTests, alignments, tainted) then 1
               else if input.config.Requires(AlignmentKind) && SomeUnmatched(criterion.passingTests, alignments) then 1
               else 0
  {
    AlignmentPartEffect(input, criterion, alignments, tainted);
  }

  lemma AddedVerdictPart(input: Input, criterion: Criterion, tainted: set<string>, before: seq<Alignment>,
                         added: Alignment, after: seq<Alignment>)
    requires forall test | test in criterion.passingTests :: !Vindicates(input.config, added, test, tainted)
    ensures Strongest(AlignmentPart(input, criterion, before + after, tainted)).Rank()
            <= Strongest(AlignmentPart(input, criterion, before + [added] + after, tainted)).Rank()
  {
    var tests := criterion.passingTests;
    AlignmentRank(input, criterion, before + after, tainted);
    AlignmentRank(input, criterion, before + [added] + after, tainted);
    if SomeAmbiguous(tests, before + after) {
      AddedVerdictAmbiguity(tests, before, added, after);
    }
    AddedVerdictEscalation(input.config, tests, tainted, before, added, after);
  }

  /** An alignment proof that clears no test, added anywhere, keeps a criterion's outcome at least as strong. */
  lemma AddedVerdictNeverWeakens(input: Input, criterion: Criterion, powers: seq<DiscriminatingPower>,
                                 before: seq<Alignment>, added: Alignment, after: seq<Alignment>)
    requires forall test | test in criterion.passingTests ::
               !Vindicates(input.config, added, test, TaintedTests(powers))
    ensures CriterionOutcome(input, criterion, powers, before + after).Rank()
            <= CriterionOutcome(input, criterion, powers, before + [added] + after).Rank()
  {
    var tainted := TaintedTests(powers);
    AddedVerdictPart(input, criterion, tainted, before, added, after);
    StrongestConcat(PowerPart(input, criterion, powers), AlignmentPart(input, criterion, before + after, tainted));
    StrongestConcat(PowerPart(input, criterion, powers),
                    AlignmentPart(input, criterion, before + [added] + after, tainted));
  }
}
