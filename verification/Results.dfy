/**
 Test results: the nested suites of a JUnit document turned into a flat list of test
 cases, each with its outcome and with the references that its name, its class name
 and its properties cite.
 */
module Results {
  import opened CitationLaws
  import opened Flattening
  import opened Ordering
  import opened Traceability

  datatype Tag = Tag(refs: seq<Ref>, malformed: seq<MalformedTag>)

  /** How tags are read out of a name and out of the value of a property. */
  datatype Grammar = Grammar(bracketTags: string -> seq<Tag>, refList: (string, string) -> Tag)

  datatype Property = Property(name: string, value: string, text: string)

  datatype Case = Case(name: string, className: string, errored: bool, failed: bool, skipped: bool,
                       properties: seq<Property>)

  datatype Suite = Suite(name: string, cases: seq<Case>, suites: seq<Suite>)

  const TAG_KEYWORD := "verifies"

  // ----- Distinct citations

  /** The elements in the order they first occur. */
  function FirstSeen<T(==)>(xs: seq<T>): seq<T> {
    if xs == [] then []
    else FirstSeen(xs[..|xs| - 1]) + if xs[|xs| - 1] in xs[..|xs| - 1] then [] else [xs[|xs| - 1]]
  }

  lemma {:induction false} FirstSeenKeepsMembers<T>(xs: seq<T>, x: T)
    ensures x in FirstSeen(xs) <==> x in xs
  {
    if xs != [] {
      FirstSeenKeepsMembers(xs[..|xs| - 1], x);
      assert xs == xs[..|xs| - 1] + [xs[|xs| - 1]];
    }
  }

  lemma {:induction false} FirstSeenIsDistinct<T>(xs: seq<T>)
    ensures Distinct(FirstSeen(xs))
  {
    if xs != [] {
      FirstSeenIsDistinct(xs[..|xs| - 1]);
      FirstSeenKeepsMembers(xs[..|xs| - 1], xs[|xs| - 1]);
    }
  }

  lemma FirstSeenAppend<T>(xs: seq<T>, x: T)
    ensures FirstSeen(xs + [x]) == FirstSeen(xs) + if x in xs then [] else [x]
  {
    assert (xs + [x])[..|xs + [x]| - 1] == xs;
  }

  function RefsOf(tags: seq<Tag>): seq<Ref> {
    FlatMap((tag: Tag) => tag.refs, tags)
  }

  function MalformedOf(tags: seq<Tag>): seq<MalformedTag> {
    FlatMap((tag: Tag) => tag.malformed, tags)
  }

  lemma OneMoreTag(tags: seq<Tag>, tag: Tag)
    ensures RefsOf(tags + [tag]) == RefsOf(tags) + tag.refs
    ensures MalformedOf(tags + [tag]) == MalformedOf(tags) + tag.malformed
  {
    assert (tags + [tag])[..|tags|] == tags;
  }

  /** What one test case cites so far, each reference and each malformed tag once. */
  class Citations {
    var refs: seq<Ref>
    var malformed: seq<MalformedTag>
    var seenRefs: set<Ref>
    var seenMalformed: set<MalformedTag>
    ghost var cited: seq<Ref>
    ghost var defects: seq<MalformedTag>
    ghost var added: seq<Tag>

    /** What is kept is distinct, and what was seen is known. */
    ghost predicate KeepsRefs()
      reads this`refs, this`seenRefs, this`cited
    {
      refs == FirstSeen(cited) && forall ref :: ref in seenRefs <==> ref in cited
    }

    ghost predicate KeepsMalformed()
      reads this`malformed, this`seenMalformed, this`defects
    {
      malformed == FirstSeen(defects) && forall defect :: defect in seenMalformed <==> defect in defects
    }

    ghost predicate Valid()
      reads this
    {
      KeepsRefs() && KeepsMalformed() && cited == RefsOf(added) && defects == MalformedOf(added)
    }

    constructor ()
      ensures Valid() && added == []
    {
      refs, malformed, seenRefs, seenMalformed := [], [], {}, {};
      cited, defects, added := [], [], [];
    }

    method Add(tag: Tag)
      requires Valid()
      modifies this
      ensures Valid() && added == old(added) + [tag]
    {
      AddRefs(tag.refs);
      AddMalformed(tag.malformed);
      OneMoreTag(added, tag);
      added := added + [tag];
    }

    method AddRefs(more: seq<Ref>)
      requires KeepsRefs()
      modifies this`refs, this`seenRefs, this`cited
      ensures KeepsRefs() && cited == old(cited) + more
    {
      for k := 0 to |more|
        invariant KeepsRefs() && cited == old(cited) + more[..k]
      {
        TakeOneMore(more, k);
        ConcatAssociates(old(cited), more[..k], [more[k]]);
        FirstSeenAppend(cited, more[k]);
        if more[k] !in seenRefs {
          seenRefs := seenRefs + {more[k]};
          refs := refs + [more[k]];
        }
        cited := cited + [more[k]];
      }
      assert more[..|more|] == more;
    }

    method AddMalformed(more: seq<MalformedTag>)
      requires KeepsMalformed()
      modifies this`malformed, this`seenMalformed, this`defects
      ensures KeepsMalformed() && defects == old(defects) + more
    {
      for k := 0 to |more|
        invariant KeepsMalformed() && defects == old(defects) + more[..k]
      {
        TakeOneMore(more, k);
        ConcatAssociates(old(defects), more[..k], [more[k]]);
        FirstSeenAppend(defects, more[k]);
        if more[k] !in seenMalformed {
          seenMalformed := seenMalformed + {more[k]};
          malformed := malformed + [more[k]];
        }
        defects := defects + [more[k]];
      }
      assert more[..|more|] == more;
    }

    method AddAll(tags: seq<Tag>)
      requires Valid()
      modifies this
      ensures Valid() && added == old(added) + tags
    {
      for k := 0 to |tags|
        invariant Valid() && added == old(added) + tags[..k]
      {
        Add(tags[k]);
      }
    }
  }

  // ----- Test cases

  function OutcomeOf(testCase: Case): TestOutcome {
    if testCase.errored then Errored
    else if testCase.failed then Failed
    else if testCase.skipped then Skipped
    else Passed
  }

  function PropertyTags(grammar: Grammar, property: Property): seq<Tag> {
    if property.name != TAG_KEYWORD then []
    else
      var value := if property.value == "" then property.text else property.value;
      [grammar.refList(TAG_KEYWORD + "=" + value, value)]
  }

  /** The tags of a test case: in its name, in its class name, then in its properties. */
  function TagsOf(grammar: Grammar, testCase: Case): seq<Tag> {
    grammar.bracketTags(testCase.name) + grammar.bracketTags(testCase.className)
    + FlatMap((property: Property) => PropertyTags(grammar, property), testCase.properties)
  }

  function Converted(grammar: Grammar, testCase: Case, suiteName: string, displayPath: string): TestCase {
    var tags := TagsOf(grammar, testCase);
    TestCase(displayPath, suiteName, testCase.className, testCase.name, OutcomeOf(testCase),
             FirstSeen(RefsOf(tags)), FirstSeen(MalformedOf(tags)))
  }

  method Convert(grammar: Grammar, testCase: Case, suiteName: string, displayPath: string) returns (converted: TestCase)
    ensures converted == Converted(grammar, testCase, suiteName, displayPath)
  {
    var citations := new Citations();
    citations.AddAll(grammar.bracketTags(testCase.name));
    citations.AddAll(grammar.bracketTags(testCase.className));
    ghost var named := grammar.bracketTags(testCase.name) + grammar.bracketTags(testCase.className);
    ghost var ofProperty := (property: Property) => PropertyTags(grammar, property);
    for k := 0 to |testCase.properties|
      invariant citations.Valid() && fresh(citations)
      invariant citations.added == named + FlatMap(ofProperty, testCase.properties[..k])
    {
      var property := testCase.properties[k];
      FlatMapStep(ofProperty, testCase.properties, k);
      ConcatAssociates(named, FlatMap(ofProperty, testCase.properties[..k]), ofProperty(property));
      if property.name != TAG_KEYWORD {
        continue;
      }
      var value := property.value;
      if value == "" {
        value := property.text;
      }
      citations.Add(grammar.refList(TAG_KEYWORD + "=" + value, value));
    }
    assert testCase.properties[..|testCase.properties|] == testCase.properties;
    converted :=
      TestCase(displayPath, suiteName, testCase.className, testCase.name, OutcomeOf(testCase), citations.refs,
               citations.malformed);
  }

  // ----- Suites

  /** The cases of a suite, then those of the suites nested in it, depth first. */
  function CasesOf(grammar: Grammar, suite: Suite, displayPath: string): seq<TestCase>
    decreases suite, 1, 0
  {
    OwnCases(grammar, suite, |suite.cases|, displayPath) + CasesOfNested(grammar, suite, |suite.suites|, displayPath)
  }

  function OwnCases(grammar: Grammar, suite: Suite, count: nat, displayPath: string): seq<TestCase>
    requires count <= |suite.cases|
  {
    if count == 0 then []
    else
      OwnCases(grammar, suite, count - 1, displayPath)
      + [Converted(grammar, suite.cases[count - 1], suite.name, displayPath)]
  }

  function CasesOfNested(grammar: Grammar, suite: Suite, count: nat, displayPath: string): seq<TestCase>
    requires count <= |suite.suites|
    decreases suite, 0, count
  {
    if count == 0 then []
    else CasesOfNested(grammar, suite, count - 1, displayPath) + CasesOf(grammar, suite.suites[count - 1], displayPath)
  }

  method CollectOwn(grammar: Grammar, testCases: seq<TestCase>, suite: Suite, displayPath: string)
    returns (collected: seq<TestCase>)
    ensures collected == testCases + OwnCases(grammar, suite, |suite.cases|, displayPath)
  {
    collected := testCases;
    for k := 0 to |suite.cases|
      invariant collected == testCases + OwnCases(grammar, suite, k, displayPath)
    {
      var converted := Convert(grammar, suite.cases[k], suite.name, displayPath);
      ConcatAssociates(testCases, OwnCases(grammar, suite, k, displayPath), [converted]);
      collected := collected + [converted];
    }
  }

  method Collect(grammar: Grammar, testCases: seq<TestCase>, suite: Suite, displayPath: string)
    returns (collected: seq<TestCase>)
    ensures collected == testCases + CasesOf(grammar, suite, displayPath)
    decreases suite
  {
    collected := CollectOwn(grammar, testCases, suite, displayPath);
    ghost var own, start := OwnCases(grammar, suite, |suite.cases|, displayPath), collected;
    for k := 0 to |suite.suites|
      invariant collected == start + CasesOfNested(grammar, suite, k, displayPath)
    {
      ghost var nested, next := CasesOfNested(grammar, suite, k, displayPath),
                                CasesOf(grammar, suite.suites[k], displayPath);
      ConcatAssociates(start, nested, next);
      collected := Collect(grammar, collected, suite.suites[k], displayPath);
    }
    ConcatAssociates(testCases, own, CasesOfNested(grammar, suite, |suite.suites|, displayPath));
  }

  /** Everything read from results cites each reference once and ran or was skipped. */
  ghost predicate AsRead(testCase: TestCase) {
    Distinct(testCase.refs) && Distinct(testCase.malformed) && testCase.outcome != NotRun
  }

  lemma {:induction false} ReadCasesCiteOnce(grammar: Grammar, suite: Suite, displayPath: string, testCase: TestCase)
    requires testCase in CasesOf(grammar, suite, displayPath)
    ensures AsRead(testCase)
    decreases suite, 1, 0
  {
    if testCase in CasesOfNested(grammar, suite, |suite.suites|, displayPath) {
      NestedCasesCiteOnce(grammar, suite, |suite.suites|, displayPath, testCase);
    } else {
      OwnCasesCiteOnce(grammar, suite, |suite.cases|, displayPath, testCase);
    }
  }

  lemma {:induction false} OwnCasesCiteOnce(grammar: Grammar, suite: Suite, count: nat, displayPath: string,
                                            testCase: TestCase)
    requires count <= |suite.cases| && testCase in OwnCases(grammar, suite, count, displayPath)
    ensures AsRead(testCase)
  {
    if testCase in OwnCases(grammar, suite, count - 1, displayPath) {
      OwnCasesCiteOnce(grammar, suite, count - 1, displayPath, testCase);
    } else {
      var tags := TagsOf(grammar, suite.cases[count - 1]);
      FirstSeenIsDistinct(RefsOf(tags));
      FirstSeenIsDistinct(MalformedOf(tags));
    }
  }

  lemma {:induction false} NestedCasesCiteOnce(grammar: Grammar, suite: Suite, count: nat, displayPath: string,
                                               testCase: TestCase)
    requires count <= |suite.suites| && testCase in CasesOfNested(grammar, suite, count, displayPath)
    ensures AsRead(testCase)
    decreases suite, 0, count
  {
    if testCase in CasesOf(grammar, suite.suites[count - 1], displayPath) {
      ReadCasesCiteOnce(grammar, suite.suites[count - 1], displayPath, testCase);
    } else {
      NestedCasesCiteOnce(grammar, suite, count - 1, displayPath, testCase);
    }
  }

  /**
   With results read from files, a reference is bound to each test case
   that cites it, once, in the order of the files.
   */
  lemma ReadResultsBindOnce(grammar: Grammar, suite: Suite, displayPath: string, scan: Scan, known: map<string,
                            Focused>, ref: Ref)
    requires Resolves(known, ref)
    ensures TestsOf(CitationBindings(scan, known, CasesOf(grammar, suite, displayPath)), ref.id)
            == FlatMap((testCase: TestCase) => BoundOnce(scan, ref, testCase), CasesOf(grammar, suite, displayPath))
  {
    forall testCase | testCase in CasesOf(grammar, suite, displayPath) ensures Distinct(testCase.refs) {
      ReadCasesCiteOnce(grammar, suite, displayPath, testCase);
    }
    BoundTestsAreCitingCases(scan, known, CasesOf(grammar, suite, displayPath), ref);
  }
}
