/** How results are read: which suite a test case comes from, what it came to, and what it cites. */
module ResultsLaws {
  import opened CitationLaws
  import opened Flattening
  import opened Ordering
  import opened Results
  import opened Traceability

  // ----- Outcomes and citations

  /** An error hides a failure, a failure hides a skip, and what has none of them passed. */
  lemma OutcomeIs(testCase: Case)
    ensures OutcomeOf(testCase) == Errored <==> testCase.errored
    ensures OutcomeOf(testCase) == Failed <==> testCase.failed && !testCase.errored
    ensures OutcomeOf(testCase) == Skipped <==> testCase.skipped && !testCase.failed && !testCase.errored
    ensures OutcomeOf(testCase) == Passed <==> !testCase.skipped && !testCase.failed && !testCase.errored
  {
  }

  /** A property of the keyword says what it cites in its value, or in its text where the value is empty. */
  predicate SaysInProperty(property: Property, value: string) {
    property.name == "verifies" && value == if property.value != "" then property.value else property.text
  }

  /** The tag stands in the name of the test case, in the name of its class or in one of its properties. */
  ghost predicate Carries(grammar: Grammar, testCase: Case, tag: Tag) {
    || tag in grammar.bracketTags(testCase.name) || tag in grammar.bracketTags(testCase.className)
    || exists property, value | property in testCase.properties ::
         SaysInProperty(property, value) && tag == grammar.refList("verifies=" + value, value)
  }

  lemma CarriesIff(grammar: Grammar, testCase: Case, tag: Tag)
    ensures tag in TagsOf(grammar, testCase) <==> Carries(grammar, testCase, tag)
  {
    var ofProperty := (property: Property) => PropertyTags(grammar, property);
    FlatMapContains(ofProperty, testCase.properties, tag);
    if property :| property in testCase.properties && tag in ofProperty(property) {
      var value := if property.value != "" then property.value else property.text;
      assert "verifies" + "=" + value == "verifies=" + value;
      assert SaysInProperty(property, value);
    }
    if property, value :| property in testCase.properties && SaysInProperty(property, value)
                          && tag == grammar.refList("verifies=" + value, value) {
      assert "verifies" + "=" + value == "verifies=" + value;
      assert tag in ofProperty(property);
      assert tag in FlatMap(ofProperty, testCase.properties);
    }
  }

  /** A test case cites what its tags cite, and has the defects its tags have. */
  lemma CitesIff(grammar: Grammar, testCase: Case, suiteName: string, displayPath: string, ref: Ref,
                 defect: MalformedTag)
    ensures var read := Converted(grammar, testCase, suiteName, displayPath);
            && (ref in read.refs <==> exists tag :: Carries(grammar, testCase, tag) && ref in tag.refs)
            && (defect in read.malformed <==> exists tag :: Carries(grammar, testCase, tag) && defect in tag.malformed)
  {
    var tags := TagsOf(grammar, testCase);
    FirstSeenKeepsMembers(RefsOf(tags), ref);
    FirstSeenKeepsMembers(MalformedOf(tags), defect);
    FlatMapContains((tag: Tag) => tag.refs, tags, ref);
    FlatMapContains((tag: Tag) => tag.malformed, tags, defect);
    forall tag ensures tag in tags <==> Carries(grammar, testCase, tag) {
      CarriesIff(grammar, testCase, tag);
    }
  }

  // ----- The order of citations

  /** The element first occurs at the place. */
  predicate FirstAt<T(==)>(xs: seq<T>, x: T, place: nat) {
    place < |xs| && xs[place] == x && x !in xs[..place]
  }

  lemma {:induction false} FirstSeenHasPlace<T>(xs: seq<T>, i: nat) returns (place: nat)
    requires i < |FirstSeen(xs)|
    ensures FirstAt(xs, FirstSeen(xs)[i], place)
  {
    var last := |xs| - 1;
    if i < |FirstSeen(xs[..last])| {
      place := FirstSeenHasPlace(xs[..last], i);
      assert xs[..last][..place] == xs[..place];
    } else {
      place := last;
    }
  }

  /** What is cited stands in the order in which it is first cited. */
  lemma {:induction false} FirstSeenKeepsOrder<T>(xs: seq<T>, i: nat, j: nat, first: nat, second: nat)
    requires i < j < |FirstSeen(xs)| && FirstAt(xs, FirstSeen(xs)[i], first) && FirstAt(xs, FirstSeen(xs)[j], second)
    ensures first < second
  {
    var last := |xs| - 1;
    var earlier := xs[..last];
    var place := FirstSeenHasPlace(earlier, i);
    assert earlier[..place] == xs[..place];
    SameFirst(xs, FirstSeen(xs)[i], first, place);
    if j < |FirstSeen(earlier)| {
      var other := FirstSeenHasPlace(earlier, j);
      assert earlier[..other] == xs[..other];
      SameFirst(xs, FirstSeen(xs)[j], second, other);
      FirstSeenKeepsOrder(earlier, i, j, first, second);
    } else {
      SameFirst(xs, xs[last], second, last);
    }
  }

  lemma SameFirst<T>(xs: seq<T>, x: T, one: nat, other: nat)
    requires FirstAt(xs, x, one) && FirstAt(xs, x, other)
    ensures one == other
  {
  }

  /** The tags of the name come before those of the class, and these before those of the properties, in their order. */
  lemma TagsInOrder(grammar: Grammar, testCase: Case, property: Property, value: string)
    requires SaysInProperty(property, value)
    ensures TagsOf(grammar, testCase.(properties := []))
            == grammar.bracketTags(testCase.name) + grammar.bracketTags(testCase.className)
    ensures TagsOf(grammar, testCase.(properties := testCase.properties + [property]))
            == TagsOf(grammar, testCase) + [grammar.refList("verifies=" + value, value)]
  {
    var ofProperty := (one: Property) => PropertyTags(grammar, one);
    FlatMapConcat(ofProperty, testCase.properties, [property]);
    FlatMapOne(ofProperty, property);
    assert "verifies" + "=" + value == "verifies=" + value;
    assert ofProperty(property) == [grammar.refList("verifies=" + value, value)];
  }

  // ----- Suites

  /** The suite itself or one nested in it. */
  predicate Within(inner: Suite, suite: Suite)
    decreases suite
  {
    inner == suite || exists k | 0 <= k < |suite.suites| :: Within(inner, suite.suites[k])
  }

  /** The test case is the one of the suite at the place, read with the name of the suite. */
  ghost predicate ReadAt(grammar: Grammar, suite: Suite, place: nat, displayPath: string, testCase: TestCase) {
    place < |suite.cases| && testCase == Converted(grammar, suite.cases[place], suite.name, displayPath)
  }

  function Reading(grammar: Grammar, suiteName: string, displayPath: string): Case -> TestCase {
    (testCase: Case) => Converted(grammar, testCase, suiteName, displayPath)
  }

  lemma {:induction false} OwnCasesAreRead(grammar: Grammar, suite: Suite, count: nat, displayPath: string)
    requires count <= |suite.cases|
    ensures OwnCases(grammar, suite, count, displayPath)
            == Apply(Reading(grammar, suite.name, displayPath), suite.cases[..count])
  {
    if count > 0 {
      OwnCasesAreRead(grammar, suite, count - 1, displayPath);
    }
  }

  lemma InApplied<T, U>(f: T -> U, xs: seq<T>, u: U)
    ensures u in Apply(f, xs) <==> exists i | 0 <= i < |xs| :: f(xs[i]) == u
  {
    if i :| 0 <= i < |xs| && f(xs[i]) == u {
      assert Apply(f, xs)[i] == u;
    }
  }

  lemma OwnCasesAre(grammar: Grammar, suite: Suite, displayPath: string, testCase: TestCase)
    ensures testCase in OwnCases(grammar, suite, |suite.cases|, displayPath)
            <==> exists place: nat :: ReadAt(grammar, suite, place, displayPath, testCase)
  {
    var reading := Reading(grammar, suite.name, displayPath);
    OwnCasesAreRead(grammar, suite, |suite.cases|, displayPath);
    assert suite.cases[..|suite.cases|] == suite.cases;
    InApplied(reading, suite.cases, testCase);
    if i :| 0 <= i < |suite.cases| && reading(suite.cases[i]) == testCase {
      assert ReadAt(grammar, suite, i, displayPath, testCase);
    }
    if place: nat :| ReadAt(grammar, suite, place, displayPath, testCase) {
      assert reading(suite.cases[place]) == testCase;
    }
  }

  /** A case of the suite or of one nested in it. */
  ghost predicate ReadFrom(grammar: Grammar, suite: Suite, displayPath: string, testCase: TestCase) {
    exists inner, place: nat :: Within(inner, suite) && ReadAt(grammar, inner, place, displayPath, testCase)
  }

  function ReadingAll(grammar: Grammar, displayPath: string): Suite -> seq<TestCase> {
    (suite: Suite) => CasesOf(grammar, suite, displayPath)
  }

  lemma {:induction false} NestedCasesAreRead(grammar: Grammar, suite: Suite, count: nat, displayPath: string)
    requires count <= |suite.suites|
    ensures CasesOfNested(grammar, suite, count, displayPath)
            == FlatMap(ReadingAll(grammar, displayPath), suite.suites[..count])
  {
    if count > 0 {
      NestedCasesAreRead(grammar, suite, count - 1, displayPath);
      FlatMapStep(ReadingAll(grammar, displayPath), suite.suites, count - 1);
    }
  }

  lemma WithinOne(inner: Suite, nested: Suite, suite: Suite)
    requires nested in suite.suites && Within(inner, nested)
    ensures Within(inner, suite)
  {
    var k :| 0 <= k < |suite.suites| && suite.suites[k] == nested;
    assert Within(inner, suite.suites[k]);
  }

  lemma ReadFromIff(grammar: Grammar, suite: Suite, displayPath: string, testCase: TestCase)
    ensures ReadFrom(grammar, suite, displayPath, testCase)
            <==> || (exists place: nat :: ReadAt(grammar, suite, place, displayPath, testCase))
                 || exists nested | nested in suite.suites :: ReadFrom(grammar, nested, displayPath, testCase)
  {
    assert Within(suite, suite);
    if nested :| nested in suite.suites && ReadFrom(grammar, nested, displayPath, testCase) {
      var inner, place: nat :| Within(inner, nested) && ReadAt(grammar, inner, place, displayPath, testCase);
      WithinOne(inner, nested, suite);
    }
    if inner, place: nat :| Within(inner, suite) && ReadAt(grammar, inner, place, displayPath, testCase)
                            && inner != suite {
      var k :| 0 <= k < |suite.suites| && Within(inner, suite.suites[k]);
      assert ReadFrom(grammar, suite.suites[k], displayPath, testCase);
    }
  }

  lemma CasesOfSuite(grammar: Grammar, suite: Suite, displayPath: string, testCase: TestCase)
    ensures testCase in CasesOf(grammar, suite, displayPath)
            <==> || (exists place: nat :: ReadAt(grammar, suite, place, displayPath, testCase))
                 || exists inner | inner in suite.suites :: testCase in CasesOf(grammar, inner, displayPath)
  {
    OwnCasesAre(grammar, suite, displayPath, testCase);
    NestedCasesAreRead(grammar, suite, |suite.suites|, displayPath);
    assert suite.suites[..|suite.suites|] == suite.suites;
    FlatMapContains(ReadingAll(grammar, displayPath), suite.suites, testCase);
  }

  lemma CasesFromNested(grammar: Grammar, suite: Suite, displayPath: string, testCase: TestCase)
    requires forall nested | nested in suite.suites :: testCase in CasesOf(grammar, nested, displayPath)
                                                       <==> ReadFrom(grammar, nested, displayPath, testCase)
    ensures testCase in CasesOf(grammar, suite, displayPath) <==> ReadFrom(grammar, suite, displayPath, testCase)
  {
    CasesOfSuite(grammar, suite, displayPath, testCase);
    ReadFromIff(grammar, suite, displayPath, testCase);
  }

  /** The test cases of a document are those of all its suites, however deep they are nested. */
  lemma {:induction false} CasesAre(grammar: Grammar, suite: Suite, displayPath: string, testCase: TestCase)
    ensures testCase in CasesOf(grammar, suite, displayPath) <==> ReadFrom(grammar, suite, displayPath, testCase)
    decreases suite
  {
    forall nested | nested in suite.suites
      ensures testCase in CasesOf(grammar, nested, displayPath)
              <==> ReadFrom(grammar, nested, displayPath, testCase)
    {
      CasesAre(grammar, nested, displayPath, testCase);
    }
    CasesFromNested(grammar, suite, displayPath, testCase);
  }

  lemma CasesAreRead(grammar: Grammar, suite: Suite, displayPath: string)
    ensures CasesOf(grammar, suite, displayPath)
            == Apply(Reading(grammar, suite.name, displayPath), suite.cases)
               + FlatMap(ReadingAll(grammar, displayPath), suite.suites)
  {
    OwnCasesAreRead(grammar, suite, |suite.cases|, displayPath);
    NestedCasesAreRead(grammar, suite, |suite.suites|, displayPath);
    assert suite.cases[..|suite.cases|] == suite.cases && suite.suites[..|suite.suites|] == suite.suites;
  }

  lemma OneMoreApplied<T, U>(f: T -> U, xs: seq<T>, x: T)
    ensures Apply(f, xs + [x]) == Apply(f, xs) + [f(x)]
  {
  }

  /** They come as they stand in the document: a suite's own, then those of each suite nested in it. */
  lemma CasesInOrder(grammar: Grammar, suite: Suite, oneCase: Case, oneSuite: Suite, displayPath: string)
    ensures CasesOf(grammar, Suite(suite.name, [], []), displayPath) == []
    ensures CasesOf(grammar, Suite(suite.name, suite.cases + [oneCase], []), displayPath)
            == CasesOf(grammar, Suite(suite.name, suite.cases, []), displayPath)
               + [Converted(grammar, oneCase, suite.name, displayPath)]
    ensures CasesOf(grammar, suite.(suites := suite.suites + [oneSuite]), displayPath)
            == CasesOf(grammar, suite, displayPath) + CasesOf(grammar, oneSuite, displayPath)
  {
    var reading, all := Reading(grammar, suite.name, displayPath), ReadingAll(grammar, displayPath);
    CasesAreRead(grammar, Suite(suite.name, [], []), displayPath);
    CasesAreRead(grammar, Suite(suite.name, suite.cases + [oneCase], []), displayPath);
    CasesAreRead(grammar, Suite(suite.name, suite.cases, []), displayPath);
    OneMoreApplied(reading, suite.cases, oneCase);
    CasesAreRead(grammar, suite, displayPath);
    CasesAreRead(grammar, suite.(suites := suite.suites + [oneSuite]), displayPath);
    FlatMapConcat(all, suite.suites, [oneSuite]);
    FlatMapOne(all, oneSuite);
    ConcatAssociates(Apply(reading, suite.cases), FlatMap(all, suite.suites), all(oneSuite));
  }
}
