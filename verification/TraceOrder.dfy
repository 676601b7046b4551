/** The orders of the matrix: declarations by where they stand, and the tests of a row by where they ran. */
module TraceOrder {
  import opened Ordering
  import opened Traceability

  /** In an earlier file by name, or further up in the same one. */
  ghost predicate Above(a: Location, b: Location) {
    Precedes(a.file, b.file) || (a.file == b.file && a.line < b.line)
  }

  lemma LocationBeforeIff(a: Location, b: Location)
    ensures LocationBefore(a, b) <==> !Above(b, a)
  {
    CompareStringsIff(a.file, b.file);
    CompareStringsIff(b.file, a.file);
    CompareStringsIdentifies(a.file, b.file);
  }

  lemma LocationsAreOrdered(a: Location, b: Location, c: Location)
    ensures LocationBefore(a, a) && (LocationBefore(a, b) || LocationBefore(b, a))
    ensures LocationBefore(a, b) && LocationBefore(b, c) ==> LocationBefore(a, c)
  {
    TextsAreOrdered(a.file, b.file, c.file);
    TextsAreOrdered(a.file, a.file, a.file);
  }

  lemma TextsAreOrdered(a: string, b: string, c: string)
    ensures CompareStrings(a, b) == 0 <==> a == b
    ensures CompareStrings(b, c) == 0 <==> b == c
    ensures CompareStrings(a, c) == 0 <==> a == c
    ensures CompareStrings(a, b) == -CompareStrings(b, a)
    ensures CompareStrings(a, b) <= 0 && CompareStrings(b, c) <= 0 ==> CompareStrings(a, c) <= 0
  {
    CompareStringsIdentifies(a, b);
    CompareStringsIdentifies(b, c);
    CompareStringsIdentifies(a, c);
    if CompareStrings(a, b) <= 0 && CompareStrings(b, c) <= 0 {
      CompareStringsTransitive(a, b, c);
    }
  }

  /** No declaration stands behind one that is above it, and none is lost. */
  lemma DeclarationsAscend(requirements: seq<Focused>)
    ensures multiset(InOrder(requirements)) == multiset(requirements)
    ensures forall i, j | 0 <= i < j < |InOrder(requirements)| ::
              !Above(InOrder(requirements)[j].requirement.location, InOrder(requirements)[i].requirement.location)
  {
    forall a: Focused, b: Focused, c: Focused
      ensures InLocationOrder(a, a) && (InLocationOrder(a, b) || InLocationOrder(b, a))
      ensures InLocationOrder(a, b) && InLocationOrder(b, c) ==> InLocationOrder(a, c)
    {
      LocationsAreOrdered(a.requirement.location, b.requirement.location, c.requirement.location);
    }
    SortPermutes(requirements, InLocationOrder);
    SortOrders(requirements, InLocationOrder);
    var sorted := InOrder(requirements);
    forall i, j | 0 <= i < j < |sorted| ensures !Above(sorted[j].requirement.location, sorted[i].requirement.location) {
      LocationBeforeIff(sorted[i].requirement.location, sorted[j].requirement.location);
    }
  }

  // ----- Tests

  /** Where a test is shown: in the source where it has one, else in the results. */
  function Shown(test: BoundTest): Location {
    match test.source case Some(location) => location case None => Location(test.resultsFile, 0)
  }

  /** By results file, then by class, then by name, then by where it is shown. */
  ghost predicate TestBefore(a: BoundTest, b: BoundTest) {
    || Precedes(a.resultsFile, b.resultsFile)
    || (a.resultsFile == b.resultsFile
        && (|| Precedes(a.className, b.className)
            || (a.className == b.className
                && (Precedes(a.name, b.name) || (a.name == b.name && Above(Shown(a), Shown(b)))))))
  }

  lemma InTestOrderIff(a: BoundTest, b: BoundTest)
    ensures InTestOrder(a, b) <==> !TestBefore(b, a)
  {
    CompareStringsIff(a.resultsFile, b.resultsFile);
    CompareStringsIff(b.resultsFile, a.resultsFile);
    CompareStringsIff(a.className, b.className);
    CompareStringsIff(b.className, a.className);
    CompareStringsIff(a.name, b.name);
    CompareStringsIff(b.name, a.name);
    CompareStringsIdentifies(a.resultsFile, b.resultsFile);
    CompareStringsIdentifies(a.className, b.className);
    CompareStringsIdentifies(a.name, b.name);
    LocationBeforeIff(Shown(a), Shown(b));
  }

  lemma TestsAreOrdered(a: BoundTest, b: BoundTest, c: BoundTest)
    ensures InTestOrder(a, a) && (InTestOrder(a, b) || InTestOrder(b, a))
    ensures InTestOrder(a, b) && InTestOrder(b, c) ==> InTestOrder(a, c)
  {
    TextsAreOrdered(a.resultsFile, b.resultsFile, c.resultsFile);
    TextsAreOrdered(a.className, b.className, c.className);
    TextsAreOrdered(a.name, b.name, c.name);
    TextsAreOrdered(a.resultsFile, a.resultsFile, a.resultsFile);
    TextsAreOrdered(a.className, a.className, a.className);
    TextsAreOrdered(a.name, a.name, a.name);
    LocationsAreOrdered(LocationOfTest(a), LocationOfTest(b), LocationOfTest(c));
    LocationsAreOrdered(LocationOfTest(a), LocationOfTest(a), LocationOfTest(a));
  }

  /** The tests of a row are those bound to its ID, and none stands behind one it comes before. */
  lemma RowTestsAscend(focused: Focused, bindings: seq<Binding>)
    ensures var tests := SettledRow(focused, bindings).tests;
            && multiset(tests) == multiset(TestsOf(bindings, focused.requirement.ref.id))
            && forall i, j | 0 <= i < j < |tests| :: !TestBefore(tests[j], tests[i])
  {
    var tests := SettledRow(focused, bindings).tests;
    forall a: BoundTest, b: BoundTest, c: BoundTest
      ensures InTestOrder(a, a) && (InTestOrder(a, b) || InTestOrder(b, a))
      ensures InTestOrder(a, b) && InTestOrder(b, c) ==> InTestOrder(a, c)
    {
      TestsAreOrdered(a, b, c);
    }
    SortPermutes(TestsOf(bindings, focused.requirement.ref.id), InTestOrder);
    SortOrders(TestsOf(bindings, focused.requirement.ref.id), InTestOrder);
    forall i, j | 0 <= i < j < |tests| ensures !TestBefore(tests[j], tests[i]) {
      InTestOrderIff(tests[i], tests[j]);
    }
  }
}
