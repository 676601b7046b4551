/** The orders of the gate's report: criteria by their names, consumed files by their paths, and nothing lost. */
module ReportOrder {
  import opened Classification
  import opened Composition
  import opened GateInput
  import opened Ordering
  import opened ProofFormat
  import opened Wrappers

  function NameOf(criterion: Criterion): string {
    criterion.ref.id + "~" + Decimal(criterion.ref.revision)
  }

  /** The reported criteria are those asked about, and none stands behind one whose name comes later. */
  lemma CriteriaAscend(criteria: seq<Criterion>)
    ensures var sorted := StableSort(criteria, ByRefText);
            && multiset(sorted) == multiset(criteria)
            && forall i, j | 0 <= i < j < |sorted| :: !Precedes(NameOf(sorted[j]), NameOf(sorted[i]))
  {
    var sorted := StableSort(criteria, ByRefText);
    SortPermutes(criteria, ByRefText);
    forall i, j | 0 <= i < j < |sorted| ensures !Precedes(NameOf(sorted[j]), NameOf(sorted[i])) {
      SortAscends(criteria, ByRefText, NameOf, i, j);
    }
  }

  /** The entry is that of the file: its path, digest, state and cause, and its kind and subject where it was read. */
  predicate Lists(file: Classified, entry: ConsumedProof) {
    && entry.path == file.loaded.path && entry.digest == file.loaded.digest
    && entry.state == file.state && entry.cause == file.cause
    && match file.loaded.content
       case Parsed(statement) =>
         && entry.subject == statement.subject.name
         && entry.kind == (match statement.predicate_
                           case OfAlignment(_) => Some(AlignmentKind)
                           case OfPower(_) => Some(DiscriminatingPowerKind)
                           case OfCompleteness(_) => Some(CompletenessKind))
       case _ => entry.kind == None && entry.subject == ""
  }

  ghost predicate Listed(statements: seq<Classified>, entry: ConsumedProof) {
    exists file | file in statements :: Lists(file, entry)
  }

  lemma EntryIff(file: Classified, entry: ConsumedProof)
    ensures Lists(file, entry) <==> entry == ConsumedOf(file)
  {
  }

  lemma EntriesAre(statements: seq<Classified>, entry: ConsumedProof)
    ensures entry in Apply(ConsumedOf, statements) <==> Listed(statements, entry)
  {
    var entries := Apply(ConsumedOf, statements);
    if entry in entries {
      var i :| 0 <= i < |entries| && entries[i] == entry;
      EntryIff(statements[i], entry);
    }
    if file :| file in statements && Lists(file, entry) {
      var i :| 0 <= i < |statements| && statements[i] == file;
      EntryIff(file, entry);
      assert entries[i] == entry;
    }
  }

  /** The report lists an entry for each file, by path. */
  lemma ConsumedAscend(statements: seq<Classified>)
    ensures var consumed := StableSort(Apply(ConsumedOf, statements), ByPath);
            && |consumed| == |statements|
            && (forall entry :: entry in consumed <==> Listed(statements, entry))
            && forall i, j | 0 <= i < j < |consumed| :: !Precedes(consumed[j].path, consumed[i].path)
  {
    var entries := Apply(ConsumedOf, statements);
    var consumed := StableSort(entries, ByPath);
    SortPermutes(entries, ByPath);
    SameMembers(consumed, entries);
    assert |multiset(consumed)| == |multiset(entries)|;
    forall entry ensures entry in consumed <==> Listed(statements, entry) {
      EntriesAre(statements, entry);
    }
    forall i, j | 0 <= i < j < |consumed| ensures !Precedes(consumed[j].path, consumed[i].path) {
      SortAscends(entries, ByPath, (one: ConsumedProof) => one.path, i, j);
    }
  }
}
