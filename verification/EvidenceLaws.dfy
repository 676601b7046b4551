/**
 The files behind the proofs a criterion is judged by: each is a
 statement of the verified set that the gate counts.
 */
module EvidenceLaws {
  import opened Classification
  import opened ClassificationLaws
  import opened Composition
  import opened GateInput
  import opened ProofFormat
  import ClaimPowerLaws
  import GateLaws

  /** The statement file at a place of the verified set counts, is current and carries the proof for the criterion. */
  ghost predicate Backs(input: Input, statements: seq<Classified>, i: nat, ref: Requirement, proof: Predicate) {
    && i < |statements| && statements[i].Valid() && StandsOnCurrent(input, statements, i)
    && statements[i].loaded.content.statement.RequirementOrZero() == ref
    && statements[i].loaded.content.statement.predicate_ == proof
  }

  ghost predicate Backed(input: Input, statements: seq<Classified>, ref: Requirement, proof: Predicate) {
    exists i :: Backs(input, statements, i, ref, proof)
  }

  lemma {:induction false} ValidProofHasPlace(statements: seq<Classified>, kind: Kind, ref: Requirement,
                                              proof: Statement) returns (i: nat)
    requires proof in ValidProofs(statements, kind, ref)
    ensures i < |statements| && statements[i].Valid() && IsProofOf(statements[i], kind, ref)
    ensures statements[i].loaded.content.statement == proof
  {
    var last := |statements| - 1;
    if statements[last].Valid() && IsProofOf(statements[last], kind, ref)
       && statements[last].loaded.content.statement == proof {
      i := last;
    } else {
      i := ValidProofHasPlace(statements[..last], kind, ref, proof);
    }
  }

  lemma ValidProofIsBacked(input: Input, statements: seq<Classified>, kind: Kind, ref: Requirement, proof: Statement)
    requires ClassifiedAs(input, statements) && proof in ValidProofs(statements, kind, ref)
    ensures Backed(input, statements, ref, proof.predicate_)
  {
    var i := ValidProofHasPlace(statements, kind, ref, proof);
    ValidStandsOnCurrent(input, statements, i);
    assert Backs(input, statements, i, ref, proof.predicate_);
  }

  lemma PowerIsBacked(input: Input, statements: seq<Classified>, ref: Requirement, k: nat)
    requires ClassifiedAs(input, statements) && k < |Powers(statements, ref)|
    ensures Backed(input, statements, ref, OfPower(Powers(statements, ref)[k]))
  {
    var proofs := ValidProofs(statements, DiscriminatingPowerKind, ref);
    assert proofs[k] in proofs;
    ValidProofIsBacked(input, statements, DiscriminatingPowerKind, ref, proofs[k]);
  }

  lemma AlignmentIsBacked(input: Input, statements: seq<Classified>, ref: Requirement, alignment: Alignment)
    requires ClassifiedAs(input, statements) && alignment in Alignments(statements, ref)
    ensures Backed(input, statements, ref, OfAlignment(alignment))
  {
    var proofs := ValidProofs(statements, AlignmentKind, ref);
    var k :| 0 <= k < |proofs| && Alignments(statements, ref)[k] == alignment;
    assert proofs[k] in proofs;
    ValidProofIsBacked(input, statements, AlignmentKind, ref, proofs[k]);
  }

  // ----- The proofs that count

  /** The statement counts and carries a matrix or a verdict, as the kind says, about the reference. */
  predicate Carries(candidate: Classified, kind: Kind, ref: Requirement) {
    && candidate.state == StateValid && candidate.loaded.content.Parsed?
    && match candidate.loaded.content.statement.predicate_
       case OfAlignment(alignment) => kind == AlignmentKind && alignment.requirement == ref
       case OfPower(power) => kind == DiscriminatingPowerKind && power.requirement == ref
       case OfCompleteness(_) => false
  }

  /** The places of the statements that do, in file order. */
  predicate PlacesOf(statements: seq<Classified>, kind: Kind, ref: Requirement, places: seq<nat>) {
    && (forall a, b | 0 <= a < b < |places| :: places[a] < places[b])
    && (forall place | place in places :: place < |statements| && Carries(statements[place], kind, ref))
    && (forall i | 0 <= i < |statements| && Carries(statements[i], kind, ref) :: i in places)
  }

  lemma PlacesStep(earlier: seq<Classified>, last: Classified, kind: Kind, ref: Requirement, places: seq<nat>)
    requires PlacesOf(earlier, kind, ref, places)
    ensures PlacesOf(earlier + [last], kind, ref, places + if Carries(last, kind, ref) then [|earlier|] else [])
  {
    var all := earlier + [last];
    assert all[|earlier|] == last && forall i | 0 <= i < |earlier| :: all[i] == earlier[i];
    assert forall k | 0 <= k < |places| :: places[k] in places;
  }

  lemma ValidProofsStep(earlier: seq<Classified>, last: Classified, kind: Kind, ref: Requirement)
    requires kind != CompletenessKind
    ensures ValidProofs(earlier + [last], kind, ref) == ValidProofs(earlier, kind, ref)
            + if Carries(last, kind, ref) then [last.loaded.content.statement] else []
  {
    assert (earlier + [last])[..|earlier|] == earlier;
  }

  lemma {:induction false} ValidProofsAre(statements: seq<Classified>, kind: Kind, ref: Requirement)
    returns (places: seq<nat>)
    requires kind != CompletenessKind
    ensures PlacesOf(statements, kind, ref, places) && |places| == |ValidProofs(statements, kind, ref)|
    ensures forall k | 0 <= k < |places| ::
              places[k] in places
              && statements[places[k]].loaded.content == Parsed(ValidProofs(statements, kind, ref)[k])
  {
    if statements == [] {
      places := [];
    } else {
      var earlier, last := statements[..|statements| - 1], statements[|statements| - 1];
      assert statements == earlier + [last];
      var before := ValidProofsAre(earlier, kind, ref);
      PlacesStep(earlier, last, kind, ref, before);
      ValidProofsStep(earlier, last, kind, ref);
      places := before + if Carries(last, kind, ref) then [|earlier|] else [];
    }
  }

  /**
   The matrices and the verdicts a criterion is judged by are those of
   the counted statements about it, in file order.
   */
  lemma EvidenceIsAllThatCounts(statements: seq<Classified>, ref: Requirement)
    returns (matrices: seq<nat>, verdicts: seq<nat>)
    ensures PlacesOf(statements, DiscriminatingPowerKind, ref, matrices) && |matrices| == |Powers(statements, ref)|
    ensures forall k | 0 <= k < |matrices| :: matrices[k] in matrices &&
              statements[matrices[k]].loaded.content.statement.predicate_ == OfPower(Powers(statements, ref)[k])
    ensures PlacesOf(statements, AlignmentKind, ref, verdicts) && |verdicts| == |Alignments(statements, ref)|
    ensures forall k | 0 <= k < |verdicts| :: verdicts[k] in verdicts &&
              statements[verdicts[k]].loaded.content.statement.predicate_ == OfAlignment(Alignments(statements, ref)[k])
  {
    matrices := ValidProofsAre(statements, DiscriminatingPowerKind, ref);
    verdicts := ValidProofsAre(statements, AlignmentKind, ref);
    assert forall k | 0 <= k < |matrices| :: matrices[k] in matrices;
    assert forall k | 0 <= k < |verdicts| :: verdicts[k] in verdicts;
  }

  // ----- What a pass stands on

  /** One current verdict that the gate counts names the test, and it clears; no other counted verdict names it. */
  ghost predicate ClearedByCurrent(input: Input, statements: seq<Classified>, ref: Requirement, test: TestName) {
    exists alignment ::
      && GateLaws.OnlyVerdict(Alignments(statements, ref), test, alignment)
      && GateLaws.Vindicates(input.config, alignment, test, {})
      && Backed(input, statements, ref, OfAlignment(alignment))
  }

  /**
   The evidence a passing run holds for a requirement: one current matrix that
   discriminates, and for each passing test one current clearing verdict.
   */
  ghost predicate Vouched(input: Input, statements: seq<Classified>, criterion: Criterion) {
    var powers := Powers(statements, criterion.ref);
    && |powers| == 1 && ClaimPowerLaws.Discriminates(input.config, powers[0])
    && Backed(input, statements, criterion.ref, OfPower(powers[0]))
    && criterion.passingTests != []
    && forall test | test in criterion.passingTests :: ClearedByCurrent(input, statements, criterion.ref, test)
  }

  lemma AlignedIsCurrent(input: Input, statements: seq<Classified>, ref: Requirement, test: TestName)
    requires ClassifiedAs(input, statements)
    requires GateLaws.Aligned(input.config, Alignments(statements, ref), test, {})
    ensures ClearedByCurrent(input, statements, ref, test)
  {
    var alignments := Alignments(statements, ref);
    var alignment :| GateLaws.OnlyVerdict(alignments, test, alignment)
                     && GateLaws.Vindicates(input.config, alignment, test, {});
    GateLaws.OnlyVerdictIsOne(alignments, test, alignment);
    AlignmentIsBacked(input, statements, ref, alignment);
  }

  /** A pending entry waits for one kind of proof of one criterion, where IDs hold no revision separator. */
  lemma PendingIdentifiesCriterion(pending: Pending, kind: Kind, criterion: Criterion, kind': Kind,
                                   criterion': Criterion)
    requires IsPendingFor(pending, kind, criterion) && IsPendingFor(pending, kind', criterion')
    requires '~' !in criterion.ref.id && '~' !in criterion'.ref.id
    ensures kind == kind' && criterion.ref == criterion'.ref
  {
    SubjectNameInjective(criterion.ref.id, criterion.ref.revision, criterion'.ref.id, criterion'.ref.revision);
  }
}
