/**
 The preimage of the cache key of a proof: the canonical JSON of its sorted
 subjects and inputs. The key is the SHA-256 of this text.
 */
module CacheKey {
  import opened CanonicalJson
  import opened CanonicalJsonLaws
  import opened Ordering
  import opened ProofFormat
  import opened Wrappers

  function RoleText(role: InputRole): string {
    match role
    case RoleSpec => "spec"
    case RoleTestSource => "test_source"
    case RoleCodeTree => "code_tree"
    case RoleJUnitResult => "junit_result"
    case RoleMutantSet => "mutant_set"
    case RoleModelID => "model_id"
    case RolePromptTemplate => "prompt_template"
    case RoleDecisionPolicy => "decision_policy"
    case RoleExampleBinding => "example_binding"
    case RoleHostResponse => "host_response"
    case RoleProof => "proof"
  }

  /** An input as the key sees it: the globs of its annotations, but not the criterion. */
  datatype KeyedInput = KeyedInput(role: InputRole, name: string, digest: string, globs: Option<seq<string>>)

  function KeyedInputOf(input: Descriptor): KeyedInput {
    KeyedInput(input.role, input.name, input.digest,
               if input.annotations.Some? then Some(input.annotations.value.globs) else None)
  }

  function CompareInputs(a: Descriptor, b: Descriptor): int {
    CompareKeyed(KeyedInputOf(a), KeyedInputOf(b))
  }

  /** The order of the inputs looks at the role, the name and the digest, in that order. */
  function CompareKeyed(a: KeyedInput, b: KeyedInput): int {
    var byRole, byName := CompareStrings(RoleText(a.role), RoleText(b.role)), CompareStrings(a.name, b.name);
    if byRole != 0 then byRole else if byName != 0 then byName else CompareStrings(a.digest, b.digest)
  }

  function CompareSubjects(a: Subject, b: Subject): int {
    var byName := CompareStrings(a.name, b.name);
    if byName != 0 then byName else CompareStrings(a.digest, b.digest)
  }

  predicate InputsInOrder(a: Descriptor, b: Descriptor) {
    CompareInputs(a, b) <= 0
  }

  predicate KeyedInOrder(a: KeyedInput, b: KeyedInput) {
    CompareKeyed(a, b) <= 0
  }

  predicate SubjectsInOrder(a: Subject, b: Subject) {
    CompareSubjects(a, b) <= 0
  }

  // ----- The value that is rendered

  function DigestJson(digest: string): Json {
    Object(map["sha256" := Text(digest)])
  }

  function TextJson(text: string): Json {
    Text(text)
  }

  function KeyedJson(input: KeyedInput): Json {
    var base := map["role" := Text(RoleText(input.role)), "name" := Text(input.name),
                    "digest" := DigestJson(input.digest)];
    if input.globs.None? then Object(base)
    else
      Object(base["annotations" := Object(if input.globs.value == [] then map[]
                                          else map["globs" := Array(Apply(TextJson, input.globs.value))])])
  }

  function SubjectJson(subject: Subject): Json {
    Object(map["name" := Text(subject.name), "digest" := DigestJson(subject.digest)])
  }

  /** An absent slice of subjects is written as null, an empty one as an empty array. */
  function PreimageJson(subjects: Option<seq<Subject>>, inputs: seq<KeyedInput>): Json {
    Object(map["inputs" := Array(Apply(KeyedJson, inputs)),
               "subject" := if subjects.Some? then Array(Apply(SubjectJson, subjects.value)) else Null])
  }

  function SortedSubjects(subjects: Option<seq<Subject>>): Option<seq<Subject>> {
    if subjects.Some? then Some(StableSort(subjects.value, SubjectsInOrder)) else None
  }

  function SortedKeyed(inputs: seq<Descriptor>): seq<KeyedInput> {
    Apply(KeyedInputOf, StableSort(inputs, InputsInOrder))
  }

  lemma PreimageIsSupported(subjects: Option<seq<Subject>>, inputs: seq<KeyedInput>)
    ensures Supported(PreimageJson(subjects, inputs))
  {
    var value := PreimageJson(subjects, inputs);
    forall key | key in value.members ensures Supported(value.members[key]) {
      if key == "inputs" {
        forall item | item in value.members[key].items ensures Supported(item) {
          var input :| input in inputs && item == KeyedJson(input);
          if input.globs.Some? && input.globs.value != [] {
            assert Supported(Array(Apply(TextJson, input.globs.value)));
          }
          assert Supported(DigestJson(input.digest));
        }
      } else if subjects.Some? {
        forall item | item in value.members[key].items ensures Supported(item) {
          var subject :| subject in subjects.value && item == SubjectJson(subject);
          assert Supported(DigestJson(subject.digest));
        }
      }
    }
  }

  ghost function Preimage(subjects: Option<seq<Subject>>, inputs: seq<Descriptor>): string {
    PreimageIsSupported(SortedSubjects(subjects), SortedKeyed(inputs));
    Render(PreimageJson(SortedSubjects(subjects), SortedKeyed(inputs)))
  }

  method CollectKeyed(inputs: seq<Descriptor>) returns (keyed: seq<KeyedInput>)
    ensures keyed == SortedKeyed(inputs)
  {
    var sortedInputs := StableSort(inputs, InputsInOrder);
    keyed := [];
    for index := 0 to |sortedInputs|
      invariant |keyed| == index && forall i | 0 <= i < index :: keyed[i] == KeyedInputOf(sortedInputs[i])
    {
      keyed := keyed + [KeyedInputOf(sortedInputs[index])];
    }
  }

  /** The arguments stay as they are: sorted copies, reduced to the keyed members, make the object that is rendered. */
  method CachePreimage(subjects: Option<seq<Subject>>, inputs: seq<Descriptor>) returns (preimage: string)
    ensures preimage == Preimage(subjects, inputs)
  {
    var keyed := CollectKeyed(inputs);
    PreimageIsSupported(SortedSubjects(subjects), keyed);
    var buffer := new Buffer();
    var ok := WriteCanonical(buffer, PreimageJson(SortedSubjects(subjects), keyed));
    preimage := buffer.text;
  }

  // ----- The value identifies what it was built from

  lemma TextsInjective(a: seq<string>, b: seq<string>)
    requires Apply(TextJson, a) == Apply(TextJson, b)
    ensures a == b
  {
    assert |a| == |Apply(TextJson, a)| == |b|;
    forall i | 0 <= i < |a| ensures a[i] == b[i] {
      assert Apply(TextJson, a)[i] == Apply(TextJson, b)[i];
    }
  }

  lemma RoleTextInjective(a: InputRole, b: InputRole)
    requires RoleText(a) == RoleText(b)
    ensures a == b
  {
    assert |RoleText(a)| == |RoleText(b)|;
    assert RoleText(a)[0] == RoleText(b)[0];
  }

  lemma KeyedJsonInjective(a: KeyedInput, b: KeyedInput)
    requires KeyedJson(a) == KeyedJson(b)
    ensures a == b
  {
    var v, w := KeyedJson(a).members, KeyedJson(b).members;
    assert v["role"] == w["role"] && v["name"] == w["name"] && v["digest"] == w["digest"];
    RoleTextInjective(a.role, b.role);
    assert v["digest"].members["sha256"] == Text(a.digest) && w["digest"].members["sha256"] == Text(b.digest);
    assert "annotations" in v <==> a.globs.Some?;
    assert "annotations" in w <==> b.globs.Some?;
    if a.globs.Some? {
      var inV, inW := v["annotations"].members, w["annotations"].members;
      assert "globs" in inV <==> a.globs.value != [];
      assert "globs" in inW <==> b.globs.value != [];
      if a.globs.value != [] {
        assert inV["globs"] == inW["globs"];
        TextsInjective(a.globs.value, b.globs.value);
      }
    }
  }

  lemma SubjectJsonInjective(a: Subject, b: Subject)
    requires SubjectJson(a) == SubjectJson(b)
    ensures a == b
  {
    var v, w := SubjectJson(a).members, SubjectJson(b).members;
    assert v["name"] == w["name"] && v["digest"] == w["digest"];
    assert v["digest"].members["sha256"] == Text(a.digest) && w["digest"].members["sha256"] == Text(b.digest);
  }

  lemma PreimageJsonInjective(subjects: Option<seq<Subject>>, inputs: seq<KeyedInput>, subjects': Option<seq<Subject>>,
                              inputs': seq<KeyedInput>)
    requires PreimageJson(subjects, inputs) == PreimageJson(subjects', inputs')
    ensures subjects == subjects' && inputs == inputs'
  {
    var v, w := PreimageJson(subjects, inputs).members, PreimageJson(subjects', inputs').members;
    assert v["inputs"] == w["inputs"] && v["subject"] == w["subject"];
    var itemsV, itemsW := Apply(KeyedJson, inputs), Apply(KeyedJson, inputs');
    assert itemsV == itemsW && |inputs| == |itemsV| == |inputs'|;
    forall i | 0 <= i < |inputs| ensures inputs[i] == inputs'[i] {
      assert itemsV[i] == itemsW[i];
      KeyedJsonInjective(inputs[i], inputs'[i]);
    }
    if subjects.Some? {
      var s, t := Apply(SubjectJson, subjects.value), Apply(SubjectJson, subjects'.value);
      assert s == t && |subjects.value| == |s| == |subjects'.value|;
      forall i | 0 <= i < |subjects.value| ensures subjects.value[i] == subjects'.value[i] {
        assert s[i] == t[i];
        SubjectJsonInjective(subjects.value[i], subjects'.value[i]);
      }
      assert subjects.value == subjects'.value;
    }
  }

  /** The preimage is exactly the pair of sorted slices. */
  lemma PreimageIdentifies(subjects: Option<seq<Subject>>, inputs: seq<Descriptor>, subjects': Option<seq<Subject>>,
                           inputs': seq<Descriptor>)
    ensures Preimage(subjects, inputs) == Preimage(subjects', inputs')
            <==> SortedSubjects(subjects) == SortedSubjects(subjects') && SortedKeyed(inputs) == SortedKeyed(inputs')
  {
    var s, k, s', k' := SortedSubjects(subjects), SortedKeyed(inputs), SortedSubjects(subjects'), SortedKeyed(inputs');
    PreimageIsSupported(s, k);
    PreimageIsSupported(s', k');
    CanonicalFormIsInjective(PreimageJson(s, k), PreimageJson(s', k'));
    if PreimageJson(s, k) == PreimageJson(s', k') {
      PreimageJsonInjective(s, k, s', k');
    }
  }

  // ----- Orders

  lemma KeyedOrder(a: KeyedInput, b: KeyedInput, c: KeyedInput)
    ensures CompareKeyed(a, b) == 0 <==> a.role == b.role && a.name == b.name && a.digest == b.digest
    ensures CompareKeyed(a, b) == -CompareKeyed(b, a)
    ensures CompareKeyed(a, b) <= 0 && CompareKeyed(b, c) <= 0 ==> CompareKeyed(a, c) <= 0
  {
    StringOrder(RoleText(a.role), RoleText(b.role), RoleText(c.role));
    StringOrder(a.name, b.name, c.name);
    StringOrder(a.digest, b.digest, c.digest);
    if RoleText(a.role) == RoleText(b.role) {
      RoleTextInjective(a.role, b.role);
    }
  }

  lemma StringOrder(a: string, b: string, c: string)
    ensures CompareStrings(a, b) == 0 <==> a == b
    ensures CompareStrings(b, c) == 0 <==> b == c
    ensures CompareStrings(a, c) == 0 <==> a == c
    ensures CompareStrings(a, b) == -CompareStrings(b, a)
    ensures CompareStrings(a, b) <= 0 && CompareStrings(b, c) <= 0 ==> CompareStrings(a, c) <= 0
  {
    CompareStringsIdentifies(a, b);
    CompareStringsIdentifies(b, c);
    CompareStringsIdentifies(a, c);
    if CompareStrings(a, b) <= 0 && CompareStrings(b, c) <= 0 {
      CompareStringsTransitive(a, b, c);
    }
  }

  lemma OrdersAreTotal()
    ensures TotalPreorder(KeyedInOrder) && TotalPreorder(SubjectsInOrder)
    ensures forall xs: multiset<Subject> :: Separates(xs, SubjectsInOrder)
  {
    forall a: KeyedInput, b: KeyedInput, c: KeyedInput
      ensures KeyedInOrder(a, a) && (KeyedInOrder(a, b) || KeyedInOrder(b, a))
      ensures KeyedInOrder(a, b) && KeyedInOrder(b, c) ==> KeyedInOrder(a, c)
    {
      KeyedOrder(a, b, c);
      KeyedOrder(a, a, a);
    }
    forall a: Subject, b: Subject, c: Subject
      ensures SubjectsInOrder(a, a) && (SubjectsInOrder(a, b) || SubjectsInOrder(b, a))
      ensures SubjectsInOrder(a, b) && SubjectsInOrder(b, c) ==> SubjectsInOrder(a, c)
      ensures SubjectsInOrder(a, b) && SubjectsInOrder(b, a) ==> a == b
    {
      StringOrder(a.name, b.name, c.name);
      StringOrder(a.digest, b.digest, c.digest);
      CompareStringsIdentifies(a.name, a.name);
      CompareStringsIdentifies(a.digest, a.digest);
    }
  }

  /** Sorting the inputs and keeping what the key covers can be done in either order. */
  lemma SortedKeyedIsSorted(inputs: seq<Descriptor>)
    ensures SortedKeyed(inputs) == StableSort(Apply(KeyedInputOf, inputs), KeyedInOrder)
    ensures multiset(SortedKeyed(inputs)) == multiset(Apply(KeyedInputOf, inputs))
  {
    SortApply(KeyedInputOf, inputs, InputsInOrder, KeyedInOrder);
    SortPermutes(Apply(KeyedInputOf, inputs), KeyedInOrder);
  }

  // ----- What the key does and does not depend on

  function KeyedInputs(inputs: seq<Descriptor>): multiset<KeyedInput> {
    multiset(Apply(KeyedInputOf, inputs))
  }

  function SubjectsOf(subjects: Option<seq<Subject>>): Option<multiset<Subject>> {
    if subjects.Some? then Some(multiset(subjects.value)) else None
  }

  /** Inputs with one role, name and digest carry the same keyed annotations. */
  ghost predicate AgreeOnAnnotations(inputs: multiset<KeyedInput>) {
    forall a, b | a in inputs && b in inputs && a.role == b.role && a.name == b.name && a.digest == b.digest ::
      a.globs == b.globs
  }

  /** Different multisets of keyed inputs, or of subjects, give different preimages. */
  lemma PreimageSeparates(subjects: Option<seq<Subject>>, inputs: seq<Descriptor>, subjects': Option<seq<Subject>>,
                          inputs': seq<Descriptor>)
    requires Preimage(subjects, inputs) == Preimage(subjects', inputs')
    ensures SubjectsOf(subjects) == SubjectsOf(subjects') && KeyedInputs(inputs) == KeyedInputs(inputs')
  {
    PreimageIdentifies(subjects, inputs, subjects', inputs');
    SortedKeyedIsSorted(inputs);
    SortedKeyedIsSorted(inputs');
    if subjects.Some? {
      SortPermutes(subjects.value, SubjectsInOrder);
      SortPermutes(subjects'.value, SubjectsInOrder);
    }
  }

  /** Where equal inputs agree on their annotations, the preimage is the two multisets and nothing else. */
  lemma PreimageIsTheMultisets(subjects: Option<seq<Subject>>, inputs: seq<Descriptor>,
                               subjects': Option<seq<Subject>>, inputs': seq<Descriptor>)
    requires AgreeOnAnnotations(KeyedInputs(inputs))
    ensures Preimage(subjects, inputs) == Preimage(subjects', inputs')
            <==> SubjectsOf(subjects) == SubjectsOf(subjects') && KeyedInputs(inputs) == KeyedInputs(inputs')
  {
    if Preimage(subjects, inputs) == Preimage(subjects', inputs') {
      PreimageSeparates(subjects, inputs, subjects', inputs');
    }
    if SubjectsOf(subjects) == SubjectsOf(subjects') && KeyedInputs(inputs) == KeyedInputs(inputs') {
      OrdersAreTotal();
      SortedKeyedIsSorted(inputs);
      SortedKeyedIsSorted(inputs');
      forall a, b | a in KeyedInputs(inputs) && b in KeyedInputs(inputs) && KeyedInOrder(a, b) && KeyedInOrder(b, a)
        ensures a == b
      {
        KeyedOrder(a, b, a);
      }
      SortForgetsOrder(Apply(KeyedInputOf, inputs), Apply(KeyedInputOf, inputs'), KeyedInOrder);
      if subjects.Some? {
        SortForgetsOrder(subjects.value, subjects'.value, SubjectsInOrder);
      }
      PreimageIdentifies(subjects, inputs, subjects', inputs');
    }
  }

  /** The preimage is the same for every order of the inputs. */
  ghost predicate ForgetsInputOrder(subjects: Option<seq<Subject>>, inputs: seq<Descriptor>) {
    forall shuffled: seq<Descriptor> | multiset(shuffled) == multiset(inputs) ::
      Preimage(subjects, shuffled) == Preimage(subjects, inputs)
  }

  lemma {:induction false} TiedInsertsShow(a: KeyedInput, b: KeyedInput, sorted: seq<KeyedInput>)
    requires TotalPreorder(KeyedInOrder) && KeyedInOrder(a, b) && KeyedInOrder(b, a) && a != b
    ensures Insert(a, Insert(b, sorted, KeyedInOrder), KeyedInOrder)
            != Insert(b, Insert(a, sorted, KeyedInOrder), KeyedInOrder)
  {
    if sorted == [] || KeyedInOrder(b, sorted[0]) {
      assert Insert(a, Insert(b, sorted, KeyedInOrder), KeyedInOrder)[0] == a;
      assert Insert(b, Insert(a, sorted, KeyedInOrder), KeyedInOrder)[0] == b;
    } else {
      TiedInsertsShow(a, b, sorted[1..]);
      var ab, ba := Insert(a, Insert(b, sorted[1..], KeyedInOrder), KeyedInOrder),
                    Insert(b, Insert(a, sorted[1..], KeyedInOrder), KeyedInOrder);
      assert Insert(a, Insert(b, sorted, KeyedInOrder), KeyedInOrder)[1..] == ab;
      assert Insert(b, Insert(a, sorted, KeyedInOrder), KeyedInOrder)[1..] == ba;
    }
  }

  lemma KeyedMultisetOfPermutation(inputs: seq<Descriptor>, shuffled: seq<Descriptor>)
    requires multiset(shuffled) == multiset(inputs)
    ensures KeyedInputs(shuffled) == KeyedInputs(inputs)
  {
    ApplyPermutes(KeyedInputOf, shuffled, inputs);
  }

  /** Swapping two inputs that agree on role, name and digest but not on their globs changes the preimage. */
  lemma TiedInputsKeepTheirOrder(subjects: Option<seq<Subject>>, a: Descriptor, b: Descriptor, rest: seq<Descriptor>)
    requires CompareInputs(a, b) == 0 && KeyedInputOf(a) != KeyedInputOf(b)
    ensures Preimage(subjects, [a, b] + rest) != Preimage(subjects, [b, a] + rest)
  {
    OrdersAreTotal();
    var ka, kb := KeyedInputOf(a), KeyedInputOf(b);
    KeyedOrder(ka, kb, ka);
    var sorted := StableSort(Apply(KeyedInputOf, rest), KeyedInOrder);
    TwoFirst(a, b, rest);
    TwoFirst(b, a, rest);
    TiedInsertsShow(ka, kb, sorted);
    PreimageIdentifies(subjects, [a, b] + rest, subjects, [b, a] + rest);
  }

  lemma TwoApplied(a: Descriptor, b: Descriptor, rest: seq<Descriptor>)
    ensures var keyed := Apply(KeyedInputOf, [a, b] + rest);
            keyed != [] && keyed[0] == KeyedInputOf(a) && keyed[1..] != [] && keyed[1..][0] == KeyedInputOf(b)
            && keyed[1..][1..] == Apply(KeyedInputOf, rest)
  {
  }

  lemma TwoFirst(a: Descriptor, b: Descriptor, rest: seq<Descriptor>)
    ensures SortedKeyed([a, b] + rest)
            == Insert(KeyedInputOf(a),
                      Insert(KeyedInputOf(b), StableSort(Apply(KeyedInputOf, rest), KeyedInOrder), KeyedInOrder),
                      KeyedInOrder)
  {
    SortedKeyedIsSorted([a, b] + rest);
    TwoApplied(a, b, rest);
  }

  /** The key forgets the order of the inputs exactly when equal inputs agree on their annotations. */
  lemma OrderForgottenIffAnnotationsAgree(subjects: Option<seq<Subject>>, inputs: seq<Descriptor>)
    ensures ForgetsInputOrder(subjects, inputs) <==> AgreeOnAnnotations(KeyedInputs(inputs))
  {
    if AgreeOnAnnotations(KeyedInputs(inputs)) {
      forall shuffled: seq<Descriptor> | multiset(shuffled) == multiset(inputs)
        ensures Preimage(subjects, shuffled) == Preimage(subjects, inputs)
      {
        KeyedMultisetOfPermutation(inputs, shuffled);
        PreimageIsTheMultisets(subjects, inputs, subjects, shuffled);
      }
    } else {
      DisagreementShows(subjects, inputs);
    }
  }

  lemma DisagreementShows(subjects: Option<seq<Subject>>, inputs: seq<Descriptor>)
    requires !AgreeOnAnnotations(KeyedInputs(inputs))
    ensures !ForgetsInputOrder(subjects, inputs)
  {
    var a, b, rest := FindDisagreement(inputs);
    var one, other := [a, b] + rest, [b, a] + rest;
    TiedInputsKeepTheirOrder(subjects, a, b, rest);
    assert multiset(other) == multiset(one) by {
      assert multiset([a, b]) == multiset([b, a]);
    }
    TwoOrdersDiffer(subjects, inputs, one, other);
  }

  lemma TwoOrdersDiffer(subjects: Option<seq<Subject>>, inputs: seq<Descriptor>, one: seq<Descriptor>,
                        other: seq<Descriptor>)
    requires multiset(one) == multiset(inputs) && multiset(other) == multiset(inputs)
    requires Preimage(subjects, one) != Preimage(subjects, other)
    ensures !ForgetsInputOrder(subjects, inputs)
  {
    var there := if Preimage(subjects, one) == Preimage(subjects, inputs) then other else one;
    assert multiset(there) == multiset(inputs) && Preimage(subjects, there) != Preimage(subjects, inputs);
  }

  /** Two elements of a slice, brought to the front. */
  lemma BringForward(inputs: seq<Descriptor>, i: nat, j: nat) returns (rest: seq<Descriptor>)
    requires i < |inputs| && j < |inputs| && i != j
    ensures multiset([inputs[i], inputs[j]] + rest) == multiset(inputs)
  {
    if i < j {
      rest := Without(inputs, i, j);
    } else {
      rest := Without(inputs, j, i);
      assert multiset([inputs[i], inputs[j]]) == multiset([inputs[j], inputs[i]]);
    }
  }

  lemma FindDisagreement(inputs: seq<Descriptor>) returns (a: Descriptor, b: Descriptor, rest: seq<Descriptor>)
    requires !AgreeOnAnnotations(KeyedInputs(inputs))
    ensures multiset([a, b] + rest) == multiset(inputs)
    ensures CompareInputs(a, b) == 0 && KeyedInputOf(a) != KeyedInputOf(b)
  {
    var keyed := Apply(KeyedInputOf, inputs);
    var ka, kb :| ka in KeyedInputs(inputs) && kb in KeyedInputs(inputs) && ka.role == kb.role && ka.name == kb.name
                  && ka.digest == kb.digest && ka.globs != kb.globs;
    var i :| 0 <= i < |keyed| && keyed[i] == ka;
    var j :| 0 <= j < |keyed| && keyed[j] == kb;
    KeyedOrder(ka, kb, ka);
    a, b := inputs[i], inputs[j];
    rest := BringForward(inputs, i, j);
  }

  function Without(inputs: seq<Descriptor>, i: nat, j: nat): (rest: seq<Descriptor>)
    requires i < j < |inputs|
    ensures multiset([inputs[i], inputs[j]]) + multiset(rest) == multiset(inputs)
  {
    assert inputs == inputs[..i] + [inputs[i]] + inputs[i + 1..j] + [inputs[j]] + inputs[j + 1..];
    inputs[..i] + inputs[i + 1..j] + inputs[j + 1..]
  }

  /** The order of the subjects never matters. */
  lemma SubjectOrderIsForgotten(subjects: seq<Subject>, shuffled: seq<Subject>, inputs: seq<Descriptor>)
    requires multiset(subjects) == multiset(shuffled)
    ensures Preimage(Some(subjects), inputs) == Preimage(Some(shuffled), inputs)
  {
    OrdersAreTotal();
    SortForgetsOrder(subjects, shuffled, SubjectsInOrder);
  }

  function WithCriterion(input: Descriptor, criterion: string): Descriptor {
    if input.annotations.None? then input
    else input.(annotations := Some(input.annotations.value.(criterion := criterion)))
  }

  /** The criterion an annotation names is informational: changing it leaves the key as it is. */
  lemma CriterionIsInformational(subjects: Option<seq<Subject>>, before: seq<Descriptor>, input: Descriptor,
                                 after: seq<Descriptor>, criterion: string)
    ensures Preimage(subjects, before + [WithCriterion(input, criterion)] + after)
            == Preimage(subjects, before + [input] + after)
  {
    var one, other := before + [WithCriterion(input, criterion)] + after, before + [input] + after;
    SortedKeyedIsSorted(one);
    SortedKeyedIsSorted(other);
    SameKeyed(before, input, WithCriterion(input, criterion), after);
    PreimageIdentifies(subjects, one, subjects, other);
  }

  lemma SameKeyed(before: seq<Descriptor>, input: Descriptor, other: Descriptor, after: seq<Descriptor>)
    requires KeyedInputOf(input) == KeyedInputOf(other)
    ensures Apply(KeyedInputOf, before + [other] + after) == Apply(KeyedInputOf, before + [input] + after)
  {
    forall i | 0 <= i < |before + [other] + after|
      ensures KeyedInputOf((before + [other] + after)[i]) == KeyedInputOf((before + [input] + after)[i])
    {
    }
  }
}
