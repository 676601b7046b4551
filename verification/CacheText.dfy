/** The text the cache key is the digest of, written out, and the order its inputs and subjects come in. */
module CacheText {
  import opened CacheKey
  import opened CanonicalJson
  import opened CanonicalText
  import opened Ordering
  import opened ProofFormat
  import opened Wrappers

  // ----- The order

  /** By role as the format spells it, then by name, then by digest. */
  ghost predicate InputBefore(a: KeyedInput, b: KeyedInput) {
    || Precedes(RoleText(a.role), RoleText(b.role))
    || (a.role == b.role && Precedes(a.name, b.name))
    || (a.role == b.role && a.name == b.name && Precedes(a.digest, b.digest))
  }

  ghost predicate SubjectBefore(a: Subject, b: Subject) {
    Precedes(a.name, b.name) || (a.name == b.name && Precedes(a.digest, b.digest))
  }

  lemma ComparedTexts(a: KeyedInput, b: KeyedInput)
    ensures CompareKeyed(a, b) <= 0 <==> !InputBefore(b, a)
  {
    CompareStringsIff(RoleText(a.role), RoleText(b.role));
    CompareStringsIff(RoleText(b.role), RoleText(a.role));
    CompareStringsIff(a.name, b.name);
    CompareStringsIff(b.name, a.name);
    CompareStringsIff(a.digest, b.digest);
    CompareStringsIff(b.digest, a.digest);
    CompareStringsIdentifies(RoleText(a.role), RoleText(b.role));
    CompareStringsIdentifies(a.name, b.name);
    if RoleText(a.role) == RoleText(b.role) {
      RoleTextInjective(a.role, b.role);
    }
  }

  lemma ComparedSubjects(a: Subject, b: Subject)
    ensures CompareSubjects(a, b) <= 0 <==> !SubjectBefore(b, a)
  {
    CompareStringsIff(a.name, b.name);
    CompareStringsIff(b.name, a.name);
    CompareStringsIff(a.digest, b.digest);
    CompareStringsIff(b.digest, a.digest);
    CompareStringsIdentifies(a.name, b.name);
  }

  /** No input of the key stands behind one it comes before, and no subject either. */
  lemma KeyedAscend(inputs: seq<Descriptor>, subjects: seq<Subject>)
    ensures forall i, j | 0 <= i < j < |SortedKeyed(inputs)| ::
              !InputBefore(SortedKeyed(inputs)[j], SortedKeyed(inputs)[i])
    ensures var sorted := StableSort(subjects, SubjectsInOrder);
            forall i, j | 0 <= i < j < |sorted| :: !SubjectBefore(sorted[j], sorted[i])
  {
    OrdersAreTotal();
    SortedKeyedIsSorted(inputs);
    SortOrders(Apply(KeyedInputOf, inputs), KeyedInOrder);
    SortOrders(subjects, SubjectsInOrder);
    var keyed, sorted := SortedKeyed(inputs), StableSort(subjects, SubjectsInOrder);
    forall i, j | 0 <= i < j < |keyed| ensures !InputBefore(keyed[j], keyed[i]) {
      ComparedTexts(keyed[i], keyed[j]);
    }
    forall i, j | 0 <= i < j < |sorted| ensures !SubjectBefore(sorted[j], sorted[i]) {
      ComparedSubjects(sorted[i], sorted[j]);
    }
  }

  // ----- The text

  /** A quoted text. */
  function Q(text: string): string {
    ['"'] + Escaped(text) + ['"']
  }

  /** A member with its name in front. */
  function Member(name: string, text: string): string {
    Q(name) + (":" + text)
  }

  function Braced(members: seq<string>): string {
    "{" + Joined(members) + "}"
  }

  function Bracketed(items: seq<string>): string {
    "[" + Joined(items) + "]"
  }

  function DigestText(digest: string): string {
    Braced([Member("sha256", Q(digest))])
  }

  function GlobsText(globs: seq<string>): string {
    Braced(if globs == [] then [] else [Member("globs", Bracketed(Apply(Q, globs)))])
  }

  /** Annotations stand first, where there are any; then come digest, name and role. */
  function InputText(input: KeyedInput): string {
    var members := [Member("digest", DigestText(input.digest)), Member("name", Q(input.name)),
                    Member("role", Q(RoleText(input.role)))];
    Braced(match input.globs
           case None => members
           case Some(globs) => [Member("annotations", GlobsText(globs))] + members)
  }

  function SubjectText(subject: Subject): string {
    Braced([Member("digest", DigestText(subject.digest)), Member("name", Q(subject.name))])
  }

  function SubjectsText(subjects: Option<seq<Subject>>): string {
    match subjects
    case None => "null"
    case Some(some) => Bracketed(Apply(SubjectText, some))
  }

  function PreimageText(subjects: Option<seq<Subject>>, inputs: seq<KeyedInput>): string {
    Braced([Member("inputs", Bracketed(Apply(InputText, inputs))), Member("subject", SubjectsText(subjects))])
  }

  /** A name of letters and digits is quoted as it is. */
  lemma {:induction false} PlainNames(name: string)
    requires forall i | 0 <= i < |name| :: 'a' <= name[i] <= 'z' || '0' <= name[i] <= '9'
    ensures Escaped(name) == name && Q(name) == ['"'] + name + ['"']
  {
    if name != "" {
      PlainNames(name[1..]);
      EscapesAre(name[0]);
      assert name == [name[0]] + name[1..];
    }
  }

  // ----- Objects

  lemma MemberTextIs(value: Json, key: string)
    requires value.Object? && Supported(value) && key in value.members
    ensures MemberText(value, key) == Member(key, Render(value.members[key]))
  {
    var text := Render(value.members[key]);
    assert "\":" == ['"'] + ":";
    ConcatAssociates(['"'] + Escaped(key), ['"'] + ":", text);
    ConcatAssociates(['"'], ":", text);
    ConcatAssociates(['"'] + Escaped(key), ['"'], ":" + text);
  }

  lemma OneMember(value: Json, key: string)
    requires value.Object? && Supported(value) && value.members.Keys == {key}
    ensures key in value.members && Render(value) == Braced([Member(key, Render(value.members[key]))])
  {
    assert key in value.members;
    ObjectText(value, [key]);
    MemberTextIs(value, key);
    assert MemberTexts(value, [key]) == [MemberText(value, key)];
  }

  lemma TwoMembersAre(value: Json, a: string, b: string)
    requires value.Object? && Supported(value) && value.members.Keys == {a, b} && KeyBefore(a, b)
    ensures a in value.members && b in value.members
    ensures Render(value) == Braced([Member(a, Render(value.members[a])), Member(b, Render(value.members[b]))])
  {
    assert a in value.members && b in value.members;
    ObjectText(value, [a, b]);
    MemberTextIs(value, a);
    MemberTextIs(value, b);
    assert MemberTexts(value, [a, b]) == [MemberText(value, a), MemberText(value, b)];
  }

  lemma ThreeMembersAre(value: Json, a: string, b: string, c: string)
    requires value.Object? && Supported(value) && value.members.Keys == {a, b, c} && Ascending([a, b, c])
    ensures a in value.members && b in value.members && c in value.members
    ensures Render(value) == Braced([Member(a, Render(value.members[a])), Member(b, Render(value.members[b])),
                                     Member(c, Render(value.members[c]))])
  {
    assert a in value.members && b in value.members && c in value.members;
    ObjectText(value, [a, b, c]);
    MemberTextIs(value, a);
    MemberTextIs(value, b);
    MemberTextIs(value, c);
    assert MemberTexts(value, [a, b, c]) == [MemberText(value, a), MemberText(value, b), MemberText(value, c)];
  }

  lemma FourMembersAre(value: Json, a: string, b: string, c: string, d: string)
    requires value.Object? && Supported(value) && value.members.Keys == {a, b, c, d} && Ascending([a, b, c, d])
    ensures a in value.members && b in value.members && c in value.members && d in value.members
    ensures Render(value) == Braced([Member(a, Render(value.members[a]))]
                                    + [Member(b, Render(value.members[b])), Member(c, Render(value.members[c])),
                                       Member(d, Render(value.members[d]))])
  {
    assert a in value.members && b in value.members && c in value.members && d in value.members;
    ObjectText(value, [a, b, c, d]);
    MemberTextIs(value, a);
    MemberTextIs(value, b);
    MemberTextIs(value, c);
    MemberTextIs(value, d);
    assert MemberTexts(value, [a, b, c, d])
           == [MemberText(value, a)] + [MemberText(value, b), MemberText(value, c), MemberText(value, d)];
  }

  lemma FirstLettersDecide(a: string, b: string)
    requires a != "" && b != "" && a[0] < b[0] && b[0] <= 'z'
    ensures KeyBefore(a, b)
  {
    assert DifferAt(a, b, 0);
  }

  lemma FirstLettersAscend(a: string, b: string, c: string, d: string)
    requires a != "" && b != "" && c != "" && d != "" && a[0] < b[0] < c[0] < d[0] <= 'z'
    ensures Ascending([a, b, c, d]) && Ascending([b, c, d]) && KeyBefore(b, c)
  {
    FirstLettersDecide(a, b);
    FirstLettersDecide(a, c);
    FirstLettersDecide(a, d);
    FirstLettersDecide(b, c);
    FirstLettersDecide(b, d);
    FirstLettersDecide(c, d);
  }

  lemma NamesAscend()
    ensures Ascending(["annotations", "digest", "name", "role"]) && Ascending(["digest", "name", "role"])
    ensures KeyBefore("digest", "name")
  {
    FirstLettersAscend("annotations", "digest", "name", "role");
  }

  // ----- The values of the key

  lemma TextJsonText(text: string)
    ensures Supported(TextJson(text)) && Render(TextJson(text)) == Q(text)
  {
  }

  lemma DigestJsonText(digest: string)
    ensures Supported(DigestJson(digest)) && Render(DigestJson(digest)) == DigestText(digest)
  {
    TextJsonText(digest);
    OneMember(DigestJson(digest), "sha256");
  }

  lemma TextsAre<T>(items: seq<T>, json: T -> Json, text: T -> string)
    requires forall item | item in items :: Supported(json(item)) && Render(json(item)) == text(item)
    ensures Supported(Array(Apply(json, items)))
    ensures Render(Array(Apply(json, items))) == Bracketed(Apply(text, items))
  {
    var values := Apply(json, items);
    forall value | value in values ensures Supported(value) {
      var i :| 0 <= i < |items| && values[i] == value;
      assert items[i] in items;
    }
    assert forall i | 0 <= i < |items| :: items[i] in items;
    assert Texts(values) == Apply(text, items);
    TextIs(Array(values));
  }

  lemma GlobsJsonText(globs: seq<string>)
    ensures var value := Object(if globs == [] then map[] else map["globs" := Array(Apply(TextJson, globs))]);
            Supported(value) && Render(value) == GlobsText(globs)
  {
    forall glob | glob in globs ensures Supported(TextJson(glob)) && Render(TextJson(glob)) == Q(glob) {
      TextJsonText(glob);
    }
    TextsAre(globs, TextJson, Q);
    if globs == [] {
      ObjectText(Object(map[]), []);
    } else {
      OneMember(Object(map["globs" := Array(Apply(TextJson, globs))]), "globs");
    }
  }

  function Bare(digest: Json, name: Json, role: Json): map<string, Json> {
    map["role" := role, "name" := name, "digest" := digest]
  }

  lemma BareEntries(digest: Json, name: Json, role: Json)
    ensures var members := Bare(digest, name, role);
            && members.Keys == {"digest", "name", "role"}
            && members["digest"] == digest && members["name"] == name && members["role"] == role
  {
    assert "digest"[0] != "name"[0] && "digest"[0] != "role"[0] && "name"[0] != "role"[0];
  }

  lemma BareText(digest: Json, name: Json, role: Json)
    requires Supported(digest) && Supported(name) && Supported(role)
    ensures var value := Object(Bare(digest, name, role));
            && Supported(value)
            && Render(value) == Braced([Member("digest", Render(digest)), Member("name", Render(name)),
                                        Member("role", Render(role))])
  {
    NamesAscend();
    BareEntries(digest, name, role);
    SupportedEntries(Bare(digest, name, role));
    ThreeMembersAre(Object(Bare(digest, name, role)), "digest", "name", "role");
  }

  lemma SupportedEntries(members: map<string, Json>)
    requires forall key | key in members :: Supported(members[key])
    ensures Supported(Object(members))
  {
  }

  lemma AnnotatedEntries(annotations: Json, digest: Json, name: Json, role: Json)
    ensures var members := Bare(digest, name, role)["annotations" := annotations];
            && members.Keys == {"annotations", "digest", "name", "role"} && members["annotations"] == annotations
            && members["digest"] == digest && members["name"] == name && members["role"] == role
  {
    BareEntries(digest, name, role);
    assert "annotations"[0] == 'a' && "digest"[0] == 'd' && "name"[0] == 'n' && "role"[0] == 'r';
  }

  lemma AnnotatedText(annotations: Json, digest: Json, name: Json, role: Json)
    requires Supported(annotations) && Supported(digest) && Supported(name) && Supported(role)
    ensures var value := Object(Bare(digest, name, role)["annotations" := annotations]);
            && Supported(value)
            && Render(value) == Braced([Member("annotations", Render(annotations))]
                                       + [Member("digest", Render(digest)), Member("name", Render(name)),
                                          Member("role", Render(role))])
  {
    NamesAscend();
    AnnotatedEntries(annotations, digest, name, role);
    SupportedEntries(Bare(digest, name, role)["annotations" := annotations]);
    FourMembersAre(Object(Bare(digest, name, role)["annotations" := annotations]), "annotations", "digest", "name",
                   "role");
  }

  lemma KeyedJsonText(input: KeyedInput)
    ensures Supported(KeyedJson(input)) && Render(KeyedJson(input)) == InputText(input)
  {
    var digest, name, role := DigestJson(input.digest), TextJson(input.name), TextJson(RoleText(input.role));
    DigestJsonText(input.digest);
    TextJsonText(input.name);
    TextJsonText(RoleText(input.role));
    match input.globs {
      case None => BareText(digest, name, role);
      case Some(globs) =>
        GlobsJsonText(globs);
        AnnotatedText(Object(if globs == [] then map[] else map["globs" := Array(Apply(TextJson, globs))]), digest,
                      name, role);
    }
  }

  lemma SubjectJsonText(subject: Subject)
    ensures Supported(SubjectJson(subject)) && Render(SubjectJson(subject)) == SubjectText(subject)
  {
    DigestJsonText(subject.digest);
    NamesAscend();
    TextJsonText(subject.name);
    TwoMembersAre(SubjectJson(subject), "digest", "name");
  }

  lemma InputsTexts(keyed: seq<KeyedInput>)
    ensures Supported(Array(Apply(KeyedJson, keyed)))
    ensures Render(Array(Apply(KeyedJson, keyed))) == Bracketed(Apply(InputText, keyed))
  {
    forall input | input in keyed ensures Supported(KeyedJson(input)) && Render(KeyedJson(input)) == InputText(input) {
      KeyedJsonText(input);
    }
    TextsAre(keyed, KeyedJson, InputText);
  }

  lemma SubjectsTexts(subjects: seq<Subject>)
    ensures Supported(Array(Apply(SubjectJson, subjects)))
    ensures Render(Array(Apply(SubjectJson, subjects))) == Bracketed(Apply(SubjectText, subjects))
  {
    forall subject | subject in subjects
      ensures Supported(SubjectJson(subject)) && Render(SubjectJson(subject)) == SubjectText(subject)
    {
      SubjectJsonText(subject);
    }
    TextsAre(subjects, SubjectJson, SubjectText);
  }

  lemma PreimageJsonText(inputs: Json, subject: Json)
    requires Supported(inputs) && Supported(subject)
    ensures var value := Object(map["inputs" := inputs, "subject" := subject]);
            && Supported(value)
            && Render(value) == Braced([Member("inputs", Render(inputs)), Member("subject", Render(subject))])
  {
    FirstLettersDecide("inputs", "subject");
    TwoMembersAre(Object(map["inputs" := inputs, "subject" := subject]), "inputs", "subject");
  }

  /** The preimage is this text, of the sorted inputs and subjects. */
  lemma PreimageIs(subjects: Option<seq<Subject>>, inputs: seq<Descriptor>)
    ensures Preimage(subjects, inputs) == PreimageText(SortedSubjects(subjects), SortedKeyed(inputs))
  {
    var sorted, keyed := SortedSubjects(subjects), SortedKeyed(inputs);
    PreimageIsSupported(sorted, keyed);
    InputsTexts(keyed);
    match sorted {
      case None => PreimageJsonText(Array(Apply(KeyedJson, keyed)), Null);
      case Some(some) =>
        SubjectsTexts(some);
        PreimageJsonText(Array(Apply(KeyedJson, keyed)), Array(Apply(SubjectJson, some)));
    }
  }
}
