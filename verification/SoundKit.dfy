/**
 A kit that meets what the laws of init ask of one: settings are written in the
 canonical form of JSON, with a tag in front of numbers and lists, and read back by
 undoing it.
 */
module SoundKit {
  import opened CanonicalJsonLaws
  import opened HookSettings
  import opened InitPlan
  import opened InitSetup
  import opened Labels
  import opened ProofFormat
  import opened ProjectText
  import Json = CanonicalJson

  function AsJson(value: Value): Json.Json {
    match value
    case Null => Json.Null
    case Bool(flag) => Json.Bool(flag)
    case Number(number) => Json.Array([Json.Bool(true), Json.Text(Decimal(number))])
    case Text(text) => Json.Text(text)
    case List(items) => Json.Array([Json.Bool(false)] + seq(|items|, i requires 0 <= i < |items| => AsJson(items[i])))
    case Object(members) => Json.Object(map key | key in members :: AsJson(members[key]))
  }

  lemma {:induction false} AsJsonIsSupported(value: Value)
    ensures Json.Supported(AsJson(value))
  {
    match value
    case List(items) =>
      forall i | 0 <= i < |items| ensures Json.Supported(AsJson(items[i])) {
        AsJsonIsSupported(items[i]);
      }
    case Object(members) =>
      forall key | key in members ensures Json.Supported(AsJson(members[key])) {
        AsJsonIsSupported(members[key]);
      }
    case _ =>
  }

  lemma {:induction false} AsJsonIsInjective(v: Value, w: Value)
    requires AsJson(v) == AsJson(w)
    ensures v == w
    decreases v
  {
    match v
    case Number(number) =>
      assert AsJson(v).items[0] == Json.Bool(true) && AsJson(w).items[0] == Json.Bool(true);
      assert AsJson(v).items[1] == AsJson(w).items[1];
      DecimalInjective(number, w.number);
    case List(items) =>
      assert AsJson(v).items[0] == Json.Bool(false) && AsJson(w).items[0] == Json.Bool(false);
      assert |AsJson(v).items| == 1 + |items| == 1 + |w.items|;
      forall i | 0 <= i < |items| ensures items[i] == w.items[i] {
        assert AsJson(v).items[i + 1] == AsJson(items[i]) && AsJson(w).items[i + 1] == AsJson(w.items[i]);
        AsJsonIsInjective(items[i], w.items[i]);
      }
    case Object(members) =>
      assert AsJson(v).members.Keys == members.Keys && AsJson(w).members.Keys == w.members.Keys;
      forall key | key in members ensures members[key] == w.members[key] {
        assert AsJson(v).members[key] == AsJson(members[key]) && AsJson(w).members[key] == AsJson(w.members[key]);
        AsJsonIsInjective(members[key], w.members[key]);
      }
      assert members == w.members;
    case _ =>
  }

  ghost function Encoded(members: Members): string {
    AsJsonIsSupported(Object(members));
    Json.Render(AsJson(Object(members)))
  }

  ghost function Decoding(text: string): Decoded {
    if members: Members :| Encoded(members) == text then DecodedObject(members) else Undecodable
  }

  lemma EncodedReadsBack(members: Members)
    ensures !Blank(Encoded(members)) && Decoding(Encoded(members)) == DecodedObject(members)
  {
    AsJsonIsSupported(Object(members));
    FirstCharacter(AsJson(Object(members)));
    assert Encoded(members)[0] in Encoded(members);
    forall other: Members | Encoded(other) == Encoded(members) ensures other == members {
      AsJsonIsSupported(Object(other));
      CanonicalFormIsInjective(AsJson(Object(other)), AsJson(Object(members)));
      AsJsonIsInjective(Object(other), Object(members));
    }
    assert exists other: Members :: Encoded(other) == Encoded(members);
  }

  /** There is a sound kit, and with it a sound outfit for any starter configuration. */
  lemma SomeOutfitIsSound(starter: Files -> string) returns (outfit: Outfit)
    ensures outfit.Sound() && outfit.starter == starter
  {
    var codec := Codec(Decoding, Encoded);
    outfit := Outfit(Kit(codec, "", CONFTEST_MARKER), [], starter, "", "");
    forall members
      ensures !Blank(codec.encode(members)) && codec.decode(codec.encode(members)) == DecodedObject(members)
    {
      EncodedReadsBack(members);
    }
    assert OccursAt(CONFTEST_MARKER, CONFTEST_MARKER, 0);
    assert !Holds("", SECTION_END);
  }
}
