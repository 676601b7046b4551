/** The canonical text, member by member: which characters it holds, and in which order the keys of an object come. */
module CanonicalText {
  import opened CanonicalJson
  import opened CanonicalJsonLaws
  import opened Ordering

  // ----- Characters

  /** The characters with a short form of their own, and the form. */
  const SHORT_FORMS := map[
    0x22 := "\\\"", 0x5C := "\\\\", 0x08 := "\\b", 0x09 := "\\t", 0x0A := "\\n", 0x0C := "\\f", 0x0D := "\\r"]

  /** A lower-case hexadecimal digit. */
  predicate IsHex(c: char, value: int) {
    (0 <= value <= 9 && c as int == 0x30 + value) || (10 <= value <= 15 && c as int == 0x61 + value - 10)
  }

  /** Short forms, four hexadecimal digits for every other control character, and every other character as it is. */
  lemma EscapesAre(c: char)
    ensures c as int in SHORT_FORMS ==> Escape(c) == SHORT_FORMS[c as int]
    ensures c as int !in SHORT_FORMS && c as int <= 0x1F ==>
              && |Escape(c)| == 6 && Escape(c)[..4] == "\\u00"
              && IsHex(Escape(c)[4], c as int / 16) && IsHex(Escape(c)[5], c as int % 16)
    ensures c as int !in SHORT_FORMS && c as int > 0x1F ==> Escape(c) == [c]
  {
    HexDigitsAre(c as int / 16);
    HexDigitsAre(c as int % 16);
  }

  lemma HexDigitsAre(value: int)
    ensures 0 <= value <= 15 ==> IsHex(HEX_DIGITS[value], value)
  {
  }

  /** A text is written character by character. */
  lemma {:induction false} EscapedIsByCharacter(front: string, c: char)
    ensures Escaped("") == "" && Escaped(front + [c]) == Escaped(front) + Escape(c)
  {
    if front == "" {
      assert Escape(c) + Escaped("") == Escape(c);
    } else {
      EscapedIsByCharacter(front[1..], c);
      assert (front + [c])[1..] == front[1..] + [c];
      ConcatAssociates(Escape(front[0]), Escaped(front[1..]), Escape(c));
    }
  }

  // ----- The order of keys

  /** Characters beyond the basic plane come behind U+D7FF and before U+E000, and all others by code point. */
  predicate CharacterBefore(c: char, d: char) {
    if c as int > 0xFFFF <==> d as int > 0xFFFF then c < d
    else if c as int > 0xFFFF then d as int >= 0xE000
    else c as int <= 0xD7FF
  }

  /** The keys agree up to the place, where the first ends or has the earlier character. */
  predicate DifferAt(a: string, b: string, k: nat) {
    && k <= |a| && k <= |b| && a[..k] == b[..k]
    && (k == |a| < |b| || (k < |a| && k < |b| && CharacterBefore(a[k], b[k])))
  }

  /** The first key is a proper prefix of the second, or has the earlier character where they first differ. */
  ghost predicate KeyBefore(a: string, b: string) {
    exists k: nat :: DifferAt(a, b, k)
  }

  lemma DifferBehind(a: string, b: string, k: nat)
    requires a != "" && b != "" && a[0] == b[0]
    ensures DifferAt(a, b, k + 1) <==> DifferAt(a[1..], b[1..], k)
  {
    if k < |a| && k < |b| {
      assert a[..k + 1] == [a[0]] + a[1..][..k] && b[..k + 1] == [b[0]] + b[1..][..k];
    }
  }

  lemma KeyBeforeBehind(a: string, b: string)
    requires a != "" && b != "" && a[0] == b[0]
    ensures KeyBefore(a, b) <==> KeyBefore(a[1..], b[1..])
  {
    if k: nat :| DifferAt(a, b, k) {
      DifferBehind(a, b, k - 1);
    }
    if k: nat :| DifferAt(a[1..], b[1..], k) {
      DifferBehind(a, b, k);
    }
  }

  lemma {:induction false} SamePrefixCompares(prefix: seq<int>, xs: seq<int>, ys: seq<int>)
    ensures Compare(prefix + xs, prefix + ys) == Compare(xs, ys)
  {
    if prefix == [] {
      assert prefix + xs == xs && prefix + ys == ys;
    } else {
      assert (prefix + xs)[1..] == prefix[1..] + xs && (prefix + ys)[1..] == prefix[1..] + ys;
      SamePrefixCompares(prefix[1..], xs, ys);
    }
  }

  /** Two different characters decide, whatever follows them. */
  lemma DifferentCharacters(c: char, d: char, xs: seq<int>, ys: seq<int>)
    requires c != d
    ensures Compare(Utf16(c) + xs, Utf16(d) + ys) < 0 <==> CharacterBefore(c, d)
  {
    var left, right := Utf16(c) + xs, Utf16(d) + ys;
    assert left[0] == Utf16(c)[0] && right[0] == Utf16(d)[0];
    if left[0] == right[0] {
      assert c as int > 0xFFFF && d as int > 0xFFFF;
      assert left[1..][0] == Utf16(c)[1] && right[1..][0] == Utf16(d)[1];
    }
  }

  lemma KeyBeforeAtOnce(a: string, b: string)
    requires a == "" || b == "" || a[0] != b[0]
    ensures KeyBefore(a, b) <==> b != "" && (a == "" || CharacterBefore(a[0], b[0]))
  {
    assert DifferAt(a, b, 0) <==> b != "" && (a == "" || CharacterBefore(a[0], b[0]));
    assert forall k: nat :: DifferAt(a, b, k) ==> k == 0;
  }

  lemma EmptyFirst(b: string)
    requires b != ""
    ensures Compare(Utf16Units(""), Utf16Units(b)) < 0 < Compare(Utf16Units(b), Utf16Units(""))
  {
    assert Utf16Units(b)[0] == Utf16(b[0])[0];
  }

  /** Comparing the code units of two keys is the order of their characters. */
  lemma {:induction false} KeyOrderIs(a: string, b: string)
    ensures CompareUtf16(a, b) < 0 <==> KeyBefore(a, b)
  {
    if a != "" && b != "" && a[0] == b[0] {
      SamePrefixCompares(Utf16(a[0]), Utf16Units(a[1..]), Utf16Units(b[1..]));
      KeyOrderIs(a[1..], b[1..]);
      KeyBeforeBehind(a, b);
    } else {
      KeyBeforeAtOnce(a, b);
      if a != "" && b != "" {
        DifferentCharacters(a[0], b[0], Utf16Units(a[1..]), Utf16Units(b[1..]));
      } else if a != "" {
        EmptyFirst(a);
      } else if b != "" {
        EmptyFirst(b);
      }
    }
  }

  ghost predicate Ascending(keys: seq<string>) {
    forall i, j | 0 <= i < j < |keys| :: KeyBefore(keys[i], keys[j])
  }

  lemma HeldTwice<T>(xs: seq<T>, i: nat, j: nat)
    requires i < j < |xs| && xs[i] == xs[j]
    ensures multiset(xs)[xs[i]] >= 2
  {
    assert xs == xs[..i] + [xs[i]] + xs[i + 1..j] + [xs[j]] + xs[j + 1..];
  }

  lemma EachOnce(keys: set<string>, order: seq<string>, i: nat, j: nat)
    requires multiset(order) == multiset(keys) && i < j < |order|
    ensures order[i] != order[j]
  {
    if order[i] == order[j] {
      HeldTwice(order, i, j);
    }
  }

  /** The keys an object is written with are its own, each once and each before the next. */
  lemma SortedKeysAscend(keys: set<string>)
    ensures Ascending(SortedKeys(keys)) && forall key :: key in SortedKeys(keys) <==> key in keys
  {
    var sorted := SortedKeys(keys);
    SortedKeysAreTheKeys(keys);
    KeyOrderIsTotal(multiset(keys));
    SortOrders(Enumerate(keys), ByUtf16);
    forall i, j | 0 <= i < j < |sorted| ensures KeyBefore(sorted[i], sorted[j]) {
      EachOnce(keys, sorted, i, j);
      CompareIdentifies(Utf16Units(sorted[i]), Utf16Units(sorted[j]));
      if Utf16Units(sorted[i]) == Utf16Units(sorted[j]) {
        Utf16Identifies(sorted[i], sorted[j]);
      }
      KeyOrderIs(sorted[i], sorted[j]);
    }
  }

  // ----- Values

  /** The parts one after the other, with a comma between any two. */
  function Joined(parts: seq<string>): string {
    if |parts| <= 1 then (if parts == [] then "" else parts[0])
    else Joined(parts[..|parts| - 1]) + "," + parts[|parts| - 1]
  }

  ghost function Texts(items: seq<Json>): seq<string>
    requires forall item | item in items :: Supported(item)
  {
    seq(|items|, i requires 0 <= i < |items| => assert items[i] in items; Render(items[i]))
  }

  /** One member: the quoted key, a colon, and the text of the value. */
  ghost function MemberText(value: Json, key: string): string
    requires value.Object? && Supported(value) && key in value.members
  {
    ['"'] + Escaped(key) + "\":" + Render(value.members[key])
  }

  ghost function MemberTexts(value: Json, keys: seq<string>): seq<string>
    requires value.Object? && Supported(value) && forall key | key in keys :: key in value.members
  {
    seq(|keys|, i requires 0 <= i < |keys| => assert keys[i] in keys; MemberText(value, keys[i]))
  }

  lemma {:induction false} ItemsAreJoined(items: seq<Json>)
    requires forall item | item in items :: Supported(item)
    ensures RenderItems(items, true) == Joined(Texts(items))
  {
    if items != [] {
      var last := |items| - 1;
      ItemsAreJoined(items[..last]);
      assert items == items[..last] + [items[last]];
      RenderItemsAppend(items[..last], items[last], true);
      assert Texts(items)[..last] == Texts(items[..last]) && Texts(items)[last] == Render(items[last]);
      if last == 0 {
        assert RenderItems(items[..last], true) == "";
      }
    }
  }

  lemma TextsOfMore(value: Json, keys: seq<string>)
    requires value.Object? && Supported(value) && keys != [] && forall key | key in keys :: key in value.members
    ensures var last := |keys| - 1;
            && (forall key | key in keys[..last] :: key in value.members)
            && keys[last] in value.members
            && MemberTexts(value, keys) == MemberTexts(value, keys[..last]) + [MemberText(value, keys[last])]
  {
    forall key | key in keys[..|keys| - 1] ensures key in keys {
    }
  }

  lemma JoinedOfMore(earlier: seq<string>, last: string)
    ensures Joined(earlier + [last]) == if earlier == [] then last else Joined(earlier) + "," + last
  {
    assert (earlier + [last])[..|earlier|] == earlier;
  }

  lemma JoinedStep(value: Json, keys: seq<string>)
    requires value.Object? && Supported(value) && keys != [] && forall key | key in keys :: key in value.members
    requires var earlier := keys[..|keys| - 1];
             && (forall key | key in earlier :: key in value.members)
             && RenderMembers(value, earlier, true) == Joined(MemberTexts(value, earlier))
    ensures RenderMembers(value, keys, true) == Joined(MemberTexts(value, keys))
  {
    var last := |keys| - 1;
    assert keys == keys[..last] + [keys[last]];
    RenderMembersAppend(value, keys[..last], keys[last], true);
    MemberIs(value, keys[last]);
    TextsOfMore(value, keys);
    var earlier := MemberTexts(value, keys[..last]);
    JoinedOfMore(earlier, MemberText(value, keys[last]));
  }

  lemma {:induction false} MembersAreJoined(value: Json, keys: seq<string>)
    requires value.Object? && Supported(value) && forall key | key in keys :: key in value.members
    ensures RenderMembers(value, keys, true) == Joined(MemberTexts(value, keys))
  {
    if keys != [] {
      TextsOfMore(value, keys);
      MembersAreJoined(value, keys[..|keys| - 1]);
      JoinedStep(value, keys);
    }
  }

  lemma MemberIs(value: Json, key: string)
    requires value.Object? && Supported(value) && key in value.members
    ensures RenderMember(value, key) == MemberText(value, key)
  {
    assert "\"" == ['"'] && "\"" + ":" == "\":";
    ConcatAssociates("\"" + Escaped(key), "\"", ":");
  }

  /** The text of every value: fixed words, quoted texts, and items or members joined, keys ascending. */
  lemma TextIs(value: Json)
    requires Supported(value)
    ensures match value
            case Null => Render(value) == ['n', 'u', 'l', 'l']
            case Bool(flag) => Render(value) == if flag then ['t', 'r', 'u', 'e'] else ['f', 'a', 'l', 's', 'e']
            case Text(text) => Render(value) == ['"'] + Escaped(text) + ['"']
            case Array(items) => Render(value) == ['['] + Joined(Texts(items)) + [']']
            case Object(members) =>
              exists keys: seq<string> ::
                && Ascending(keys) && (forall key :: key in keys <==> key in members)
                && Render(value) == ['{'] + Joined(MemberTexts(value, keys)) + ['}']
            case Unsupported => true
  {
    match value {
      case Array(items) => ItemsAreJoined(items);
      case Object(members) =>
        SortedKeysAscend(members.Keys);
        MembersAreJoined(value, SortedKeys(members.Keys));
        assert Ascending(SortedKeys(members.Keys));
      case _ =>
    }
  }

  lemma {:induction false} DistinctIsASet<T>(xs: seq<T>)
    requires forall i, j | 0 <= i < j < |xs| :: xs[i] != xs[j]
    ensures multiset(xs) == multiset(set x | x in xs)
  {
    if xs != [] {
      var last := |xs| - 1;
      DistinctIsASet(xs[..last]);
      assert xs == xs[..last] + [xs[last]];
      assert (set x | x in xs) == (set x | x in xs[..last]) + {xs[last]};
    }
  }

  lemma AscendingIsSorted(keys: seq<string>)
    requires Ascending(keys)
    ensures SortedBy(keys, ByUtf16) && multiset(keys) == multiset(set key | key in keys)
  {
    forall i, j | 0 <= i < j < |keys| ensures ByUtf16(keys[i], keys[j]) && keys[i] != keys[j] {
      KeyOrderIs(keys[i], keys[j]);
    }
    DistinctIsASet(keys);
  }

  /** An object is written with its keys in the one ascending order they have. */
  lemma ObjectText(value: Json, keys: seq<string>)
    requires value.Object? && Supported(value) && Ascending(keys) && forall key :: key in keys <==> key in value.members
    ensures Render(value) == "{" + Joined(MemberTexts(value, keys)) + "}"
  {
    var sorted := SortedKeys(value.members.Keys);
    SortedKeysAscend(value.members.Keys);
    AscendingIsSorted(keys);
    AscendingIsSorted(sorted);
    assert (set key | key in keys) == (set key | key in sorted);
    KeyOrderIsTotal(multiset(keys));
    SortedUnique(keys, sorted, ByUtf16);
    MembersAreJoined(value, keys);
  }

  lemma JoinedTwo(first: string, second: string)
    ensures Joined([first, second]) == first + "," + second
  {
    assert [first, second][..1] == [first];
  }

  /** The text of an object with two members. */
  lemma TwoMembers(pair: Json, a: string, b: string)
    requires pair.Object? && Supported(pair) && pair.members.Keys == {a, b} && KeyBefore(a, b)
    ensures Render(pair) == "{" + (MemberText(pair, a) + "," + MemberText(pair, b)) + "}"
  {
    assert a in pair.members && b in pair.members;
    ObjectText(pair, [a, b]);
    JoinedTwo(MemberText(pair, a), MemberText(pair, b));
    assert MemberTexts(pair, [a, b]) == [MemberText(pair, a), MemberText(pair, b)];
  }
}
