/**
 The canonical JSON form of RFC 8785 (sections 3.2.2.2 and 3.2.3) for null, booleans, strings,
 arrays and objects, the values of the cache key. Text is a sequence of Unicode scalar values.
 */
module CanonicalJson {
  import opened Ordering

  datatype Json =
    | Null
    | Bool(value: bool)
    | Text(text: string)
    | Array(items: seq<Json>)
    | Object(members: map<string, Json>)
    | Unsupported

  // ----- Strings

  const HEX_DIGITS := "0123456789abcdef"
  const FIRST_PRINTABLE := 0x20
  const BACKSPACE: char := 8 as char
  const FORM_FEED: char := 12 as char

  /** How one scalar value is written inside a string. */
  function Escape(c: char): string {
    if c == '"' then "\\\""
    else if c == '\\' then "\\\\"
    else if c == BACKSPACE then "\\b"
    else if c == FORM_FEED then "\\f"
    else if c == '\n' then "\\n"
    else if c == '\r' then "\\r"
    else if c == '\t' then "\\t"
    else if c as int < FIRST_PRINTABLE then "\\u00" + [HEX_DIGITS[c as int / 16], HEX_DIGITS[c as int % 16]]
    else [c]
  }

  function Escaped(text: string): string {
    if text == [] then [] else Escape(text[0]) + Escaped(text[1..])
  }

  function Quoted(text: string): string {
    "\"" + Escaped(text) + "\""
  }

  // ----- Key order

  /** The UTF-16 code units of a scalar value. */
  function Utf16(c: char): seq<int> {
    var point := c as int;
    if point < 0x10000 then [point]
    else [0xD800 + (point - 0x10000) / 0x400, 0xDC00 + (point - 0x10000) % 0x400]
  }

  function Utf16Units(text: string): seq<int> {
    if text == [] then [] else Utf16(text[0]) + Utf16Units(text[1..])
  }

  function CompareUtf16(a: string, b: string): int {
    Compare(Utf16Units(a), Utf16Units(b))
  }

  predicate ByUtf16(a: string, b: string) {
    CompareUtf16(a, b) <= 0
  }

  lemma Utf16Splits(c: char, d: char, xs: seq<int>, ys: seq<int>)
    requires Utf16(c) + xs == Utf16(d) + ys
    ensures c == d && xs == ys
  {
    var left, right := Utf16(c) + xs, Utf16(d) + ys;
    assert left[0] == Utf16(c)[0] && right[0] == Utf16(d)[0];
    assert 0xD800 <= left[0] < 0xDC00 <==> c as int >= 0x10000;
    assert 0xD800 <= right[0] < 0xDC00 <==> d as int >= 0x10000;
    if c as int >= 0x10000 {
      assert left[1] == Utf16(c)[1] && right[1] == Utf16(d)[1];
      assert left[2..] == xs && right[2..] == ys;
    } else {
      assert left[1..] == xs && right[1..] == ys;
    }
  }

  /** The code units of a text identify it. */
  lemma {:induction false} Utf16Identifies(a: string, b: string)
    requires Utf16Units(a) == Utf16Units(b)
    ensures a == b
  {
    if a == [] || b == [] {
    } else {
      Utf16Splits(a[0], b[0], Utf16Units(a[1..]), Utf16Units(b[1..]));
      Utf16Identifies(a[1..], b[1..]);
      assert a == [a[0]] + a[1..] && b == [b[0]] + b[1..];
    }
  }

  /** The key order is total and separates any two keys. */
  lemma KeyOrderIsTotal(keys: multiset<string>)
    ensures TotalPreorder(ByUtf16) && Separates(keys, ByUtf16)
  {
    forall a: string, b: string
      ensures ByUtf16(a, a) && (ByUtf16(a, b) || ByUtf16(b, a))
      ensures ByUtf16(a, b) && ByUtf16(b, a) ==> a == b
    {
      CompareIdentifies(Utf16Units(a), Utf16Units(a));
      CompareIdentifies(Utf16Units(a), Utf16Units(b));
      if ByUtf16(a, b) && ByUtf16(b, a) {
        Utf16Identifies(a, b);
      }
    }
    forall a: string, b: string, c: string | ByUtf16(a, b) && ByUtf16(b, c) ensures ByUtf16(a, c) {
      CompareTransitive(Utf16Units(a), Utf16Units(b), Utf16Units(c));
    }
  }

  lemma OneCharacterUnits(c: char)
    ensures Utf16Units([c]) == Utf16(c) && CodePoints([c]) == [c as int]
  {
    assert [c][1..] == [];
    assert Utf16(c) + [] == Utf16(c);
  }

  /**
   The key order is not the order by code point: a supplementary
   character comes before the end of the basic plane.
   */
  lemma KeyOrderIsNotByCodePoint()
    ensures exists a, b :: CompareUtf16(a, b) < 0 < CompareStrings(a, b)
  {
    var first, second := 0x10000 as char, 0xFFFD as char;
    OneCharacterUnits(first);
    OneCharacterUnits(second);
    assert Utf16(first)[0] == 0xD800 && Utf16(second)[0] == 0xFFFD;
    assert CompareUtf16([first], [second]) < 0 < CompareStrings([first], [second]);
  }

  /** Some order of the keys of a set. */
  ghost function Enumerate(keys: set<string>): (order: seq<string>)
    ensures multiset(order) == multiset(keys)
  {
    if keys == {} then []
    else
      var key :| key in keys;
      [key] + Enumerate(keys - {key})
  }

  ghost function SortedKeys(keys: set<string>): seq<string> {
    StableSort(Enumerate(keys), ByUtf16)
  }

  /** Every order the keys of an object are visited in is sorted to the same list. */
  lemma KeyOrderForgetsIteration(keys: set<string>, order: seq<string>)
    requires multiset(order) == multiset(keys)
    ensures StableSort(order, ByUtf16) == SortedKeys(keys)
  {
    KeyOrderIsTotal(multiset(keys));
    SortForgetsOrder(order, Enumerate(keys), ByUtf16);
  }

  lemma SortedKeysAreTheKeys(keys: set<string>)
    ensures multiset(SortedKeys(keys)) == multiset(keys)
    ensures forall key :: key in SortedKeys(keys) <==> key in keys
  {
    SortPermutes(Enumerate(keys), ByUtf16);
    assert forall key :: key in SortedKeys(keys) <==> key in multiset(SortedKeys(keys));
  }

  // ----- Values

  /** The value holds no number or other type outside the cache key. */
  predicate Supported(value: Json) {
    match value
    case Array(items) => forall item | item in items :: Supported(item)
    case Object(members) => forall key | key in members :: Supported(members[key])
    case Unsupported => false
    case _ => true
  }

  ghost function Render(value: Json): string
    requires Supported(value)
    decreases value, 1
  {
    match value
    case Null => "null"
    case Bool(b) => if b then "true" else "false"
    case Text(text) => Quoted(text)
    case Array(items) => "[" + RenderItems(items, true) + "]"
    case Object(members) =>
      SortedKeysAreTheKeys(members.Keys);
      "{" + RenderMembers(value, SortedKeys(members.Keys), true) + "}"
  }

  function Separator(first: bool): string {
    if first then "" else ","
  }

  ghost function RenderItems(items: seq<Json>, first: bool): string
    requires forall item | item in items :: Supported(item)
    decreases items, 0
  {
    if items == [] then "" else Separator(first) + Render(items[0]) + RenderItems(items[1..], false)
  }

  ghost function RenderMembers(value: Json, keys: seq<string>, first: bool): string
    requires value.Object? && Supported(value) && forall key | key in keys :: key in value.members
    decreases value, 0, |keys| + 1
  {
    if keys == [] then ""
    else
      assert keys[0] in keys;
      Separator(first) + RenderMember(value, keys[0]) + RenderMembers(value, keys[1..], false)
  }

  ghost function RenderMember(value: Json, key: string): string
    requires value.Object? && Supported(value) && key in value.members
    decreases value, 0, 0
  {
    Quoted(key) + ":" + Render(value.members[key])
  }

  // ----- Writing

  class Buffer {
    var text: string

    constructor ()
      ensures text == ""
    {
      text := "";
    }

    method Write(more: string)
      modifies this
      ensures text == old(text) + more
    {
      text := text + more;
    }
  }

  method WriteEscaped(buffer: Buffer, r: char)
    modifies buffer
    ensures buffer.text == old(buffer.text) + Escape(r)
  {
    if r == '"' {
      buffer.Write("\\\"");
    } else if r == '\\' {
      buffer.Write("\\\\");
    } else if r == BACKSPACE {
      buffer.Write("\\b");
    } else if r == FORM_FEED {
      buffer.Write("\\f");
    } else if r == '\n' {
      buffer.Write("\\n");
    } else if r == '\r' {
      buffer.Write("\\r");
    } else if r == '\t' {
      buffer.Write("\\t");
    } else if r as int < FIRST_PRINTABLE {
      buffer.Write("\\u00");
      buffer.Write([HEX_DIGITS[r as int / 16]]);
      buffer.Write([HEX_DIGITS[r as int % 16]]);
    } else {
      buffer.Write([r]);
    }
  }

  /** Escapes a string as the JSON.stringify of ECMAScript does. */
  method WriteCanonicalString(buffer: Buffer, text: string)
    modifies buffer
    ensures buffer.text == old(buffer.text) + Quoted(text)
  {
    buffer.Write("\"");
    ghost var atQuote := buffer.text;
    for i := 0 to |text|
      invariant buffer.text + Escaped(text[i..]) == atQuote + Escaped(text)
    {
      assert text[i..][1..] == text[i + 1..];
      ConcatAssociates(buffer.text, Escape(text[i]), Escaped(text[i + 1..]));
      WriteEscaped(buffer, text[i]);
    }
    assert text[|text|..] == "";
    assert buffer.text == atQuote + Escaped(text);
    buffer.Write("\"");
    ConcatAssociates(old(buffer.text), "\"", Escaped(text));
    ConcatAssociates(old(buffer.text), "\"" + Escaped(text), "\"");
  }

  lemma RegroupAfter(head: string, rest: string, separator: string, last: string)
    ensures head + rest + separator + last == head + (rest + separator + last)
  {
    ConcatAssociates(head, rest, separator);
    ConcatAssociates(head, rest + separator, last);
  }

  /** The rendering of the items that follow those rendered already. */
  lemma {:induction false} RenderItemsAppend(items: seq<Json>, item: Json, first: bool)
    requires forall i | i in items :: Supported(i)
    requires Supported(item)
    ensures (forall i | i in items + [item] :: Supported(i))
    ensures RenderItems(items + [item], first)
            == RenderItems(items, first) + Separator(first && items == []) + Render(item)
  {
    if items == [] {
      assert [item][1..] == [];
    } else {
      var head, rest := Separator(first) + Render(items[0]), RenderItems(items[1..], false);
      RenderItemsAppend(items[1..], item, false);
      assert (items + [item])[1..] == items[1..] + [item] && (items + [item])[0] == items[0];
      RegroupAfter(head, rest, ",", Render(item));
    }
  }

  lemma {:induction false} RenderMembersAppend(value: Json, keys: seq<string>, key: string, first: bool)
    requires value.Object? && Supported(value) && key in value.members && forall k | k in keys :: k in value.members
    ensures RenderMembers(value, keys + [key], first)
            == RenderMembers(value, keys, first) + Separator(first && keys == []) + RenderMember(value, key)
  {
    if keys == [] {
      assert [key][1..] == [];
    } else {
      var head, rest := Separator(first) + RenderMember(value, keys[0]), RenderMembers(value, keys[1..], false);
      RenderMembersAppend(value, keys[1..], key, false);
      assert (keys + [key])[1..] == keys[1..] + [key] && (keys + [key])[0] == keys[0];
      RegroupAfter(head, rest, ",", RenderMember(value, key));
    }
  }

  /** Writes a value, or reports that the cache key holds no value of its type. */
  method WriteCanonical(buffer: Buffer, value: Json) returns (ok: bool)
    modifies buffer
    ensures ok <==> Supported(value)
    ensures ok ==> buffer.text == old(buffer.text) + Render(value)
    decreases value, 1
  {
    match value {
      case Null =>
        buffer.Write("null");
      case Bool(b) =>
        buffer.Write(if b then "true" else "false");
      case Text(text) =>
        WriteCanonicalString(buffer, text);
      case Array(items) =>
        ok := WriteCanonicalArray(buffer, value, items);
        return;
      case Object(_) =>
        ok := WriteCanonicalObject(buffer, value);
        return;
      case Unsupported =>
        return false;
    }
    ok := true;
  }

  method WriteCanonicalArray(buffer: Buffer, ghost value: Json, items: seq<Json>) returns (ok: bool)
    requires value == Array(items)
    modifies buffer
    ensures ok <==> Supported(value)
    ensures ok ==> buffer.text == old(buffer.text) + Render(value)
    decreases value, 0
  {
    buffer.Write("[");
    ghost var atItems := buffer.text;
    for index := 0 to |items|
      invariant forall item | item in items[..index] :: Supported(item)
      invariant buffer.text == atItems + RenderItems(items[..index], true)
    {
      RenderItemsStep(items, index, atItems);
      if index > 0 {
        buffer.Write(",");
      }
      ok := WriteCanonical(buffer, items[index]);
      if !ok {
        return;
      }
      TakeOneMore(items, index);
    }
    assert items[..|items|] == items;
    ConcatAssociates(old(buffer.text), "[", RenderItems(items, true));
    buffer.Write("]");
    ConcatAssociates(old(buffer.text), "[" + RenderItems(items, true), "]");
    ok := true;
  }

  lemma RenderItemsStep(items: seq<Json>, index: nat, before: string)
    requires index < |items| && forall item | item in items[..index] :: Supported(item)
    ensures Supported(items[index]) ==>
              && (forall item | item in items[..index + 1] :: Supported(item))
              && before + RenderItems(items[..index + 1], true)
                 == before + RenderItems(items[..index], true) + Separator(index == 0) + Render(items[index])
  {
    if Supported(items[index]) {
      var done := RenderItems(items[..index], true);
      TakeOneMore(items, index);
      RenderItemsAppend(items[..index], items[index], true);
      ConcatAssociates(before, done, Separator(index == 0));
      ConcatAssociates(before, done + Separator(index == 0), Render(items[index]));
    }
  }

  /** The keys in the order the map is ranged over, which nothing fixes. */
  method CollectKeys(members: map<string, Json>) returns (keys: seq<string>)
    ensures multiset(keys) == multiset(members.Keys)
  {
    keys := [];
    var left := members.Keys;
    while left != {}
      invariant left <= members.Keys
      invariant multiset(keys) + multiset(left) == multiset(members.Keys)
      decreases |left|
    {
      var key :| key in left;
      keys := keys + [key];
      left := left - {key};
    }
  }

  method WriteMember(buffer: Buffer, value: Json, key: string, first: bool) returns (ok: bool)
    requires value.Object? && key in value.members
    modifies buffer
    ensures ok <==> Supported(value.members[key])
    ensures Supported(value) ==> buffer.text == old(buffer.text) + Separator(first) + RenderMember(value, key)
    decreases value, 0, 0
  {
    if !first {
      buffer.Write(",");
    }
    ghost var before := buffer.text;
    assert before == old(buffer.text) + Separator(first);
    WriteCanonicalString(buffer, key);
    buffer.Write(":");
    ok := WriteCanonical(buffer, value.members[key]);
    if Supported(value) {
      ConcatAssociates(before, Quoted(key), ":");
      ConcatAssociates(before, Quoted(key) + ":", Render(value.members[key]));
    }
  }

  method WriteCanonicalObject(buffer: Buffer, value: Json) returns (ok: bool)
    requires value.Object?
    modifies buffer
    ensures ok <==> Supported(value)
    ensures ok ==> buffer.text == old(buffer.text) + Render(value)
    decreases value, 0
  {
    var collected := CollectKeys(value.members);
    var keys := StableSort(collected, ByUtf16);
    KeyOrderForgetsIteration(value.members.Keys, collected);
    SortedKeysAreTheKeys(value.members.Keys);
    buffer.Write("{");
    ok := WriteMembers(buffer, value, keys);
    if !ok {
      return;
    }
    ConcatAssociates(old(buffer.text), "{", RenderMembers(value, keys, true));
    buffer.Write("}");
    ConcatAssociates(old(buffer.text), "{" + RenderMembers(value, keys, true), "}");
  }

  method WriteMembers(buffer: Buffer, value: Json, keys: seq<string>) returns (ok: bool)
    requires value.Object? && forall key :: key in keys <==> key in value.members
    modifies buffer
    ensures ok <==> Supported(value)
    ensures ok ==> buffer.text == old(buffer.text) + RenderMembers(value, keys, true)
    decreases value, 0, 1
  {
    for index := 0 to |keys|
      invariant forall k | 0 <= k < index :: Supported(value.members[keys[k]])
      invariant Supported(value) ==> buffer.text == old(buffer.text) + RenderMembers(value, keys[..index], true)
    {
      if Supported(value) {
        RenderMembersStep(value, keys, index, old(buffer.text));
      }
      ok := WriteMember(buffer, value, keys[index], index == 0);
      if !ok {
        return;
      }
    }
    assert keys[..|keys|] == keys;
    ok := true;
  }

  lemma RenderMembersStep(value: Json, keys: seq<string>, index: nat, before: string)
    requires value.Object? && Supported(value) && index < |keys| && forall key | key in keys :: key in value.members
    ensures before + RenderMembers(value, keys[..index + 1], true)
            == before + RenderMembers(value, keys[..index], true) + Separator(index == 0)
               + RenderMember(value, keys[index])
  {
    var done := RenderMembers(value, keys[..index], true);
    TakeOneMore(keys, index);
    RenderMembersAppend(value, keys[..index], keys[index], true);
    ConcatAssociates(before, done, Separator(index == 0));
    ConcatAssociates(before, done + Separator(index == 0), RenderMember(value, keys[index]));
  }
}
