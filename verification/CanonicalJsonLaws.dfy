/**
 The canonical form is uniquely decodable: no rendering is the start
 of another, so equal output means equal values.
 */
module CanonicalJsonLaws {
  import opened CanonicalJson

  // ----- Strings

  /** How long the text of a scalar value is shows in its first two characters. */
  lemma EscapeShape(c: char)
    ensures |Escape(c)| == if Escape(c)[0] != '\\' then 1 else if Escape(c)[1] != 'u' then 2 else 6
    ensures |Escape(c)| == 6
            ==> c as int < FIRST_PRINTABLE && Escape(c)[4] == HEX_DIGITS[c as int / 16]
                && Escape(c)[5] == HEX_DIGITS[c as int % 16]
  {
  }

  lemma EscapeIsInjective(c: char, d: char)
    requires Escape(c) == Escape(d)
    ensures c == d
  {
    EscapeShape(c);
    EscapeShape(d);
    if |Escape(c)| == 6 {
      HexDigitsDiffer(c as int / 16, d as int / 16);
      HexDigitsDiffer(c as int % 16, d as int % 16);
    }
  }

  /** The text of one scalar value decides where it ends and which one it is; none starts with the closing quote. */
  lemma EscapeSplits(c: char, d: char, xs: string, ys: string)
    requires Escape(c) + xs == Escape(d) + ys
    ensures c == d && xs == ys
  {
    EscapeShape(c);
    EscapeShape(d);
    var left, right := Escape(c) + xs, Escape(d) + ys;
    assert left[0] == Escape(c)[0] && right[0] == Escape(d)[0];
    if left[0] == '\\' {
      assert left[1] == Escape(c)[1] && right[1] == Escape(d)[1];
    }
    var length := |Escape(c)|;
    assert left[..length] == Escape(c) && right[..length] == Escape(d);
    assert left[length..] == xs && right[length..] == ys;
    EscapeIsInjective(c, d);
  }

  lemma HexDigitsDiffer(m: int, n: int)
    requires 0 <= m < 16 && 0 <= n < 16
    ensures HEX_DIGITS[m] == HEX_DIGITS[n] <==> m == n
  {
  }

  lemma Regroup(a: string, b: string, c: string, rest: string)
    ensures a + b + rest == a + (b + rest)
    ensures a + b + c + rest == a + (b + (c + rest))
  {
    assert a + b + c + rest == a + b + (c + rest);
  }

  lemma CancelPrefix(prefix: string, xs: string, ys: string)
    requires prefix + xs == prefix + ys
    ensures xs == ys
  {
    assert (prefix + xs)[|prefix|..] == xs && (prefix + ys)[|prefix|..] == ys;
  }

  lemma {:induction false} EscapedStart(a: string, rest: string)
    requires rest != "" && rest[0] == '"'
    ensures (Escaped(a) + rest)[0] == '"' <==> a == ""
    ensures a != "" ==> Escaped(a) + rest == Escape(a[0]) + (Escaped(a[1..]) + rest)
  {
    if a != "" {
      Regroup(Escape(a[0]), Escaped(a[1..]), "", rest);
      assert (Escape(a[0]) + (Escaped(a[1..]) + rest))[0] == Escape(a[0])[0];
    }
  }

  lemma {:induction false} EscapedSplits(a: string, b: string, xs: string, ys: string)
    requires Escaped(a) + ("\"" + xs) == Escaped(b) + ("\"" + ys)
    ensures a == b && xs == ys
  {
    EscapedStart(a, "\"" + xs);
    EscapedStart(b, "\"" + ys);
    if a == "" {
      assert Escaped(a) + ("\"" + xs) == "\"" + xs && Escaped(b) + ("\"" + ys) == "\"" + ys;
      CancelPrefix("\"", xs, ys);
    } else {
      EscapeSplits(a[0], b[0], Escaped(a[1..]) + ("\"" + xs), Escaped(b[1..]) + ("\"" + ys));
      EscapedSplits(a[1..], b[1..], xs, ys);
      assert a == [a[0]] + a[1..] && b == [b[0]] + b[1..];
    }
  }

  lemma QuotedSplits(a: string, b: string, xs: string, ys: string)
    requires Quoted(a) + xs == Quoted(b) + ys
    ensures a == b && xs == ys
  {
    Regroup("\"", Escaped(a), "\"", xs);
    Regroup("\"", Escaped(b), "\"", ys);
    CancelPrefix("\"", Escaped(a) + ("\"" + xs), Escaped(b) + ("\"" + ys));
    EscapedSplits(a, b, xs, ys);
  }

  // ----- Values

  /** The first character of a rendering tells the kind of the value. */
  lemma FirstCharacter(value: Json)
    requires Supported(value)
    ensures Render(value) != ""
    ensures Render(value)[0] == match value
                                case Null => 'n'
                                case Bool(b) => (if b then 't' else 'f')
                                case Text(_) => '"'
                                case Array(_) => '['
                                case Object(_) => '{'
                                case Unsupported => '?'
  {
  }

  /** No rendering continues another: what follows two equal texts is equal, and so are the values. */
  lemma {:induction false} RenderSplits(v: Json, w: Json, xs: string, ys: string)
    requires Supported(v) && Supported(w) && Render(v) + xs == Render(w) + ys
    ensures v == w && xs == ys
    decreases v, 1
  {
    FirstCharacter(v);
    FirstCharacter(w);
    var left, right := Render(v) + xs, Render(w) + ys;
    assert left[0] == Render(v)[0] && right[0] == Render(w)[0];
    match v
    case Null =>
      CancelPrefix("null", xs, ys);
    case Bool(b) =>
      CancelPrefix(Render(v), xs, ys);
    case Text(text) =>
      QuotedSplits(text, w.text, xs, ys);
    case Array(items) =>
      Regroup("[", RenderItems(items, true), "]", xs);
      Regroup("[", RenderItems(w.items, true), "]", ys);
      CancelPrefix("[", RenderItems(items, true) + ("]" + xs), RenderItems(w.items, true) + ("]" + ys));
      ItemsSplit(items, w.items, true, xs, ys);
    case Object(_) =>
      ObjectsSplit(v, w, xs, ys);
  }

  lemma {:induction false} ObjectsSplit(v: Json, w: Json, xs: string, ys: string)
    requires v.Object? && w.Object? && Supported(v) && Supported(w) && Render(v) + xs == Render(w) + ys
    ensures v == w && xs == ys
    decreases v, 0
  {
    SortedKeysAreTheKeys(v.members.Keys);
    SortedKeysAreTheKeys(w.members.Keys);
    var keys, others := SortedKeys(v.members.Keys), SortedKeys(w.members.Keys);
    BracesSplit(RenderMembers(v, keys, true), RenderMembers(w, others, true), xs, ys);
    MembersSplit(v, w, keys, others, true, xs, ys);
    SameMembersSameObject(v, w, keys);
  }

  lemma BracesSplit(a: string, b: string, xs: string, ys: string)
    requires "{" + a + "}" + xs == "{" + b + "}" + ys
    ensures a + ("}" + xs) == b + ("}" + ys)
  {
    Regroup("{", a, "}", xs);
    Regroup("{", b, "}", ys);
    CancelPrefix("{", a + ("}" + xs), b + ("}" + ys));
  }

  lemma SameMembersSameObject(v: Json, w: Json, keys: seq<string>)
    requires v.Object? && w.Object?
    requires forall key :: key in keys <==> key in v.members
    requires forall key :: key in keys <==> key in w.members
    requires forall key | key in keys :: v.members[key] == w.members[key]
    ensures v == w
  {
    assert v.members == w.members;
  }

  lemma ItemsStart(items: seq<Json>, first: bool, rest: string)
    requires rest != "" && rest[0] == ']' && forall item | item in items :: Supported(item)
    ensures (RenderItems(items, first) + rest)[0] == ']' <==> items == []
    ensures items != []
            ==> RenderItems(items, first) + rest
                == Separator(first) + (Render(items[0]) + (RenderItems(items[1..], false) + rest))
  {
    if items != [] {
      FirstCharacter(items[0]);
      Regroup(Separator(first), Render(items[0]), RenderItems(items[1..], false), rest);
      var all := Separator(first) + (Render(items[0]) + (RenderItems(items[1..], false) + rest));
      assert all[0] == if first then Render(items[0])[0] else ',';
    }
  }

  lemma {:induction false} ItemsSplit(items: seq<Json>, others: seq<Json>, first: bool, xs: string, ys: string)
    requires forall item | item in items :: Supported(item)
    requires forall item | item in others :: Supported(item)
    requires RenderItems(items, first) + ("]" + xs) == RenderItems(others, first) + ("]" + ys)
    ensures items == others && xs == ys
    decreases items, 0
  {
    ItemsStart(items, first, "]" + xs);
    ItemsStart(others, first, "]" + ys);
    if items == [] {
      assert RenderItems(items, first) + ("]" + xs) == "]" + xs && RenderItems(others, first) + ("]" + ys) == "]" + ys;
      CancelPrefix("]", xs, ys);
    } else {
      var restX, restY := RenderItems(items[1..], false) + ("]" + xs), RenderItems(others[1..], false) + ("]" + ys);
      CancelPrefix(Separator(first), Render(items[0]) + restX, Render(others[0]) + restY);
      RenderSplits(items[0], others[0], restX, restY);
      ItemsSplit(items[1..], others[1..], false, xs, ys);
      assert items == [items[0]] + items[1..] && others == [others[0]] + others[1..];
    }
  }

  lemma MembersStart(v: Json, keys: seq<string>, first: bool, rest: string)
    requires rest != "" && rest[0] == '}'
    requires v.Object? && Supported(v) && forall key | key in keys :: key in v.members
    ensures (RenderMembers(v, keys, first) + rest)[0] == '}' <==> keys == []
    ensures keys != [] ==>
              && keys[0] in v.members
              && RenderMembers(v, keys, first) + rest
                 == Separator(first)
                    + (Quoted(keys[0])
                       + (":" + (Render(v.members[keys[0]]) + (RenderMembers(v, keys[1..], false) + rest))))
  {
    if keys != [] {
      assert keys[0] in keys;
      var key, value, more := Quoted(keys[0]), Render(v.members[keys[0]]), RenderMembers(v, keys[1..], false) + rest;
      Regroup(Separator(first), RenderMember(v, keys[0]), RenderMembers(v, keys[1..], false), rest);
      Regroup(key, ":", value, more);
      var all := Separator(first) + (key + (":" + (value + more)));
      assert all[0] == if first then '"' else ',';
    }
  }

  lemma {:induction false} MembersSplit(v: Json, w: Json, keys: seq<string>, others: seq<string>, first: bool,
                                        xs: string, ys: string)
    requires v.Object? && w.Object? && Supported(v) && Supported(w)
    requires forall key | key in keys :: key in v.members
    requires forall key | key in others :: key in w.members
    requires RenderMembers(v, keys, first) + ("}" + xs) == RenderMembers(w, others, first) + ("}" + ys)
    ensures keys == others && xs == ys
    ensures forall key | key in keys :: v.members[key] == w.members[key]
    decreases v, 0, |keys|
  {
    MembersStart(v, keys, first, "}" + xs);
    MembersStart(w, others, first, "}" + ys);
    if keys == [] {
      assert RenderMembers(v, keys, first) + ("}" + xs) == "}" + xs
             && RenderMembers(w, others, first) + ("}" + ys) == "}" + ys;
      CancelPrefix("}", xs, ys);
    } else {
      var k, l := keys[0], others[0];
      var restX, restY := RenderMembers(v, keys[1..], false) + ("}" + xs),
                          RenderMembers(w, others[1..], false) + ("}" + ys);
      var afterK, afterL := Render(v.members[k]) + restX, Render(w.members[l]) + restY;
      CancelPrefix(Separator(first), Quoted(k) + (":" + afterK), Quoted(l) + (":" + afterL));
      QuotedSplits(k, l, ":" + afterK, ":" + afterL);
      CancelPrefix(":", afterK, afterL);
      RenderSplits(v.members[k], w.members[l], restX, restY);
      MembersSplit(v, w, keys[1..], others[1..], false, xs, ys);
      assert keys == [k] + keys[1..] && others == [l] + others[1..];
    }
  }

  /** Equal canonical forms are forms of equal values. */
  lemma CanonicalFormIsInjective(v: Json, w: Json)
    requires Supported(v) && Supported(w)
    ensures Render(v) == Render(w) <==> v == w
  {
    if Render(v) == Render(w) {
      assert Render(v) + "" == Render(w) + "";
      RenderSplits(v, w, "", "");
    }
  }
}
