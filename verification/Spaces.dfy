/** White space, and trimming it off the ends of a text. */
module Spaces {

  /** White space as Unicode defines it. */
  predicate IsSpace(c: char) {
    || '\t' <= c <= '\r' || c == ' ' || c == '\U{0085}' || c == '\U{00A0}' || c == '\U{1680}'
    || '\U{2000}' <= c <= '\U{200A}'
    || c == '\U{2028}' || c == '\U{2029}' || c == '\U{202F}' || c == '\U{205F}' || c == '\U{3000}'
  }

  function TrimLeft(text: string): string {
    if text != "" && IsSpace(text[0]) then TrimLeft(text[1..]) else text
  }

  function TrimRight(text: string): string {
    if text != "" && IsSpace(text[|text| - 1]) then TrimRight(text[..|text| - 1]) else text
  }

  function Trim(text: string): string {
    TrimRight(TrimLeft(text))
  }

  lemma {:induction false} TrimLeftKeeps(text: string, k: nat) returns (from: nat)
    requires k < |text| && !IsSpace(text[k])
    ensures from <= k && TrimLeft(text) == text[from..]
  {
    if IsSpace(text[0]) {
      from := TrimLeftKeeps(text[1..], k - 1);
      from := from + 1;
    } else {
      from := 0;
    }
  }

  lemma {:induction false} TrimRightKeeps(text: string, k: nat) returns (to: nat)
    requires k < |text| && !IsSpace(text[k])
    ensures k < to <= |text| && TrimRight(text) == text[..to]
  {
    if IsSpace(text[|text| - 1]) {
      to := TrimRightKeeps(text[..|text| - 1], k);
      assert text[..|text| - 1][..to] == text[..to];
    } else {
      to := |text|;
    }
  }

  /** Trimming keeps every character from a first to a last that are no spaces. */
  lemma TrimKeeps(text: string, first: nat, last: nat) returns (from: nat, to: nat)
    requires first <= last < |text| && !IsSpace(text[first]) && !IsSpace(text[last])
    ensures from <= first && last < to <= |text| && Trim(text) == text[from..to]
  {
    from := TrimLeftKeeps(text, first);
    var kept := text[from..];
    var upTo := TrimRightKeeps(kept, last - from);
    to := from + upTo;
    assert kept[..upTo] == text[from..to];
  }

  lemma SliceOfSlice(text: string, start: nat, end: nat, from: nat, to: nat)
    requires start <= end <= |text| && from <= to <= end - start
    ensures text[start..end][from..to] == text[start + from..start + to]
  {
    var part := text[start..end];
    forall k | 0 <= k < to - from ensures part[from..to][k] == text[start + from..start + to][k] {
      assert part[from..to][k] == part[from + k];
    }
  }
}
