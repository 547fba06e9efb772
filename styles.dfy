/** The editor's per-character style annotation, and the two range operations
    the editor library offers on it (Modifier.applyInlineStyle and
    Modifier.removeInlineStyle).

    A character carries an insertion-ordered set of style names; here it is a
    duplicate-free sequence, so that "the first style" is defined. A block's
    characters are an array of such lists, one per character of its text. */
module Styles {

  type StyleList = seq<string>

  predicate NoDup(s: StyleList)
  {
    forall i, j :: 0 <= i < j < |s| ==> s[i] != s[j]
  }

  /** Adding a style to an ordered set: a new style goes last, one already
      present keeps its place. */
  function Add(s: StyleList, x: string): (r: StyleList)
    ensures forall y :: y in r <==> y in s || y == x
    ensures s <= r
    ensures NoDup(s) ==> NoDup(r)
  {
    if x in s then s else s + [x]
  }

  /** Deleting a set of styles from an ordered set; the others keep their
      relative order. */
  function Without(s: StyleList, ks: set<string>): (r: StyleList)
    ensures forall y :: y in r <==> y in s && y !in ks
    ensures |r| <= |s|
    ensures NoDup(s) ==> NoDup(r)
    ensures s != [] && s[0] !in ks ==> r != [] && r[0] == s[0]
  {
    if s == [] then []
    else if s[0] in ks then Without(s[1..], ks)
    else [s[0]] + Without(s[1..], ks)
  }

  /** Deleting one style (OrderedSet.remove). */
  function Remove(s: StyleList, x: string): (r: StyleList)
    ensures forall y :: y in r <==> y in s && y != x
  {
    Without(s, {x})
  }

  /** Deleting styles in two rounds is deleting them all in one. */
  lemma {:induction false} WithoutWithout(s: StyleList, a: set<string>, b: set<string>)
    ensures Without(Without(s, a), b) == Without(s, a + b)
  {
    if s != [] {
      WithoutWithout(s[1..], a, b);
    }
  }

  /** Deleting styles a list does not hold changes nothing. */
  lemma {:induction false} WithoutAbsent(s: StyleList, ks: set<string>)
    requires forall y :: y in s ==> y !in ks
    ensures Without(s, ks) == s
  {
    if s != [] {
      WithoutAbsent(s[1..], ks);
    }
  }

  /** Deleting a style twice is deleting it once. */
  lemma RemoveTwice(s: StyleList, x: string)
    ensures Remove(Remove(s, x), x) == Remove(s, x)
  {
    WithoutAbsent(Remove(s, x), {x});
  }

  /** The editor walks the offsets p of a range [s, e) one by one; the list
      of characters reads an offset below zero from its end (-1 is the last
      character). A range is usable when every offset it walks names a
      character this way; any other offset makes the editor throw. */
  predicate InBounds(s: int, e: int, n: nat)
  {
    s < e ==> 0 <= n + s && e <= n
  }

  /** Character j of a block of n characters is reached by the range [s, e),
      either directly or through the negative offset j - n. */
  predicate Covers(s: int, e: int, j: int, n: nat)
  {
    s <= j < e || s <= j - n < e
  }

  /** The characters after applyInlineStyle(x) over [s, e). */
  function AddRange(chars: seq<StyleList>, s: int, e: int, x: string): (r: seq<StyleList>)
    ensures |r| == |chars|
  {
    seq(|chars|, j requires 0 <= j < |chars| =>
      if Covers(s, e, j, |chars|) then Add(chars[j], x) else chars[j])
  }

  /** The characters after removeInlineStyle(x) over [s, e). */
  function RemoveRange(chars: seq<StyleList>, s: int, e: int, x: string): (r: seq<StyleList>)
    ensures |r| == |chars|
  {
    seq(|chars|, j requires 0 <= j < |chars| =>
      if Covers(s, e, j, |chars|) then Remove(chars[j], x) else chars[j])
  }

  /** Modifier.applyInlineStyle on one block: add x to every character the
      range reaches. */
  method ApplyInlineStyle(chars: array<StyleList>, s: int, e: int, x: string)
    requires InBounds(s, e, chars.Length)
    modifies chars
    ensures chars[..] == AddRange(old(chars[..]), s, e, x)
  {
    var n := chars.Length;
    var p := s;
    while p < e
      invariant p == s || s < p <= e
      invariant forall j :: 0 <= j < n ==>
        chars[j] == if Covers(s, p, j, n) then Add(old(chars[j]), x) else old(chars[j])
      decreases e - p
    {
      var k := if p < 0 then p + n else p;
      chars[k] := Add(chars[k], x);
      p := p + 1;
    }
    assert forall j :: 0 <= j < n ==> (Covers(s, p, j, n) <==> Covers(s, e, j, n));
  }

  /** Modifier.removeInlineStyle on one block: remove x from every character
      the range reaches. */
  method RemoveInlineStyle(chars: array<StyleList>, s: int, e: int, x: string)
    requires InBounds(s, e, chars.Length)
    modifies chars
    ensures chars[..] == RemoveRange(old(chars[..]), s, e, x)
  {
    var n := chars.Length;
    var p := s;
    while p < e
      invariant p == s || s < p <= e
      invariant forall j :: 0 <= j < n ==>
        chars[j] == if Covers(s, p, j, n) then Remove(old(chars[j]), x) else old(chars[j])
      decreases e - p
    {
      var k := if p < 0 then p + n else p;
      RemoveTwice(old(chars[k]), x);
      chars[k] := Remove(chars[k], x);
      p := p + 1;
    }
    assert forall j :: 0 <= j < n ==> (Covers(s, p, j, n) <==> Covers(s, e, j, n));
  }
}
