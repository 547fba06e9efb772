/** The auto-tag pass: for every block, walk its tokens with the reconciler's
    cursor and add each mapped token's category over the token's range. */
module AutoTag {
  import opened Categories
  import opened Styles
  import opened Reconciler

  /** The characters after adding each span's category over its range, in
      order. */
  function ApplySpans(chars: seq<StyleList>, spans: seq<Span>): (r: seq<StyleList>)
    ensures |r| == |chars|
    decreases |spans|
  {
    if spans == [] then chars
    else ApplySpans(AddRange(chars, spans[0].start, spans[0].end, Key(spans[0].cat)), spans[1..])
  }

  /** Every span is a range the editor can walk on a block of n characters. */
  predicate SpansInBounds(spans: seq<Span>, n: nat)
  {
    forall k :: 0 <= k < |spans| ==> InBounds(spans[k].start, spans[k].end, n)
  }

  /** The category of the first span, in order, that reaches character j. */
  function FirstCovering(spans: seq<Span>, j: int, n: nat): Option<Category>
    decreases |spans|
  {
    if spans == [] then None
    else if Covers(spans[0].start, spans[0].end, j, n) then Some(spans[0].cat)
    else FirstCovering(spans[1..], j, n)
  }

  /** Auto-tagging only adds: a character's old styles stay where they were
      (they are a prefix of its new styles), it gains exactly the categories
      of the spans that reach it, a character no span reaches is unchanged,
      and a character that had no style now starts with the category of the
      first span that reaches it. */
  lemma {:induction false} ApplySpansEffect(chars: seq<StyleList>, spans: seq<Span>, j: int)
    requires 0 <= j < |chars|
    ensures var r := ApplySpans(chars, spans);
            chars[j] <= r[j]
    ensures var r := ApplySpans(chars, spans);
            forall y :: y in r[j] <==>
              y in chars[j] || exists sp :: sp in spans && Covers(sp.start, sp.end, j, |chars|) && y == Key(sp.cat)
    ensures var r := ApplySpans(chars, spans);
            (forall sp :: sp in spans ==> !Covers(sp.start, sp.end, j, |chars|)) ==> r[j] == chars[j]
    ensures var r := ApplySpans(chars, spans);
            chars[j] == [] ==>
              (r[j] == [] <==> FirstCovering(spans, j, |chars|) == None) &&
              (r[j] != [] ==> r[j][0] == Key(FirstCovering(spans, j, |chars|).value))
    ensures NoDup(chars[j]) ==> NoDup(ApplySpans(chars, spans)[j])
    decreases |spans|
  {
    if spans != [] {
      var sp0 := spans[0];
      var next := AddRange(chars, sp0.start, sp0.end, Key(sp0.cat));
      ApplySpansEffect(next, spans[1..], j);
      assert forall sp :: sp in spans <==> sp == sp0 || sp in spans[1..];
    }
  }

  /** One step of the pass, on values: when the token's code maps, its span
      comes first in what is left to apply and the characters gain its
      category; otherwise nothing changes. What is left afterwards applies to
      the new characters to give the same result, and stays in bounds. */
  lemma TagStep(before: seq<StyleList>, after: seq<StyleList>, todo: seq<Span>, rest: seq<Span>,
                m: Option<Category>, s: int, e: int)
    requires m.Some? ==> todo == [Span(s, e, m.value)] + rest && after == AddRange(before, s, e, Key(m.value))
    requires m.None? ==> todo == rest && after == before
    ensures ApplySpans(after, rest) == ApplySpans(before, todo)
    ensures SpansInBounds(todo, |before|) ==> SpansInBounds(rest, |after|) && (m.Some? ==> InBounds(s, e, |before|))
  {
    if m.Some? {
      assert todo[0] == Span(s, e, m.value) && todo[1..] == rest;
      assert forall k :: 0 <= k < |rest| ==> rest[k] == todo[k + 1];
    }
  }

  /** The forEach callback for token w with tag code tag: search w from
      index, add its category over the range found when the code maps, and
      return the advanced cursor. */
  method TagToken(chars: array<StyleList>, text: string, w: string, tag: string, index: int) returns (next: int)
    requires MapPOSCode(tag, w).Some? ==>
               InBounds(IndexOf(text, w, index), IndexOf(text, w, index) + |w|, chars.Length)
    modifies chars
    ensures next == IndexOf(text, w, index) + |w|
    ensures MapPOSCode(tag, w).Some? ==>
              chars[..] == AddRange(old(chars[..]), next - |w|, next, Key(MapPOSCode(tag, w).value))
    ensures MapPOSCode(tag, w).None? ==> chars[..] == old(chars[..])
  {
    var found := IndexOf(text, w, index);
    var posTag := MapPOSCode(tag, w);
    if posTag.Some? {
      ApplyInlineStyle(chars, found, found + |w|, Key(posTag.value));
    }
    next := found + |w|;
  }

  /** The loop's step at token i: it runs the callback and carries the
      proof that the scan of the tokens after i, from the cursor returned,
      applied to the new characters gives the scan from token i on applied
      to the old ones. */
  method TagAt(chars: array<StyleList>, text: string, tokens: seq<string>, tags: seq<string>, i: nat, index: int)
    returns (next: int)
    requires |tokens| == |tags| && i < |tokens|
    requires SpansInBounds(SpansFrom(text, tokens[i..], tags[i..], index), chars.Length)
    modifies chars
    ensures next == IndexOf(text, tokens[i], index) + |tokens[i]|
    ensures SpansInBounds(SpansFrom(text, tokens[i + 1..], tags[i + 1..], next), chars.Length)
    ensures ApplySpans(chars[..], SpansFrom(text, tokens[i + 1..], tags[i + 1..], next))
         == ApplySpans(old(chars[..]), SpansFrom(text, tokens[i..], tags[i..], index))
  {
    var w := tokens[i];
    var m := MapPOSCode(tags[i], w);
    var s := IndexOf(text, w, index);
    ghost var before := chars[..];
    ghost var todo := SpansFrom(text, tokens[i..], tags[i..], index);
    ghost var rest := SpansFrom(text, tokens[i + 1..], tags[i + 1..], s + |w|);
    SpansFromStepAt(text, tokens, tags, i, index);
    if m.Some? {
      TagStep(before, AddRange(before, s, s + |w|, Key(m.value)), todo, rest, m, s, s + |w|);
    } else {
      TagStep(before, before, todo, rest, m, s, s + |w|);
    }
    next := TagToken(chars, text, w, tags[i], index);
  }

  /** One block's auto-tag pass over its character styles, as the effect's
      forEach runs it: search each token from the cursor, add the mapped
      category over [index, index + |w|), advance the cursor by |w|. */
  method AutoTagBlock(chars: array<StyleList>, text: string, tokens: seq<string>, tags: seq<string>)
    requires chars.Length == |text|
    requires |tokens| == |tags|
    requires SpansInBounds(Spans(text, tokens, tags), chars.Length)
    modifies chars
    ensures chars[..] == ApplySpans(old(chars[..]), Spans(text, tokens, tags))
  {
    var index := 0;
    for i := 0 to |tokens|
      invariant SpansInBounds(SpansFrom(text, tokens[i..], tags[i..], index), chars.Length)
      invariant ApplySpans(chars[..], SpansFrom(text, tokens[i..], tags[i..], index))
                == ApplySpans(old(chars[..]), Spans(text, tokens, tags))
    {
      index := TagAt(chars, text, tokens, tags, i, index);
    }
  }

  /** A block of the document: its key, its text and one style list per
      character of the text. */
  datatype Block = Block(key: string, text: string, chars: seq<StyleList>)

  /** What the auto-tag pass needs of a block and the tokenizer's and
      tagger's output for it: one style list per character, one tag per
      token, and no range that would make the editor throw. */
  predicate Taggable(block: Block, tokens: seq<string>, tags: seq<string>)
  {
    && |block.chars| == |block.text|
    && |tokens| == |tags|
    && SpansInBounds(Spans(block.text, tokens, tags), |block.chars|)
  }

  /** The whole auto-tag pass: every block, in order, gets its own scan;
      keys and text are untouched, and the result is one new snapshot. */
  method AutoTagDocument(doc: seq<Block>, tokens: seq<seq<string>>, tags: seq<seq<string>>)
    returns (r: seq<Block>)
    requires |tokens| == |doc| && |tags| == |doc|
    requires forall b :: 0 <= b < |doc| ==> |tokens[b]| == |tags[b]|
    requires forall b :: 0 <= b < |doc| ==> Taggable(doc[b], tokens[b], tags[b])
    ensures |r| == |doc|
    ensures forall b :: 0 <= b < |doc| ==>
      r[b] == doc[b].(chars := ApplySpans(doc[b].chars, Spans(doc[b].text, tokens[b], tags[b])))
  {
    r := [];
    for b := 0 to |doc|
      invariant |r| == b
      invariant forall k :: 0 <= k < b ==>
        r[k] == doc[k].(chars := ApplySpans(doc[k].chars, Spans(doc[k].text, tokens[k], tags[k])))
    {
      var block := doc[b];
      var chars := new StyleList[|block.chars|](k requires 0 <= k < |block.chars| => block.chars[k]);
      assert chars[..] == block.chars;
      AutoTagBlock(chars, block.text, tokens[b], tags[b]);
      r := r + [block.(chars := chars[..])];
    }
  }

  /** A block none of whose tokens has a category is left exactly as it
      was. */
  lemma NothingMappedNothingChanges(block: Block, tokens: seq<string>, tags: seq<string>)
    requires |tokens| == |tags|
    requires forall i :: 0 <= i < |tokens| ==> MapPOSCode(tags[i], tokens[i]) == None
    ensures ApplySpans(block.chars, Spans(block.text, tokens, tags)) == block.chars
  {
    var sp := Spans(block.text, tokens, tags);
    if sp != [] {
      SpansFromIsSpansOf(block.text, tokens, tags, 0);
      SpansOfExact(tokens, Categorize(tokens, tags), Starts(block.text, tokens, 0), sp[0]);
      assert false;
    }
  }
}
