/** Where the auto-tag pass places each token of a block: a forward search
    from a running cursor with String.prototype.indexOf, and the style spans
    that result for the tokens whose tag code maps to a category. */
module Reconciler {
  import opened Categories
  import opened Styles

  /** Token w occurs in text at offset k. */
  predicate OccursAt(text: string, w: string, k: int)
  {
    0 <= k && k + |w| <= |text| && text[k..k + |w|] == w
  }

  /** The text over a range that starts at an occurrence of w and is as long
      as w is w itself. */
  lemma OccursAtSlice(text: string, w: string, k: int, s: int, e: int)
    requires OccursAt(text, w, k) && s == k && e == k + |w|
    ensures 0 <= s <= e <= |text| && text[s..e] == w
  {
  }

  /** indexOf clamps its start position into [0, |text|]. */
  function Clamp(from: int, n: nat): (r: nat)
    ensures r <= n
    ensures 0 <= from <= n ==> r == from
  {
    if from < 0 then 0 else if from > n then n else from
  }

  /** The first occurrence of w in text at or after offset k, or -1. */
  function IndexFrom(text: string, w: string, k: nat): (r: int)
    requires k <= |text|
    ensures r == -1 || (k <= r && OccursAt(text, w, r))
    ensures forall m :: k <= m && (r == -1 || m < r) ==> !OccursAt(text, w, m)
    decreases |text| - k
  {
    if k + |w| > |text| then -1
    else if text[k..k + |w|] == w then k
    else IndexFrom(text, w, k + 1)
  }

  /** text.indexOf(w, from): the first occurrence of w at or after the
      clamped start position, or -1 when there is none. */
  function IndexOf(text: string, w: string, from: int): (r: int)
    ensures r == -1 || (Clamp(from, |text|) <= r && OccursAt(text, w, r))
    ensures forall m :: Clamp(from, |text|) <= m && (r == -1 || m < r) ==> !OccursAt(text, w, m)
  {
    IndexFrom(text, w, Clamp(from, |text|))
  }

  /** The value the scan gives `index` for each token, starting from cursor:
      indexOf from the cursor, after which the cursor moves to that value
      plus the token's length. A miss gives -1, and the cursor then becomes
      the token's length minus one. */
  function Starts(text: string, tokens: seq<string>, cursor: int): (r: seq<int>)
    ensures |r| == |tokens|
    decreases |tokens|
  {
    if tokens == [] then []
    else
      var s := IndexOf(text, tokens[0], cursor);
      [s] + Starts(text, tokens[1..], s + |tokens[0]|)
  }

  /** The cursor in force when token i is searched for. */
  function CursorAt(text: string, tokens: seq<string>, cursor: int, i: nat): int
    requires i <= |tokens|
  {
    if i == 0 then cursor else Starts(text, tokens, cursor)[i - 1] + |tokens[i - 1]|
  }

  lemma {:induction false} StartsAt(text: string, tokens: seq<string>, cursor: int, i: nat)
    requires i < |tokens|
    ensures Starts(text, tokens, cursor)[i] == IndexOf(text, tokens[i], CursorAt(text, tokens, cursor, i))
    decreases i
  {
    if i > 0 {
      var next := IndexOf(text, tokens[0], cursor) + |tokens[0]|;
      StartsAt(text, tokens[1..], next, i - 1);
    }
  }

  /** Token i lands on the first occurrence of its text at or after the
      cursor then in force; on a miss its start is -1 and the next cursor is
      its length minus one (the scan does not skip the token). */
  lemma TokenPlacement(text: string, tokens: seq<string>, cursor: int, i: nat)
    requires i < |tokens|
    ensures var s := Starts(text, tokens, cursor)[i];
            var c := Clamp(CursorAt(text, tokens, cursor, i), |text|);
            && (s != -1 ==> c <= s && OccursAt(text, tokens[i], s))
            && (s != -1 ==> forall m :: c <= m < s ==> !OccursAt(text, tokens[i], m))
            && (s == -1 ==> forall m :: c <= m ==> !OccursAt(text, tokens[i], m))
    ensures CursorAt(text, tokens, cursor, i + 1) == Starts(text, tokens, cursor)[i] + |tokens[i]|
  {
    StartsAt(text, tokens, cursor, i);
  }

  /** Every token occurs in the text at or after the running cursor. */
  predicate AllFound(text: string, tokens: seq<string>, cursor: int)
  {
    forall i :: 0 <= i < |tokens| ==> Starts(text, tokens, cursor)[i] != -1
  }

  /** When every token is found, each start lies at or after the initial
      cursor, the text there is the token, and the ranges are ordered and
      pairwise disjoint. */
  lemma {:induction false} StartsOrdered(text: string, tokens: seq<string>, cursor: int)
    requires AllFound(text, tokens, cursor)
    ensures var st := Starts(text, tokens, cursor);
            forall i :: 0 <= i < |tokens| ==> Clamp(cursor, |text|) <= st[i] && OccursAt(text, tokens[i], st[i])
    ensures var st := Starts(text, tokens, cursor);
            forall i, j :: 0 <= i < j < |tokens| ==> st[i] + |tokens[i]| <= st[j]
    ensures var st := Starts(text, tokens, cursor);
            forall i, j :: 0 <= i < j < |tokens| && tokens[i] != [] ==> st[i] < st[j]
    decreases |tokens|
  {
    if tokens != [] {
      var st := Starts(text, tokens, cursor);
      var s := IndexOf(text, tokens[0], cursor);
      var rest := Starts(text, tokens[1..], s + |tokens[0]|);
      assert st == [s] + rest;
      assert AllFound(text, tokens[1..], s + |tokens[0]|) by {
        forall i | 0 <= i < |tokens| - 1 ensures rest[i] != -1 {
          assert rest[i] == st[i + 1];
        }
      }
      StartsOrdered(text, tokens[1..], s + |tokens[0]|);
      assert s != -1 by { assert st[0] == s; }
      assert Clamp(s + |tokens[0]|, |text|) == s + |tokens[0]|;
    }
  }

  /** A range of a block's text carrying one category. */
  datatype Span = Span(start: int, end: int, cat: Category)

  /** The category each token's tag code maps to, token by token: PUNCTUATION
      for the dash, otherwise the table row of its tag, if there is one. */
  function Categorize(tokens: seq<string>, tags: seq<string>): (r: seq<Option<Category>>)
    requires |tokens| == |tags|
    ensures |r| == |tokens|
    ensures forall i :: 0 <= i < |tokens| ==> r[i] == MapPOSCode(tags[i], tokens[i])
    ensures forall i :: 0 <= i < |tokens| && tokens[i] == Dash ==> r[i] == Some(Punctuation)
    ensures forall i, c {:trigger (tags[i], c) in CodeTable} :: 0 <= i < |tokens| && tokens[i] != Dash ==> (r[i] == Some(c) <==> (tags[i], c) in CodeTable)
  {
    assert forall i, c :: 0 <= i < |tokens| && tokens[i] != Dash ==>
      (MapPOSCode(tags[i], tokens[i]) == Some(c) <==> (tags[i], c) in CodeTable) by {
      forall i | 0 <= i < |tokens| && tokens[i] != Dash {
        MapPOSCodeIsTable(tags[i], tokens[i]);
      }
    }
    seq(|tokens|, i requires 0 <= i < |tokens| => MapPOSCode(tags[i], tokens[i]))
  }

  /** Categorizing a list is categorizing its head, then its tail. */
  lemma CategorizeCons(tokens: seq<string>, tags: seq<string>)
    requires |tokens| == |tags| && tokens != []
    ensures Categorize(tokens, tags)[0] == MapPOSCode(tags[0], tokens[0])
    ensures Categorize(tokens, tags)[1..] == Categorize(tokens[1..], tags[1..])
  {
  }

  /** The span each mapped token contributes, in token order. */
  function SpansOf(tokens: seq<string>, cats: seq<Option<Category>>, starts: seq<int>): (r: seq<Span>)
    requires |tokens| == |cats| == |starts|
    ensures |r| <= |tokens|
    decreases |tokens|
  {
    if tokens == [] then []
    else
      var rest := SpansOf(tokens[1..], cats[1..], starts[1..]);
      match cats[0]
      case Some(c) => [Span(starts[0], starts[0] + |tokens[0]|, c)] + rest
      case None => rest
  }

  /** The spans the scan applies when it starts at cursor, token by token:
      the first token is searched from the cursor and contributes its range
      with its category if its code maps, and the rest are scanned from just
      after it. */
  function SpansFrom(text: string, tokens: seq<string>, tags: seq<string>, cursor: int): (r: seq<Span>)
    requires |tokens| == |tags|
    ensures |r| <= |tokens|
    decreases |tokens|
  {
    if tokens == [] then []
    else
      var s := IndexOf(text, tokens[0], cursor);
      var rest := SpansFrom(text, tokens[1..], tags[1..], s + |tokens[0]|);
      match MapPOSCode(tags[0], tokens[0])
      case Some(c) => [Span(s, s + |tokens[0]|, c)] + rest
      case None => rest
  }

  /** The spans one block's auto-tag pass applies: the scan starts at 0. */
  function Spans(text: string, tokens: seq<string>, tags: seq<string>): (r: seq<Span>)
    requires |tokens| == |tags|
  {
    SpansFrom(text, tokens, tags, 0)
  }

  /** The scan's spans are the spans of the tokens' categories at the
      tokens' starts: the step-by-step scan agrees with the whole-list
      reading. */
  lemma {:induction false} SpansFromIsSpansOf(text: string, tokens: seq<string>, tags: seq<string>, cursor: int)
    requires |tokens| == |tags|
    ensures SpansFrom(text, tokens, tags, cursor) == SpansOf(tokens, Categorize(tokens, tags), Starts(text, tokens, cursor))
    decreases |tokens|
  {
    if tokens != [] {
      var s := IndexOf(text, tokens[0], cursor);
      var cats := Categorize(tokens, tags);
      var st := Starts(text, tokens, cursor);
      SpansFromIsSpansOf(text, tokens[1..], tags[1..], s + |tokens[0]|);
      CategorizeCons(tokens, tags);
      assert st[0] == s && st[1..] == Starts(text, tokens[1..], s + |tokens[0]|);
    }
  }

  /** The same step at token i of the whole list: the scan from token i on
      is token i's span, if its code maps, followed by the scan from token
      i + 1 on, started just after it. */
  lemma SpansFromStepAt(text: string, tokens: seq<string>, tags: seq<string>, i: nat, cursor: int)
    requires |tokens| == |tags| && i < |tokens|
    ensures MapPOSCode(tags[i], tokens[i]).Some? ==>
              SpansFrom(text, tokens[i..], tags[i..], cursor) ==
                [Span(IndexOf(text, tokens[i], cursor), IndexOf(text, tokens[i], cursor) + |tokens[i]|, MapPOSCode(tags[i], tokens[i]).value)]
                + SpansFrom(text, tokens[i + 1..], tags[i + 1..], IndexOf(text, tokens[i], cursor) + |tokens[i]|)
    ensures MapPOSCode(tags[i], tokens[i]).None? ==>
              SpansFrom(text, tokens[i..], tags[i..], cursor) ==
                SpansFrom(text, tokens[i + 1..], tags[i + 1..], IndexOf(text, tokens[i], cursor) + |tokens[i]|)
  {
    assert tokens[i..][1..] == tokens[i + 1..] && tags[i..][1..] == tags[i + 1..];
  }

  /** A span exists exactly for each token that has a category: it covers
      that token's range and carries that category. A token without a
      category contributes no span. */
  lemma {:induction false} SpansOfExact(tokens: seq<string>, cats: seq<Option<Category>>, starts: seq<int>, sp: Span)
    requires |tokens| == |cats| == |starts|
    ensures sp in SpansOf(tokens, cats, starts) <==>
      exists i :: 0 <= i < |tokens| && cats[i] == Some(sp.cat)
                  && sp.start == starts[i] && sp.end == starts[i] + |tokens[i]|
    decreases |tokens|
  {
    if tokens != [] {
      SpansOfExact(tokens[1..], cats[1..], starts[1..], sp);
      if exists i :: 0 <= i < |tokens| && cats[i] == Some(sp.cat)
                     && sp.start == starts[i] && sp.end == starts[i] + |tokens[i]| {
        var i :| 0 <= i < |tokens| && cats[i] == Some(sp.cat)
                 && sp.start == starts[i] && sp.end == starts[i] + |tokens[i]|;
        if i > 0 {
          assert cats[1..][i - 1] == Some(sp.cat);
        }
      }
      if sp in SpansOf(tokens[1..], cats[1..], starts[1..]) {
        var i :| 0 <= i < |tokens| - 1 && cats[1..][i] == Some(sp.cat)
                 && sp.start == starts[1..][i] && sp.end == starts[1..][i] + |tokens[1..][i]|;
        assert cats[i + 1] == Some(sp.cat);
      }
    }
  }

  /** Spans built from ordered, disjoint token ranges are themselves in
      order and pairwise disjoint. */
  lemma {:induction false} SpansOfOrdered(tokens: seq<string>, cats: seq<Option<Category>>, starts: seq<int>)
    requires |tokens| == |cats| == |starts|
    requires forall i, j :: 0 <= i < j < |tokens| ==> starts[i] + |tokens[i]| <= starts[j]
    ensures var sp := SpansOf(tokens, cats, starts);
            forall k, l :: 0 <= k < l < |sp| ==> sp[k].end <= sp[l].start
    decreases |tokens|
  {
    if tokens != [] {
      var rest := SpansOf(tokens[1..], cats[1..], starts[1..]);
      SpansOfOrdered(tokens[1..], cats[1..], starts[1..]);
      forall l | 0 <= l < |rest| ensures starts[0] + |tokens[0]| <= rest[l].start {
        SpansOfExact(tokens[1..], cats[1..], starts[1..], rest[l]);
        var i :| 0 <= i < |tokens| - 1 && rest[l].start == starts[1..][i];
        assert starts[1..][i] == starts[i + 1];
      }
    }
  }

  /** When every token of a block is found, each span lies inside the text
      and the text under it is a token whose code maps to the span's
      category. */
  lemma SpanInText(text: string, tokens: seq<string>, tags: seq<string>, sp: Span)
    requires |tokens| == |tags|
    requires AllFound(text, tokens, 0)
    requires sp in Spans(text, tokens, tags)
    ensures 0 <= sp.start <= sp.end <= |text|
    ensures exists i :: 0 <= i < |tokens| && tokens[i] == text[sp.start..sp.end]
                        && Categorize(tokens, tags)[i] == Some(sp.cat)
  {
    var st := Starts(text, tokens, 0);
    var cats := Categorize(tokens, tags);
    SpansFromIsSpansOf(text, tokens, tags, 0);
    SpansOfExact(tokens, cats, st, sp);
    var i :| 0 <= i < |tokens| && cats[i] == Some(sp.cat)
             && sp.start == st[i] && sp.end == st[i] + |tokens[i]|;
    TokenPlacement(text, tokens, 0, i);
    assert st[i] != -1;
    OccursAtSlice(text, tokens[i], st[i], sp.start, sp.end);
  }

  /** When every token of a block is found, the spans are in order and
      pairwise disjoint. */
  lemma SpansDisjoint(text: string, tokens: seq<string>, tags: seq<string>)
    requires |tokens| == |tags|
    requires AllFound(text, tokens, 0)
    ensures var sp := Spans(text, tokens, tags);
            forall k, l :: 0 <= k < l < |sp| ==> sp[k].end <= sp[l].start
  {
    var st := Starts(text, tokens, 0);
    var cats := Categorize(tokens, tags);
    SpansFromIsSpansOf(text, tokens, tags, 0);
    StartsOrdered(text, tokens, 0);
    SpansOfOrdered(tokens, cats, st);
  }

  /** "The cat runs." tagged DT NN VBZ . gives a NOUN span over "cat", a VERB
      span over "runs" and a PUNCTUATION span over "."; "The" gets none. */
  lemma ExampleSentence()
    ensures Spans("The cat runs.", ["The", "cat", "runs", "."], ["DT", "NN", "VBZ", "."])
         == [Span(4, 7, Noun), Span(8, 12, Verb), Span(12, 13, Punctuation)]
  {
    SpansFromIsSpansOf("The cat runs.", ["The", "cat", "runs", "."], ["DT", "NN", "VBZ", "."], 0);
    ExampleSentenceStarts();
    ExampleSentenceCategories();
    ExampleSentenceSpans();
  }

  lemma ExampleSentenceSpans()
    ensures SpansOf(["The", "cat", "runs", "."], [None, Some(Noun), Some(Verb), Some(Punctuation)], [0, 4, 8, 12])
         == [Span(4, 7, Noun), Span(8, 12, Verb), Span(12, 13, Punctuation)]
  {
  }

  lemma ExampleSentenceCategories()
    ensures Categorize(["The", "cat", "runs", "."], ["DT", "NN", "VBZ", "."])
         == [None, Some(Noun), Some(Verb), Some(Punctuation)]
  {
  }

  /** The scan over a token list written out as its first token and the
      rest. */
  lemma StartsCons(text: string, w: string, rest: seq<string>, cursor: int)
    ensures var s := IndexOf(text, w, cursor);
            Starts(text, [w] + rest, cursor) == [s] + Starts(text, rest, s + |w|)
  {
    assert ([w] + rest)[1..] == rest;
  }

  lemma ExampleSentenceStarts()
    ensures Starts("The cat runs.", ["The", "cat", "runs", "."], 0) == [0, 4, 8, 12]
  {
    ExampleSentenceHead();
    ExampleSentenceTail();
  }

  lemma ExampleSentenceHead()
    ensures Starts("The cat runs.", ["The", "cat", "runs", "."], 0)
         == [0] + Starts("The cat runs.", ["cat", "runs", "."], 3)
  {
    assert IndexOf("The cat runs.", "The", 0) == 0 by { assert OccursAt("The cat runs.", "The", 0); }
    StartsCons("The cat runs.", "The", ["cat", "runs", "."], 0);
  }

  lemma ExampleSentenceTail()
    ensures Starts("The cat runs.", ["cat", "runs", "."], 3) == [4, 8, 12]
  {
    var text := "The cat runs.";
    ExampleSentenceIndexes();
    StartsCons(text, ".", [], 12);
    StartsCons(text, "runs", ["."], 7);
    StartsCons(text, "cat", ["runs", "."], 3);
  }

  lemma ExampleSentenceIndexes()
    ensures IndexOf("The cat runs.", "cat", 3) == 4
    ensures IndexOf("The cat runs.", "runs", 7) == 8
    ensures IndexOf("The cat runs.", ".", 12) == 12
  {
    ExampleSentenceCat();
    ExampleSentenceRuns();
    assert OccursAt("The cat runs.", ".", 12);
  }

  lemma ExampleSentenceCat()
    ensures IndexOf("The cat runs.", "cat", 3) == 4
  {
    var text := "The cat runs.";
    assert OccursAt(text, "cat", 4);
    assert !OccursAt(text, "cat", 3) by { assert text[3..6][0] == ' '; }
  }

  lemma ExampleSentenceRuns()
    ensures IndexOf("The cat runs.", "runs", 7) == 8
  {
    var text := "The cat runs.";
    assert OccursAt(text, "runs", 8);
    assert !OccursAt(text, "runs", 7) by { assert text[7..11][0] == ' '; }
  }

  /** A token that is not found is not skipped: on "ab" with tokens "b" then
      "a", the second search starts after "b" and misses, so its span is
      [-1, 0). That range has no offset at or above 0, so all it reaches is
      offset -1, which the editor reads as the last character, "b". */
  lemma MissedTokenSpan()
    ensures Spans("ab", ["b", "a"], ["NN", "NN"]) == [Span(1, 2, Noun), Span(-1, 0, Noun)]
  {
    var text := "ab";
    assert OccursAt(text, "b", 1) && text[0] == 'a';
    assert IndexOf(text, "b", 0) == 1;
    assert IndexOf(text, "a", 2) == -1;
    assert Starts(text, ["b", "a"], 0) == [1, -1];
  }

  /** A missed token of two or more characters styles both ends of the
      block: on "abc" with tokens "bc" then "ab", the second search misses and
      its span is [-1, 1), which reaches offset 0 directly and, through offset
      -1, the last character; only the middle character is left out. */
  lemma MissedLongTokenSpan()
    ensures Spans("abc", ["bc", "ab"], ["NN", "NN"]) == [Span(1, 3, Noun), Span(-1, 1, Noun)]
    ensures Covers(-1, 1, 0, 3) && Covers(-1, 1, 2, 3) && !Covers(-1, 1, 1, 3)
  {
    var text := "abc";
    assert OccursAt(text, "bc", 1) && text[0] == 'a';
    assert IndexOf(text, "bc", 0) == 1;
    assert IndexOf(text, "ab", 3) == -1;
    assert Starts(text, ["bc", "ab"], 0) == [1, -1];
  }
}
