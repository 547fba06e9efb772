/** The render-time rule (customStyleFn): how a character looks, decided by
    its first style and the active filter. It never changes the content. */
module Display {
  import opened Categories
  import opened Styles
  import opened Reconciler
  import opened AutoTag
  import opened StyleEdits

  /** What the rule asks the editor to draw: a category's own colour,
      a transparent background, or a transparent background at low opacity.
      The colour values themselves are left opaque. */
  datatype Look = Colour(cat: Category) | Transparent | TransparentDimmed

  /** The first style of a character's insertion-ordered set, if any. */
  function FirstStyle(styles: StyleList): (r: Option<string>)
    ensures r.Some? <==> styles != []
    ensures r.Some? ==> r.value in styles
  {
    if styles == [] then None else Some(styles[0])
  }

  /** customStyleFn. With a filter, a character whose first style is the
      filter's key is drawn transparent and every other one (unstyled ones
      included) transparent and dimmed; without a filter, a character whose
      first style is a category's key gets that category's colour, and any
      other character gets nothing. */
  function CustomStyle(styles: StyleList, filter: Option<Category>): (r: Option<Look>)
    ensures filter.Some? ==> r.Some? && !r.value.Colour?
    ensures filter.Some? ==> (r == Some(Transparent) <==> FirstStyle(styles) == Some(Key(filter.value)))
    ensures filter.None? ==> r.None? || r.value.Colour?
    ensures filter.None? ==> forall c :: r == Some(Colour(c)) <==> FirstStyle(styles) == Some(Key(c))
  {
    var tag := FirstStyle(styles);
    if filter.Some? then
      if tag == Some(Key(filter.value)) then Some(Transparent) else Some(TransparentDimmed)
    else if tag.Some? && ParseCategory(tag.value).Some? then Some(Colour(ParseCategory(tag.value).value))
    else None
  }

  /** After a manual tag with pos, a selected character that carried only
      categories before is drawn in pos's colour, is the one left visible
      under the pos filter, and is dimmed under any other filter. */
  lemma ManualTagDisplay(chars: seq<StyleList>, lo: int, hi: int, pos: Category, j: int)
    requires 0 <= j < |chars| && lo <= j < hi
    requires forall y :: y in chars[j] ==> IsCategoryKey(y)
    ensures var r := Tagged(chars, lo, hi, pos);
            && CustomStyle(r[j], None) == Some(Colour(pos))
            && CustomStyle(r[j], Some(pos)) == Some(Transparent)
            && forall q :: q != pos ==> CustomStyle(r[j], Some(q)) == Some(TransparentDimmed)
  {
  }

  /** Auto-tagging never changes how an already-styled character is drawn,
      under any filter, since additions go after its first style; an
      unstyled character is drawn, without a filter, in the colour of the
      first span that reaches it, or not at all if none does. */
  lemma AutoTagDisplay(chars: seq<StyleList>, spans: seq<Span>, j: int)
    requires 0 <= j < |chars|
    ensures var r := ApplySpans(chars, spans);
            chars[j] != [] ==> forall f :: CustomStyle(r[j], f) == CustomStyle(chars[j], f)
    ensures var r := ApplySpans(chars, spans);
            chars[j] == [] ==>
              CustomStyle(r[j], None) ==
                match FirstCovering(spans, j, |chars|)
                case None => None
                case Some(c) => Some(Colour(c))
  {
    var r := ApplySpans(chars, spans);
    ApplySpansEffect(chars, spans, j);
    if chars[j] != [] {
      assert r[j][0] == chars[j][0];
    }
  }
}
