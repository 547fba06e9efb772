/** The manual edits: clearing the categories over the selection
    (removeStyles) and tagging the selection with one category
    (applyPosStyle), which keeps a single category per selected character. */
module StyleEdits {
  import opened Categories
  import opened Styles

  /** A selection inside one block: anchor and focus offsets in either
      order; the range it denotes runs from the smaller to the larger. */
  datatype Selection = Selection(anchor: nat, focus: nat) {
    function Start(): nat { if anchor <= focus then anchor else focus }
    function End(): nat { if anchor <= focus then focus else anchor }
    predicate IsCollapsed() { anchor == focus }
  }

  /** The keys, among those of cs, that removeStyles deletes: all but the
      key of except. */
  function KeysOf(cs: seq<Category>, except: Option<Category>): set<string>
  {
    set c | c in cs && Some(c) != except :: Key(c)
  }

  /** The keys removeStyles deletes, over the whole style table. */
  function RemovedKeys(except: Option<Category>): (r: set<string>)
    ensures forall c :: Key(c) in r <==> except != Some(c)
    ensures forall y :: y in r ==> IsCategoryKey(y)
  {
    forall c ensures Key(c) in KeysOf(AllCategories, except) <==> except != Some(c) {
      AllCategoriesComplete(c);
      forall d | Key(d) == Key(c) ensures d == c { KeyInjective(c, d); }
    }
    KeysOf(AllCategories, except)
  }

  /** The characters after removeStyles(except) over [lo, hi): the selected
      characters lose every category but except, keep everything else in
      order, and nothing outside the range changes. */
  function Cleared(chars: seq<StyleList>, lo: int, hi: int, except: Option<Category>): (r: seq<StyleList>)
    ensures |r| == |chars|
    ensures forall j :: 0 <= j < |chars| && !(lo <= j < hi) ==> r[j] == chars[j]
    ensures forall j, c :: 0 <= j < |chars| && lo <= j < hi && Some(c) != except ==> Key(c) !in r[j]
    ensures forall j, y :: 0 <= j < |chars| && lo <= j < hi && y in chars[j] && y !in RemovedKeys(except) ==> y in r[j]
    ensures forall j, y :: 0 <= j < |chars| && y in r[j] ==> y in chars[j]
  {
    seq(|chars|, j requires 0 <= j < |chars| =>
      if lo <= j < hi then Without(chars[j], RemovedKeys(except)) else chars[j])
  }

  /** The characters after applyPosStyle(pos) over a non-empty [lo, hi):
      each selected character has pos added and every other category
      removed. */
  function Tagged(chars: seq<StyleList>, lo: int, hi: int, pos: Category): (r: seq<StyleList>)
    ensures |r| == |chars|
    ensures forall j :: 0 <= j < |chars| && !(lo <= j < hi) ==> r[j] == chars[j]
    ensures forall j :: 0 <= j < |chars| && lo <= j < hi ==> Key(pos) in r[j]
    ensures forall j, c :: 0 <= j < |chars| && lo <= j < hi && c != pos ==> Key(c) !in r[j]
    ensures forall j, y :: 0 <= j < |chars| && lo <= j < hi && !IsCategoryKey(y) ==> (y in r[j] <==> y in chars[j])
  {
    seq(|chars|, j requires 0 <= j < |chars| =>
      if lo <= j < hi then Without(Add(chars[j], Key(pos)), RemovedKeys(Some(pos))) else chars[j])
  }

  /** A character's styles after removing, one by one in the order of cs,
      the key of every category of cs other than except. */
  function StripEach(s: StyleList, cs: seq<Category>, except: Option<Category>): StyleList
    decreases |cs|
  {
    if cs == [] then s
    else
      var t := StripEach(s, cs[..|cs| - 1], except);
      if Some(cs[|cs| - 1]) != except then Remove(t, Key(cs[|cs| - 1])) else t
  }

  /** One more category in cs adds its key to the deleted ones, unless it is
      except. */
  lemma KeysOfSnoc(init: seq<Category>, c: Category, except: Option<Category>)
    ensures KeysOf(init + [c], except)
         == if Some(c) != except then KeysOf(init, except) + {Key(c)} else KeysOf(init, except)
  {
  }

  /** Removing the keys one by one is removing them all at once. */
  lemma {:induction false} StripEachIsWithout(s: StyleList, cs: seq<Category>, except: Option<Category>)
    ensures StripEach(s, cs, except) == Without(s, KeysOf(cs, except))
    decreases |cs|
  {
    if cs == [] {
      assert KeysOf(cs, except) == {};
      WithoutAbsent(s, {});
    } else {
      var init, c := cs[..|cs| - 1], cs[|cs| - 1];
      assert cs == init + [c];
      StripEachIsWithout(s, init, except);
      KeysOfSnoc(init, c, except);
      if Some(c) != except {
        WithoutWithout(s, KeysOf(init, except), {Key(c)});
      }
    }
  }

  /** removeStyles: walk the style table's keys in order and remove each one
      other than except from the selected characters. */
  method RemoveStyles(chars: array<StyleList>, sel: Selection, except: Option<Category>)
    requires sel.anchor <= chars.Length && sel.focus <= chars.Length
    modifies chars
    ensures chars[..] == Cleared(old(chars[..]), sel.Start(), sel.End(), except)
  {
    var lo, hi := sel.Start(), sel.End();
    for k := 0 to |AllCategories|
      invariant forall j :: 0 <= j < chars.Length ==>
        chars[j] == if lo <= j < hi then StripEach(old(chars[j]), AllCategories[..k], except) else old(chars[j])
    {
      var c := AllCategories[k];
      assert AllCategories[..k + 1][..k] == AllCategories[..k];
      if Some(c) != except {
        RemoveInlineStyle(chars, lo, hi, Key(c));
      }
    }
    assert AllCategories[..|AllCategories|] == AllCategories;
    forall j | 0 <= j < chars.Length && lo <= j < hi
      ensures chars[j] == Without(old(chars[j]), RemovedKeys(except))
    {
      StripEachIsWithout(old(chars[j]), AllCategories, except);
    }
  }

  /** applyPosStyle: on a non-empty selection, add pos over it, then remove
      every other category from it; a collapsed selection changes nothing. */
  method ApplyPosStyle(chars: array<StyleList>, sel: Selection, pos: Category)
    requires sel.anchor <= chars.Length && sel.focus <= chars.Length
    modifies chars
    ensures sel.IsCollapsed() ==> chars[..] == old(chars[..])
    ensures !sel.IsCollapsed() ==> chars[..] == Tagged(old(chars[..]), sel.Start(), sel.End(), pos)
  {
    if sel.anchor != sel.focus {
      ApplyInlineStyle(chars, sel.Start(), sel.End(), Key(pos));
      RemoveStyles(chars, sel, Some(pos));
    }
  }

  /** Tagging the same range with the same category twice is tagging it
      once. */
  lemma TaggedIdempotent(chars: seq<StyleList>, lo: int, hi: int, pos: Category)
    ensures Tagged(Tagged(chars, lo, hi, pos), lo, hi, pos) == Tagged(chars, lo, hi, pos)
  {
    var once := Tagged(chars, lo, hi, pos);
    forall j | 0 <= j < |chars| && lo <= j < hi
      ensures Without(Add(once[j], Key(pos)), RemovedKeys(Some(pos))) == once[j]
    {
      WithoutAbsent(once[j], RemovedKeys(Some(pos)));
    }
  }

  /** Clearing a range twice is clearing it once. */
  lemma ClearedIdempotent(chars: seq<StyleList>, lo: int, hi: int, except: Option<Category>)
    ensures Cleared(Cleared(chars, lo, hi, except), lo, hi, except) == Cleared(chars, lo, hi, except)
  {
    var once := Cleared(chars, lo, hi, except);
    forall j | 0 <= j < |chars| && lo <= j < hi
      ensures Without(once[j], RemovedKeys(except)) == once[j]
    {
      WithoutAbsent(once[j], RemovedKeys(except));
    }
  }

  /** Clearing with no exception leaves no category on any selected
      character; clearing an empty range changes nothing. */
  lemma ClearAll(chars: seq<StyleList>, lo: int, hi: int)
    ensures forall j, y :: 0 <= j < |chars| && lo <= j < hi && y in Cleared(chars, lo, hi, None)[j] ==> !IsCategoryKey(y)
    ensures hi <= lo ==> Cleared(chars, lo, hi, None) == chars
  {
  }
}
