# prose-tagger: a Dafny model of part-of-speech tagging and highlighting

prose-tagger is a browser rich-text editor. It lays five part-of-speech categories
(NOUN, VERB, ADJECTIVE, ADVERB, PUNCTUATION) over the text of a document.
It has four pieces of logic, and this project models each of them and proves properties about them:

- **Tag-code mapping** (`mapPOSCode`). The tagger's Penn-Treebank-style codes map onto the
  five categories. The mis-decoded em-dash is special-cased to PUNCTUATION. Every other
  code maps to nothing. Module `Categories`.
- **Auto-tag pass.** For every block, each token is searched for with
  `indexOf` from a running cursor. A token whose code maps gets its category added over
  `[index, index + |token|)`, and the cursor moves on by the token's length.
  Module `Reconciler` holds the search and the spans it yields, as functions.
  Module `AutoTag` holds the pass itself, as a method with a loop over a block's mutable
  per-character style array, and a document-level pass over all blocks.
- **Manual edits.** `applyPosStyle` adds one category over a non-empty selection and then
  removes every other category from it. `removeStyles` removes every category except an
  optional one. Both are methods over the style array, in module `StyleEdits`.
- **Display rule** (`customStyleFn`). This pure decision looks at a character's first style
  and the active filter. It returns the category's colour, transparent, transparent and
  dimmed, or nothing. Module `Display`.

The editor library's content is modelled per block: one style list per character.
A style list is insertion-ordered and duplicate-free, which is how the library keeps a
character's inline styles. That makes "the first style" well defined (module `Styles`).
Adding a style appends it if it is absent. Removing a style keeps the order of the rest.
`applyInlineStyle` and `removeInlineStyle` walk the offsets of a range one by one.
The character list reads a negative offset from its end.

A token that cannot be found at or after the cursor is not skipped. `index` becomes -1
(src/App.js:142) and, when the tag maps, the range `[-1, |w| - 1)` is still styled. For a
token of two or more characters that range styles characters `0 .. |w| - 2` directly, and
its offset -1 reaches the block's last character, which the character list reads from its
end. The cursor then becomes `|w| - 1`. `Reconciler.TokenPlacement` states this.
`Reconciler.MissedTokenSpan` shows it for a one-character token, where only the last
character is reached, and `Reconciler.MissedLongTokenSpan` for a two-character token,
where both the first and the last character are reached.

## Model

| member | source | states |
|---|---|---|
| `Categories.MapPOSCode` | src/App.js:55-58 | The dash literal maps to PUNCTUATION whatever the code. `Categories.MapPOSCodeIsTable` states every other word. |
| `Categories.MapPOSCodeIsTable` | src/App.js:60-110 | For any word but the dash, the result is a category exactly when (code, category) is a row of the reference table `CodeTable`, and a code outside the table maps to nothing. |
| `Categories.MapPOSCodeByFamily` | src/App.js:68-108 | For a non-dash word: `.` `,` `(` `)` map to PUNCTUATION, JJ/JJR/JJS to ADJECTIVE, VB/VBD/VBG/VBN/VBP/VBZ/VBT to VERB, RB/RBR/RBS/WRB to ADVERB, and NN/NNS/NNP/NNPS/PRP/WP to NOUN, each in both directions. |
| `Categories.UnlistedCodesUnmapped` | src/App.js:60-110 | Codes outside the table (DT, CC, IN, MD, PRP$, WP$, TO, EX, POS, SYM) map to nothing for a non-dash word. |
| `Categories.ParseCategory` | src/App.js:37-53 | Looking a style name up in the style table gives a category exactly when the name is that category's key. |
| `Styles.ApplyInlineStyle` | src/App.js:150-154 | Adding a style over a range adds it to exactly the characters the range reaches, directly or through a negative offset. Every other character is unchanged. |
| `Styles.RemoveInlineStyle` | src/App.js:178-182 | Removing a style over a range removes it from exactly the characters the range reaches. Every other character is unchanged. |
| `Reconciler.IndexOf` | src/App.js:142 | `indexOf` returns the first occurrence at or after the clamped start, or -1 exactly when there is none. |
| `Reconciler.Starts` | src/App.js:139-161 | The value `index` takes for each token, one per token. `Reconciler.StartsAt` and `Reconciler.TokenPlacement` state what each value is: `indexOf` from the cursor then in force, -1 on a miss, with no skip. |
| `Reconciler.Categorize` | src/App.js:148 | Token i's category is PUNCTUATION when the token is the dash. Otherwise it is the category of the `CodeTable` row for its tag, and nothing when no row lists that tag. |
| `Reconciler.SpansOf` | src/App.js:143-159 | At most one span per token, in token order. `Reconciler.SpansOfExact` states which: a span exactly for each mapped token, over `[start, start + |w|)` with its category. |
| `Reconciler.SpansFrom` | src/App.js:139-161 | The spans the scan applies from a cursor, at most one per token. The first token is searched with `indexOf` from the cursor and contributes its range with its category if its code maps, and the rest are scanned from just after it. `Reconciler.Spans` is this scan from cursor 0. `Reconciler.SpansFromIsSpansOf`, `Reconciler.SpanInText`, `Reconciler.SpansDisjoint` and `Reconciler.ExampleSentence` state what the spans are and where they lie. |
| `Reconciler.StartsAt` | src/App.js:139-161 | Token i's start is `indexOf` from the cursor in force for token i. That cursor is the initial one for the first token, and the previous start plus the previous token's length after that. |
| `Reconciler.TokenPlacement` | src/App.js:139-161 | A found token starts at the first occurrence at or after its cursor, and the text there is the token. A missed token gets start -1 and no occurrence exists after the cursor. The next cursor is start + length in both cases. |
| `Reconciler.StartsOrdered` | src/App.js:139-161 | If every token is found, every start is at or after the initial cursor and the text there is the token. Token ranges are ordered and pairwise disjoint. Starts strictly increase for non-empty tokens. |
| `Reconciler.SpansFromIsSpansOf` | src/App.js:139-161 | The step-by-step scan gives the same spans as the whole-list reading: the spans of the tokens' categories at the starts `Reconciler.Starts` gives. |
| `Reconciler.SpansFromStepAt` | src/App.js:140-161 | One step of the scan at token i. Token i contributes `[s, s + |w|)` with its category if its code maps and nothing otherwise, where s is `indexOf` from the cursor, and the tokens after it are scanned from `s + |w|`. |
| `Reconciler.SpansOfExact` | src/App.js:148-159 | A span exists exactly for each token with a category, over that token's range and with that category. A token whose code maps to nothing contributes no span. |
| `Reconciler.SpanInText` | src/App.js:139-159 | If every token is found, each span lies inside the text, and the text under it is a token whose code maps to the span's category. |
| `Reconciler.SpansDisjoint` | src/App.js:139-161 | If every token is found, the spans are in order and pairwise non-overlapping. |
| `Reconciler.ExampleSentence` | src/App.js:136-162 | "The cat runs." tagged DT NN VBZ . gives NOUN over "cat", VERB over "runs" and PUNCTUATION over ".". "The" gets nothing. |
| `Reconciler.MissedTokenSpan` | src/App.js:142-161 | A one-character token missed after the cursor is not skipped. Its span is `[-1, 0)`, which reaches only the last character. |
| `Reconciler.MissedLongTokenSpan` | src/App.js:142-161 | A two-character token missed after the cursor gets the span `[-1, 1)`. It reaches the first character directly and the last through offset -1, but not the middle one. |
| `AutoTag.ApplySpans` | src/App.js:150-156 | Each span's category added over its range in order, one `applyInlineStyle` and `EditorState.push` per span; the block keeps its length. `AutoTag.ApplySpansEffect` states what each character gains. |
| `AutoTag.TagToken` | src/App.js:140-161 | The forEach callback. The returned cursor is `indexOf` from the old one plus the token's length. When the code maps, the characters gain its category over `[index, index + |w|)`; otherwise they are unchanged. |
| `AutoTag.AutoTagBlock` | src/App.js:139-162 | The in-place pass over one block leaves the characters equal to the old ones with every span of the scan applied in token order. Its loop's step is `AutoTag.TagAt`, a proof step around the callback: the scan left after token i, applied to the new characters, gives the scan left before it applied to the old ones, and stays within the block. |
| `AutoTag.ApplySpansEffect` | src/App.js:148-156 | The pass only adds. Old styles are a prefix of the new ones. A character gains exactly the categories of the spans reaching it. A character no span reaches is unchanged. An unstyled character starts with the first reaching span's category. Duplicate-freedom is kept. |
| `AutoTag.AutoTagDocument` | src/App.js:130-165 | Every block is scanned on its own. Keys and text are unchanged, and each block's styles are its old styles with its own spans applied. |
| `AutoTag.NothingMappedNothingChanges` | src/App.js:148-159 | A block none of whose tokens maps to a category is left exactly as it was. |
| `StyleEdits.RemovedKeys` | src/App.js:176-177 | removeStyles deletes a category's key exactly when it is not the `except` category, and deletes nothing but category keys. |
| `StyleEdits.Cleared` | src/App.js:172-187 | Each selected character loses every category except `except` and keeps every other style. Characters outside the selection are unchanged. |
| `StyleEdits.StripEachIsWithout` | src/App.js:176-184 | Removing the keys one at a time, in table order, equals removing them all at once. |
| `StyleEdits.RemoveStyles` | src/App.js:172-187 | The loop over the style table's keys leaves the characters equal to `Cleared` over the selection `[min, max)`. |
| `StyleEdits.Tagged` | src/App.js:189-200 | Each selected character ends with pos and no other category, and keeps its non-category styles. Characters outside the selection are unchanged. |
| `StyleEdits.ApplyPosStyle` | src/App.js:189-200 | A collapsed selection (anchor offset equals focus offset) leaves the content unchanged. Otherwise the characters equal `Tagged` over `[min, max)`. |
| `StyleEdits.TaggedIdempotent` | src/App.js:189-200 | Applying the same category twice over the same range equals applying it once. |
| `StyleEdits.ClearedIdempotent` | src/App.js:172-187 | Clearing a range twice equals clearing it once. |
| `StyleEdits.ClearAll` | src/App.js:172-187 | With no `except`, no selected character keeps any category. Clearing an empty range changes nothing. |
| `Display.FirstStyle` | src/App.js:342 | A character has a first style exactly when it has any style, and that style is one of its styles. |
| `Display.CustomStyle` | src/App.js:341-359 | With a filter, the result is transparent exactly when the first style is the filter's key, and dimmed otherwise (unstyled characters included). Without a filter, the result is a category's colour exactly when the first style is that category's key, and nothing otherwise. |
| `Display.ManualTagDisplay` | src/App.js:341-359 | After a manual tag with pos, a selected character that carried only categories is drawn in pos's colour. It is transparent under the pos filter and dimmed under any other filter. |
| `Display.AutoTagDisplay` | src/App.js:341-359 | Auto-tag never changes how an already-styled character is drawn, under any filter. An unstyled character is drawn in the colour of the first span reaching it, or not at all. |

## Left out

- React state, hooks, focus handling and the `readOnly` flag that triggers the auto-tag
  effect (src/App.js:113-131, 165-168) are not modelled. Auto-tag is one call,
  `AutoTag.AutoTagDocument`, that returns the new content.
- The tokenizer and the Brill tagger (src/App.js:29-35, 136-137) are foreign libraries.
  Their output is taken as input: per block, a token list and a tag list of the same length.
- The editor library's `EditorState.push`, undo stack and `SelectionState` internals are
  not modelled. Content is a list of blocks (`AutoTag.Block`) or one block's style array.
- Selections are single-block: a selection is `[min(anchor, focus), max(anchor, focus))`
  inside one block. The empty-selection test compares offsets only, as the source does, and
  selections spanning several blocks are not modelled.
- `AutoTag.AutoTagBlock`, `AutoTag.TagToken`, `AutoTag.TagAt`, `AutoTag.AutoTagDocument`
  (through `AutoTag.Taggable`): require every applied range to stay within its block
  (offsets from -n to n - 1). Any other offset makes the editor library throw. That
  exception path is not modelled. In the source the throw leaves the effect before
  `setEditorState` and `setReadOnly(false)` (src/App.js:165-166), so no block keeps any
  auto-tag style and the editor stays read-only.
- `StyleEdits.RemoveStyles`, `StyleEdits.ApplyPosStyle`: do not model the defaulting of
  the selection and content arguments to the editor's current ones. The caller passes them.
- `Categories.ParseCategory`: looking up a style name in a JavaScript object literal also
  finds inherited properties such as `constructor`. Only the five keys are modelled as known
  styles. Such names could only arrive through a loaded file.
- Save and load (src/App.js:242-274) are not modelled. They are file I/O and JSON
  serialisation done by the editor library, so the save/load round trip is not stated.
- Key bindings and command dispatch (src/App.js:202-240) are not modelled. Each command
  only calls `applyPosStyle` with one category or `removeStyles` with no arguments, and
  those two are modelled.
- JSX layout, icons, the colour strings and the `0.1` opacity are not modelled. Colours
  are the opaque `Display.Colour(category)`, and dimming is the `TransparentDimmed` case.
- Text is a sequence of characters. JavaScript strings count UTF-16 code units, so
  surrogate pairs are not modelled.
