# prism-react-editor core, modelled in Dafny

prism-react-editor is a React code editor. A transparent textarea sits over
highlighted markup, and the markup is kept as one `<div>` per line. This
project models the editor's logic in Dafny and proves properties of it. The
React, DOM and browser plumbing around that logic is not modelled.

- **Line diff and patch** (`core.dfy`, `linediff.dfy`). On every input,
  `update` compares the new per-line markup with the previous lines. Two
  scans run from the front and from the back, and the scans may cross. The
  rendered lines are then patched in one of two ways:
  - one line's markup is rewritten in place;
  - one block is removed, one block is inserted, and `data-line` is
    re-stamped on every line after the insertion point.

  The wrapper's children are modelled as a sequence of slots. Slot 0 is the
  overlays container and slot `k` is line `k`. The main theorem: after
  `update`, the slots are exactly the overlays followed by the new lines,
  each carrying its own line number.
- **Editor state** (`core.dfy`, class `Core.Editor`):
  - `numLines`;
  - the active-line rule: the line holding the caret carries the single
    `active-line` mark;
  - the container class string, written only when it changes;
  - the `on`/`dispatchEvent` registry;
  - `setSelection`;
  - the effect that runs when the value or the language prop changes.
- **Bracket matcher** (`match_brackets.dfy`). The tokenize handler:
  - walks the token tree depth first, with absolute offsets;
  - classifies punctuation tokens with `testBracket`;
  - pairs each closing bracket with the topmost open bracket of its type;
  - records nesting levels;
  - in rainbow mode, rewrites each bracket's alias.

  The proofs state that the pair map is symmetric, that pairs never cross,
  and that the brackets are recorded in offset order.
- **Bracket-pair highlight** (`highlight.dfy`). The `selectionChange`
  handler picks the first closing bracket whose pair encloses the caret. It
  moves the highlight only when the bracket found changes.
- **Indent guides** (`guides.dfy`):
  - `getIndentCount`, with tab stops;
  - the `getIndents` sweep, which opens and closes guides `[top, height, left]`;
  - the `lineIndentMap` built from the guides;
  - `updateActive`.

  `GetIndents` is proved against a declarative description of the guides,
  `GuidesFor`:
  - every level below a line's indentation has a guide along that line;
  - no guide runs along a line that is not indented past it;
  - guides of the same level never overlap.
- **Line boundaries** (`local.dfy`): `getLineStart` and `getLineEnd`.
- **String built-ins** (`jsstring.dfy`): the JavaScript string operations
  the code relies on, with their ECMAScript meaning:
  - `indexOf` and `lastIndexOf`;
  - `search(/\S/)`;
  - `split`;
  - string `<`.

External inputs:
- The tokenizer and the highlighter are outside the model. `update` receives
  the highlighted markup already split at newlines. The bracket matcher
  receives the token tree.
- The textarea's value and selection, and the focus, are fields or
  parameters.

## Model

| member | source | states |
|---|---|---|
| JsString.IndexOf | src/utils/local.ts:19-20 | `indexOf`: the first index at or after `from` holding the character, or -1 when there is none |
| JsString.LastIndexOf | src/utils/local.ts:16-17 | `lastIndexOf`: the last index at or before `from` holding the character, or -1; a negative `from` is clamped to 0 |
| JsString.SearchNonSpace | src/extensions/guides.tsx:125 | `search(/\S/)`: the first character that `\s` does not match, or -1 when every character is whitespace |
| JsString.Split | src/extensions/guides.tsx:19 | `split("\n")` gives at least one piece, and no piece holds the separator |
| JsString.SplitJoin | src/extensions/guides.tsx:19 | joining the pieces with the separator gives back the string that was split |
| Local.GetLineStart | src/utils/local.ts:16-17 | 0 at position 0; otherwise at most the position; 0 or just after a newline; no newline between it and the position |
| Local.GetLineEnd | src/utils/local.ts:19-20 | at or after the position; the text's length or a newline's index; no newline before it; the position itself when it holds a newline |
| Local.LineStartUnique | src/utils/local.ts:16-17 | the line start is the only index with the three properties above |
| Local.SameLine | src/utils/local.ts:16-20 | any position between a line's start and its end gets the same start and end back |
| LineDiff.Scan | src/core.tsx:109-114 | the forward scan stops at the first difference or at either end; the backward scan moves `end1`/`end2` in lockstep over equal lines (so the new length minus `end1` equals the old length minus `end2`) and stops at a difference, at 0 or off the old lines |
| LineDiff.SpliceRebuilds | src/core.tsx:118-125 | whatever the scans left, crossing included: the old lines with `RemovedCount` lines taken out at `start`, and `InsertedCount` new lines put in after `insertStart`, are exactly the new lines; the removal stays inside the old lines |
| LineDiff.SplicePointwise | src/core.tsx:118-125 | the same, line by line: the new lines before and after the inserted block are the kept old lines, in order |
| LineDiff.SpliceArithmetic | src/core.tsx:118-123 | the cursor arithmetic: `-1 <= insertStart < start`, and the removed and inserted counts balance the two lengths |
| LineDiff.TailLine | src/core.tsx:118-125 | a new line after the inserted block equals the kept old line it lands on |
| LineDiff.RewriteRebuilds | src/core.tsx:116 | on the in-place path, replacing old line `start` by new line `start` gives the new lines |
| LineDiff.InPlaceIffOneLineChanged | src/core.tsx:113-116 | the in-place path fires exactly when the line counts agree and exactly one line differs, and the line it rewrites is that one |
| LineDiff.UnchangedTouchesNothing | src/core.tsx:113-125 | identical lines take the splice path with nothing removed and nothing inserted |
| LineDiff.SingleInsertion | src/core.tsx:113-125 | inserting one line anywhere removes no element and inserts exactly one |
| Core.NumLines | src/core.tsx:293-297 | `numLines(str, start, end)` is 1 plus the newlines at indices in `[start, end)`, with `end` clamped to the string (`Infinity` is any `end` at or past the string's length) |
| Core.NewlinesMonotone | src/core.tsx:293-297 | counting up to an earlier position never gives more lines |
| Core.CaretFollowsDirection | src/core.tsx:54 | a direction `< "f"` is "" or starts before 'f': "backward" follows the start; "forward" and "none" follow the end |
| Core.ActiveLineInRange | src/core.tsx:52-55 | the active line number is between 1 and the number of lines of the value |
| Core.SelectionOf | src/core.tsx:32-35 | `getInputSelection`: the range reported is well formed (start never past end, a valid direction) and lies inside the textarea's value; with no textarea it is empty at offset 0 |
| Core.SelectionRange | src/core.tsx:165 | `setSelectionRange`: offsets clamped to the value, start never past end, direction "forward", "backward" or "none" |
| Core.ApplyPatch | src/core.tsx:116-125 | the slots render the new lines afterwards; rewrite happens exactly when `start == end1 == end2`, and then only that slot's markup changes; a splice leaves slots up to `insertStart + 1` untouched; no active-line mark is added |
| Core.SplicePatch | src/core.tsx:118-125 | the structural path: the slots render the new lines, with the removed and inserted counts of `LineDiff` and the front untouched |
| Core.SpliceRenders | src/core.tsx:119-124 | the removal and the insertion put every new line's markup in its slot, with the overlays in front |
| Core.RestampRenders | src/core.tsx:125 | after re-stamping, every line slot carries its own index as `data-line` |
| Core.RenderBlock | src/core.tsx:119-122 | the rendered block holds new lines `insertStart + 1 .. end1`, in order, unstamped and unmarked |
| Core.RemoveLines | src/core.tsx:123 | the removal loop takes out `Span(from, end2)` slots after slot `start` and keeps the rest in order |
| Core.Restamp | src/core.tsx:125 | every slot after `from` gets its own index as `data-line`; the others are unchanged |
| Core.KeptRenders | src/core.tsx:123 | after the removal, the slots render the kept old lines |
| Core.InsertRenders | src/core.tsx:124 | inserting the block after slot `insertStart + 1` makes the slots render the new lines |
| Core.InsertBlock | src/core.tsx:124 | `insertAdjacentHTML("afterend")`: the block lands after slot `p - 1`, and an empty block changes nothing |
| Core.MarksBeside | src/core.tsx:57-61 | while one slot carries the only mark, no other slot carries one |
| Core.MarkActive | src/core.tsx:57-61 | afterwards slot `n` carries the only mark; slots are otherwise unchanged; nothing moves when `n` was already marked |
| Core.CallbackKeys | src/core.tsx:89 | the callback prop of "tokenize", "update" and "selectionChange" is `onTokenize`, `onUpdate`, `onSelectionChange`, and different events have different props |
| Core.AddHandlerSpec | src/core.tsx:156 | `Set.add` adds exactly `h`, keeps handlers distinct, and adding twice is adding once |
| Core.RemoveHandlerSpec | src/core.tsx:158 | `Set.delete` removes exactly `h`, keeps the others distinct and in order, and changes nothing when `h` is absent |
| Core.OffUndoesOn | src/core.tsx:155-160 | the function `on` returns undoes the `on` that added a new handler |
| Core.DispatchReaches | src/core.tsx:82-90 | a dispatch calls each subscribed handler of that event exactly once and no other handler, and then the event's callback prop, if it is set, last |
| Core.UnsubscribedNotCalled | src/core.tsx:155-160 | after the unsubscribe function runs, dispatches of that event no longer reach the handler, and other events are unaffected |
| Core.ClassNameReadsBack | src/core.tsx:95-99 | the class string ends in flags that read back exactly: wrap, rtl, ` pce-has-selection` iff start < end, ` pce-focus` iff focused, ` pce-readonly` iff read-only |
| Core.ClassNameTellsFlagsApart | src/core.tsx:92-101 | equal class strings have equal flags, so any flag change changes the string and updateClass writes it |
| Core.Editor.constructor | src/core.tsx:18-27 | the closure's initial state: no lines, line count 0, active line 0, not focused, no listeners |
| Core.Editor.Mount | src/core.tsx:253-257 | the textarea ref callback records the textarea |
| Core.Editor.On | src/core.tsx:155-160 | the handler is added to the event's set, which is created on first use; the sets stay duplicate-free |
| Core.Editor.Off | src/core.tsx:157-159 | the handler is deleted from the event's set; the sets stay duplicate-free |
| Core.Editor.DispatchEvent | src/core.tsx:82-90 | the calls made are the event's handlers in registration order, then its callback prop if set |
| Core.Editor.UpdateClass | src/core.tsx:92-101 | afterwards the container shows the computed class and `prevClass` holds it; the container is written exactly when that string differs from the previous one, and is otherwise left as it was |
| Core.Editor.Focus | src/core.tsx:195-199 | focused, and the container shows the class computed with the focus flag set |
| Core.Editor.Blur | src/core.tsx:190-194 | not focused, and the container shows the class computed with the focus flag clear |
| Core.Editor.UpdateSelection | src/core.tsx:49-65 | when neither enabled nor forced, nothing changes; otherwise the active line is `numLines(value, 0, caret)`, it alone carries the mark, the marks stay put when it already had it, the container shows the class computed from the current selection and focus, and `selectionChange` is dispatched |
| Core.Editor.SyncSelection | src/core.tsx:51-63 | the enabled branch of updateSelection: the caret's line alone carries the mark, the container shows the class computed from the current selection and focus, and `selectionChange` is dispatched |
| Core.Editor.MoveActiveLine | src/core.tsx:52-60 | the active line is the caret's line and carries the only mark; the slots' markup is unchanged |
| Core.Editor.Update | src/core.tsx:103-135 | afterwards the slots are the overlays followed by the new lines, each stamped with its index; `lineCount` is the number of new lines; in-place rewrite iff exactly one line changed; unchanged lines splice nothing; the caret's line is the only active one; the container shows the class computed from the selection and focus; tokenize, update and selectionChange are dispatched in that order; selection changes are disabled with re-enabling pending |
| Core.Editor.Refresh | src/core.tsx:130-134 | the forced updateSelection and the end of update: the slots still render the new lines, the caret's line alone is marked, the container shows the refreshed class, `selectionChange` is dispatched, the lines are recorded and selection changes are disabled with re-enabling pending iff they were handled |
| Core.Editor.Rerender | src/core.tsx:104-129 | value taken from the textarea, lines re-rendered, tokenize and update dispatched |
| Core.Editor.FinishUpdate | src/core.tsx:131-134 | the lines are recorded, and the re-enable timer is armed iff selection changes were handled |
| Core.Editor.RenderLines | src/core.tsx:113-126 | the diff and patch: the slots render the new lines; in-place rewrite iff exactly one line changed, touching only that slot; splice keeps the front slots |
| Core.Editor.ReenableSelectionChange | src/core.tsx:131 | the armed timer's callback turns selection-change handling back on |
| Core.Editor.SetSelection | src/core.tsx:163-167 | the textarea gets the clamped range; the caret's line becomes the only active one; the container shows the class computed from the new range; `selectionChange` is dispatched |
| Core.Editor.SetValueAndLanguage | src/core.tsx:210-220 | a new value replaces the textarea's with the caret at 0, and the same value leaves the textarea alone; the language is set; then everything `update` promises: the lines, the active line, the class, the tokenize/update/selectionChange calls and the disabled selection changes; props, listeners and focus are outside its frame |
| MatchBrackets.TestBracket | src/extensions/match-brackets/index.ts:123-125 | the result is 0 or a 1-based position in the bracket string, and it is non-zero only for non-empty text |
| MatchBrackets.TestBracketFinds | src/extensions/match-brackets/index.ts:123-125 | the first character is tested first, at its first occurrence; the character at `l` is tried only when `l != 0` |
| MatchBrackets.Classify | src/extensions/match-brackets/index.ts:65-76 | a punctuation token becomes a bracket iff it tests as opening or closing; it is opening iff it tests as opening; the record is `[token, pos, 0, text, opening, pos + length]` |
| MatchBrackets.TopMatch | src/extensions/match-brackets/index.ts:80-87 | the topmost stack entry of the given type, or -1 when there is none |
| MatchBrackets.FindOpener | src/extensions/match-brackets/index.ts:80-87 | the downward search loop finds `TopMatch` |
| MatchBrackets.Step | src/extensions/match-brackets/index.ts:69-89 | one bracket recorded; stack entries keep naming recorded brackets |
| MatchBrackets.StepMatched | src/extensions/match-brackets/index.ts:78-88 | taking one bracket keeps the matcher invariant: symmetric pairs, opener first with the same type and level, no crossing, unpaired at level 0, stack of unpaired openers |
| MatchBrackets.AddPairNonCrossing | src/extensions/match-brackets/index.ts:83-84 | a new pair whose opener lies inside no pair and whose closer is past every pair crosses none |
| MatchBrackets.FeedMatched | src/extensions/match-brackets/index.ts:57-95 | taking any sequence of brackets keeps the invariant |
| MatchBrackets.FeedAppend | src/extensions/match-brackets/index.ts:57-95 | walking two streams one after the other is walking their concatenation |
| MatchBrackets.FoundFits | src/extensions/match-brackets/index.ts:66-76 | every bracket the walk finds is recorded at level 0 with its own type ordinal |
| MatchBrackets.MatchAllMatched | src/extensions/match-brackets/index.ts:97-99 | after a tokenize pass the matcher invariant holds |
| MatchBrackets.FoundPlaced | src/extensions/match-brackets/index.ts:58-93 | the brackets found lie inside the stream, each spans its own text, each is a punctuation token, in increasing non-overlapping order |
| MatchBrackets.FeedRecords | src/extensions/match-brackets/index.ts:69-89 | taking brackets only appends records, and matching changes only the levels |
| MatchBrackets.MatchAllOrdered | src/extensions/match-brackets/index.ts:57-99 | each recorded bracket is a punctuation token whose text sits at its offsets in the text of the token tree (`FlatAll`, whose length is the tree's length), with end = start + length; the records come in increasing, non-overlapping order |
| MatchBrackets.FlatAllLen | src/extensions/match-brackets/index.ts:59-93 | the offsets the walk adds up are lengths in the tree's text: a stream's length is the length of its strings laid end to end |
| MatchBrackets.FoundSpelled | src/extensions/match-brackets/index.ts:58-93 | every bracket found from `pos` spans its own text in the stream's text read from `pos` |
| MatchBrackets.FoundWalk | src/extensions/match-brackets/index.ts:57-93 | the brackets found are exactly the bracket-testing punctuation leaves among the leaves the walk visits, in order |
| MatchBrackets.RecordsAreBrackets | src/extensions/match-brackets/index.ts:57-99 | levels aside, the records of a pass are those brackets, one record each, in visiting order |
| MatchBrackets.MatchAllComplete | src/extensions/match-brackets/index.ts:57-99 | every bracket-testing punctuation leaf the walk visits is recorded, after the records of the leaves before it, with its token, text and offsets, opening iff it tests as opening; nothing else is recorded |
| MatchBrackets.WalkAbuts | src/extensions/match-brackets/index.ts:58-93 | when no string in the tree is empty the walk visits every leaf, each leaf starts at the total length of the leaves before it, and the lengths add up to the tree's length |
| MatchBrackets.FoundPuncts | src/extensions/match-brackets/index.ts:65-76 | a stream of one-character bracket tokens yields one bracket per character, at consecutive offsets |
| MatchBrackets.NestedFeed | src/extensions/match-brackets/index.ts:78-88 | three openers closed in reverse order nest, with levels 0, 1, 2 from the outside in, and leave the stack empty |
| MatchBrackets.NestedLevels | src/extensions/match-brackets/index.ts:84 | `"([{}])"` gives pairs (0,5), (1,4), (2,3) with levels 0, 1, 2 |
| MatchBrackets.CrossedErrors | src/extensions/match-brackets/index.ts:100-107 | `")("` leaves both brackets unpaired, so rainbow mode gives both `bracket-error` |
| MatchBrackets.WithAlias | src/extensions/match-brackets/index.ts:104 | only the token's alias changes |
| MatchBrackets.RainbowAliasShape | src/extensions/match-brackets/index.ts:104-106 | the old alias and a space stay in front; a paired bracket ends in `bracket-level-(level mod 12)`; the alias ends in `bracket-error` iff the bracket is unpaired |
| MatchBrackets.PaintKeeps | src/extensions/match-brackets/index.ts:100-107 | the rainbow pass changes only the token aliases, each to its rainbow alias |
| MatchBrackets.WalkStep | src/extensions/match-brackets/index.ts:58-94 | one token walked, and the offset advanced by its length, keeps the walk on its way to the full pass's result |
| MatchBrackets.WalkDone | src/extensions/match-brackets/index.ts:58 | the walk of a stream stops at its end or at its first empty string, with the full result |
| MatchBrackets.BracketMatcher.constructor | src/extensions/match-brackets/index.ts:44-55 | default bracket strings `([{` and `)]}` with rainbow mode on; empty arrays |
| MatchBrackets.BracketMatcher.Tokenize | src/extensions/match-brackets/index.ts:97-109 | the arrays are reset and then hold the pass's result, painted in rainbow mode; the pass count goes up by one |
| MatchBrackets.BracketMatcher.MatchRecursive | src/extensions/match-brackets/index.ts:57-95 | the walk takes the brackets found in the stream, in depth-first order |
| MatchBrackets.BracketMatcher.WalkToken | src/extensions/match-brackets/index.ts:59-93 | one token: strings are skipped, nested streams recursed into at the same offset, punctuation classified |
| MatchBrackets.BracketMatcher.Take | src/extensions/match-brackets/index.ts:69-89 | one bracket recorded, then pushed or paired, exactly as `Step` says |
| MatchBrackets.BracketMatcher.Recolor | src/extensions/match-brackets/index.ts:100-107 | the rainbow loop paints every recorded bracket |
| BracketHighlight.ClosestFrom | src/extensions/match-brackets/highlight.ts:28-33 | the first index from `from` on whose closing bracket ends at or after the caret and whose partner starts at or before it, or -1 when there is none |
| BracketHighlight.FindClosest | src/extensions/match-brackets/highlight.ts:28-33 | the search loop with `break` finds `ClosestFrom(…, 1)` |
| BracketHighlight.PickedId | src/extensions/match-brackets/highlight.ts:22-33 | a bracket is picked only when focused with a collapsed selection, never index 0, and it encloses the caret |
| BracketHighlight.NextHighlightsClosest | src/extensions/match-brackets/highlight.ts:35-51 | after a selection change the highlighted pair is exactly the pair found, or none |
| BracketHighlight.FreshPassAgrees | src/extensions/match-brackets/highlight.ts:37 | a tuple from an older pass is never the one found, so a new pass keeps the state consistent |
| BracketHighlight.NextIdempotent | src/extensions/match-brackets/highlight.ts:37-51 | repeating a selection change with the same selection changes nothing |
| BracketHighlight.SkipFirst | src/extensions/match-brackets/highlight.ts:28 | starting the search at 1 loses nothing: bracket 0 is never a paired closing bracket |
| BracketHighlight.ClosestPaint | src/extensions/match-brackets/highlight.ts:28-33 | the rainbow aliases do not change which pair is found |
| BracketHighlight.EnclosingPairsNest | src/extensions/match-brackets/highlight.ts:29-31 | of two enclosing pairs, the one found first lies inside the other, so the pair highlighted is the innermost around the caret |
| BracketHighlight.PairHighlighter.constructor | src/extensions/match-brackets/highlight.ts:16-17 | nothing remembered and nothing highlighted |
| BracketHighlight.PairHighlighter.SelectionChange | src/extensions/match-brackets/highlight.ts:21-53 | without a matcher nothing changes; otherwise the state moves as `Next` says: the highlight changes only when the bracket found differs from `prev`, and `prev` becomes the bracket found |
| Guides.IndentCount | src/extensions/guides.tsx:124-132 | -1 exactly when the line is all whitespace (the empty line included); otherwise the least `n` with `col <= n * tabSize`, `col` being the leading whitespace's width with tab stops |
| Guides.GetIndentCount | src/extensions/guides.tsx:124-132 | the loop computes `IndentCount` |
| Guides.CeilBounds | src/extensions/guides.tsx:131 | `Math.ceil(n / d)` is the least multiple count covering `n` |
| Guides.TabAdvances | src/extensions/guides.tsx:129 | a tab moves the column to the next multiple of `tabSize` |
| Guides.ColumnWithoutTabs | src/extensions/guides.tsx:128-130 | without tabs the width is the number of characters |
| Guides.ColumnOfTabs | src/extensions/guides.tsx:128-130 | `k` tabs are `k * tabSize` columns wide |
| Guides.IndentOfTabs | src/extensions/guides.tsx:124-132 | a line starting with `k` tabs and then a visible character is at level `k` |
| Guides.SweepIndents | src/extensions/guides.tsx:102-103 | each step uses its line's indent, and the extra step after the last line uses 0 |
| Guides.LastLine | src/extensions/guides.tsx:104-117 | the last non-blank line before a step, with only blank lines after it |
| Guides.BlankLine | src/extensions/guides.tsx:104-106 | a blank line leaves `prevIndent` alone and sets `emptyPos` only when no blank run is open |
| Guides.FilledLine | src/extensions/guides.tsx:115-116 | a non-blank line becomes `prevIndent` and ends the blank run |
| Guides.BlankRun | src/extensions/guides.tsx:105 | every line of the open blank run is blank |
| Guides.CloseGuides | src/extensions/guides.tsx:107-110 | exactly the open guides of levels `[indent, prevIndent)` get their height: up to line `i`, or up to the blank run unless it is the new indent's level on a non-final step |
| Guides.OpenGuides | src/extensions/guides.tsx:111-114 | one guide appended and pushed per level in `[prevIndent, indent)`, with `left = level * tabSize`, starting at the blank run for the first new level and at line `i` for the others |
| Guides.BlankSwept | src/extensions/guides.tsx:104-106 | a blank step keeps the sweep invariant |
| Guides.FilledSwept | src/extensions/guides.tsx:106-117 | a non-blank step, closing then opening guides, keeps the sweep invariant |
| Guides.DedentSwept | src/extensions/guides.tsx:107-110 | a step to a shallower line keeps the invariant: closed guides end where the line's levels stop |
| Guides.IndentSwept | src/extensions/guides.tsx:111-114 | a step to a deeper line keeps the invariant: the new levels get guides along that line |
| Guides.SweptDone | src/extensions/guides.tsx:118-121 | after the extra step every guide is closed and the result satisfies `GuidesFor` |
| Guides.GetIndents | src/extensions/guides.tsx:96-122 | the guides: whole levels, ordered by top, each closed within the code; along a non-blank line only guides left of its indentation; each level below a line's indentation has a guide along it; same-level guides never overlap |
| Guides.FillIndentMap | src/extensions/guides.tsx:22-40 | each claimed line maps to the last guide claiming it: its own lines, plus the line above for a single indent and the line below for a single outdent; unclaimed lines are absent |
| Guides.ClaimLines | src/extensions/guides.tsx:36-37 | lines `top + lo .. top + hi - 1` are given to guide `i`; other lines keep their entries |
| Guides.IndentedLineClaimed | src/extensions/guides.tsx:33-37 | every line indented at least one level has an entry in `lineIndentMap` |
| Guides.IndentGuides.constructor | src/extensions/guides.tsx:8-14 | no active guide and no guides |
| Guides.IndentGuides.Update | src/extensions/guides.tsx:16-44 | the code is split at newlines and swept with the `tabSize` prop, or 2 when it is unset or 0; `indents` satisfies `GuidesFor` and `lineIndentMap` maps each line to its last claiming guide; the active guide is untouched |
| Guides.IndentGuides.UpdateActive | src/extensions/guides.tsx:46-54 | the active guide is `lineIndentMap[activeLine - 1]`, or -1 when absent; only it carries the class; classes are touched only when it changes |

## Left out

- React and the DOM are not modelled. That covers hooks, refs, JSX, `innerHTML`, `insertAdjacentHTML`, `remove`, `classList` and `setAttribute`. Line elements are slots in a sequence, and classes are fields or marks.
- The tokenizer and highlighter (`tokenizeText`, `highlightTokens`, `languages`) are not part of this model. `update` takes the highlighted lines as input, and the matcher takes the token tree. A token's length is the length of its content by construction.
- The timers are not modelled. `setTimeout(setTimeout, …)` at src/core.tsx:131 is a pending flag and `Core.Editor.ReenableSelectionChange` runs its callback.
- The document-level `selectionchange` listener is not modelled (src/core.tsx:299-301). The `selectionChange` hook that Focus and Blur set and clear is left out with it.
- The user-agent sniffing and the Safari focus workaround (`focusRelatedTarget`) are not modelled.
- The key and input command maps and the keydown and beforeinput listeners are not modelled, nor is the `children` render prop.
- Core.Editor.Update: the gutter width (`--number-width` via `Math.log10`, src/core.tsx:126) is floating point and is not modelled.
- Core.Editor.Update: `editor.tokens` and the arguments passed to handlers are not modelled. A dispatch is recorded as which handlers were called, in order.
- Core.Editor.DispatchEvent: handlers are opaque ids. They are taken not to throw and not to call `on` or an unsubscriber during a dispatch. In the source a throwing handler skips the remaining handlers and the callback prop, and aborts the caller; in `update` that means `prevLines` and `handleSelectionChange` are never set (src/core.tsx:133-134). A handler added to the event's set during `forEach` would be visited, and one deleted before its turn would be skipped. Core.DispatchReaches states the order of calls under the same assumption.
- Core.CallbackKey: `toUpperCase` is modelled for ASCII letters only, which covers the three event names.
- Core.Editor.Update: requires a mounted textarea, as the source reads `textarea.value` without a check.
- Core.Editor.Update: requires one markup line per line of the value: the number of markup lines is one more than the value's newline count. This is what the highlighter's output split at newlines gives, and the line count and the active line's range rest on it. Core.Editor.Rerender and Core.Editor.SetValueAndLanguage require the same.
- Core.Editor.Update: `handleSelectionChange` is one module-level variable shared by every editor (src/core.tsx:302), so one editor's `update` also disables selection handling for the others. The model keeps it as a field of each editor, and that sharing is not captured.
- JsString.IndexOf: strings are sequences of Unicode characters. JavaScript's `length`, `indexOf`, `selectionStart` and token lengths count UTF-16 code units, so every offset in the model differs from JavaScript's after a character outside the Basic Multilingual Plane. The same holds for JsString.LastIndexOf, Local.GetLineStart, Local.GetLineEnd, Core.NumLines, MatchBrackets.Len and Guides.IndentCount.
- MatchBrackets.TestBracket: an empty token text gives 0. JavaScript gives the same for a bracket string that does not contain the text "undefined", which is what `indexOf(undefined)` searches for.
- MatchBrackets.IsPunctuation: a token's alias is a single string; Prism's array aliases are not modelled. A token whose content is a single nested token rather than a stream is not modelled either.
- MatchBrackets.BracketMatcher.Recolor: the new alias is written to the bracket's own copy of its token. In JavaScript the record and the token tree share the token object, so the tree sees the alias too. That aliasing is not modelled.
- MatchBrackets.BracketMatcher.Take: the stack is truncated where JavaScript lowers `sp` and later overwrites the entries. The live part of the stack is the same.
- BracketHighlight.PairHighlighter.SelectionChange: the highlight is recorded as the two brackets' start offsets. The DOM half (`getClosestToken`, the `textContent` merge at highlight.ts:40-47, `toggleActive`) is not modelled.
- BracketHighlight.PairHighlighter.SelectionChange: the focus and blur listeners that call the handler are not modelled. The focus and the selection are parameters.
- Guides.IndentGuides.Update: the tab size is a natural number with 0 read as 2. Negative or fractional `tabSize` props are not modelled.
- Guides.IndentGuides.Update: the guide elements, their `top`/`height`/`left` styles, and the `append`/`remove` of elements are not modelled (src/extensions/guides.tsx:23, 29-31, 42-43). `indents` is kept as the last guides.
- Guides.IndentGuides.constructor: `lineIndentMap` is undefined before the first update in the source; the model starts with an empty map.
- Guides.IndentGuides.UpdateActive: the `active` class is a set of marked guide indices, not class names on elements.
- `scrollToEl` and `createTemplate` (src/utils/local.ts) are DOM only and not modelled.
