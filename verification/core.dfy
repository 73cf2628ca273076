/**
 * The editor's own state (src/core.tsx): the rendered line collection kept in
 * step with the highlighted text by `update`, the active-line rule, the
 * container's class string and the event registry.
 *
 * The wrapper's children are a sequence of slots: the overlays container at
 * index 0 and the element of line k at index k. The tokenizer and highlighter
 * are outside the model: `update` receives the textarea's value and the
 * highlighted markup already split at newlines.
 */
module Core {
  import opened JsString
  import opened LineDiff

  // ---------------------------------------------------------------------------
  // Counting lines

  /** The number of newline characters in `s[lo..hi]`. */
  function Newlines(s: string, lo: nat, hi: nat): nat
    requires lo <= hi <= |s|
    decreases hi - lo
  {
    if lo == hi then 0 else Newlines(s, lo, hi - 1) + (if s[hi - 1] == '\n' then 1 else 0)
  }

  lemma {:induction false} NewlinesSplit(s: string, lo: nat, mid: nat, hi: nat)
    requires lo <= mid <= hi <= |s|
    ensures Newlines(s, lo, hi) == Newlines(s, lo, mid) + Newlines(s, mid, hi)
    decreases hi - mid
  {
    if mid < hi {
      NewlinesSplit(s, lo, mid, hi - 1);
    }
  }

  lemma {:induction false} NewlinesNone(s: string, lo: nat, hi: nat)
    requires lo <= hi <= |s|
    requires forall k :: lo <= k < hi ==> s[k] != '\n'
    ensures Newlines(s, lo, hi) == 0
    decreases hi - lo
  {
    if lo < hi {
      NewlinesNone(s, lo, hi - 1);
    }
  }

  function Min(a: int, b: int): int { if a < b then a else b }

  /**
   * `numLines(str, start, end)`: 1 plus the number of newlines at indices
   * `k` with `start <= k < end` (src/core.tsx:293-297). The default `end` of
   * Infinity is any `end >= |str|`.
   */
  method NumLines(str: string, start: nat, end: int) returns (count: nat)
    ensures var lo := Min(start, |str|);
            count == 1 + Newlines(str, lo, if end <= lo then lo else Min(end, |str|))
  {
    var lo := Min(start, |str|);
    var hi := if end <= lo then lo else Min(end, |str|);
    count := 1;
    var pos: int := start;
    var next := IndexOf(str, '\n', pos) + 1;
    while next != 0 && next <= end
      invariant pos == start || (lo < pos <= |str| && pos <= end)
      invariant next == IndexOf(str, '\n', pos) + 1
      invariant count == 1 + Newlines(str, lo, Min(pos, |str|))
      decreases |str| - pos
    {
      NewlinesSplit(str, lo, Min(pos, |str|), next);
      NewlinesNone(str, Min(pos, |str|), next - 1);
      count := count + 1;
      pos := next;
      next := IndexOf(str, '\n', pos) + 1;
    }
    // no newline is left between pos and the end of the counted range
    NewlinesNone(str, Min(pos, |str|), if Min(pos, |str|) <= hi then hi else Min(pos, |str|));
    NewlinesSplit(str, lo, Min(pos, |str|), if Min(pos, |str|) <= hi then hi else Min(pos, |str|));
  }

  /** Counting up to an earlier position never gives more lines. */
  lemma {:induction false} NewlinesMonotone(s: string, a: nat, b: nat)
    requires a <= b <= |s|
    ensures Newlines(s, 0, a) <= Newlines(s, 0, b) <= Newlines(s, 0, |s|)
  {
    NewlinesSplit(s, 0, a, b);
    NewlinesSplit(s, 0, b, |s|);
  }

  // ---------------------------------------------------------------------------
  // Selection

  datatype Selection = Selection(start: nat, end: nat, direction: string)

  /**
   * The caret the active line follows: `selection[selection[2] < "f" ? 0 : 1]`
   * (src/core.tsx:54).
   */
  function Caret(sel: Selection): nat
  {
    if LexLess(sel.direction, "f") then sel.start else sel.end
  }

  /**
   * A direction below "f" is the empty one or one whose first letter comes
   * before 'f': so "backward" follows the start, "forward" and "none" the end.
   */
  lemma {:induction false} CaretFollowsDirection(sel: Selection)
    ensures LexLess(sel.direction, "f") <==> sel.direction == "" || sel.direction[0] < 'f'
    ensures sel.direction == "backward" ==> Caret(sel) == sel.start
    ensures sel.direction == "forward" || sel.direction == "none" ==> Caret(sel) == sel.end
  {
  }

  /**
   * `textarea.setSelectionRange(start, end, direction)` as the HTML standard
   * defines it: offsets past the end of the value point at its end, an end
   * at or before the start collapses the selection onto the end, and a
   * direction other than "forward" or "backward" becomes "none".
   */
  function SelectionRange(length: nat, start: nat, end: nat, direction: string): (sel: Selection)
    ensures sel.start <= sel.end <= length
    ensures sel.end == Min(end, length)
    ensures sel.start == Min(Min(start, length), sel.end)
    ensures sel.direction in {"forward", "backward", "none"}
    ensures direction in {"forward", "backward"} ==> sel.direction == direction
  {
    var e := Min(end, length);
    var s := Min(start, length);
    Selection(if e <= s then e else s, e, if direction == "forward" || direction == "backward" then direction else "none")
  }

  // ---------------------------------------------------------------------------
  // Rendered lines

  /**
   * A child of the wrapper: the overlays container, or a line element with
   * its markup, its `data-line` attribute (0 while not yet stamped) and
   * whether it carries the `active-line` class.
   */
  datatype Slot = Overlays | Line(html: string, number: nat, active: bool)

  predicate Marked(s: Slot) { s.Line? && s.active }

  /** How many slots carry the `active-line` class. */
  function MarkCount(ls: seq<Slot>): nat
  {
    if ls == [] then 0 else MarkCount(ls[..|ls| - 1]) + (if Marked(ls[|ls| - 1]) then 1 else 0)
  }

  lemma {:induction false} MarkCountConcat(a: seq<Slot>, b: seq<Slot>)
    ensures MarkCount(a + b) == MarkCount(a) + MarkCount(b)
    decreases |b|
  {
    if b != [] {
      assert (a + b)[..|a + b| - 1] == a + b[..|b| - 1];
      MarkCountConcat(a, b[..|b| - 1]);
    } else {
      assert a + b == a;
    }
  }

  /** Replacing one slot changes the count by what the two slots carry. */
  lemma MarkCountUpdate(ls: seq<Slot>, i: nat, v: Slot)
    requires i < |ls|
    ensures MarkCount(ls[i := v]) + (if Marked(ls[i]) then 1 else 0)
            == MarkCount(ls) + (if Marked(v) then 1 else 0)
  {
    assert ls == ls[..i] + [ls[i]] + ls[i + 1..];
    assert ls[i := v] == ls[..i] + [v] + ls[i + 1..];
    MarkCountConcat(ls[..i] + [ls[i]], ls[i + 1..]);
    MarkCountConcat(ls[..i], [ls[i]]);
    MarkCountConcat(ls[..i] + [v], ls[i + 1..]);
    MarkCountConcat(ls[..i], [v]);
  }

  /** Two marked slots make a count of at least two. */
  lemma MarkCountTwo(ls: seq<Slot>, i: nat, j: nat)
    requires i < j < |ls| && Marked(ls[i]) && Marked(ls[j])
    ensures MarkCount(ls) >= 2
  {
    assert ls == ls[..j] + ls[j..];
    MarkCountConcat(ls[..j], ls[j..]);
    MarkCountUpdate(ls[..j], i, Overlays);
    MarkCountUpdate(ls[j..], 0, Overlays);
  }

  /** Removing slots never adds a mark. */
  lemma MarkCountCut(ls: seq<Slot>, i: nat, j: nat)
    requires i <= j <= |ls|
    ensures MarkCount(ls[..i] + ls[j..]) <= MarkCount(ls)
  {
    assert ls == ls[..i] + ls[i..j] + ls[j..];
    MarkCountConcat(ls[..i] + ls[i..j], ls[j..]);
    MarkCountConcat(ls[..i], ls[i..j]);
    MarkCountConcat(ls[..i], ls[j..]);
  }

  /** Every slot with its mark taken off. */
  function ClearMarks(ls: seq<Slot>): (r: seq<Slot>)
    ensures |r| == |ls|
    ensures forall k :: 0 <= k < |ls| ==> r[k] == Content(ls[k])
  {
    seq(|ls|, k requires 0 <= k < |ls| => Content(ls[k]))
  }

  lemma {:induction false} ClearMarksCount(ls: seq<Slot>)
    ensures MarkCount(ClearMarks(ls)) == 0
    decreases |ls|
  {
    if ls != [] {
      assert ClearMarks(ls)[..|ls| - 1] == ClearMarks(ls[..|ls| - 1]);
      ClearMarksCount(ls[..|ls| - 1]);
    }
  }

  /** `ls` is the overlays slot followed by one stamped line element per entry of `text`. */
  ghost predicate Renders(ls: seq<Slot>, text: seq<string>)
  {
    && |ls| == |text| + 1
    && ls[0] == Overlays
    && forall k :: 1 <= k < |ls| ==> ls[k].Line? && ls[k].html == text[k - 1] + "\n" && ls[k].number == k
  }

  /** What `update` did to the line elements. */
  datatype Patch =
    | Rewrite(line: nat)
    | Splice(insertStart: int, removed: nat, inserted: nat)

  /**
   * The patching half of `update` (src/core.tsx:116-125): given the scan
   * cursors, either rewrite one line's markup in place, or remove the old
   * block, insert the rendered new block after `insertStart` and re-stamp
   * `data-line` on every line after it.
   */
  method ApplyPatch(ls: seq<Slot>, prevLines: seq<string>, newLines: seq<string>, start: nat, end1: int, end2: int)
    returns (r: seq<Slot>, patch: Patch)
    requires Renders(ls, prevLines)
    requires IsPrefixScan(newLines, prevLines, start) && IsSuffixScan(newLines, prevLines, end1, end2)
    ensures Renders(r, newLines)
    ensures MarkCount(r) <= MarkCount(ls)
    ensures patch.Rewrite? <==> start == end1 && start == end2
    ensures patch.Rewrite? ==> patch.line == start && r == ls[start + 1 := ls[start + 1].(html := newLines[start] + "\n")]
    ensures patch.Splice? ==> && patch.insertStart == InsertStart(start, end2)
                              && patch.removed == RemovedCount(start, end1, end2)
                              && patch.inserted == InsertedCount(start, end1, end2)
                              && patch.insertStart + 1 <= |prevLines| && patch.insertStart + 1 <= |newLines|
                              && forall k :: 0 <= k <= patch.insertStart + 1 ==> r[k] == ls[k]
  {
    if start == end1 && start == end2 {
      RewriteRebuilds(newLines, prevLines, start, end1, end2);
      r := ls[start + 1 := ls[start + 1].(html := newLines[start] + "\n")];
      MarkCountUpdate(ls, start + 1, r[start + 1]);
      patch := Rewrite(start);
      return;
    }
    r, patch := SplicePatch(ls, prevLines, newLines, start, end1, end2);
  }

  /** The structural path of ApplyPatch (src/core.tsx:118-125). */
  method SplicePatch(ls: seq<Slot>, prevLines: seq<string>, newLines: seq<string>, start: nat, end1: int, end2: int)
    returns (r: seq<Slot>, patch: Patch)
    requires Renders(ls, prevLines)
    requires IsPrefixScan(newLines, prevLines, start) && IsSuffixScan(newLines, prevLines, end1, end2)
    ensures Renders(r, newLines)
    ensures MarkCount(r) <= MarkCount(ls)
    ensures && patch == Splice(InsertStart(start, end2), RemovedCount(start, end1, end2), InsertedCount(start, end1, end2))
            && patch.insertStart + 1 <= |prevLines| && patch.insertStart + 1 <= |newLines|
            && forall k :: 0 <= k <= patch.insertStart + 1 ==> r[k] == ls[k]
  {
    SpliceArithmetic(|newLines|, |prevLines|, start, end1, end2);
    var insertStart := if end2 < start then end2 else start - 1;
    var block := RenderBlock(newLines, insertStart, end1);
    var from := if end1 < start then end1 else start - 1;
    var cut := RemoveLines(ls, start, from, end2);
    var spliced := InsertBlock(cut, insertStart + 2, block);
    SpliceRenders(ls, prevLines, newLines, start, end1, end2, insertStart, from, block, cut, spliced);
    r := Restamp(spliced, insertStart + 1);
    RestampRenders(ls, spliced, r, newLines, insertStart + 1);
    MarkCountSameMarks(r, spliced);
    patch := Splice(insertStart, RemovedCount(start, end1, end2), InsertedCount(start, end1, end2));
  }

  /** The removal and the insertion together leave the new lines' markup in place, stamps aside. */
  lemma SpliceRenders(ls: seq<Slot>, prev: seq<string>, next: seq<string>, start: nat, end1: int, end2: int,
                      ins: int, from: int, block: seq<Slot>, cut: seq<Slot>, spliced: seq<Slot>)
    requires Renders(ls, prev)
    requires IsPrefixScan(next, prev, start) && IsSuffixScan(next, prev, end1, end2)
    requires ins == InsertStart(start, end2) && from == RemoveFrom(start, end1)
    requires |block| == Span(ins, end1)
    requires forall t :: 0 <= t < |block| ==> block[t] == Line(next[ins + 1 + t] + "\n", 0, false)
    requires CutFrom(ls, cut, start, Span(from, end2))
    requires 0 <= ins + 2 && SplicedIn(cut, block, ins + 2, spliced)
    ensures |spliced| == |next| + 1 && spliced[0] == Overlays
    ensures forall k :: 1 <= k < |spliced| ==> spliced[k].Line? && spliced[k].html == next[k - 1] + "\n"
    ensures forall k :: 0 <= k <= ins + 1 ==> spliced[k] == ls[k]
  {
    var cnt := Span(from, end2);
    SplicePointwise(next, prev, start, end1, end2);
    KeptRenders(ls, prev, start, cnt, cut);
    InsertRenders(next, Kept(prev, start, cnt), ins, |block|, cut, block, spliced);
  }

  /** After re-stamping past `from`, whose front still carries the old stamps, every element is stamped with its index. */
  lemma RestampRenders(ls: seq<Slot>, spliced: seq<Slot>, r: seq<Slot>, next: seq<string>, from: nat)
    requires |spliced| == |next| + 1 && spliced[0] == Overlays
    requires forall k :: 1 <= k < |spliced| ==> spliced[k].Line? && spliced[k].html == next[k - 1] + "\n"
    requires from < |spliced| && from < |ls|
    requires forall k :: 0 <= k <= from ==> spliced[k] == ls[k]
    requires forall k :: 1 <= k <= from ==> ls[k].Line? && ls[k].number == k
    requires |r| == |spliced|
    requires forall k :: 0 <= k < |spliced| ==> r[k] == if from < k then spliced[k].(number := k) else spliced[k]
    ensures Renders(r, next)
    ensures forall k :: 0 <= k < |r| ==> Marked(r[k]) == Marked(spliced[k])
    ensures forall k :: 0 <= k <= from ==> r[k] == ls[k]
  {
  }

  /** `cut` is `ls` with the `cnt` slots after slot `start` taken out. */
  ghost predicate CutFrom(ls: seq<Slot>, cut: seq<Slot>, start: nat, cnt: nat)
  {
    && start + 1 + cnt <= |ls|
    && |cut| == |ls| - cnt
    && (forall k :: 0 <= k <= start ==> cut[k] == ls[k])
    && (forall k {:trigger cut[k]} :: start < k < |cut| ==> cut[k] == ls[k + cnt])
  }

  /** `spliced` is `cut` with `block` put in at index `p`. */
  ghost predicate SplicedIn(cut: seq<Slot>, block: seq<Slot>, p: nat, spliced: seq<Slot>)
  {
    && p <= |cut|
    && |spliced| == |cut| + |block|
    && (forall k :: 0 <= k < p ==> spliced[k] == cut[k])
    && (forall k {:trigger spliced[k]} :: p <= k < p + |block| ==> spliced[k] == block[k - p])
    && (forall k {:trigger spliced[k]} :: p + |block| <= k < |spliced| ==> spliced[k] == cut[k - |block|])
  }

  /**
   * The markup of new lines `insertStart + 1 .. end1` as fresh elements
   * without `data-line` (src/core.tsx:119-121).
   */
  method RenderBlock(newLines: seq<string>, insertStart: int, end1: int) returns (block: seq<Slot>)
    requires -1 <= insertStart && end1 < |newLines|
    ensures |block| == Span(insertStart, end1)
    ensures forall t :: 0 <= t < |block| ==> block[t] == Line(newLines[insertStart + 1 + t] + "\n", 0, false)
  {
    var i := insertStart;
    block := [];
    while i < end1
      invariant insertStart <= i && (i <= end1 || block == [])
      invariant |block| == i - insertStart
      invariant forall t :: 0 <= t < |block| ==> block[t] == Line(newLines[insertStart + 1 + t] + "\n", 0, false)
    {
      i := i + 1;
      block := block + [Line(newLines[i] + "\n", 0, false)];
    }
  }

  /**
   * The removal loop (src/core.tsx:123): counting `i` from `from` up to
   * `end2`, take out the element at index `start + 1` each time.
   */
  method RemoveLines(ls: seq<Slot>, start: nat, from: int, end2: int) returns (r: seq<Slot>)
    requires start + 1 + Span(from, end2) <= |ls|
    ensures CutFrom(ls, r, start, Span(from, end2))
    ensures MarkCount(r) <= MarkCount(ls)
  {
    var i := from;
    r := ls;
    ghost var removed := 0;
    while i < end2
      invariant i <= end2 ==> removed == i - from
      invariant i > end2 ==> removed == 0 && i == from
      invariant start + 1 + removed <= |ls|
      invariant r == ls[..start + 1] + ls[start + 1 + removed..]
    {
      r := r[..start + 1] + r[start + 2..];
      i := i + 1;
      removed := removed + 1;
    }
    MarkCountCut(ls, start + 1, start + 1 + removed);
  }

  /**
   * The renumbering loop (src/core.tsx:125): every element after index
   * `from` gets its own index as `data-line`.
   */
  method Restamp(ls: seq<Slot>, from: int) returns (r: seq<Slot>)
    requires 0 <= from < |ls|
    requires forall k :: from < k < |ls| ==> ls[k].Line?
    ensures |r| == |ls|
    ensures forall k :: 0 <= k < |ls| ==> r[k] == if from < k then ls[k].(number := k) else ls[k]
  {
    var i := from;
    r := ls;
    while i < |ls| - 1
      invariant from <= i < |ls|
      invariant |r| == |ls|
      invariant forall k :: 0 <= k < |r| ==> r[k] == if from < k <= i then ls[k].(number := k) else ls[k]
    {
      i := i + 1;
      r := r[i := r[i].(number := i)];
    }
  }

  /** After the removal, the elements render the old lines without the removed block. */
  lemma KeptRenders(ls: seq<Slot>, prev: seq<string>, start: nat, cnt: nat, cut: seq<Slot>)
    requires Renders(ls, prev) && start + cnt <= |prev|
    requires CutFrom(ls, cut, start, cnt)
    ensures |cut| == |Kept(prev, start, cnt)| + 1 && cut[0] == Overlays
    ensures forall k :: 1 <= k < |cut| ==> cut[k].Line? && cut[k].html == Kept(prev, start, cnt)[k - 1] + "\n"
    ensures forall k :: 0 <= k <= start ==> cut[k] == ls[k]
  {
    assert cut[0] == ls[0];
    var kept := Kept(prev, start, cnt);
    forall k | 1 <= k < |cut|
      ensures cut[k].Line? && cut[k].html == kept[k - 1] + "\n"
    {
      if k <= start {
        assert cut[k] == ls[k] && kept[k - 1] == prev[k - 1];
      } else {
        assert cut[k] == ls[k + cnt] && kept[k - 1] == prev[k - 1 + cnt];
      }
    }
  }

  /** Putting the rendered block in after line `ins + 1` makes the elements render the new lines. */
  lemma InsertRenders(next: seq<string>, kept: seq<string>, ins: int, m: nat,
                      cut: seq<Slot>, block: seq<Slot>, spliced: seq<Slot>)
    requires -1 <= ins && ins + 1 <= |kept| && |kept| + m == |next|
    requires forall k {:trigger next[k]} :: 0 <= k <= ins ==> kept[k] == next[k]
    requires forall k {:trigger next[k]} :: ins + 1 + m <= k < |next| ==> kept[k - m] == next[k]
    requires |cut| == |kept| + 1 && cut[0] == Overlays
    requires forall k :: 1 <= k < |cut| ==> cut[k].Line? && cut[k].html == kept[k - 1] + "\n"
    requires |block| == m
    requires forall t :: 0 <= t < m ==> block[t] == Line(next[ins + 1 + t] + "\n", 0, false)
    requires SplicedIn(cut, block, ins + 2, spliced)
    ensures |spliced| == |next| + 1 && spliced[0] == Overlays
    ensures forall k :: 1 <= k < |spliced| ==> spliced[k].Line? && spliced[k].html == next[k - 1] + "\n"
  {
    forall k | 1 <= k < |spliced|
      ensures spliced[k].Line? && spliced[k].html == next[k - 1] + "\n"
    {
      if k < ins + 2 {
        assert spliced[k] == cut[k] && kept[k - 1] == next[k - 1];
      } else if k < ins + 2 + m {
        assert spliced[k] == block[k - (ins + 2)];
      } else {
        assert spliced[k] == cut[k - m] && kept[k - 1 - m] == next[k - 1];
      }
    }
  }

  /** `insertAdjacentHTML("afterend", ...)` on element `p - 1`, skipped for an empty block. */
  method InsertBlock(cut: seq<Slot>, p: nat, block: seq<Slot>) returns (spliced: seq<Slot>)
    requires p <= |cut|
    requires forall t :: 0 <= t < |block| ==> !Marked(block[t])
    ensures SplicedIn(cut, block, p, spliced)
    ensures MarkCount(spliced) == MarkCount(cut)
  {
    spliced := cut;
    if block != [] {
      spliced := cut[..p] + block + cut[p..];
      MarkCountInsert(cut, block, p);
    }
  }

  /** Inserting unmarked elements adds no mark. */
  lemma MarkCountInsert(cut: seq<Slot>, block: seq<Slot>, p: nat)
    requires p <= |cut|
    requires forall t :: 0 <= t < |block| ==> !Marked(block[t])
    ensures MarkCount(cut[..p] + block + cut[p..]) == MarkCount(cut)
  {
    MarkCountConcat(cut[..p] + block, cut[p..]);
    MarkCountConcat(cut[..p], block);
    MarkCountConcat(cut[..p], cut[p..]);
    assert cut == cut[..p] + cut[p..];
    assert ClearMarks(block) == block;
    ClearMarksCount(block);
  }

  /** Slots that carry the same marks have the same count. */
  lemma {:induction false} MarkCountSameMarks(a: seq<Slot>, b: seq<Slot>)
    requires |a| == |b|
    requires forall k :: 0 <= k < |a| ==> Marked(a[k]) == Marked(b[k])
    ensures MarkCount(a) == MarkCount(b)
    decreases |a|
  {
    if a != [] {
      MarkCountSameMarks(a[..|a| - 1], b[..|b| - 1]);
    }
  }

  /** `s` with the line-element marks set aside: what update writes. */
  function Content(s: Slot): Slot
  {
    if s.Line? then s.(active := false) else s
  }

  /** When slot `n` carries the only mark, no other slot carries one. */
  lemma MarksBeside(ls: seq<Slot>, n: nat)
    requires n < |ls| && Marked(ls[n])
    ensures forall k :: 0 <= k < |ls| && k != n && Marked(ls[k]) ==> MarkCount(ls) >= 2
  {
    forall k | 0 <= k < |ls| && k != n && Marked(ls[k])
      ensures MarkCount(ls) >= 2
    {
      if k < n {
        MarkCountTwo(ls, k, n);
      } else {
        MarkCountTwo(ls, n, k);
      }
    }
  }

  /**
   * Makes slot `n` the one active line element: unless it already is, every
   * mark is removed and slot `n` gains one (src/core.tsx:55-59).
   */
  method MarkActive(ls: seq<Slot>, n: nat) returns (r: seq<Slot>)
    requires n < |ls| && ls[n].Line? && MarkCount(ls) <= 1
    ensures |r| == |ls| && MarkCount(r) <= 1
    ensures forall k :: 0 <= k < |ls| ==> Content(r[k]) == Content(ls[k])
    ensures forall k :: 0 <= k < |ls| ==> Marked(r[k]) == (k == n)
    ensures ls[n].active ==> r == ls
  {
    if !ls[n].active {
      r := ClearMarks(ls)[n := ls[n].(active := true)];
      ClearMarksCount(ls);
      MarkCountUpdate(ClearMarks(ls), n, r[n]);
    } else {
      MarksBeside(ls, n);
      r := ls;
    }
  }

  /** Two slot sequences that differ at most in their marks. */
  ghost predicate SameContent(a: seq<Slot>, b: seq<Slot>)
  {
    |b| == |a| && forall k :: 0 <= k < |a| ==> Content(b[k]) == Content(a[k])
  }

  /** Marks aside, two slot sequences that agree render the same lines. */
  lemma RendersUpToMarks(a: seq<Slot>, b: seq<Slot>, text: seq<string>)
    requires Renders(a, text) && SameContent(a, b)
    ensures Renders(b, text)
  {
    assert Content(b[0]) == Content(a[0]);
    forall k | 1 <= k < |b|
      ensures b[k].Line? && b[k].html == text[k - 1] + "\n" && b[k].number == k
    {
      assert Content(b[k]) == Content(a[k]);
    }
  }

  /** The new lines differ from the old ones in exactly one place. */
  ghost predicate OneLineChanged(prev: seq<string>, next: seq<string>)
  {
    |next| == |prev| && exists x :: 0 <= x < |next| && next[x] != prev[x] && next == prev[x := next[x]]
  }

  // ---------------------------------------------------------------------------
  // Events

  datatype EventName = TokenizeEvent | UpdateEvent | SelectionChangeEvent

  /** The event's name as the editor's `on` receives it. */
  function EventKey(e: EventName): string
  {
    match e
    case TokenizeEvent => "tokenize"
    case UpdateEvent => "update"
    case SelectionChangeEvent => "selectionChange"
  }

  /** `c.toUpperCase()` for the ASCII letters event names are made of. */
  function Upper(c: char): char
  {
    if 'a' <= c <= 'z' then (c as int - 32) as char else c
  }

  /** The prop that also receives an event: `"on" + name[0].toUpperCase() + name.slice(1)`. */
  function CallbackKey(e: EventName): string
  {
    var name := EventKey(e);
    "on" + [Upper(name[0])] + name[1..]
  }

  /** The three callback props, one per event, so a set of events stands for the set of callback props given. */
  lemma CallbackKeys(a: EventName, b: EventName)
    ensures CallbackKey(TokenizeEvent) == "onTokenize"
    ensures CallbackKey(UpdateEvent) == "onUpdate"
    ensures CallbackKey(SelectionChangeEvent) == "onSelectionChange"
    ensures CallbackKey(a) == CallbackKey(b) ==> a == b
  {
    assert CallbackKey(TokenizeEvent) == "onTokenize";
    assert CallbackKey(UpdateEvent) == "onUpdate";
    assert CallbackKey(SelectionChangeEvent) == "onSelectionChange";
    assert "onTokenize"[2] != "onUpdate"[2] && "onUpdate"[2] != "onSelectionChange"[2] && "onTokenize"[2] != "onSelectionChange"[2];
  }

  /** Who was called: a handler registered through `on`, identified by a number, or the event's callback prop. */
  datatype Handler = Listener(id: nat) | CallbackProp
  datatype Call = Call(event: EventName, handler: Handler)

  predicate Distinct(hs: seq<nat>)
  {
    forall i, j :: 0 <= i < j < |hs| ==> hs[i] != hs[j]
  }

  /** `set.add(h)`: appended unless already present, so the registration order is kept. */
  function AddHandler(hs: seq<nat>, h: nat): seq<nat>
  {
    if h in hs then hs else hs + [h]
  }

  /** `set.delete(h)`. */
  function RemoveHandler(hs: seq<nat>, h: nat): seq<nat>
  {
    if hs == [] then [] else (if hs[0] == h then [] else [hs[0]]) + RemoveHandler(hs[1..], h)
  }

  /** Adding keeps the handlers a set: duplicates collapse, and adding again changes nothing. */
  lemma AddHandlerSpec(hs: seq<nat>, h: nat)
    ensures forall x :: x in AddHandler(hs, h) <==> x in hs || x == h
    ensures Distinct(hs) ==> Distinct(AddHandler(hs, h))
    ensures AddHandler(AddHandler(hs, h), h) == AddHandler(hs, h)
  {
  }

  /** Removing takes out exactly `h`, and keeps the others distinct and in order. */
  lemma {:induction false} RemoveHandlerSpec(hs: seq<nat>, h: nat)
    ensures forall x :: x in RemoveHandler(hs, h) <==> x in hs && x != h
    ensures Distinct(hs) ==> Distinct(RemoveHandler(hs, h))
    ensures h !in hs ==> RemoveHandler(hs, h) == hs
    decreases |hs|
  {
    if hs != [] {
      RemoveHandlerSpec(hs[1..], h);
      assert hs == [hs[0]] + hs[1..];
      if Distinct(hs) {
        assert Distinct(hs[1..]);
        assert hs[0] !in hs[1..];
      }
    }
  }

  /** The function `on` returns undoes it: subscribing a new handler and unsubscribing it restores the set. */
  lemma {:induction false} OffUndoesOn(hs: seq<nat>, h: nat)
    requires h !in hs
    ensures RemoveHandler(AddHandler(hs, h), h) == hs
    decreases |hs|
  {
    if hs == [] {
      assert AddHandler(hs, h) == [h];
    } else {
      assert (hs + [h])[1..] == hs[1..] + [h];
      OffUndoesOn(hs[1..], h);
      assert hs == [hs[0]] + hs[1..];
    }
  }

  /** One call per registered handler, in registration order. */
  function ListenerCalls(name: EventName, hs: seq<nat>): (r: seq<Call>)
    ensures |r| == |hs|
  {
    seq(|hs|, k requires 0 <= k < |hs| => Call(name, Listener(hs[k])))
  }

  /** Everything `dispatchEvent(name, ...)` calls: the handlers in the event's set, then the callback prop. */
  function Invocations(name: EventName, listeners: map<EventName, seq<nat>>, callbacks: set<EventName>): seq<Call>
  {
    (if name in listeners then ListenerCalls(name, listeners[name]) else [])
    + (if name in callbacks then [Call(name, CallbackProp)] else [])
  }

  /**
   * A dispatch reaches a handler exactly when it is subscribed to that
   * event, once each, and the callback prop comes after every handler.
   */
  lemma DispatchReaches(name: EventName, listeners: map<EventName, seq<nat>>, callbacks: set<EventName>)
    requires name in listeners ==> Distinct(listeners[name])
    ensures forall h :: Call(name, Listener(h)) in Invocations(name, listeners, callbacks) <==>
                        name in listeners && h in listeners[name]
    ensures forall i, j :: 0 <= i < j < |Invocations(name, listeners, callbacks)| ==>
                           Invocations(name, listeners, callbacks)[i] != Invocations(name, listeners, callbacks)[j]
    ensures forall c :: c in Invocations(name, listeners, callbacks) ==> c.event == name
    ensures Call(name, CallbackProp) in Invocations(name, listeners, callbacks) <==> name in callbacks
    ensures name in callbacks ==>
            Invocations(name, listeners, callbacks)[|Invocations(name, listeners, callbacks)| - 1] == Call(name, CallbackProp)
  {
    var hs := if name in listeners then listeners[name] else [];
    assert (if name in listeners then ListenerCalls(name, listeners[name]) else []) == ListenerCalls(name, hs);
    forall h | Call(name, Listener(h)) in Invocations(name, listeners, callbacks)
      ensures name in listeners && h in listeners[name]
    {
      var i :| 0 <= i < |Invocations(name, listeners, callbacks)| && Invocations(name, listeners, callbacks)[i] == Call(name, Listener(h));
      assert i < |hs| && hs[i] == h;
    }
    forall h | name in listeners && h in listeners[name]
      ensures Call(name, Listener(h)) in Invocations(name, listeners, callbacks)
    {
      var i :| 0 <= i < |hs| && hs[i] == h;
      assert Invocations(name, listeners, callbacks)[i] == Call(name, Listener(h));
    }
  }

  /** After the handler is unsubscribed, no later dispatch reaches it. */
  lemma UnsubscribedNotCalled(name: EventName, e: EventName, listeners: map<EventName, seq<nat>>, callbacks: set<EventName>, h: nat)
    requires e in listeners && Distinct(listeners[e])
    requires name in listeners ==> Distinct(listeners[name])
    ensures var after := listeners[e := RemoveHandler(listeners[e], h)];
            Call(name, Listener(h)) in Invocations(name, after, callbacks) <==>
            name != e && name in listeners && h in listeners[name]
  {
    var after := listeners[e := RemoveHandler(listeners[e], h)];
    RemoveHandlerSpec(listeners[e], h);
    DispatchReaches(name, after, callbacks);
  }

  // ---------------------------------------------------------------------------
  // Container class

  /**
   * The props the editor reads; `lineNumbers` is false only when explicitly
   * set so, and `callbacks` holds the events whose callback prop is set.
   */
  datatype Props = Props(lineNumbers: bool, wordWrap: bool, rtl: bool, readOnly: bool, callbacks: set<EventName>)

  /** The container's class string, built from the props, the selection and the focus (src/core.tsx:95-99). */
  function ClassName(language: string, props: Props, sel: Selection, focused: bool): string
  {
    "prism-code-editor language-" + language + (if props.lineNumbers then " show-line-numbers" else "")
    + WrapClass(props.wordWrap) + RtlClass(props.rtl) + SelectionClass(sel.start < sel.end)
    + FocusClass(focused) + ReadOnlyClass(props.readOnly)
  }

  function WrapClass(wrap: bool): string { " pce-" + (if wrap then "" else "no") + "wrap" }
  function RtlClass(rtl: bool): string { if rtl then " pce-rtl" else "" }
  function SelectionClass(has: bool): string { " pce-" + (if has then "has" else "no") + "-selection" }
  function FocusClass(focused: bool): string { if focused then " pce-focus" else "" }
  function ReadOnlyClass(readOnly: bool): string { if readOnly then " pce-readonly" else "" }

  datatype ClassFlags = ClassFlags(wordWrap: bool, rtl: bool, hasSelection: bool, focused: bool, readOnly: bool)

  /** Strips `t` off the end of `c` when it is there, and says whether it was. */
  function Peel(c: string, t: string): (bool, string)
  {
    if EndsWith(c, t) then (true, c[..|c| - |t|]) else (false, c)
  }

  /**
   * Reads the state flags back from the end of a class string, the way a
   * stylesheet matches them; None when the string has no wrap or no
   * selection flag where one belongs.
   */
  function ReadFlags(c: string): Option<ClassFlags>
  {
    var (readOnly, c1) := Peel(c, " pce-readonly");
    var (focused, c2) := Peel(c1, " pce-focus");
    var (has, afterHas) := Peel(c2, " pce-has-selection");
    var (no, afterNo) := Peel(c2, " pce-no-selection");
    if !has && !no then None
    else
      var (rtl, c4) := Peel(if has then afterHas else afterNo, " pce-rtl");
      if Peel(c4, " pce-wrap").0 then Some(ClassFlags(true, rtl, has, focused, readOnly))
      else if Peel(c4, " pce-nowrap").0 then Some(ClassFlags(false, rtl, has, focused, readOnly))
      else None
  }

  lemma EndsWithAppend(a: string, t: string)
    ensures EndsWith(a + t, t) && (a + t)[..|a + t| - |t|] == a
  {
    assert (a + t)[|a|..] == t;
  }

  /** A string that ends with `t` agrees with `t` on its `k`-th character from the end. */
  lemma EndsWithAt(s: string, t: string, k: nat)
    requires k < |t|
    ensures EndsWith(s, t) ==> s[|s| - 1 - k] == t[|t| - 1 - k]
  {
    if EndsWith(s, t) {
      assert s[|s| - |t|..][|t| - 1 - k] == t[|t| - 1 - k];
    }
  }

  /** Appending `t` or nothing to `p`: peeling `t` tells which, and gives `p` back. */
  lemma Layer(p: string, t: string, on: bool)
    requires 0 < |t| <= |p| && p[|p| - 1] != t[|t| - 1]
    ensures Peel(p + (if on then t else ""), t) == (on, p)
  {
    var s := p + (if on then t else "");
    if on {
      EndsWithAppend(p, t);
    } else {
      assert s == p;
      EndsWithAt(s, t, 0);
    }
  }

  lemma WrapLayer(p: string, wrap: bool)
    ensures var s := p + WrapClass(wrap);
            && Peel(s, " pce-wrap").0 == wrap
            && Peel(s, " pce-nowrap").0 == !wrap
            && |s| >= |p| + 9 && s[|s| - 1] == 'p'
  {
    var t := WrapClass(wrap);
    var s := p + t;
    if wrap {
      assert t == " pce-wrap";
      EndsWithAt(s, " pce-nowrap", 4);
    } else {
      assert t == " pce-nowrap";
      EndsWithAt(s, " pce-wrap", 4);
    }
    EndsWithAppend(p, t);
  }

  lemma RtlLayer(p: string, rtl: bool)
    requires |p| >= 8 && p[|p| - 1] == 'p'
    ensures var s := p + RtlClass(rtl);
            && Peel(s, " pce-rtl") == (rtl, p)
            && |s| >= |p| && (s[|s| - 1] == 'p' || s[|s| - 1] == 'l')
  {
    Layer(p, " pce-rtl", rtl);
  }

  lemma SelectionLayer(p: string, has: bool)
    requires 17 <= |p|
    ensures var s := p + SelectionClass(has);
            && Peel(s, " pce-has-selection").0 == has
            && (has ==> Peel(s, " pce-has-selection").1 == p)
            && (!has ==> Peel(s, " pce-no-selection") == (true, p))
            && |s| >= 17 && s[|s| - 1] == 'n'
  {
    var t := SelectionClass(has);
    var s := p + t;
    if has {
      assert t == " pce-has-selection";
    } else {
      assert t == " pce-no-selection";
      EndsWithAt(s, " pce-has-selection", 10);
    }
    EndsWithAppend(p, t);
  }

  lemma FocusLayer(p: string, focused: bool)
    requires |p| >= 10 && p[|p| - 1] == 'n'
    ensures var s := p + FocusClass(focused);
            && Peel(s, " pce-focus") == (focused, p)
            && |s| >= |p| && (s[|s| - 1] == 's' || s[|s| - 1] == 'n')
  {
    Layer(p, " pce-focus", focused);
  }

  lemma ReadOnlyLayer(p: string, readOnly: bool)
    requires |p| >= 13 && (p[|p| - 1] == 's' || p[|p| - 1] == 'n')
    ensures Peel(p + ReadOnlyClass(readOnly), " pce-readonly") == (readOnly, p)
  {
    Layer(p, " pce-readonly", readOnly);
  }

  /**
   * The class string carries the wrap, rtl, selection, focus and read-only
   * flags recoverably: ` pce-has-selection` exactly when start < end,
   * ` pce-focus` exactly when focused, ` pce-readonly` exactly when read-only.
   */
  lemma ClassNameReadsBack(language: string, props: Props, sel: Selection, focused: bool)
    ensures ReadFlags(ClassName(language, props, sel, focused))
            == Some(ClassFlags(props.wordWrap, props.rtl, sel.start < sel.end, focused, props.readOnly))
  {
    var head := "prism-code-editor language-" + language + (if props.lineNumbers then " show-line-numbers" else "");
    var c4 := head + WrapClass(props.wordWrap);
    var c3 := c4 + RtlClass(props.rtl);
    var c2 := c3 + SelectionClass(sel.start < sel.end);
    var c1 := c2 + FocusClass(focused);
    WrapLayer(head, props.wordWrap);
    RtlLayer(c4, props.rtl);
    SelectionLayer(c3, sel.start < sel.end);
    FocusLayer(c2, focused);
    ReadOnlyLayer(c1, props.readOnly);
  }

  /** So the string changes whenever one of those flags does, and updateClass then writes it. */
  lemma ClassNameTellsFlagsApart(language: string, props: Props, sel: Selection, focused: bool,
                                 language': string, props': Props, sel': Selection, focused': bool)
    requires ClassName(language, props, sel, focused) == ClassName(language', props', sel', focused')
    ensures props.wordWrap == props'.wordWrap && props.rtl == props'.rtl && props.readOnly == props'.readOnly
    ensures (sel.start < sel.end) == (sel'.start < sel'.end) && focused == focused'
  {
    ClassNameReadsBack(language, props, sel, focused);
    ClassNameReadsBack(language', props', sel', focused');
  }

  // ---------------------------------------------------------------------------
  // The editor

  /** The textarea's value and its selection. */
  datatype TextareaState = TextareaState(value: string, sel: Selection)

  /**
   * A textarea as the browser keeps it: the selection lies inside the
   * value, its start is never past its end, and its direction is one of the
   * three the HTML standard allows.
   */
  type Textarea = t: TextareaState | t.sel.start <= t.sel.end <= |t.value| && t.sel.direction in {"forward", "backward", "none"}
    witness TextareaState("", Selection(0, 0, "none"))

  /** The line the active-line rule picks: the line holding the caret, counted from 1. */
  function ActiveLineOf(value: string, sel: Selection): nat
  {
    1 + Newlines(value, 0, Min(Caret(sel), |value|))
  }

  /** The picked line is a line of the value. */
  lemma ActiveLineInRange(value: string, sel: Selection)
    ensures 1 <= ActiveLineOf(value, sel) <= 1 + Newlines(value, 0, |value|)
  {
    NewlinesMonotone(value, Min(Caret(sel), |value|), |value|);
  }

  /** The wrapper's children are laid out: the overlays first, line elements after, at most one active. */
  ghost predicate Laid(lines: seq<Slot>, lineCount: nat)
  {
    && |lines| == lineCount + 1
    && lines[0] == Overlays
    && (forall k :: 1 <= k < |lines| ==> lines[k].Line?)
    && MarkCount(lines) <= 1
  }

  /** The line count is that of the rendered value. */
  ghost predicate Synced(value: string, lineCount: nat)
  {
    lineCount == 1 + Newlines(value, 0, |value|)
  }

  /**
   * Line `n` is the caret's line, and the one line element carrying the
   * `active-line` mark.
   */
  ghost predicate ActiveAt(lines: seq<Slot>, n: nat, value: string, sel: Selection)
  {
    && n == ActiveLineOf(value, sel) && 1 <= n < |lines|
    && forall k :: 1 <= k < |lines| ==> Marked(lines[k]) == (k == n)
  }

  /** The container shows the class string last computed, once there is one. */
  ghost predicate Shown(prevClass: Option<string>, className: string)
  {
    prevClass.Some? ==> className == prevClass.value
  }

  /** Every event's handler set holds each handler once. */
  ghost predicate Registered(listeners: map<EventName, seq<nat>>)
  {
    forall e :: e in listeners ==> Distinct(listeners[e])
  }

  /**
   * `getInputSelection` (src/core.tsx:32-35): the textarea's selection, or
   * an empty one at the start when there is no textarea. Either way the
   * range is well formed and lies inside the textarea's value.
   */
  function SelectionOf(t: Option<Textarea>): (sel: Selection)
    ensures sel.start <= sel.end && sel.direction in {"forward", "backward", "none"}
    ensures t.Some? ==> sel.end <= |t.value.value|
    ensures t.None? ==> sel.end == 0
  {
    match t
    case Some(ta) => ta.sel
    case None => Selection(0, 0, "none")
  }

  class Editor {
    var props: Props
    var language: string
    /** The textarea, once mounted. */
    var textarea: Option<Textarea>
    /** The value the editor was last given through its props. */
    var prevVal: Option<string>
    /** The text the lines were last rendered from. */
    var value: string
    var prevLines: seq<string>
    var lineCount: nat
    /** The wrapper's children: the overlays container, then one element per line. */
    var lines: seq<Slot>
    var activeLineNumber: nat
    var prevClass: Option<string>
    var className: string
    var focused: bool
    var listeners: map<EventName, seq<nat>>
    /** Every handler invocation so far, in order. */
    var calls: seq<Call>
    /** Whether a selection change on the textarea updates the active line. */
    var handleSelectionChange: bool
    /** Whether a timer is armed to set handleSelectionChange again. */
    var reenablePending: bool

    /**
     * The line elements render the last lines, the container shows the
     * last class computed, and the handler sets hold no duplicates.
     */
    ghost predicate Valid()
      reads this
    {
      && Laid(lines, lineCount)
      && Renders(lines, prevLines)
      && lineCount == |prevLines|
      && Shown(prevClass, className)
      && Registered(listeners)
    }

    constructor(props: Props, language: string)
      ensures Valid()
      ensures this.props == props && this.language == language
      ensures textarea == None && prevVal == None && value == "" && prevLines == [] && lineCount == 0
      ensures lines == [Overlays] && activeLineNumber == 0 && prevClass == None && !focused
      ensures listeners == map[] && calls == [] && handleSelectionChange && !reenablePending
    {
      this.props := props;
      this.language := language;
      textarea := None;
      prevVal := None;
      value := "";
      prevLines := [];
      lineCount := 0;
      lines := [Overlays];
      activeLineNumber := 0;
      prevClass := None;
      className := "";
      focused := false;
      listeners := map[];
      calls := [];
      handleSelectionChange := true;
      reenablePending := false;
    }

    /** The textarea's ref callback. */
    method Mount(t: Textarea)
      modifies this`textarea
      ensures textarea == Some(t)
    {
      textarea := Some(t);
    }

    /**
     * `on(name, h)` (src/core.tsx:155-160): adds `h` to the event's set,
     * creating the set on first use.
     */
    method On(name: EventName, h: nat)
      requires Valid()
      modifies this`listeners
      ensures Valid()
      ensures listeners == old(listeners)[name := AddHandler(if name in old(listeners) then old(listeners)[name] else [], h)]
    {
      var hs := if name in listeners then listeners[name] else [];
      AddHandlerSpec(hs, h);
      listeners := listeners[name := AddHandler(hs, h)];
    }

    /** The function `on` returns: deletes `h` from the event's set. */
    method Off(name: EventName, h: nat)
      requires Valid() && name in listeners
      modifies this`listeners
      ensures Valid()
      ensures listeners == old(listeners)[name := RemoveHandler(old(listeners)[name], h)]
    {
      RemoveHandlerSpec(listeners[name], h);
      listeners := listeners[name := RemoveHandler(listeners[name], h)];
    }

    /**
     * `dispatchEvent(name, ...)` (src/core.tsx:82-90): every handler in the
     * event's set in order, then the matching callback prop.
     */
    method DispatchEvent(name: EventName)
      modifies this`calls
      ensures calls == old(calls) + Invocations(name, listeners, props.callbacks)
    {
      if name in listeners {
        var hs := listeners[name];
        var i := 0;
        while i < |hs|
          invariant 0 <= i <= |hs|
          invariant calls == old(calls) + ListenerCalls(name, hs[..i])
        {
          assert ListenerCalls(name, hs[..i + 1]) == ListenerCalls(name, hs[..i]) + [Call(name, Listener(hs[i]))];
          calls := calls + [Call(name, Listener(hs[i]))];
          i := i + 1;
        }
        assert hs[..i] == hs;
      }
      if name in props.callbacks {
        calls := calls + [Call(name, CallbackProp)];
      }
    }

    /**
     * `updateClass` (src/core.tsx:92-101): the container's class is written
     * only when the computed string differs from the last one written.
     */
    method UpdateClass() returns (wrote: bool)
      requires Shown(prevClass, className)
      modifies this`prevClass, this`className
      ensures var c := ClassName(language, props, SelectionOf(textarea), focused);
              && prevClass == Some(c) && className == c
              && wrote == (old(prevClass) != Some(c))
              && (!wrote ==> className == old(className))
    {
      var sel := SelectionOf(textarea);
      var newClass := ClassName(language, props, sel, focused);
      wrote := prevClass != Some(newClass);
      if wrote {
        prevClass := Some(newClass);
        className := newClass;
      }
    }

    /** The textarea's focus listener (src/core.tsx:195-199). */
    method Focus()
      requires Shown(prevClass, className)
      modifies this`focused, this`prevClass, this`className
      ensures focused
      ensures className == ClassName(language, props, SelectionOf(textarea), true) && prevClass == Some(className)
    {
      focused := true;
      var _ := UpdateClass();
    }

    /** The textarea's blur listener (src/core.tsx:190-194). */
    method Blur()
      requires Shown(prevClass, className)
      modifies this`focused, this`prevClass, this`className
      ensures !focused
      ensures className == ClassName(language, props, SelectionOf(textarea), false) && prevClass == Some(className)
    {
      focused := false;
      var _ := UpdateClass();
    }

    /**
     * `updateSelection(force)` (src/core.tsx:49-65): when enabled, the line
     * holding the caret becomes the one active line; the marks move only
     * when it is not already active. The class is refreshed and
     * `selectionChange` dispatched.
     */
    method UpdateSelection(force: bool)
      requires Laid(lines, lineCount) && Synced(value, lineCount) && Shown(prevClass, className)
      modifies this`lines, this`activeLineNumber, this`prevClass, this`className, this`calls
      ensures Laid(lines, lineCount)
      ensures SameContent(old(lines), lines)
      ensures !(handleSelectionChange || force) ==>
                lines == old(lines) && activeLineNumber == old(activeLineNumber) && calls == old(calls)
                && prevClass == old(prevClass) && className == old(className)
      ensures handleSelectionChange || force ==>
                && ActiveAt(lines, activeLineNumber, value, SelectionOf(textarea))
                && (old(lines)[activeLineNumber].active ==> lines == old(lines))
                && className == ClassName(language, props, SelectionOf(textarea), focused)
                && prevClass == Some(className)
                && calls == old(calls) + Invocations(SelectionChangeEvent, listeners, props.callbacks)
    {
      if handleSelectionChange || force {
        SyncSelection();
      }
    }

    /** What updateSelection does once enabled (src/core.tsx:51-63). */
    method SyncSelection()
      requires Laid(lines, lineCount) && Synced(value, lineCount) && Shown(prevClass, className)
      modifies this`lines, this`activeLineNumber, this`prevClass, this`className, this`calls
      ensures Laid(lines, lineCount)
      ensures SameContent(old(lines), lines)
      ensures ActiveAt(lines, activeLineNumber, value, SelectionOf(textarea))
      ensures old(lines)[activeLineNumber].active ==> lines == old(lines)
      ensures className == ClassName(language, props, SelectionOf(textarea), focused) && prevClass == Some(className)
      ensures calls == old(calls) + Invocations(SelectionChangeEvent, listeners, props.callbacks)
    {
      MoveActiveLine();
      var _ := UpdateClass();
      DispatchEvent(SelectionChangeEvent);
    }

    /** The active-line part of updateSelection (src/core.tsx:52-60). */
    method MoveActiveLine()
      requires Laid(lines, lineCount) && Synced(value, lineCount)
      modifies this`lines, this`activeLineNumber
      ensures Laid(lines, lineCount)
      ensures SameContent(old(lines), lines)
      ensures ActiveAt(lines, activeLineNumber, value, SelectionOf(textarea))
      ensures old(lines)[activeLineNumber].active ==> lines == old(lines)
    {
      var selection := SelectionOf(textarea);
      activeLineNumber := NumLines(value, 0, Caret(selection));
      ActiveLineInRange(value, selection);
      lines := MarkActive(lines, activeLineNumber);
    }

    /**
     * `update` (src/core.tsx:103-135): re-renders after the textarea's value
     * changed. `newLines` is the highlighted markup of that value split at
     * its newlines, so it has one entry per line.
     */
    method Update(newLines: seq<string>) returns (patch: Patch)
      requires Valid() && textarea.Some?
      requires |newLines| == 1 + Newlines(textarea.value.value, 0, |textarea.value.value|)
      modifies this`value, this`prevLines, this`lineCount, this`lines, this`activeLineNumber
      modifies this`prevClass, this`className, this`calls, this`handleSelectionChange, this`reenablePending
      ensures Valid() && Synced(value, lineCount)
      ensures value == textarea.value.value && prevLines == newLines
      ensures ActiveAt(lines, activeLineNumber, value, SelectionOf(textarea))
      ensures className == ClassName(language, props, SelectionOf(textarea), focused) && prevClass == Some(className)
      ensures patch.Rewrite? <==> OneLineChanged(old(prevLines), newLines)
      ensures newLines == old(prevLines) ==> patch == Splice(patch.insertStart, 0, 0)
      ensures calls == old(calls) + Invocations(TokenizeEvent, listeners, props.callbacks)
                                  + Invocations(UpdateEvent, listeners, props.callbacks)
                                  + Invocations(SelectionChangeEvent, listeners, props.callbacks)
      ensures !handleSelectionChange && reenablePending == (old(reenablePending) || old(handleSelectionChange))
    {
      patch := Rerender(newLines);
      Refresh(newLines);
    }

    /**
     * The end of `update` (src/core.tsx:130-134): the forced
     * `updateSelection(true)`, then the timer and the recorded lines.
     */
    method Refresh(newLines: seq<string>)
      requires Laid(lines, lineCount) && Synced(value, lineCount) && Shown(prevClass, className)
      requires Renders(lines, newLines)
      modifies this`lines, this`activeLineNumber, this`prevClass, this`className, this`calls
      modifies this`prevLines, this`handleSelectionChange, this`reenablePending
      ensures Laid(lines, lineCount) && Renders(lines, newLines) && prevLines == newLines
      ensures ActiveAt(lines, activeLineNumber, value, SelectionOf(textarea))
      ensures className == ClassName(language, props, SelectionOf(textarea), focused) && prevClass == Some(className)
      ensures calls == old(calls) + Invocations(SelectionChangeEvent, listeners, props.callbacks)
      ensures !handleSelectionChange && reenablePending == (old(reenablePending) || old(handleSelectionChange))
    {
      ghost var rendered := lines;
      // updateSelection(true): forced, so its body runs
      SyncSelection();
      RendersUpToMarks(rendered, lines, newLines);
      FinishUpdate(newLines);
    }

    /** The first part of `update` (src/core.tsx:104-127): the lines are re-rendered and the events dispatched. */
    method Rerender(newLines: seq<string>) returns (patch: Patch)
      requires Renders(lines, prevLines) && MarkCount(lines) <= 1 && textarea.Some?
      requires |newLines| == 1 + Newlines(textarea.value.value, 0, |textarea.value.value|)
      modifies this`value, this`lineCount, this`lines, this`calls
      ensures value == textarea.value.value && lineCount == |newLines| && Synced(value, lineCount)
      ensures Renders(lines, newLines) && Laid(lines, lineCount)
      ensures patch.Rewrite? <==> OneLineChanged(prevLines, newLines)
      ensures newLines == prevLines ==> patch == Splice(patch.insertStart, 0, 0)
      ensures calls == old(calls) + Invocations(TokenizeEvent, listeners, props.callbacks)
                                  + Invocations(UpdateEvent, listeners, props.callbacks)
    {
      value := textarea.value.value;
      DispatchEvent(TokenizeEvent);
      lineCount := |newLines|;
      patch := RenderLines(newLines);
      DispatchEvent(UpdateEvent);
    }

    /** The end of `update` (src/core.tsx:128-134): arms the timer if selection changes were handled, and records the lines. */
    method FinishUpdate(newLines: seq<string>)
      modifies this`prevLines, this`handleSelectionChange, this`reenablePending
      ensures prevLines == newLines && !handleSelectionChange
      ensures reenablePending == (old(reenablePending) || old(handleSelectionChange))
    {
      if handleSelectionChange {
        reenablePending := true;
      }
      prevLines := newLines;
      handleSelectionChange := false;
    }

    /**
     * The diff and patch inside `update` (src/core.tsx:113-126): the line
     * elements are brought from the last lines to `newLines`, by rewriting
     * one element in place or by one splice.
     */
    method RenderLines(newLines: seq<string>) returns (patch: Patch)
      requires Renders(lines, prevLines) && MarkCount(lines) <= 1 && |newLines| >= 1
      modifies this`lines
      ensures Renders(lines, newLines) && MarkCount(lines) <= 1
      ensures patch.Rewrite? <==> OneLineChanged(prevLines, newLines)
      ensures patch.Rewrite? ==> && patch.line < |newLines|
                                 && newLines == prevLines[patch.line := newLines[patch.line]]
                                 && lines == old(lines)[patch.line + 1 := old(lines)[patch.line + 1].(html := newLines[patch.line] + "\n")]
      ensures newLines == prevLines ==> patch == Splice(patch.insertStart, 0, 0)
      ensures patch.Splice? ==> && patch.insertStart + 1 < |old(lines)| && patch.insertStart + 1 < |lines|
                                && forall k :: 0 <= k <= patch.insertStart + 1 ==> lines[k] == old(lines)[k]
    {
      var start, end1, end2 := Scan(newLines, prevLines);
      InPlaceIffOneLineChanged(newLines, prevLines, start, end1, end2);
      if newLines == prevLines {
        UnchangedTouchesNothing(newLines, start, end1, end2);
      }
      lines, patch := ApplyPatch(lines, prevLines, newLines, start, end1, end2);
      if patch.Rewrite? {
        RewriteRebuilds(newLines, prevLines, start, end1, end2);
      }
    }

    /** The armed timer fires and selection changes update the active line again. */
    method ReenableSelectionChange()
      modifies this`handleSelectionChange, this`reenablePending
      ensures !reenablePending
      ensures handleSelectionChange == (old(handleSelectionChange) || old(reenablePending))
    {
      if reenablePending {
        handleSelectionChange := true;
        reenablePending := false;
      }
    }

    /**
     * `setSelection(start, end, direction)` (src/core.tsx:163-167): selects
     * the range in the textarea and moves the active line to it.
     */
    method SetSelection(start: nat, end: nat, direction: string)
      requires Laid(lines, lineCount) && Synced(value, lineCount) && Shown(prevClass, className) && textarea.Some?
      modifies this`textarea, this`lines, this`activeLineNumber, this`prevClass, this`className, this`calls
      ensures textarea == Some(old(textarea).value.(sel := SelectionRange(|old(textarea).value.value|, start, end, direction)))
      ensures Laid(lines, lineCount)
      ensures ActiveAt(lines, activeLineNumber, value, textarea.value.sel)
      ensures SameContent(old(lines), lines)
      ensures className == ClassName(language, props, textarea.value.sel, focused) && prevClass == Some(className)
      ensures calls == old(calls) + Invocations(SelectionChangeEvent, listeners, props.callbacks)
    {
      var t := textarea.value;
      textarea := Some(t.(sel := SelectionRange(|t.value|, start, end, direction)));
      // updateSelection(true)
      SyncSelection();
    }

    /**
     * The effect that runs when the value or language props change
     * (src/core.tsx:210-220): a new value replaces the textarea's and
     * collapses its selection to the start, then the editor updates.
     */
    method SetValueAndLanguage(newValue: string, newLanguage: string, newLines: seq<string>) returns (patch: Patch)
      requires Valid() && textarea.Some?
      requires var v := if prevVal != Some(newValue) then newValue else textarea.value.value;
               |newLines| == 1 + Newlines(v, 0, |v|)
      modifies this`textarea, this`prevVal, this`language, this`value, this`prevLines, this`lineCount, this`lines
      modifies this`activeLineNumber, this`prevClass, this`className, this`calls, this`handleSelectionChange, this`reenablePending
      ensures Valid() && Synced(value, lineCount)
      ensures language == newLanguage && prevLines == newLines && lineCount == |newLines|
      ensures old(prevVal) != Some(newValue) ==> textarea == Some(TextareaState(newValue, Selection(0, 0, "none"))) && value == newValue
      ensures old(prevVal) == Some(newValue) ==> textarea == old(textarea) && value == old(textarea).value.value
      ensures prevVal == Some(newValue)
      ensures ActiveAt(lines, activeLineNumber, value, textarea.value.sel)
      ensures className == ClassName(newLanguage, props, textarea.value.sel, focused) && prevClass == Some(className)
      ensures patch.Rewrite? <==> OneLineChanged(old(prevLines), newLines)
      ensures calls == old(calls) + Invocations(TokenizeEvent, listeners, props.callbacks)
                                  + Invocations(UpdateEvent, listeners, props.callbacks)
                                  + Invocations(SelectionChangeEvent, listeners, props.callbacks)
      ensures !handleSelectionChange && reenablePending == (old(reenablePending) || old(handleSelectionChange))
    {
      if prevVal != Some(newValue) {
        // assigning the value puts the caret at its end; selectionEnd = 0 then collapses it onto 0
        textarea := Some(TextareaState(newValue, SelectionRange(|newValue|, |newValue|, 0, "none")));
        prevVal := Some(newValue);
      }
      language := newLanguage;
      patch := Update(newLines);
    }
  }
}
