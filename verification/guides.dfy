/**
 * Indent guides. A sweep over the lines of the code opens one guide per
 * indentation level when a line is indented deeper than the last non-blank
 * line, and closes the guides of the levels a line no longer reaches. Each
 * guide is `[top, height, left]`: the line it starts on, the number of lines
 * it runs along and its horizontal offset in columns. From the guides a map
 * from line number to guide is built, and the guide of the line holding the
 * caret is the active one.
 */
module Guides {
  import opened JsString

  /** A guide as `getIndents` produces it: `[top, height, left]`. */
  datatype Guide = Guide(top: nat, height: int, left: nat)

  // ---------------------------------------------------------------------
  // Indentation of one line
  // ---------------------------------------------------------------------

  /**
   * The width of the whitespace `s` in columns: a tab advances to the next
   * multiple of `tabSize`, any other character advances by one.
   */
  function Column(s: string, tabSize: nat): nat
    requires tabSize > 0
    decreases |s|
  {
    if s == [] then 0
    else
      var c := Column(s[..|s| - 1], tabSize);
      if s[|s| - 1] == '\t' then c + tabSize - c % tabSize else c + 1
  }

  /** `Math.ceil(n / d)` for a non-negative `n`. */
  function CeilDiv(n: nat, d: nat): nat
    requires d > 0
  {
    (n + d - 1) / d
  }

  /**
   * The indentation level of a line: -1 when it holds nothing but
   * whitespace (the empty line included), otherwise the width of its
   * leading whitespace in units of `tabSize`, rounded up.
   */
  function IndentCount(text: string, tabSize: nat): (r: int)
    requires tabSize > 0
    ensures r == -1 <==> forall k :: 0 <= k < |text| ==> IsSpace(text[k])
    ensures r >= 0 ==>
      var col := Column(text[..SearchNonSpace(text)], tabSize);
      (r - 1) * tabSize < col <= r * tabSize
  {
    var l := SearchNonSpace(text);
    if l < 0 then -1
    else
      CeilBounds(Column(text[..l], tabSize), tabSize);
      CeilDiv(Column(text[..l], tabSize), tabSize)
  }

  /** `CeilDiv(n, d)` is the least `q` with `n <= q * d`. */
  lemma CeilBounds(n: nat, d: nat)
    requires d > 0
    ensures (CeilDiv(n, d) - 1) * d < n <= CeilDiv(n, d) * d
  {
    var q, m := (n + d - 1) / d, (n + d - 1) % d;
    assert n + d - 1 == q * d + m;
    assert (q - 1) * d == q * d - d;
  }

  /** A tab moves the column to the next multiple of `tabSize`. */
  lemma TabAdvances(s: string, tabSize: nat)
    requires tabSize > 0
    ensures Column(s + ['\t'], tabSize) == (Column(s, tabSize) / tabSize + 1) * tabSize
  {
    assert (s + ['\t'])[..|s|] == s;
    var c := Column(s, tabSize);
    assert c == (c / tabSize) * tabSize + c % tabSize;
  }

  /** Without tabs the width is the number of characters. */
  lemma {:induction false} ColumnWithoutTabs(s: string, tabSize: nat)
    requires tabSize > 0
    requires forall k :: 0 <= k < |s| ==> s[k] != '\t'
    ensures Column(s, tabSize) == |s|
    decreases |s|
  {
    if s != [] {
      ColumnWithoutTabs(s[..|s| - 1], tabSize);
    }
  }

  /** `k` tabs are `k * tabSize` columns wide. */
  lemma {:induction false} ColumnOfTabs(s: string, tabSize: nat)
    requires tabSize > 0
    requires forall k :: 0 <= k < |s| ==> s[k] == '\t'
    ensures Column(s, tabSize) == |s| * tabSize
    decreases |s|
  {
    if s != [] {
      var init := s[..|s| - 1];
      ColumnOfTabs(init, tabSize);
      assert s == init + ['\t'];
      TabAdvances(init, tabSize);
      MulDiv(|init|, tabSize);
    }
  }

  lemma MulDiv(a: nat, d: nat)
    requires d > 0
    ensures (a * d) / d == a && (a * d) % d == 0
  {
    DivUnique(a * d, d, a, 0);
  }

  /** Division is determined by the quotient-remainder decomposition. */
  lemma DivUnique(n: int, d: nat, q: int, m: int)
    requires d > 0 && n == q * d + m && 0 <= m < d
    ensures n / d == q
  {
    var q', m' := n / d, n % d;
    assert n == q' * d + m';
    MulStep(q, q', d);
    MulStep(q', q, d);
  }

  /** Multiplying by a positive `d` keeps a gap of at least `d`. */
  lemma MulStep(a: int, b: int, d: nat)
    requires d > 0
    ensures a < b ==> a * d + d <= b * d
  {
    if a < b {
      MulAtLeast(b - a, d);
      assert b * d == a * d + (b - a) * d;
    }
  }

  lemma {:induction false} MulAtLeast(k: nat, d: nat)
    requires k >= 1
    ensures k * d >= d
    decreases k
  {
    if k > 1 {
      MulAtLeast(k - 1, d);
      assert k * d == (k - 1) * d + d;
    }
  }

  /** A line of `k` tabs before its first visible character is at level `k`. */
  lemma IndentOfTabs(text: string, k: nat, tabSize: nat)
    requires tabSize > 0
    requires k < |text| && !IsSpace(text[k])
    requires forall i :: 0 <= i < k ==> text[i] == '\t'
    ensures IndentCount(text, tabSize) == k
  {
    assert SearchNonSpace(text) == k;
    ColumnOfTabs(text[..k], tabSize);
    DivUnique(k * tabSize + tabSize - 1, tabSize, k, tabSize - 1);
  }

  /**
   * `getIndentCount`: the first non-space character is searched for; the
   * leading whitespace is then walked, tab stops included, and the width
   * divided by `tabSize`, rounded up.
   */
  method GetIndentCount(text: string, tabSize: nat) returns (r: int)
    requires tabSize > 0
    ensures r == IndentCount(text, tabSize)
  {
    var l := SearchNonSpace(text);
    var result: nat := 0;
    if l < 0 {
      return l;
    }
    var i := 0;
    while i < l
      invariant 0 <= i <= l
      invariant result == Column(text[..i], tabSize)
    {
      assert text[..i + 1][..i] == text[..i];
      result := result + if text[i] == '\t' then tabSize - result % tabSize else 1;
      i := i + 1;
    }
    return (result + tabSize - 1) / tabSize;
  }
  // ---------------------------------------------------------------------
  // The sweep over the lines
  // ---------------------------------------------------------------------

  /** The horizontal offset of the guides of indentation level `level`. */
  function LeftOf(level: nat, tabSize: nat): nat
  {
    level * tabSize
  }

  /**
   * What `getIndents` promises about its guides for `lines`. A line's level
   * is `IndentCount` of it; blank lines (level -1) are not constrained.
   */
  ghost predicate GuidesFor(lines: seq<string>, tabSize: nat, gs: seq<Guide>)
    requires tabSize > 0
  {
    // every guide sits on a whole number of indentation levels
    (forall k :: 0 <= k < |gs| ==> gs[k].left % tabSize == 0)
    // the guides come in the order of their first line
    && (forall k, m :: 0 <= k < m < |gs| ==> gs[k].top <= gs[m].top)
    // each one is closed: it runs along at least one line, all within the code
    && (forall k :: 0 <= k < |gs| ==> 0 < gs[k].height && gs[k].top + gs[k].height <= |lines|)
    // a guide runs only along lines indented beyond its own level
    && (forall k, x ::
          0 <= k < |gs| && gs[k].top <= x < gs[k].top + gs[k].height && 0 <= x < |lines| && IndentCount(lines[x], tabSize) >= 0
          ==> gs[k].left < IndentCount(lines[x], tabSize) * tabSize)
    // each level below a line's own has a guide running along that line
    && (forall x, j :: 0 <= x < |lines| && 0 <= j < IndentCount(lines[x], tabSize) ==> LevelAlong(gs, tabSize, j, x))
    // two guides of the same level never share a line
    && (forall k, m :: 0 <= k < m < |gs| && gs[k].left == gs[m].left ==> gs[k].top + gs[k].height <= gs[m].top)
  }

  /** Some guide of level `j` runs along line `x`. */
  ghost predicate LevelAlong(gs: seq<Guide>, tabSize: nat, j: nat, x: nat)
  {
    exists k :: 0 <= k < |gs| && gs[k].left == LeftOf(j, tabSize) && gs[k].top <= x < gs[k].top + gs[k].height
  }

  /**
   * The indent the sweep uses at each step: that of each line, then 0 for
   * the extra step after the last line.
   */
  function SweepIndents(lines: seq<string>, tabSize: nat): (ind: seq<int>)
    requires tabSize > 0
    ensures |ind| == |lines| + 1 && ind[|lines|] == 0
    ensures forall x :: 0 <= x < |lines| ==> ind[x] == IndentCount(lines[x], tabSize)
  {
    seq(|lines| + 1, x requires 0 <= x <= |lines| => if x < |lines| then IndentCount(lines[x], tabSize) else 0)
  }

  /** The last non-blank step before step `i`, or -1 when there is none. */
  function LastLine(ind: seq<int>, i: nat): (r: int)
    requires i <= |ind|
    ensures -1 <= r < i
    ensures r >= 0 ==> ind[r] >= 0
    ensures forall x :: r < x < i ==> ind[x] < 0
  {
    if i == 0 then -1 else if ind[i - 1] >= 0 then i - 1 else LastLine(ind, i - 1)
  }

  /** `prevIndent` when the sweep reaches step `i`: the indent of the last non-blank line, 0 before any. */
  function PrevIndent(ind: seq<int>, i: nat): nat
    requires i <= |ind|
  {
    var r := LastLine(ind, i);
    if r < 0 then 0 else ind[r]
  }

  /**
   * `emptyPos` when the sweep reaches step `i`: the first line of the blank
   * run since the last non-blank line, or -1 when there is no such run.
   */
  function EmptyPos(ind: seq<int>, i: nat): int
    requires i <= |ind|
  {
    var r := LastLine(ind, i);
    if r + 1 < i then r + 1 else -1
  }

  /** A blank line leaves `prevIndent` alone and only opens a blank run when none is open. */
  lemma BlankLine(ind: seq<int>, i: nat)
    requires i < |ind| && ind[i] < 0
    ensures PrevIndent(ind, i + 1) == PrevIndent(ind, i)
    ensures EmptyPos(ind, i + 1) == if EmptyPos(ind, i) < 0 then i else EmptyPos(ind, i)
  {
  }

  /** A non-blank line becomes `prevIndent` and ends the blank run. */
  lemma FilledLine(ind: seq<int>, i: nat)
    requires i < |ind| && ind[i] >= 0
    ensures PrevIndent(ind, i + 1) == ind[i] && EmptyPos(ind, i + 1) == -1
  {
  }

  /** The blank run since the last non-blank line: all its lines are blank. */
  lemma BlankRun(ind: seq<int>, i: nat, x: nat)
    requires i <= |ind|
    requires EmptyPos(ind, i) >= 0 && EmptyPos(ind, i) <= x < i
    ensures ind[x] < 0
  {
  }

  /** The lines a guide has run along so far, up to step `i`: its own end once closed, `i` while open. */
  function Reach(g: Guide, i: nat): int
  {
    if g.height > 0 then g.top + g.height else i
  }

  /** `levels[k]` is the level of guide `k`, and its `left` matches. */
  ghost predicate Leveled(gs: seq<Guide>, levels: seq<nat>, tabSize: nat)
  {
    |levels| == |gs| && forall k :: 0 <= k < |gs| ==> gs[k].left == LeftOf(levels[k], tabSize)
  }

  /**
   * The stack holds the open guides, one per level below `prevIndent`; a
   * guide not on the stack is closed, with a positive height.
   */
  ghost predicate Stacked(stack: map<nat, nat>, gs: seq<Guide>, levels: seq<nat>, prevIndent: nat)
    requires |levels| == |gs|
  {
    (forall j :: 0 <= j < prevIndent ==>
       j in stack && stack[j] < |gs| && levels[stack[j]] == j && gs[stack[j]].height == 0)
    && (forall k :: 0 <= k < |gs| && gs[k].height <= 0 ==>
          levels[k] < prevIndent && levels[k] in stack && stack[levels[k]] == k)
  }

  /**
   * Every guide starts before step `i` and before the open blank run; a
   * closed guide also ends by then, and within the `l` lines.
   */
  ghost predicate Before(gs: seq<Guide>, i: nat, emptyPos: int, l: nat)
  {
    forall k :: 0 <= k < |gs| ==>
      gs[k].top < i && (emptyPos >= 0 ==> gs[k].top < emptyPos)
      && (gs[k].height > 0 ==>
            gs[k].top + gs[k].height <= i && gs[k].top + gs[k].height <= l
            && (emptyPos >= 0 ==> gs[k].top + gs[k].height <= emptyPos))
  }

  ghost predicate Ordered(gs: seq<Guide>)
  {
    forall k, m :: 0 <= k < m < |gs| ==> gs[k].top <= gs[m].top
  }

  /** Every non-blank line a guide has run along so far is indented beyond the guide's level. */
  ghost predicate Sound(ind: seq<int>, gs: seq<Guide>, levels: seq<nat>, i: nat)
    requires |levels| == |gs|
  {
    forall k, x :: 0 <= k < |gs| && gs[k].top <= x < Reach(gs[k], i) && 0 <= x < |ind| && ind[x] >= 0 ==>
      ind[x] > levels[k]
  }

  /** For every line before step `i` and level below its own, `cover` names a guide of that level along it. */
  ghost predicate Complete(ind: seq<int>, gs: seq<Guide>, levels: seq<nat>, i: nat, cover: map<(nat, nat), nat>)
    requires |levels| == |gs| && i <= |ind|
  {
    forall x, j :: 0 <= x < i && 0 <= j < ind[x] ==> CoveredAt(gs, levels, i, cover, x, j)
  }

  /** `cover` names a guide of level `j` that has run along line `x` by step `i`. */
  ghost predicate CoveredAt(gs: seq<Guide>, levels: seq<nat>, i: nat, cover: map<(nat, nat), nat>, x: nat, j: nat)
    requires |levels| == |gs|
  {
    (x, j) in cover && cover[(x, j)] < |gs| && levels[cover[(x, j)]] == j
    && gs[cover[(x, j)]].top <= x < Reach(gs[cover[(x, j)]], i)
  }

  /** An earlier guide of the same level is closed and ends before a later one starts. */
  ghost predicate Disjoint(gs: seq<Guide>, levels: seq<nat>)
    requires |levels| == |gs|
  {
    forall k, m :: 0 <= k < m < |gs| && levels[k] == levels[m] ==>
      gs[k].height > 0 && gs[k].top + gs[k].height <= gs[m].top
  }

  /** The invariant of the sweep when it reaches step `i`. */
  ghost predicate Swept(ind: seq<int>, tabSize: nat, i: nat, stack: map<nat, nat>, gs: seq<Guide>,
                        levels: seq<nat>, cover: map<(nat, nat), nat>)
    requires 1 <= |ind| && i <= |ind|
  {
    Leveled(gs, levels, tabSize) && Stacked(stack, gs, levels, PrevIndent(ind, i))
    && Before(gs, i, EmptyPos(ind, i), |ind| - 1) && Ordered(gs) && Sound(ind, gs, levels, i)
    && Complete(ind, gs, levels, i, cover) && Disjoint(gs, levels)
  }

  /**
   * The line before which a guide of level `j` closed at step `i` ends: the
   * blank run's start when there is one, except for the level of the new
   * indent, which runs on to line `i` unless this is the extra last step.
   */
  function ClosedEnd(j: nat, indent: nat, emptyPos: int, i: nat, last: bool): int
  {
    if emptyPos < 0 || (j == indent && !last) then i else emptyPos
  }

  /** The guides after the closing loop: the open ones of levels `[indent, prevIndent)` get their height. */
  ghost predicate Closed(gs: seq<Guide>, r: seq<Guide>, stack: map<nat, nat>, levels: seq<nat>,
                         indent: nat, prevIndent: nat, emptyPos: int, i: nat, last: bool)
    requires |levels| == |gs|
  {
    |r| == |gs|
    && forall k :: 0 <= k < |gs| ==>
         r[k] == if indent <= levels[k] < prevIndent && levels[k] in stack && stack[levels[k]] == k
                 then gs[k].(height := ClosedEnd(levels[k], indent, emptyPos, i, last) - gs[k].top)
                 else gs[k]
  }

  /** The guide grown for level `j`: the first new level starts at the blank run, if any. */
  function OpenedGuide(j: nat, prevIndent: nat, emptyPos: int, i: nat, tabSize: nat): Guide
  {
    Guide(if emptyPos < 0 || j > prevIndent then i else emptyPos, 0, LeftOf(j, tabSize))
  }

  /** The guides and stack after the opening loop: one guide appended per level in `[prevIndent, indent)`. */
  ghost predicate Opened(gs: seq<Guide>, r: seq<Guide>, stack: map<nat, nat>, s: map<nat, nat>,
                         prevIndent: nat, indent: nat, emptyPos: int, i: nat, tabSize: nat)
  {
    |r| == |gs| + (if indent > prevIndent then indent - prevIndent else 0)
    && (forall k :: 0 <= k < |gs| ==> r[k] == gs[k])
    && (forall k :: |gs| <= k < |r| ==> r[k] == OpenedGuide(prevIndent + (k - |gs|), prevIndent, emptyPos, i, tabSize))
    && (forall j :: j in s <==> j in stack || prevIndent <= j < indent)
    && (forall j :: j in s ==> s[j] == if prevIndent <= j < indent then |gs| + (j - prevIndent) else stack[j])
  }

  /** The levels of the guides grown for `[prevIndent, indent)`. */
  function NewLevels(prevIndent: nat, indent: nat): (r: seq<nat>)
    ensures |r| == if indent > prevIndent then indent - prevIndent else 0
    ensures forall t :: 0 <= t < |r| ==> r[t] == prevIndent + t
  {
    if indent > prevIndent then seq(indent - prevIndent, t requires 0 <= t => prevIndent + t) else []
  }

  /** `cover` extended with the guides along line `i`: the stack entry of each level below its indent. */
  function Record(cover: map<(nat, nat), nat>, i: nat, indent: nat, stack: map<nat, nat>): map<(nat, nat), nat>
    requires forall j :: 0 <= j < indent ==> j in stack
  {
    cover + map j | 0 <= j < indent :: (i, j) := stack[j]
  }
  /** The first loop of a non-blank step: the guides of the levels the line no longer reaches get their height. */
  method CloseGuides(gs: seq<Guide>, stack: map<nat, nat>, ghost levels: seq<nat>, indent: nat, prevIndent: nat,
                     emptyPos: int, i: nat, last: bool) returns (r: seq<Guide>)
    requires |levels| == |gs|
    requires forall j :: indent <= j < prevIndent ==> j in stack && stack[j] < |gs| && levels[stack[j]] == j
    ensures Closed(gs, r, stack, levels, indent, prevIndent, emptyPos, i, last)
  {
    r := gs;
    var j := indent;
    while j < prevIndent
      invariant j == indent || indent <= j <= prevIndent
      invariant |r| == |gs|
      invariant forall k :: 0 <= k < |gs| ==>
        r[k] == if indent <= levels[k] < j && levels[k] in stack && stack[levels[k]] == k
                then gs[k].(height := ClosedEnd(levels[k], indent, emptyPos, i, last) - gs[k].top)
                else gs[k]
    {
      var g := r[stack[j]];
      r := r[stack[j] := g.(height := ClosedEnd(j, indent, emptyPos, i, last) - g.top)];
      j := j + 1;
    }
    forall k | 0 <= k < |gs|
      ensures (indent <= levels[k] < j) == (indent <= levels[k] < prevIndent)
    {
    }
  }

  /** The second loop of a non-blank step: one guide per new level, each pushed on the stack. */
  method OpenGuides(gs: seq<Guide>, stack: map<nat, nat>, prevIndent: nat, indent: nat, emptyPos: int,
                    i: nat, tabSize: nat) returns (r: seq<Guide>, s: map<nat, nat>)
    ensures Opened(gs, r, stack, s, prevIndent, indent, emptyPos, i, tabSize)
  {
    r, s := gs, stack;
    var j := prevIndent;
    while j < indent
      invariant j == prevIndent || prevIndent <= j <= indent
      invariant |r| == |gs| + (j - prevIndent)
      invariant forall k :: 0 <= k < |gs| ==> r[k] == gs[k]
      invariant forall k :: |gs| <= k < |r| ==> r[k] == OpenedGuide(prevIndent + (k - |gs|), prevIndent, emptyPos, i, tabSize)
      invariant forall j' :: j' in s <==> j' in stack || prevIndent <= j' < j
      invariant forall j' :: j' in s ==> s[j'] == if prevIndent <= j' < j then |gs| + (j' - prevIndent) else stack[j']
    {
      var g := Guide(if emptyPos < 0 || j > prevIndent then i else emptyPos, 0, j * tabSize);
      s := s[j := |r|];
      r := r + [g];
      j := j + 1;
    }
  }

  /** A blank step keeps the invariant: nothing but `emptyPos` changes. */
  lemma BlankSwept(ind: seq<int>, tabSize: nat, i: nat, stack: map<nat, nat>, gs: seq<Guide>,
                   levels: seq<nat>, cover: map<(nat, nat), nat>)
    requires i < |ind| && ind[i] < 0
    requires Swept(ind, tabSize, i, stack, gs, levels, cover)
    ensures Swept(ind, tabSize, i + 1, stack, gs, levels, cover)
  {
    BlankLine(ind, i);
    assert Sound(ind, gs, levels, i + 1) by {
      forall k, x | 0 <= k < |gs| && gs[k].top <= x < Reach(gs[k], i + 1) && 0 <= x < |ind| && ind[x] >= 0
        ensures ind[x] > levels[k]
      {
        assert x < Reach(gs[k], i);
      }
    }
    assert Complete(ind, gs, levels, i + 1, cover) by {
      var next := i + 1;
      forall x, j | 0 <= x < next && 0 <= j < ind[x]
        ensures CoveredAt(gs, levels, next, cover, x, j)
      {
        assert CoveredAt(gs, levels, i, cover, x, j);
        assert Reach(gs[cover[(x, j)]], i) <= Reach(gs[cover[(x, j)]], i + 1);
      }
    }
  }

  /** A non-blank step keeps the invariant: its indent becomes `prevIndent` and the blank run ends. */
  lemma FilledSwept(ind: seq<int>, tabSize: nat, i: nat, stack: map<nat, nat>, gs: seq<Guide>,
                    levels: seq<nat>, cover: map<(nat, nat), nat>, closed: seq<Guide>, grown: seq<Guide>,
                    stack': map<nat, nat>, last: bool)
    requires i < |ind| && ind[i] >= 0
    requires Swept(ind, tabSize, i, stack, gs, levels, cover)
    requires Closed(gs, closed, stack, levels, ind[i], PrevIndent(ind, i), EmptyPos(ind, i), i, last)
    requires Opened(closed, grown, stack, stack', PrevIndent(ind, i), ind[i], EmptyPos(ind, i), i, tabSize)
    ensures forall j :: 0 <= j < ind[i] ==> j in stack'
    ensures Swept(ind, tabSize, i + 1, stack', grown, levels + NewLevels(PrevIndent(ind, i), ind[i]),
                  Record(cover, i, ind[i], stack'))
  {
    var d, pi := ind[i], PrevIndent(ind, i);
    if d <= pi {
      assert grown == closed;
      assert stack' == stack;
      assert levels + NewLevels(pi, d) == levels;
      DedentSwept(ind, tabSize, i, stack, gs, levels, cover, closed, last);
    } else {
      assert closed == gs;
      IndentSwept(ind, tabSize, i, stack, gs, levels, cover, grown, stack');
    }
  }

  /** A non-blank step whose indent is at most `prevIndent`: guides are only closed. */
  lemma DedentSwept(ind: seq<int>, tabSize: nat, i: nat, stack: map<nat, nat>, gs: seq<Guide>,
                    levels: seq<nat>, cover: map<(nat, nat), nat>, closed: seq<Guide>, last: bool)
    requires i < |ind| && 0 <= ind[i] <= PrevIndent(ind, i)
    requires Swept(ind, tabSize, i, stack, gs, levels, cover)
    requires Closed(gs, closed, stack, levels, ind[i], PrevIndent(ind, i), EmptyPos(ind, i), i, last)
    ensures forall j :: 0 <= j < ind[i] ==> j in stack
    ensures Swept(ind, tabSize, i + 1, stack, closed, levels, Record(cover, i, ind[i], stack))
  {
    FilledLine(ind, i);
    var d, pi, ep, l := ind[i], PrevIndent(ind, i), EmptyPos(ind, i), |ind| - 1;
    forall x | ep >= 0 && ep <= x < i
      ensures ind[x] < 0
    {
      BlankRun(ind, i, x);
    }
    DedentStacked(stack, gs, closed, levels, d, pi, ep, i, last, l);
    DedentBefore(stack, gs, closed, levels, d, pi, ep, i, last, l);
    DedentSound(ind, stack, gs, closed, levels, pi, ep, i, last, l);
    DedentComplete(ind, stack, gs, closed, levels, cover, pi, ep, i, last);
    DedentDisjoint(stack, gs, closed, levels, d, pi, ep, i, last, l);
    assert Leveled(closed, levels, tabSize);
  }

  lemma DedentStacked(stack: map<nat, nat>, gs: seq<Guide>, closed: seq<Guide>, levels: seq<nat>,
                      d: nat, pi: nat, ep: int, i: nat, last: bool, l: nat)
    requires |levels| == |gs| && d <= pi
    requires Stacked(stack, gs, levels, pi) && Before(gs, i, ep, l)
    requires Closed(gs, closed, stack, levels, d, pi, ep, i, last)
    ensures Stacked(stack, closed, levels, d)
  {
  }

  lemma DedentBefore(stack: map<nat, nat>, gs: seq<Guide>, closed: seq<Guide>, levels: seq<nat>,
                     d: nat, pi: nat, ep: int, i: nat, last: bool, l: nat)
    requires |levels| == |gs| && i <= l && ep < i
    requires Before(gs, i, ep, l)
    requires Closed(gs, closed, stack, levels, d, pi, ep, i, last)
    ensures Before(closed, i + 1, -1, l)
  {
  }

  lemma DedentSound(ind: seq<int>, stack: map<nat, nat>, gs: seq<Guide>, closed: seq<Guide>, levels: seq<nat>,
                    pi: nat, ep: int, i: nat, last: bool, l: nat)
    requires |levels| == |gs| && i < |ind| && 0 <= ind[i] <= pi && ep < i
    requires Stacked(stack, gs, levels, pi) && Sound(ind, gs, levels, i) && Before(gs, i, ep, l)
    requires Closed(gs, closed, stack, levels, ind[i], pi, ep, i, last)
    ensures Sound(ind, closed, levels, i + 1)
  {
    forall k, x | 0 <= k < |closed| && closed[k].top <= x < Reach(closed[k], i + 1) && 0 <= x < |ind| && ind[x] >= 0
      ensures ind[x] > levels[k]
    {
      if closed[k] != gs[k] {
        assert x < Reach(gs[k], i);
      } else if gs[k].height > 0 {
        assert x < Reach(gs[k], i);
      } else if x < i {
        assert x < Reach(gs[k], i);
      } else {
        assert levels[k] < ind[i];
      }
    }
  }

  /** What `Record` adds to `cover` and what it keeps. */
  lemma RecordAt(cover: map<(nat, nat), nat>, i: nat, indent: nat, stack: map<nat, nat>, x: nat, j: nat)
    requires forall j :: 0 <= j < indent ==> j in stack
    ensures x != i && (x, j) in cover ==> (x, j) in Record(cover, i, indent, stack) && Record(cover, i, indent, stack)[(x, j)] == cover[(x, j)]
    ensures x == i && j < indent ==> (x, j) in Record(cover, i, indent, stack) && Record(cover, i, indent, stack)[(x, j)] == stack[j]
  {
  }

  lemma DedentComplete(ind: seq<int>, stack: map<nat, nat>, gs: seq<Guide>, closed: seq<Guide>, levels: seq<nat>,
                       cover: map<(nat, nat), nat>, pi: nat, ep: int, i: nat, last: bool)
    requires |levels| == |gs| && i < |ind| && 0 <= ind[i] <= pi
    requires Stacked(stack, gs, levels, pi) && Complete(ind, gs, levels, i, cover)
    requires forall k :: 0 <= k < |gs| ==> gs[k].top < i
    requires Closed(gs, closed, stack, levels, ind[i], pi, ep, i, last)
    requires forall x :: ep >= 0 && ep <= x < i ==> ind[x] < 0
    ensures forall j :: 0 <= j < ind[i] ==> j in stack
    ensures Complete(ind, closed, levels, i + 1, Record(cover, i, ind[i], stack))
  {
    var d := ind[i];
    var cover', next := Record(cover, i, d, stack), i + 1;
    DedentCompleteOld(ind, stack, gs, closed, levels, cover, cover', d, pi, ep, i, next, last);
    DedentCompleteNew(stack, gs, closed, levels, cover, cover', d, pi, ep, i, next, last);
    forall x, j | 0 <= x < next && 0 <= j < ind[x]
      ensures CoveredAt(closed, levels, next, cover', x, j)
    {
    }
  }

  /** A line before step `i` stays covered: a guide closed now ends after it, at `i` or at the blank run. */
  lemma DedentCompleteOld(ind: seq<int>, stack: map<nat, nat>, gs: seq<Guide>, closed: seq<Guide>, levels: seq<nat>,
                          cover: map<(nat, nat), nat>, cover': map<(nat, nat), nat>,
                          d: nat, pi: nat, ep: int, i: nat, next: nat, last: bool)
    requires |levels| == |gs| && i < |ind| && d <= pi && next == i + 1
    requires Stacked(stack, gs, levels, pi) && Complete(ind, gs, levels, i, cover)
    requires Closed(gs, closed, stack, levels, d, pi, ep, i, last)
    requires forall x :: ep >= 0 && ep <= x < i ==> ind[x] < 0
    requires cover' == Record(cover, i, d, stack)
    ensures forall x, j :: 0 <= x < i && 0 <= j < ind[x] ==> CoveredAt(closed, levels, next, cover', x, j)
  {
    forall x, j | 0 <= x < i && 0 <= j < ind[x]
      ensures CoveredAt(closed, levels, next, cover', x, j)
    {
      RecordAt(cover, i, d, stack, x, j);
      assert CoveredAt(gs, levels, i, cover, x, j);
      var k := cover[(x, j)];
      if closed[k] != gs[k] {
        var end := ClosedEnd(levels[k], d, ep, i, last);
        assert closed[k] == gs[k].(height := end - gs[k].top);
        assert x < end;
      }
    }
  }

  /** Line `i` is covered at each level below its indent by the guides that stay open. */
  lemma DedentCompleteNew(stack: map<nat, nat>, gs: seq<Guide>, closed: seq<Guide>, levels: seq<nat>,
                          cover: map<(nat, nat), nat>, cover': map<(nat, nat), nat>,
                          d: nat, pi: nat, ep: int, i: nat, next: nat, last: bool)
    requires |levels| == |gs| && d <= pi && next == i + 1
    requires Stacked(stack, gs, levels, pi)
    requires forall k :: 0 <= k < |gs| ==> gs[k].top < i
    requires Closed(gs, closed, stack, levels, d, pi, ep, i, last)
    requires cover' == Record(cover, i, d, stack)
    ensures forall j :: 0 <= j < d ==> CoveredAt(closed, levels, next, cover', i, j)
  {
    forall j | 0 <= j < d
      ensures CoveredAt(closed, levels, next, cover', i, j)
    {
      RecordAt(cover, i, d, stack, i, j);
      var k := stack[j];
      assert closed[k] == gs[k];
    }
  }

  lemma DedentDisjoint(stack: map<nat, nat>, gs: seq<Guide>, closed: seq<Guide>, levels: seq<nat>,
                       d: nat, pi: nat, ep: int, i: nat, last: bool, l: nat)
    requires |levels| == |gs|
    requires Stacked(stack, gs, levels, pi) && Before(gs, i, ep, l) && Disjoint(gs, levels)
    requires Closed(gs, closed, stack, levels, d, pi, ep, i, last)
    ensures Disjoint(closed, levels)
  {
  }

  /** A non-blank step whose indent exceeds `prevIndent`: guides are only opened. */
  lemma IndentSwept(ind: seq<int>, tabSize: nat, i: nat, stack: map<nat, nat>, gs: seq<Guide>,
                    levels: seq<nat>, cover: map<(nat, nat), nat>, grown: seq<Guide>, stack': map<nat, nat>)
    requires i < |ind| && ind[i] > PrevIndent(ind, i)
    requires Swept(ind, tabSize, i, stack, gs, levels, cover)
    requires Opened(gs, grown, stack, stack', PrevIndent(ind, i), ind[i], EmptyPos(ind, i), i, tabSize)
    ensures forall j :: 0 <= j < ind[i] ==> j in stack'
    ensures Swept(ind, tabSize, i + 1, stack', grown, levels + NewLevels(PrevIndent(ind, i), ind[i]),
                  Record(cover, i, ind[i], stack'))
  {
    FilledLine(ind, i);
    var d, pi, ep, l := ind[i], PrevIndent(ind, i), EmptyPos(ind, i), |ind| - 1;
    forall x | ep >= 0 && ep <= x < i
      ensures ind[x] < 0
    {
      BlankRun(ind, i, x);
    }
    var levels' := levels + NewLevels(pi, d);
    IndentLeveled(gs, grown, stack, stack', levels, d, pi, ep, i, tabSize);
    IndentStacked(gs, grown, stack, stack', levels, d, pi, ep, i, tabSize);
    IndentBefore(gs, grown, stack, stack', d, pi, ep, i, tabSize, l);
    IndentSound(ind, gs, grown, stack, stack', levels, pi, ep, i, tabSize);
    IndentComplete(ind, gs, grown, stack, stack', levels, cover, pi, ep, i, tabSize);
    IndentDisjoint(gs, grown, stack, stack', levels, d, pi, ep, i, tabSize, l);
  }

  lemma IndentLeveled(gs: seq<Guide>, grown: seq<Guide>, stack: map<nat, nat>, stack': map<nat, nat>,
                      levels: seq<nat>, d: nat, pi: nat, ep: int, i: nat, tabSize: nat)
    requires d > pi && Leveled(gs, levels, tabSize)
    requires Opened(gs, grown, stack, stack', pi, d, ep, i, tabSize)
    ensures Leveled(grown, levels + NewLevels(pi, d), tabSize)
  {
  }

  lemma IndentStacked(gs: seq<Guide>, grown: seq<Guide>, stack: map<nat, nat>, stack': map<nat, nat>,
                      levels: seq<nat>, d: nat, pi: nat, ep: int, i: nat, tabSize: nat)
    requires d > pi && |levels| == |gs| && Stacked(stack, gs, levels, pi)
    requires Opened(gs, grown, stack, stack', pi, d, ep, i, tabSize)
    ensures Stacked(stack', grown, levels + NewLevels(pi, d), d)
  {
  }

  lemma IndentBefore(gs: seq<Guide>, grown: seq<Guide>, stack: map<nat, nat>, stack': map<nat, nat>,
                     d: nat, pi: nat, ep: int, i: nat, tabSize: nat, l: nat)
    requires d > pi && ep < i && Before(gs, i, ep, l) && Ordered(gs)
    requires Opened(gs, grown, stack, stack', pi, d, ep, i, tabSize)
    ensures Before(grown, i + 1, -1, l) && Ordered(grown)
  {
  }

  lemma IndentSound(ind: seq<int>, gs: seq<Guide>, grown: seq<Guide>, stack: map<nat, nat>, stack': map<nat, nat>,
                    levels: seq<nat>, pi: nat, ep: int, i: nat, tabSize: nat)
    requires i < |ind| && ind[i] > pi && |levels| == |gs|
    requires Stacked(stack, gs, levels, pi) && Sound(ind, gs, levels, i)
    requires Opened(gs, grown, stack, stack', pi, ind[i], ep, i, tabSize)
    requires forall x :: ep >= 0 && ep <= x < i ==> ind[x] < 0
    ensures Sound(ind, grown, levels + NewLevels(pi, ind[i]), i + 1)
  {
    var levels' := levels + NewLevels(pi, ind[i]);
    forall k, x | 0 <= k < |grown| && grown[k].top <= x < Reach(grown[k], i + 1) && 0 <= x < |ind| && ind[x] >= 0
      ensures ind[x] > levels'[k]
    {
      if k < |gs| {
        assert grown[k] == gs[k] && levels'[k] == levels[k];
        if x < i {
          assert x < Reach(gs[k], i);
        }
      }
    }
  }

  lemma IndentComplete(ind: seq<int>, gs: seq<Guide>, grown: seq<Guide>, stack: map<nat, nat>, stack': map<nat, nat>,
                       levels: seq<nat>, cover: map<(nat, nat), nat>, pi: nat, ep: int, i: nat, tabSize: nat)
    requires i < |ind| && ind[i] > pi && |levels| == |gs| && ep < i
    requires Stacked(stack, gs, levels, pi) && Complete(ind, gs, levels, i, cover)
    requires forall k :: 0 <= k < |gs| ==> gs[k].top < i
    requires Opened(gs, grown, stack, stack', pi, ind[i], ep, i, tabSize)
    ensures forall j :: 0 <= j < ind[i] ==> j in stack'
    ensures Complete(ind, grown, levels + NewLevels(pi, ind[i]), i + 1, Record(cover, i, ind[i], stack'))
  {
    var d := ind[i];
    var levels' := levels + NewLevels(pi, d);
    assert forall k :: 0 <= k < |gs| ==> grown[k] == gs[k] && levels'[k] == levels[k];
    assert forall k :: |gs| <= k < |grown| ==> levels'[k] == pi + (k - |gs|);
    var cover', next := Record(cover, i, d, stack'), i + 1;
    IndentCompleteOld(ind, gs, grown, levels, levels', cover, cover', stack', d, i, next);
    IndentCompleteNew(gs, grown, stack, stack', levels, levels', cover, cover', pi, d, ep, i, next, tabSize);
    forall x, j | 0 <= x < next && 0 <= j < ind[x]
      ensures CoveredAt(grown, levels', next, cover', x, j)
    {
    }
  }

  /** The lines before step `i` keep the guides `cover` names for them. */
  lemma IndentCompleteOld(ind: seq<int>, gs: seq<Guide>, grown: seq<Guide>, levels: seq<nat>, levels': seq<nat>,
                          cover: map<(nat, nat), nat>, cover': map<(nat, nat), nat>, stack': map<nat, nat>,
                          d: nat, i: nat, next: nat)
    requires |levels| == |gs| <= |grown| == |levels'| && i <= |ind| && next == i + 1
    requires forall k :: 0 <= k < |gs| ==> grown[k] == gs[k] && levels'[k] == levels[k]
    requires Complete(ind, gs, levels, i, cover)
    requires forall j :: 0 <= j < d ==> j in stack'
    requires cover' == Record(cover, i, d, stack')
    ensures forall x, j :: 0 <= x < i && 0 <= j < ind[x] ==> CoveredAt(grown, levels', next, cover', x, j)
  {
    forall x, j | 0 <= x < i && 0 <= j < ind[x]
      ensures CoveredAt(grown, levels', next, cover', x, j)
    {
      RecordAt(cover, i, d, stack', x, j);
      assert CoveredAt(gs, levels, i, cover, x, j);
      var k := cover[(x, j)];
      assert Reach(gs[k], i) <= Reach(gs[k], i + 1);
    }
  }

  /** Line `i` is covered at each level below its indent: by the open guides below `pi`, the new ones above. */
  lemma IndentCompleteNew(gs: seq<Guide>, grown: seq<Guide>, stack: map<nat, nat>, stack': map<nat, nat>,
                          levels: seq<nat>, levels': seq<nat>, cover: map<(nat, nat), nat>,
                          cover': map<(nat, nat), nat>, pi: nat, d: nat, ep: int, i: nat, next: nat, tabSize: nat)
    requires |levels| == |gs| && |levels'| == |grown| && d > pi && ep < i && next == i + 1
    requires forall k :: 0 <= k < |gs| ==> gs[k].top < i
    requires Stacked(stack, gs, levels, pi)
    requires Opened(gs, grown, stack, stack', pi, d, ep, i, tabSize)
    requires forall k :: 0 <= k < |gs| ==> levels'[k] == levels[k]
    requires forall k :: |gs| <= k < |grown| ==> levels'[k] == pi + (k - |gs|)
    requires cover' == Record(cover, i, d, stack')
    ensures forall j :: 0 <= j < d ==> j in stack'
    ensures forall j :: 0 <= j < d ==> CoveredAt(grown, levels', next, cover', i, j)
  {
    forall j | 0 <= j < d
      ensures CoveredAt(grown, levels', next, cover', i, j)
    {
      RecordAt(cover, i, d, stack', i, j);
      if j < pi {
        var k := stack[j];
        assert stack'[j] == k && k < |gs| && levels[k] == j && gs[k].height == 0;
        assert grown[k] == gs[k];
      } else {
        var k := |gs| + (j - pi);
        assert stack'[j] == k;
        assert grown[k] == OpenedGuide(j, pi, ep, i, tabSize);
      }
    }
  }

  lemma IndentDisjoint(gs: seq<Guide>, grown: seq<Guide>, stack: map<nat, nat>, stack': map<nat, nat>,
                       levels: seq<nat>, d: nat, pi: nat, ep: int, i: nat, tabSize: nat, l: nat)
    requires d > pi && |levels| == |gs| && ep < i
    requires Stacked(stack, gs, levels, pi) && Before(gs, i, ep, l) && Disjoint(gs, levels)
    requires Opened(gs, grown, stack, stack', pi, d, ep, i, tabSize)
    ensures Disjoint(grown, levels + NewLevels(pi, d))
  {
  }

  /** After the extra step every guide is closed, and the invariant gives what `getIndents` promises. */
  lemma SweptDone(lines: seq<string>, tabSize: nat, stack: map<nat, nat>, gs: seq<Guide>,
                  levels: seq<nat>, cover: map<(nat, nat), nat>)
    requires tabSize > 0
    requires Swept(SweepIndents(lines, tabSize), tabSize, |lines| + 1, stack, gs, levels, cover)
    ensures GuidesFor(lines, tabSize, gs)
  {
    var ind := SweepIndents(lines, tabSize);
    assert PrevIndent(ind, |lines| + 1) == 0;
    forall k | 0 <= k < |gs|
      ensures gs[k].left % tabSize == 0
    {
      MulDiv(levels[k], tabSize);
    }
    forall k, x | 0 <= k < |gs| && gs[k].top <= x < gs[k].top + gs[k].height && 0 <= x < |lines| && IndentCount(lines[x], tabSize) >= 0
      ensures gs[k].left < IndentCount(lines[x], tabSize) * tabSize
    {
      assert ind[x] > levels[k];
      MulStep(levels[k], ind[x], tabSize);
    }
    forall x, j | 0 <= x < |lines| && 0 <= j < IndentCount(lines[x], tabSize)
      ensures LevelAlong(gs, tabSize, j, x)
    {
      assert ind[x] == IndentCount(lines[x], tabSize);
      assert CoveredAt(gs, levels, |lines| + 1, cover, x, j);
      var k := cover[(x, j)];
      assert gs[k].left == LeftOf(j, tabSize);
    }
    forall k, m | 0 <= k < m < |gs| && gs[k].left == gs[m].left
      ensures gs[k].top + gs[k].height <= gs[m].top
    {
      MulStep(levels[k], levels[m], tabSize);
      MulStep(levels[m], levels[k], tabSize);
    }
  }

  /**
   * `getIndents`: one step per line and an extra step with indent 0; a
   * blank line only records where a blank run starts, any other line
   * closes the guides of the levels it does not reach and opens one for
   * each level it adds.
   */
  method GetIndents(lines: seq<string>, tabSize: nat) returns (results: seq<Guide>)
    requires tabSize > 0
    ensures GuidesFor(lines, tabSize, results)
  {
    var l := |lines|;
    ghost var ind := SweepIndents(lines, tabSize);
    var stack: map<nat, nat> := map[];
    results := [];
    ghost var levels: seq<nat> := [];
    ghost var cover: map<(nat, nat), nat> := map[];
    var prevIndent: nat, emptyPos: int, i: nat := 0, -1, 0;
    while true
      invariant i <= l
      invariant prevIndent == PrevIndent(ind, i) && emptyPos == EmptyPos(ind, i)
      invariant Swept(ind, tabSize, i, stack, results, levels, cover)
      decreases l - i
    {
      var last := i == l;
      var indent: int;
      if last {
        indent := 0;
      } else {
        indent := GetIndentCount(lines[i], tabSize);
      }
      if indent < 0 {
        BlankSwept(ind, tabSize, i, stack, results, levels, cover);
        BlankLine(ind, i);
        if emptyPos < 0 {
          emptyPos := i;
        }
      } else {
        var closed := CloseGuides(results, stack, levels, indent, prevIndent, emptyPos, i, last);
        var grown, stack' := OpenGuides(closed, stack, prevIndent, indent, emptyPos, i, tabSize);
        FilledSwept(ind, tabSize, i, stack, results, levels, cover, closed, grown, stack', last);
        FilledLine(ind, i);
        results, stack := grown, stack';
        levels, cover := levels + NewLevels(prevIndent, indent), Record(cover, i, indent, stack');
        emptyPos := -1;
        prevIndent := indent;
      }
      if last {
        SweptDone(lines, tabSize, stack, results, levels, cover);
        break;
      }
      i := i + 1;
    }
  }
  // ---------------------------------------------------------------------
  // From guides to lines
  // ---------------------------------------------------------------------

  /** The line after the last line of guide `g`. */
  function EndOf(g: Guide): int
  {
    g.top + g.height
  }

  /**
   * `isSingleIndent`: neither neighbour in the list starts on the same
   * line. A missing neighbour reads as `undefined`, which differs from
   * every number.
   */
  predicate SingleIndent(gs: seq<Guide>, k: nat)
    requires k < |gs|
  {
    (k == 0 || gs[k - 1].top != gs[k].top) && (k + 1 == |gs| || gs[k + 1].top != gs[k].top)
  }

  /**
   * `isSingleOutdent`: neither neighbour ends on the same line. For a
   * missing neighbour the sum of two `undefined`s is `NaN`, which differs
   * from every number.
   */
  predicate SingleOutdent(gs: seq<Guide>, k: nat)
    requires k < |gs|
  {
    (k == 0 || EndOf(gs[k - 1]) != EndOf(gs[k])) && (k + 1 == |gs| || EndOf(gs[k + 1]) != EndOf(gs[k]))
  }

  /**
   * The lines guide `k` claims in `lineIndentMap`: its own lines, plus the
   * line above when it is a single indent and the line below when it is a
   * single outdent.
   */
  predicate Claims(gs: seq<Guide>, k: nat, y: int)
    requires k < |gs|
  {
    gs[k].top - (if SingleIndent(gs, k) then 1 else 0) <= y < EndOf(gs[k]) + (if SingleOutdent(gs, k) then 1 else 0)
  }

  /** `m` maps every claimed line to the last guide claiming it, and holds nothing else. */
  ghost predicate LastClaims(gs: seq<Guide>, m: map<int, nat>)
  {
    (forall y :: y in m ==> m[y] < |gs| && Claims(gs, m[y], y))
    && (forall y, k :: y in m && m[y] < k < |gs| ==> !Claims(gs, k, y))
    && (forall k, y :: 0 <= k < |gs| && Claims(gs, k, y) ==> y in m)
  }

  /**
   * The `lineIndentMap` loop of `update`: each guide in turn writes its
   * index over the lines it claims, so later guides overwrite earlier ones.
   */
  method FillIndentMap(gs: seq<Guide>) returns (m: map<int, nat>)
    ensures LastClaims(gs, m)
  {
    m := map[];
    var i := 0;
    while i < |gs|
      invariant 0 <= i <= |gs|
      invariant forall y :: y in m ==> m[y] < i && Claims(gs, m[y], y)
      invariant forall y, k :: y in m && m[y] < k < i ==> !Claims(gs, k, y)
      invariant forall k, y :: 0 <= k < i && Claims(gs, k, y) ==> y in m
    {
      var g := gs[i];
      var isSingleIndent := (i == 0 || gs[i - 1].top != g.top) && (i + 1 == |gs| || gs[i + 1].top != g.top);
      var isSingleOutdent := (i == 0 || gs[i - 1].top + gs[i - 1].height != g.top + g.height)
        && (i + 1 == |gs| || gs[i + 1].top + gs[i + 1].height != g.top + g.height);
      var lo: int := if isSingleIndent then -1 else 0;
      var hi := g.height + if isSingleOutdent then 1 else 0;
      assert forall y :: Claims(gs, i, y) <==> g.top + lo <= y < g.top + hi;
      m := ClaimLines(m, g.top, lo, hi, i);
      i := i + 1;
    }
  }

  /** The inner loop of the `lineIndentMap` fill: lines `top + lo` up to `top + hi` are given to guide `i`. */
  method ClaimLines(m: map<int, nat>, top: nat, lo: int, hi: int, i: nat) returns (r: map<int, nat>)
    ensures forall y :: y in r <==> y in m || top + lo <= y < top + hi
    ensures forall y :: y in r ==> r[y] == if top + lo <= y < top + hi then i else m[y]
  {
    r := m;
    var j := lo;
    while j < hi
      invariant j == lo || lo <= j <= hi
      invariant forall y :: y in r <==> y in m || top + lo <= y < top + j
      invariant forall y :: y in r ==> r[y] == if top + lo <= y < top + j then i else m[y]
    {
      r := r[j + top := i];
      j := j + 1;
    }
  }

  /** Every line indented at least one level has a guide in `lineIndentMap`. */
  lemma IndentedLineClaimed(lines: seq<string>, tabSize: nat, gs: seq<Guide>, m: map<int, nat>, x: nat)
    requires tabSize > 0 && GuidesFor(lines, tabSize, gs) && LastClaims(gs, m)
    requires x < |lines| && IndentCount(lines[x], tabSize) >= 1
    ensures x in m
  {
    assert LevelAlong(gs, tabSize, 0, x);
    var k :| 0 <= k < |gs| && gs[k].left == LeftOf(0, tabSize) && gs[k].top <= x < gs[k].top + gs[k].height;
    assert Claims(gs, k, x);
  }

  /**
   * The guides of one editor: the map from line to guide, the guides as
   * laid out last, the index of the active guide (-1 for none) and the
   * guides whose element carries the `active` class.
   */
  class IndentGuides {
    var lineIndentMap: map<int, nat>
    var indents: seq<Guide>
    var active: int
    var marked: set<int>

    /** Only the active guide carries the class. */
    ghost predicate Valid()
      reads this
    {
      marked == if active > -1 then {active} else {}
    }

    constructor ()
      ensures Valid() && active == -1 && lineIndentMap == map[] && indents == []
    {
      lineIndentMap, indents, active, marked := map[], [], -1, {};
    }

    /**
     * `update`: the code is split into lines and swept with the editor's
     * tab size (2 when unset or 0); the guides and the map are replaced.
     */
    method Update(code: string, tabSizeProp: nat)
      modifies this
      ensures GuidesFor(Split(code, '\n'), if tabSizeProp == 0 then 2 else tabSizeProp, indents)
      ensures LastClaims(indents, lineIndentMap)
      ensures active == old(active) && marked == old(marked)
    {
      var tabSize := if tabSizeProp == 0 then 2 else tabSizeProp;
      var newIndents := GetIndents(Split(code, '\n'), tabSize);
      lineIndentMap := FillIndentMap(newIndents);
      indents := newIndents;
    }

    /**
     * `updateActive`: the guide of the caret's line becomes the active one;
     * the classes are touched only when it changes.
     */
    method UpdateActive(activeLine: int)
      requires Valid()
      modifies this
      ensures Valid()
      ensures active == if activeLine - 1 in lineIndentMap then lineIndentMap[activeLine - 1] else -1
      ensures active == old(active) ==> marked == old(marked)
      ensures lineIndentMap == old(lineIndentMap) && indents == old(indents)
    {
      var newActive := if activeLine - 1 in lineIndentMap then lineIndentMap[activeLine - 1] else -1;
      if newActive != active {
        if active > -1 {
          marked := marked - {active};
        }
        if newActive > -1 {
          marked := marked + {newActive};
        }
      }
      active := newActive;
    }
  }
}
