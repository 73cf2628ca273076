/**
 * The line diff at the heart of the editor's `update`: the common-prefix and
 * common-suffix scans over the previous and the new per-line markup, and the
 * arithmetic that turns their cursors into one splice of the rendered lines.
 *
 * Indices are those of the source: `start` counts the common prefix, and
 * `end1`/`end2` are where the backward scan stopped in the new and the old
 * lines. The two scans are not bounded by each other and may cross.
 */
module LineDiff {
  import opened JsString

  /** `a[i]` in JavaScript: `undefined` (None) outside the array. */
  function At(a: seq<string>, i: int): Option<string>
  {
    if 0 <= i < |a| then Some(a[i]) else None
  }

  /** What the forward scan leaves in `start`: the common prefix, stopped by a difference or either end. */
  ghost predicate IsPrefixScan(next: seq<string>, prev: seq<string>, start: int)
  {
    && 0 <= start <= |next| && start <= |prev|
    && next[..start] == prev[..start]
    && (start == |next| || start == |prev| || next[start] != prev[start])
  }

  /**
   * What the backward scan leaves in `end1`/`end2`: both moved back in
   * lockstep; every line after `end1` matched its partner; and unless the scan
   * ran down to 0, it stopped on a difference or ran off the old lines (-1).
   */
  ghost predicate IsSuffixScan(next: seq<string>, prev: seq<string>, end1: int, end2: int)
  {
    && 0 <= end1 < |next|
    && end2 == end1 + |prev| - |next|
    && -1 <= end2
    && (forall k :: end1 < k < |next| ==> 0 <= k + |prev| - |next| < |prev| && next[k] == prev[k + |prev| - |next|])
    && (end1 > 0 ==> end2 == -1 || next[end1] != prev[end2])
  }

  /**
   * The two scans of `update` (src/core.tsx:109-114). `newLines` comes from
   * `split`, so it is never empty.
   */
  method Scan(newLines: seq<string>, prevLines: seq<string>) returns (start: nat, end1: int, end2: int)
    requires |newLines| >= 1
    ensures IsPrefixScan(newLines, prevLines, start)
    ensures IsSuffixScan(newLines, prevLines, end1, end2)
  {
    start := 0;
    end2 := |prevLines|;
    end1 := |newLines|;
    while At(newLines, start) == At(prevLines, start) && start < end1
      invariant start <= |newLines| && start <= |prevLines|
      invariant newLines[..start] == prevLines[..start]
      decreases end1 - start
    {
      start := start + 1;
    }
    ghost var d := |prevLines| - |newLines|;
    while end1 != 0
      invariant 0 <= end1 <= |newLines| && end2 == end1 + d && 0 <= end2
      invariant forall k :: end1 <= k < |newLines| ==> 0 <= k + d < |prevLines| && newLines[k] == prevLines[k + d]
    {
      end1, end2 := end1 - 1, end2 - 1;
      if At(newLines, end1) != At(prevLines, end2) {
        break;
      }
    }
  }

  /** `insertStart`: the last new line (0-based) kept in front of the splice; -1 when none is. */
  function InsertStart(start: nat, end2: int): int
  {
    if end2 < start then end2 else start - 1
  }

  /** Where the removal loop starts counting (the initial `i` of src/core.tsx:123). */
  function RemoveFrom(start: nat, end1: int): int
  {
    if end1 < start then end1 else start - 1
  }

  /** How many times `for (i = lo; i < hi; i++)` runs its body. */
  function Span(lo: int, hi: int): nat
  {
    if hi > lo then hi - lo else 0
  }

  /** How many old lines the removal loop takes out. */
  function RemovedCount(start: nat, end1: int, end2: int): nat
  {
    Span(RemoveFrom(start, end1), end2)
  }

  /** How many new lines the insertion loop renders. */
  function InsertedCount(start: nat, end1: int, end2: int): nat
  {
    Span(InsertStart(start, end2), end1)
  }

  /**
   * The structural path rebuilds the new lines exactly, whatever the scans
   * left, crossing included: the old lines with the removed block taken out
   * at `start`, then the rendered block put in after `insertStart`, are the
   * new lines. The removal stays inside the old lines and the insertion
   * anchor stays in front of the removed block.
   */
  lemma SpliceRebuilds(next: seq<string>, prev: seq<string>, start: nat, end1: int, end2: int)
    requires IsPrefixScan(next, prev, start) && IsSuffixScan(next, prev, end1, end2)
    ensures -1 <= InsertStart(start, end2) < start
    ensures start + RemovedCount(start, end1, end2) <= |prev|
    ensures InsertStart(start, end2) + 1 + InsertedCount(start, end1, end2) <= |next|
    ensures var ins, kept := InsertStart(start, end2), Kept(prev, start, RemovedCount(start, end1, end2));
            kept[..ins + 1] + next[ins + 1..ins + 1 + InsertedCount(start, end1, end2)] + kept[ins + 1..] == next
  {
    var ins, cnt, m := InsertStart(start, end2), RemovedCount(start, end1, end2), InsertedCount(start, end1, end2);
    SplicePointwise(next, prev, start, end1, end2);
    var kept := Kept(prev, start, cnt);
    var block := next[ins + 1..ins + 1 + m];
    var r := kept[..ins + 1] + block + kept[ins + 1..];
    forall k | 0 <= k < |next|
      ensures r[k] == next[k]
    {
      if k < ins + 1 {
        assert r[k] == kept[k];
      } else if k < ins + 1 + m {
        assert r[k] == block[k - ins - 1];
      } else {
        assert r[k] == kept[k - m];
      }
    }
  }

  /**
   * SpliceRebuilds element by element: the new lines before the rendered
   * block and after it are the kept old lines, in order.
   */
  lemma SplicePointwise(next: seq<string>, prev: seq<string>, start: nat, end1: int, end2: int)
    requires IsPrefixScan(next, prev, start) && IsSuffixScan(next, prev, end1, end2)
    ensures -1 <= InsertStart(start, end2) < start
    ensures start + RemovedCount(start, end1, end2) <= |prev|
    ensures InsertStart(start, end2) + 1 + InsertedCount(start, end1, end2) <= |next|
    ensures |Kept(prev, start, RemovedCount(start, end1, end2))| + InsertedCount(start, end1, end2) == |next|
    ensures forall k {:trigger next[k]} :: 0 <= k <= InsertStart(start, end2) ==>
              Kept(prev, start, RemovedCount(start, end1, end2))[k] == next[k]
    ensures forall k {:trigger next[k]} :: InsertStart(start, end2) + 1 + InsertedCount(start, end1, end2) <= k < |next| ==>
              Kept(prev, start, RemovedCount(start, end1, end2))[k - InsertedCount(start, end1, end2)] == next[k]
  {
    var ins, cnt, m := InsertStart(start, end2), RemovedCount(start, end1, end2), InsertedCount(start, end1, end2);
    SpliceArithmetic(|next|, |prev|, start, end1, end2);
    var kept := Kept(prev, start, cnt);
    forall k | 0 <= k <= ins
      ensures kept[k] == next[k]
    {
      assert kept[k] == prev[k];
      assert next[..start][k] == prev[..start][k];
    }
    forall k | ins + 1 + m <= k < |next|
      ensures kept[k - m] == next[k]
    {
      TailLine(next, prev, start, end1, end2, k);
    }
  }

  /** The old lines with `cnt` of them taken out at `start`. */
  function Kept(prev: seq<string>, start: nat, cnt: nat): (kept: seq<string>)
    requires start + cnt <= |prev|
    ensures |kept| == |prev| - cnt
  {
    prev[..start] + prev[start + cnt..]
  }

  /** The integer facts behind SpliceRebuilds, free of sequences. */
  lemma SpliceArithmetic(n1: nat, n2: nat, start: nat, end1: int, end2: int)
    requires start <= n1 && start <= n2
    requires 0 <= end1 < n1 && end2 == end1 + n2 - n1 && -1 <= end2
    ensures var ins, cnt, m := InsertStart(start, end2), RemovedCount(start, end1, end2), InsertedCount(start, end1, end2);
            && -1 <= ins < start
            && start + cnt <= n2
            && n2 - cnt + m == n1
            && ins + 1 + m <= n1
            && (m > 0 ==> ins + m == end1)
            && (m == 0 ==> end1 <= ins && cnt == end2 - end1)
            && (m > 0 && ins == start - 1 ==> start + cnt == end2 + 1)
            && (m > 0 && ins < start - 1 ==> ins == end2 && cnt == 0)
  {
  }

  /**
   * A new line after the rendered block comes from the kept old lines: from
   * the untouched front when it lies before `start`, else from behind the
   * removed block; either way its old partner is equal to it.
   */
  lemma TailLine(next: seq<string>, prev: seq<string>, start: nat, end1: int, end2: int, k: int)
    requires IsPrefixScan(next, prev, start) && IsSuffixScan(next, prev, end1, end2)
    requires InsertStart(start, end2) + 1 + InsertedCount(start, end1, end2) <= k < |next|
    ensures var m := InsertedCount(start, end1, end2);
            start + RemovedCount(start, end1, end2) <= |prev| &&
            0 <= k - m < |Kept(prev, start, RemovedCount(start, end1, end2))| &&
            Kept(prev, start, RemovedCount(start, end1, end2))[k - m] == next[k]
  {
    var ins, cnt, m := InsertStart(start, end2), RemovedCount(start, end1, end2), InsertedCount(start, end1, end2);
    SpliceArithmetic(|next|, |prev|, start, end1, end2);
    var kept := Kept(prev, start, cnt);
    var j := k - m;
    assert k > end1;
    if j < start {
      assert kept[j] == prev[j];
      if m == 0 {
        assert next[..start][k] == prev[..start][k];
      } else {
        assert j == k + |prev| - |next|;
      }
    } else {
      assert kept[j] == prev[j + cnt];
      assert j + cnt == k + |prev| - |next|;
    }
  }

  /**
   * The in-place path (`start == end1 == end2`, src/core.tsx:116) rewrites one
   * line, and that alone turns the old lines into the new ones.
   */
  lemma RewriteRebuilds(next: seq<string>, prev: seq<string>, start: nat, end1: int, end2: int)
    requires IsPrefixScan(next, prev, start) && IsSuffixScan(next, prev, end1, end2)
    requires start == end1 && start == end2
    ensures |next| == |prev| && start < |prev|
    ensures prev[start := next[start]] == next
  {
    forall k | 0 <= k < |next|
      ensures prev[start := next[start]][k] == next[k]
    {
      if k < start {
        assert next[..start][k] == prev[..start][k];
      }
    }
  }

  /**
   * The in-place path fires exactly when the line counts agree and exactly
   * one line differs (src/core.tsx:113-116), and then at that line.
   */
  lemma {:induction false} InPlaceIffOneLineChanged(next: seq<string>, prev: seq<string>, start: nat, end1: int, end2: int)
    requires IsPrefixScan(next, prev, start) && IsSuffixScan(next, prev, end1, end2)
    ensures (start == end1 && start == end2) <==>
            (|next| == |prev| && exists x :: 0 <= x < |next| && next[x] != prev[x] && next == prev[x := next[x]])
    ensures start == end1 && start == end2 ==> next[start] != prev[start]
  {
    if start == end1 && start == end2 {
      RewriteRebuilds(next, prev, start, end1, end2);
      assert next[start] != prev[start];
    }
    if |next| == |prev| && exists x :: 0 <= x < |next| && next[x] != prev[x] && next == prev[x := next[x]] {
      var x :| 0 <= x < |next| && next[x] != prev[x] && next == prev[x := next[x]];
      // both scans stop at x: the lines agree everywhere else
      assert forall k :: 0 <= k < start ==> next[k] == prev[k] by {
        forall k | 0 <= k < start ensures next[k] == prev[k] {
          assert next[..start][k] == prev[..start][k];
        }
      }
      assert forall k :: 0 <= k < |next| && k != x ==> next[k] == prev[k];
    }
  }

  /** An update that changes nothing removes and inserts no line (src/core.tsx:118-125). */
  lemma UnchangedTouchesNothing(lines: seq<string>, start: nat, end1: int, end2: int)
    requires |lines| >= 1
    requires IsPrefixScan(lines, lines, start) && IsSuffixScan(lines, lines, end1, end2)
    ensures !(start == end1 && start == end2)
    ensures RemovedCount(start, end1, end2) == 0 && InsertedCount(start, end1, end2) == 0
  {
    assert start == |lines|;
    assert end2 == end1;
  }

  /**
   * Inserting one line anywhere removes no element and renders exactly one
   * new element; the renumbering starts at that element.
   */
  lemma SingleInsertion(prev: seq<string>, x: nat, y: string, start: nat, end1: int, end2: int)
    requires x <= |prev|
    requires var next := prev[..x] + [y] + prev[x..];
             IsPrefixScan(next, prev, start) && IsSuffixScan(next, prev, end1, end2)
    ensures !(start == end1 && start == end2)
    ensures RemovedCount(start, end1, end2) == 0 && InsertedCount(start, end1, end2) == 1
  {
    var next := prev[..x] + [y] + prev[x..];
    // the new lines agree with the old ones before x, and one place later after x
    assert forall k :: 0 <= k < x ==> next[k] == prev[k];
    assert forall k :: x < k < |next| ==> next[k] == prev[k - 1];
  }
}
