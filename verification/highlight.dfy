/**
 * Highlighting the closest bracket pair. On every selection change the
 * handler looks, when the editor has focus and the selection is a caret,
 * for the first closing bracket (from index 1 on) that ends at or after
 * the caret and whose opening partner starts at or before it. When the
 * bracket tuple found differs from the one found last time, the old pair
 * loses its highlight and the new one, if any, gets it.
 */
module BracketHighlight {
  import opened JsString
  import opened MatchBrackets

  /**
   * The identity of a bracket tuple: every tokenize pass builds fresh
   * tuples, so two tuples are the same object exactly when they come from
   * the same pass and sit at the same index.
   */
  datatype BracketRef = BracketRef(generation: nat, index: nat)

  /** The highlighted pair, by the starting offsets of its two tokens. */
  datatype Highlight = Highlight(opening: nat, closing: nat)

  /** What the handler reads off the matcher: its arrays and the pass that built them. */
  datatype MatcherView = MatcherView(brackets: seq<Bracket>, pairs: map<nat, nat>, generation: nat)

  /** The handler's own state: the tuple found last time and the pair highlighted. */
  datatype HighlightState = HighlightState(prev: Option<BracketRef>, active: Option<Highlight>)

  /**
   * Bracket `i` is a closing bracket ending at or after `caret` whose
   * partner starts at or before it. A missing partner (or one outside the
   * array) reads as `undefined` in the source, and `undefined <= end` is
   * false.
   */
  predicate Encloses(bs: seq<Bracket>, pairs: map<nat, nat>, i: nat, caret: nat)
  {
    i < |bs| && !bs[i].opening && bs[i].end >= caret
    && i in pairs && pairs[i] < |bs| && bs[pairs[i]].start <= caret
  }

  /** The first index at `from` or later whose bracket encloses `caret`, or -1. */
  function ClosestFrom(bs: seq<Bracket>, pairs: map<nat, nat>, caret: nat, from: nat): (r: int)
    ensures r == -1 || (from <= r && Encloses(bs, pairs, r, caret))
    ensures r == -1 ==> forall i :: from <= i < |bs| ==> !Encloses(bs, pairs, i, caret)
    ensures r != -1 ==> forall i :: from <= i < r ==> !Encloses(bs, pairs, i, caret)
    decreases |bs| - from
  {
    if from >= |bs| then -1
    else if Encloses(bs, pairs, from, caret) then from
    else ClosestFrom(bs, pairs, caret, from + 1)
  }

  /** The index the handler picks: none without focus or with a non-empty selection. */
  function PickedId(view: MatcherView, focused: bool, start: nat, end: nat): (r: int)
    ensures r == -1 || (1 <= r && Encloses(view.brackets, view.pairs, r, end))
    ensures r != -1 ==> focused && start == end
  {
    if focused && start == end then ClosestFrom(view.brackets, view.pairs, end, 1) else -1
  }

  /** The pair a closing bracket `id` and its partner make, by their starting offsets. */
  function HighlightOf(view: MatcherView, id: nat): Highlight
    requires id in view.pairs && id < |view.brackets| && view.pairs[id] < |view.brackets|
  {
    Highlight(view.brackets[view.pairs[id]].start, view.brackets[id].start)
  }

  /**
   * One selection change: the tuple found is compared with the previous
   * one; only when it differs is the highlight moved (or removed), and the
   * tuple found becomes the previous one.
   */
  function Next(s: HighlightState, view: MatcherView, focused: bool, start: nat, end: nat): HighlightState
  {
    var id := PickedId(view, focused, start, end);
    var closing := if id >= 0 then Some(BracketRef(view.generation, id)) else None;
    var active :=
      if closing != s.prev then (if id >= 0 then Some(HighlightOf(view, id)) else None)
      else s.active;
    HighlightState(closing, active)
  }

  /**
   * The highlight shown belongs to the tuple remembered: both are present
   * or both absent, and when the tuple comes from the pass `view` shows,
   * the highlight is that tuple's pair.
   */
  ghost predicate Agrees(s: HighlightState, view: MatcherView)
  {
    (s.active.Some? <==> s.prev.Some?)
    && (s.prev.Some? && s.prev.value.generation == view.generation ==>
          var id := s.prev.value.index;
          id in view.pairs && id < |view.brackets| && view.pairs[id] < |view.brackets|
          && s.active == Some(HighlightOf(view, id)))
  }

  /**
   * After a selection change the pair highlighted is exactly the one the
   * search finds, and none when it finds nothing, provided the state
   * agreed with the matcher before.
   */
  lemma NextHighlightsClosest(s: HighlightState, view: MatcherView, focused: bool, start: nat, end: nat)
    requires Agrees(s, view)
    ensures var id, r := PickedId(view, focused, start, end), Next(s, view, focused, start, end);
      Agrees(r, view)
      && r.active == (if id >= 0 then Some(HighlightOf(view, id)) else None)
  {
    var id := PickedId(view, focused, start, end);
    if id >= 0 && s.prev == Some(BracketRef(view.generation, id)) {
      assert s.active == Some(HighlightOf(view, id));
    }
  }

  /**
   * A tokenize pass starts a new generation: a state whose remembered
   * tuple comes from an older pass agrees with the new arrays whatever
   * they hold.
   */
  lemma FreshPassAgrees(s: HighlightState, view: MatcherView)
    requires s.active.Some? <==> s.prev.Some?
    requires s.prev.Some? ==> s.prev.value.generation < view.generation
    ensures Agrees(s, view)
  {
  }

  /** Repeating a selection change with the same selection changes nothing more. */
  lemma NextIdempotent(s: HighlightState, view: MatcherView, focused: bool, start: nat, end: nat)
    ensures var r := Next(s, view, focused, start, end);
      Next(r, view, focused, start, end) == r
  {
  }

  /**
   * Starting the search at index 1 loses nothing: in a matched state the
   * bracket at index 0 is never a paired closing bracket.
   */
  lemma SkipFirst(st: MatchState, ob: string, cb: string, caret: nat)
    requires Matched(st, ob, cb)
    ensures ClosestFrom(st.brackets, st.pairs, caret, 1) == ClosestFrom(st.brackets, st.pairs, caret, 0)
  {
    if 0 in st.pairs {
      assert 0 < st.pairs[0];
    }
  }

  /** The rainbow pass leaves the search unchanged: it touches only token aliases. */
  lemma {:induction false} ClosestPaint(bs: seq<Bracket>, pairs: map<nat, nat>, caret: nat, from: nat)
    ensures ClosestFrom(Paint(bs, pairs), pairs, caret, from) == ClosestFrom(bs, pairs, caret, from)
    decreases |bs| - from
  {
    PaintKeeps(bs, pairs);
    if from < |bs| {
      ClosestPaint(bs, pairs, caret, from + 1);
      var r := Paint(bs, pairs);
      assert r[from].(token := bs[from].token) == bs[from];
      if from in pairs && pairs[from] < |bs| {
        assert r[pairs[from]].(token := bs[pairs[from]].token) == bs[pairs[from]];
      }
    }
  }

  /**
   * Two closing brackets that both enclose the caret, in a state a tokenize
   * pass produces (`MatchAllMatched`, `MatchAllOrdered`): the pair of the
   * earlier one lies inside the pair of the later one, unless the caret sits
   * exactly where the earlier pair ends and the later one starts. As the
   * search returns the earliest enclosing closing bracket, the pair it
   * highlights is the innermost one around the caret.
   */
  lemma EnclosingPairsNest(st: MatchState, ob: string, cb: string, caret: nat, id: nat, j: nat)
    requires Matched(st, ob, cb)
    requires forall k, m :: 0 <= k < m < |st.brackets| ==> st.brackets[k].end <= st.brackets[m].start
    requires id < j && Encloses(st.brackets, st.pairs, id, caret) && Encloses(st.brackets, st.pairs, j, caret)
    ensures st.pairs[j] < st.pairs[id]
      || (st.brackets[id].end == caret && st.brackets[st.pairs[j]].start == caret)
  {
    var o, o' := st.pairs[id], st.pairs[j];
    assert o < id && o' < j;
    assert st.brackets[o'].opening && o' != id && o != o';
    assert st.pairs[o] == id && st.pairs[o'] == j;
    if id < o' {
      assert st.brackets[id].end <= st.brackets[o'].start;
    }
  }

  /**
   * The handler's closure state. `prev` is the tuple found last time and
   * `active` the pair whose tokens carry the highlight class.
   */
  class PairHighlighter {
    var prev: Option<BracketRef>
    var active: Option<Highlight>

    function State(): HighlightState
      reads this
    {
      HighlightState(prev, active)
    }

    constructor ()
      ensures State() == HighlightState(None, None)
    {
      prev, active := None, None;
    }

    /**
     * The `selectionChange` handler, with the selection and the focus
     * passed in. Without a matcher nothing happens.
     */
    method SelectionChange(matcher: BracketMatcher?, focused: bool, start: nat, end: nat)
      modifies this
      ensures matcher == null ==> State() == old(State())
      ensures matcher != null ==>
        State() == Next(old(State()), MatcherView(matcher.brackets, matcher.pairs, matcher.generation), focused, start, end)
    {
      if matcher != null {
        var brackets, pairs := matcher.brackets, matcher.pairs;
        var newId := -1;
        if focused && start == end {
          newId := FindClosest(brackets, pairs, end);
        }
        var closing := if newId >= 0 then Some(BracketRef(matcher.generation, newId)) else None;
        if closing != prev {
          if newId >= 0 {
            active := Some(Highlight(brackets[pairs[newId]].start, brackets[newId].start));
          } else {
            active := None;
          }
        }
        prev := closing;
      }
    }
  }

  /** The search loop, starting at index 1 and stopping at the first hit. */
  method FindClosest(brackets: seq<Bracket>, pairs: map<nat, nat>, caret: nat) returns (id: int)
    ensures id == ClosestFrom(brackets, pairs, caret, 1)
  {
    var i := 1;
    while i < |brackets|
      invariant 1 <= i
      invariant ClosestFrom(brackets, pairs, caret, i) == ClosestFrom(brackets, pairs, caret, 1)
    {
      if !brackets[i].opening && brackets[i].end >= caret && i in pairs
         && pairs[i] < |brackets| && brackets[pairs[i]].start <= caret {
        return i;
      }
      i := i + 1;
    }
    return -1;
  }
}
