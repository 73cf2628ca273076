/**
 * Line boundaries in a text: where the line holding a position starts and
 * where it ends.
 */
module Local {
  import opened JsString

  /**
   * `getLineStart(text, position)`: the index just after the last newline
   * before `position`, or 0 when the line is the first.
   */
  function GetLineStart(text: string, position: nat): (r: nat)
    ensures r <= position && r <= |text|
    ensures position == 0 ==> r == 0
    ensures r == 0 || text[r - 1] == '\n'
    ensures forall k :: r <= k < position && k < |text| ==> text[k] != '\n'
  {
    if position != 0 then LastIndexOf(text, '\n', position - 1) + 1 else 0
  }

  /**
   * `getLineEnd(text, position)`: the index of the first newline at or after
   * `position`, or the length of the text when there is none.
   */
  function GetLineEnd(text: string, position: nat): (r: nat)
    ensures r <= |text|
    ensures position <= |text| ==> position <= r
    ensures r == |text| || text[r] == '\n'
    ensures forall k :: position <= k < r ==> text[k] != '\n'
    ensures position < |text| && text[position] == '\n' ==> r == position
  {
    var i := IndexOf(text, '\n', position);
    if i + 1 != 0 then i else |text|
  }

  /** The line start is the only index with the properties GetLineStart promises. */
  lemma LineStartUnique(text: string, position: nat, r: nat)
    requires r <= position && r <= |text|
    requires r == 0 || text[r - 1] == '\n'
    requires forall k :: r <= k < position && k < |text| ==> text[k] != '\n'
    ensures r == GetLineStart(text, position)
  {
    var s := GetLineStart(text, position);
    if 0 < s {
      // the newline just before s lies before position, so r cannot be below s
      assert text[s - 1] == '\n' && s - 1 < position;
    }
    if 0 < r {
      assert text[r - 1] == '\n' && r - 1 < position;
    }
  }

  /**
   * Every position between a line's start and its end lies on that line:
   * both helpers give back the same boundaries from any of them.
   */
  lemma {:induction false} SameLine(text: string, p: nat, q: nat)
    requires GetLineStart(text, p) <= q <= GetLineEnd(text, p) <= |text|
    requires p <= |text|
    ensures GetLineStart(text, q) == GetLineStart(text, p)
    ensures GetLineEnd(text, q) == GetLineEnd(text, p)
  {
    var s, e := GetLineStart(text, p), GetLineEnd(text, p);
    LineStartUnique(text, q, s);
    var e' := GetLineEnd(text, q);
    if e' < |text| {
      assert text[e'] == '\n';
    }
    if e < |text| {
      assert text[e] == '\n';
    }
  }
}
