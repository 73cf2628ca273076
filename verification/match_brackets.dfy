/**
 * The bracket matcher. On every tokenize pass it walks the token tree depth
 * first, records each punctuation token whose first (or last) character is
 * a bracket together with its absolute offsets, pairs every closing bracket
 * with the nearest open bracket of the same type, gives both members of a
 * pair their nesting level, and in rainbow mode appends a level (or error)
 * class to each bracket token's alias.
 */
module MatchBrackets {
  import opened JsString

  /**
   * A token of the highlighter's output: a plain string, or a typed token
   * (with an optional alias, "" standing for none) whose content is a
   * string or a nested token stream. A token's length is the length of its
   * content, which the tokenizer guarantees.
   */
  datatype Token =
    | Text(text: string)
    | Tok(kind: string, alias: string, content: Content)

  datatype Content = Plain(text: string) | Stream(tokens: seq<Token>)

  function Len(t: Token): nat
    decreases t
  {
    match t
    case Text(s) => |s|
    case Tok(_, _, Plain(s)) => |s|
    case Tok(_, _, Stream(ts)) => LenAll(ts)
  }

  function LenAll(ts: seq<Token>): nat
    decreases ts
  {
    if ts == [] then 0 else Len(ts[0]) + LenAll(ts[1..])
  }

  /**
   * The bracket tuple `[token, start, level, text, opening, end]`.
   */
  datatype Bracket = Bracket(token: Token, start: nat, level: nat, text: string, opening: bool, end: nat)

  /** A stack entry `[index of the opening bracket, its type ordinal]`. */
  datatype Entry = Entry(index: nat, kind: nat)

  /** A bracket found by the walk, with the type ordinal it is matched on. */
  datatype Candidate = Candidate(bracket: Bracket, kind: nat)

  /** The matcher's arrays: brackets, the pair map and the live part of the stack. */
  datatype MatchState = MatchState(brackets: seq<Bracket>, pairs: map<nat, nat>, stack: seq<Entry>)

  const Empty := MatchState([], map[], [])

  /**
   * `testBracket(str, brackets, l)`: the 1-based position in `brackets` of
   * the first character of `str`, failing that of the character at `l`
   * (tried only when `l` is not 0), or 0 when neither is a bracket.
   */
  function TestBracket(str: string, brackets: string, l: int): (r: nat)
    ensures r <= |brackets|
    ensures r != 0 ==> |str| > 0
  {
    var first := if |str| > 0 then IndexOf(brackets, str[0], 0) + 1 else 0;
    if first != 0 then first
    else if l != 0 && 0 <= l < |str| then IndexOf(brackets, str[l], 0) + 1
    else 0
  }

  /**
   * What `testBracket` finds: the first occurrence of the first character
   * when that is a bracket; otherwise, when `l` is not 0, the first
   * occurrence of the character at `l`; otherwise nothing.
   */
  lemma TestBracketFinds(str: string, brackets: string, l: int)
    ensures var r := TestBracket(str, brackets, l);
      (|str| > 0 && str[0] in brackets ==>
         0 < r && brackets[r - 1] == str[0] && str[0] !in brackets[..r - 1])
      && (!(|str| > 0 && str[0] in brackets) ==>
            (r != 0 <==> l != 0 && 0 <= l < |str| && str[l] in brackets))
      && (!(|str| > 0 && str[0] in brackets) && r != 0 ==>
            0 <= l < |str| && brackets[r - 1] == str[l] && str[l] !in brackets[..r - 1])
  {
  }

  /** Only tokens whose `alias || type` is exactly "punctuation" can be brackets. */
  predicate IsPunctuation(kind: string, alias: string)
  {
    (if alias != "" then alias else kind) == "punctuation"
  }

  /** The type ordinal a bracket is matched on: its position in its own bracket string. */
  function Ordinal(b: Bracket, ob: string, cb: string): nat
  {
    TestBracket(b.text, if b.opening then ob else cb, |b.text| - 1)
  }

  /**
   * How the walk classifies a punctuation token with string content `s`
   * found at `pos`: an opening bracket when `s` tests as one, otherwise a
   * closing bracket when it tests as one, otherwise nothing.
   */
  function Classify(t: Token, s: string, pos: nat, ob: string, cb: string): (r: Option<Candidate>)
    ensures r.Some? ==> r.value.kind != 0 && r.value.kind == Ordinal(r.value.bracket, ob, cb)
    ensures r.Some? ==> r.value.bracket == Bracket(t, pos, 0, s, r.value.bracket.opening, pos + |s|)
    ensures r.Some? <==> TestBracket(s, ob, |s| - 1) != 0 || TestBracket(s, cb, |s| - 1) != 0
    ensures r.Some? ==> (r.value.bracket.opening <==> TestBracket(s, ob, |s| - 1) != 0)
  {
    var openingType := TestBracket(s, ob, |s| - 1);
    var closingType := if openingType != 0 then openingType else TestBracket(s, cb, |s| - 1);
    if closingType != 0 then Some(Candidate(Bracket(t, pos, 0, s, openingType != 0, pos + |s|), closingType))
    else None
  }

  /**
   * The brackets the depth-first walk meets in `t`, which starts at `pos`:
   * plain strings contribute none, nested streams are walked with the same
   * starting offset, and a punctuation token with string content is
   * classified.
   */
  function FoundIn(t: Token, pos: nat, ob: string, cb: string): seq<Candidate>
    decreases t
  {
    match t
    case Text(_) => []
    case Tok(_, _, Stream(ts)) => Found(ts, pos, ob, cb)
    case Tok(kind, alias, Plain(s)) =>
      if IsPunctuation(kind, alias) then
        match Classify(t, s, pos, ob, cb)
        case Some(c) => [c]
        case None => []
      else []
  }

  /**
   * The brackets met walking the stream `ts` from offset `pos`: each token
   * starts where the previous one ended, and the walk of a stream stops at
   * its first empty string.
   */
  function Found(ts: seq<Token>, pos: nat, ob: string, cb: string): seq<Candidate>
    decreases ts
  {
    if ts == [] || Stops(ts[0]) then []
    else FoundIn(ts[0], pos, ob, cb) + Found(ts[1..], pos + Len(ts[0]), ob, cb)
  }

  /** The empty string, which ends the walk of a stream (it is falsy in JavaScript). */
  predicate Stops(t: Token)
  {
    t.Text? && |t.text| == 0
  }

  /** `stack[i]` with the largest `i` whose type is `kind`, or -1. */
  function TopMatch(stack: seq<Entry>, kind: nat): (i: int)
    ensures -1 <= i < |stack|
    ensures i >= 0 ==> stack[i].kind == kind
    ensures forall j :: i < j < |stack| ==> stack[j].kind != kind
  {
    if stack == [] then -1
    else if stack[|stack| - 1].kind == kind then |stack| - 1
    else TopMatch(stack[..|stack| - 1], kind)
  }

  /** Every stack entry names a recorded bracket. */
  ghost predicate StackBelow(st: MatchState)
  {
    forall j :: 0 <= j < |st.stack| ==> st.stack[j].index < |st.brackets|
  }

  /**
   * One bracket taken by the walk. An opening bracket is pushed. A closing
   * bracket pairs with the topmost entry of its type, which together with
   * every entry above it leaves the stack; both members get the number of
   * entries below that entry as their level. A closing bracket without
   * such an entry leaves the stack alone and stays unpaired.
   */
  function Step(st: MatchState, c: Candidate): (r: MatchState)
    requires StackBelow(st)
    ensures StackBelow(r) && |r.brackets| == |st.brackets| + 1
  {
    var index := |st.brackets|;
    var bs := st.brackets + [c.bracket];
    if c.bracket.opening then
      MatchState(bs, st.pairs, st.stack + [Entry(index, c.kind)])
    else
      var i := TopMatch(st.stack, c.kind);
      if i < 0 then MatchState(bs, st.pairs, st.stack)
      else
        var o := st.stack[i].index;
        MatchState(bs[index := bs[index].(level := i)][o := bs[o].(level := i)],
                   st.pairs[index := o][o := index], st.stack[..i])
  }

  /** The state after the brackets `cs` are taken one after the other. */
  function Feed(st: MatchState, cs: seq<Candidate>): (r: MatchState)
    requires StackBelow(st)
    ensures StackBelow(r) && |r.brackets| == |st.brackets| + |cs|
    decreases |cs|
  {
    if cs == [] then st else Step(Feed(st, cs[..|cs| - 1]), cs[|cs| - 1])
  }

  /** The state a tokenize pass over `tokens` computes from the reset arrays. */
  function MatchAll(tokens: seq<Token>, ob: string, cb: string): MatchState
  {
    Feed(Empty, Found(tokens, 0, ob, cb))
  }

  // ---------------------------------------------------------------------
  // The invariant of the pair map and the stack.
  // ---------------------------------------------------------------------

  /** Stack entries are open brackets, unpaired, in increasing index order, with their own type. */
  ghost predicate StackOk(st: MatchState, ob: string, cb: string)
  {
    StackBelow(st)
    && (forall j :: 0 <= j < |st.stack| ==>
          st.brackets[st.stack[j].index].opening && st.stack[j].index !in st.pairs
          && st.stack[j].kind == Ordinal(st.brackets[st.stack[j].index], ob, cb))
    && (forall j, k :: 0 <= j < k < |st.stack| ==> st.stack[j].index < st.stack[k].index)
  }

  /**
   * The pair map is symmetric, the opener of a pair comes first, and both
   * members have the same type ordinal and the same level.
   */
  ghost predicate PairsOk(st: MatchState, ob: string, cb: string)
  {
    forall x :: x in st.pairs ==>
      x < |st.brackets| && st.pairs[x] < |st.brackets| && st.pairs[x] in st.pairs
      && st.pairs[st.pairs[x]] == x
      && (st.brackets[x].opening <==> x < st.pairs[x])
      && st.brackets[x].opening != st.brackets[st.pairs[x]].opening
      && st.brackets[x].level == st.brackets[st.pairs[x]].level
      && Ordinal(st.brackets[x], ob, cb) == Ordinal(st.brackets[st.pairs[x]], ob, cb)
  }

  /** Unpaired brackets have level 0. */
  ghost predicate UnpairedFlat(st: MatchState)
  {
    forall i :: 0 <= i < |st.brackets| && i !in st.pairs ==> st.brackets[i].level == 0
  }

  /** No two pairs cross. */
  ghost predicate NonCrossing(pairs: map<nat, nat>)
  {
    forall a, b :: a in pairs && b in pairs && a < pairs[a] && b < pairs[b] ==>
      !(a < b < pairs[a] < pairs[b])
  }

  /** No open stack entry lies strictly inside a pair. */
  ghost predicate StackOutside(st: MatchState)
  {
    forall a, j :: a in st.pairs && a < st.pairs[a] && 0 <= j < |st.stack| ==>
      !(a < st.stack[j].index < st.pairs[a])
  }

  ghost predicate Matched(st: MatchState, ob: string, cb: string)
  {
    StackOk(st, ob, cb) && PairsOk(st, ob, cb) && UnpairedFlat(st)
    && NonCrossing(st.pairs) && StackOutside(st)
  }

  /** A candidate as the walk produces it: a type ordinal that is its own, and level 0. */
  ghost predicate Fits(c: Candidate, ob: string, cb: string)
  {
    c.kind != 0 && c.kind == Ordinal(c.bracket, ob, cb) && c.bracket.level == 0
  }

  lemma StepMatched(st: MatchState, c: Candidate, ob: string, cb: string)
    requires Matched(st, ob, cb) && Fits(c, ob, cb)
    ensures Matched(Step(st, c), ob, cb)
  {
    if c.bracket.opening {
      PushMatched(st, c, ob, cb);
    } else if TopMatch(st.stack, c.kind) >= 0 {
      PairMatched(st, c, ob, cb);
    } else {
      NoPairMatched(st, c, ob, cb);
    }
  }

  lemma PushMatched(st: MatchState, c: Candidate, ob: string, cb: string)
    requires Matched(st, ob, cb) && Fits(c, ob, cb) && c.bracket.opening
    ensures Matched(Step(st, c), ob, cb)
  {
    PushStackOk(st, c, ob, cb);
    PushPairsOk(st, c, ob, cb);
    PushRest(st, c, ob, cb);
  }

  lemma PushStackOk(st: MatchState, c: Candidate, ob: string, cb: string)
    requires Matched(st, ob, cb) && Fits(c, ob, cb) && c.bracket.opening
    ensures StackOk(Step(st, c), ob, cb)
  {
    var r := Step(st, c);
    assert r.stack[|st.stack|] == Entry(|st.brackets|, c.kind);
    assert forall j :: 0 <= j < |st.brackets| ==> r.brackets[j] == st.brackets[j];
  }

  lemma PushPairsOk(st: MatchState, c: Candidate, ob: string, cb: string)
    requires Matched(st, ob, cb) && Fits(c, ob, cb) && c.bracket.opening
    ensures PairsOk(Step(st, c), ob, cb)
  {
    var r := Step(st, c);
    assert forall j :: 0 <= j < |st.brackets| ==> r.brackets[j] == st.brackets[j];
  }

  lemma PushRest(st: MatchState, c: Candidate, ob: string, cb: string)
    requires Matched(st, ob, cb) && Fits(c, ob, cb) && c.bracket.opening
    ensures UnpairedFlat(Step(st, c)) && NonCrossing(Step(st, c).pairs) && StackOutside(Step(st, c))
  {
    var r := Step(st, c);
    assert r.stack[|st.stack|] == Entry(|st.brackets|, c.kind);
    assert forall j :: 0 <= j < |st.brackets| ==> r.brackets[j] == st.brackets[j];
  }

  lemma PairMatched(st: MatchState, c: Candidate, ob: string, cb: string)
    requires Matched(st, ob, cb) && Fits(c, ob, cb) && !c.bracket.opening
    requires TopMatch(st.stack, c.kind) >= 0
    ensures Matched(Step(st, c), ob, cb)
  {
    var i := TopMatch(st.stack, c.kind);
    var r := Step(st, c);
    PairShape(st, c);
    PairStackOk(st, c.bracket, c.kind, i, r, ob, cb);
    PairPairsOk(st, c.bracket, c.kind, i, r, ob, cb);
    PairFlat(st, c.bracket, c.kind, i, r);
    PairNonCrossing(st, c.bracket, c.kind, i, r, ob, cb);
    PairOutside(st, c.bracket, c.kind, i, r, ob, cb);
  }

  /** The state after a closing bracket pairs with the entry `TopMatch` finds. */
  lemma PairShape(st: MatchState, c: Candidate)
    requires StackBelow(st) && !c.bracket.opening && TopMatch(st.stack, c.kind) >= 0
    ensures Pairing(st, c.bracket, c.kind, TopMatch(st.stack, c.kind), Step(st, c))
  {
  }

  /** An unmatched closing bracket is only recorded: it stays unpaired at level 0. */
  lemma NoPairMatched(st: MatchState, c: Candidate, ob: string, cb: string)
    requires Matched(st, ob, cb) && Fits(c, ob, cb) && !c.bracket.opening
    requires TopMatch(st.stack, c.kind) < 0
    ensures Matched(Step(st, c), ob, cb)
  {
    var r := Step(st, c);
    assert r == MatchState(st.brackets + [c.bracket], st.pairs, st.stack);
    AppendStackOk(st, c.bracket, r, ob, cb);
    AppendPairsOk(st, c.bracket, r, ob, cb);
    AppendFlat(st, c.bracket, r);
  }

  lemma AppendStackOk(st: MatchState, b: Bracket, r: MatchState, ob: string, cb: string)
    requires StackOk(st, ob, cb) && PairsOk(st, ob, cb)
    requires r == MatchState(st.brackets + [b], st.pairs, st.stack)
    ensures StackOk(r, ob, cb)
  {
    assert forall j :: 0 <= j < |st.brackets| ==> r.brackets[j] == st.brackets[j];
  }

  lemma AppendPairsOk(st: MatchState, b: Bracket, r: MatchState, ob: string, cb: string)
    requires PairsOk(st, ob, cb)
    requires r == MatchState(st.brackets + [b], st.pairs, st.stack)
    ensures PairsOk(r, ob, cb)
  {
    assert forall j :: 0 <= j < |st.brackets| ==> r.brackets[j] == st.brackets[j];
  }

  lemma AppendFlat(st: MatchState, b: Bracket, r: MatchState)
    requires UnpairedFlat(st) && b.level == 0
    requires r == MatchState(st.brackets + [b], st.pairs, st.stack)
    ensures UnpairedFlat(r)
  {
    assert forall j :: 0 <= j < |st.brackets| ==> r.brackets[j] == st.brackets[j];
  }

  /**
   * `r` is the state after closing bracket `b` (recorded at the next index)
   * pairs with the stack entry at `i`.
   */
  ghost predicate Pairing(st: MatchState, b: Bracket, kind: nat, i: nat, r: MatchState)
  {
    StackBelow(st) && !b.opening
    && i < |st.stack| && st.stack[i].kind == kind
    && var n, o := |st.brackets|, st.stack[i].index;
    r == MatchState((st.brackets + [b])[n := b.(level := i)][o := st.brackets[o].(level := i)],
                    st.pairs[n := o][o := n], st.stack[..i])
  }

  /** What pairing changes: the two levels, the two map entries and the stack top. */
  lemma PairFacts(st: MatchState, b: Bracket, kind: nat, i: nat, r: MatchState)
    requires Pairing(st, b, kind, i, r)
    ensures var n, o := |st.brackets|, st.stack[i].index;
      o < n && |r.brackets| == n + 1 && r.brackets[n] == b.(level := i)
      && r.brackets[o] == st.brackets[o].(level := i)
      && (forall j :: 0 <= j < n && j != o ==> r.brackets[j] == st.brackets[j])
      && r.pairs == st.pairs[n := o][o := n] && r.stack == st.stack[..i]
  {
  }

  /** Entries below the paired one lie before it. */
  lemma PairBelow(st: MatchState, i: nat, ob: string, cb: string)
    requires StackOk(st, ob, cb) && i < |st.stack|
    ensures st.stack[i].index !in st.pairs
    ensures forall j :: 0 <= j < i ==> st.stack[j].index < st.stack[i].index
  {
  }

  lemma PairStackOk(st: MatchState, b: Bracket, kind: nat, i: nat, r: MatchState, ob: string, cb: string)
    requires Pairing(st, b, kind, i, r) && StackOk(st, ob, cb)
    ensures StackOk(r, ob, cb)
  {
    PairFacts(st, b, kind, i, r);
    PairBelow(st, i, ob, cb);
    var n, o := |st.brackets|, st.stack[i].index;
    forall j | 0 <= j < |r.stack|
      ensures r.stack[j].index < |r.brackets| && r.brackets[r.stack[j].index].opening
      ensures r.stack[j].index !in r.pairs
      ensures r.stack[j].kind == Ordinal(r.brackets[r.stack[j].index], ob, cb)
    {
      var x := st.stack[j].index;
      assert r.stack[j] == st.stack[j] && x < o;
      assert r.brackets[x] == st.brackets[x];
    }
    assert forall j, k :: 0 <= j < k < |r.stack| ==> r.stack[j] == st.stack[j] && r.stack[k] == st.stack[k];
  }

  lemma PairPairsOk(st: MatchState, b: Bracket, kind: nat, i: nat, r: MatchState, ob: string, cb: string)
    requires Pairing(st, b, kind, i, r) && StackOk(st, ob, cb) && PairsOk(st, ob, cb)
    requires Fits(Candidate(b, kind), ob, cb)
    ensures PairsOk(r, ob, cb)
  {
    PairFacts(st, b, kind, i, r);
    PairBelow(st, i, ob, cb);
    var n, o := |st.brackets|, st.stack[i].index;
    assert n !in st.pairs;
    forall x | x in r.pairs
      ensures x < |r.brackets| && r.pairs[x] < |r.brackets| && r.pairs[x] in r.pairs
      ensures r.pairs[r.pairs[x]] == x
      ensures r.brackets[x].opening <==> x < r.pairs[x]
      ensures r.brackets[x].opening != r.brackets[r.pairs[x]].opening
      ensures r.brackets[x].level == r.brackets[r.pairs[x]].level
      ensures Ordinal(r.brackets[x], ob, cb) == Ordinal(r.brackets[r.pairs[x]], ob, cb)
    {
      if x == o || x == n {
        assert Ordinal(r.brackets[n], ob, cb) == Ordinal(b, ob, cb);
        assert Ordinal(r.brackets[o], ob, cb) == Ordinal(st.brackets[o], ob, cb);
      } else {
        var y := st.pairs[x];
        assert y != o && y != n;
        assert r.brackets[x] == st.brackets[x] && r.brackets[y] == st.brackets[y];
      }
    }
  }

  lemma PairFlat(st: MatchState, b: Bracket, kind: nat, i: nat, r: MatchState)
    requires Pairing(st, b, kind, i, r) && UnpairedFlat(st)
    ensures UnpairedFlat(r)
  {
    PairFacts(st, b, kind, i, r);
    var n, o := |st.brackets|, st.stack[i].index;
    forall x | 0 <= x < |r.brackets| && x !in r.pairs
      ensures r.brackets[x].level == 0
    {
      assert x != o && x != n && r.brackets[x] == st.brackets[x];
    }
  }

  lemma PairOutside(st: MatchState, b: Bracket, kind: nat, i: nat, r: MatchState, ob: string, cb: string)
    requires Pairing(st, b, kind, i, r) && StackOk(st, ob, cb) && PairsOk(st, ob, cb) && StackOutside(st)
    ensures StackOutside(r)
  {
    PairFacts(st, b, kind, i, r);
    PairBelow(st, i, ob, cb);
    var n, o := |st.brackets|, st.stack[i].index;
    assert n !in st.pairs;
    forall a, j | a in r.pairs && a < r.pairs[a] && 0 <= j < |r.stack|
      ensures !(a < r.stack[j].index < r.pairs[a])
    {
      assert r.stack[j] == st.stack[j];
      if a != o {
        assert a != n && a in st.pairs && r.pairs[a] == st.pairs[a];
      }
    }
  }

  lemma PairNonCrossing(st: MatchState, b: Bracket, kind: nat, i: nat, r: MatchState, ob: string, cb: string)
    requires Pairing(st, b, kind, i, r) && StackOk(st, ob, cb) && PairsOk(st, ob, cb)
    requires NonCrossing(st.pairs) && StackOutside(st)
    ensures NonCrossing(r.pairs)
  {
    var n, o := |st.brackets|, st.stack[i].index;
    PairFacts(st, b, kind, i, r);
    PairBelow(st, i, ob, cb);
    assert forall x :: x in st.pairs ==> x < n && st.pairs[x] < n;
    assert forall a :: a in st.pairs && a < st.pairs[a] ==> !(a < o < st.pairs[a]);
    AddPairNonCrossing(st.pairs, o, n);
  }

  /**
   * Adding the pair `(o, n)` keeps pairs from crossing when `n` is past
   * every paired index and `o` lies inside no pair.
   */
  lemma AddPairNonCrossing(ps: map<nat, nat>, o: nat, n: nat)
    requires NonCrossing(ps)
    requires o < n && o !in ps && n !in ps
    requires forall x :: x in ps ==> x < n && ps[x] < n
    requires forall a :: a in ps && a < ps[a] ==> !(a < o < ps[a])
    ensures NonCrossing(ps[n := o][o := n])
  {
    var qs := ps[n := o][o := n];
    forall a, a' | a in qs && a' in qs && a < qs[a] && a' < qs[a']
      ensures !(a < a' < qs[a] < qs[a'])
    {
      if a != o && a' == o {
        assert a in ps && qs[a] == ps[a];
      }
    }
  }

  lemma {:induction false} FeedMatched(st: MatchState, cs: seq<Candidate>, ob: string, cb: string)
    requires Matched(st, ob, cb)
    requires forall k :: 0 <= k < |cs| ==> Fits(cs[k], ob, cb)
    ensures Matched(Feed(st, cs), ob, cb)
    decreases |cs|
  {
    if cs != [] {
      FeedMatched(st, cs[..|cs| - 1], ob, cb);
      StepMatched(Feed(st, cs[..|cs| - 1]), cs[|cs| - 1], ob, cb);
    }
  }

  lemma {:induction false} FeedAppend(st: MatchState, a: seq<Candidate>, b: seq<Candidate>)
    requires StackBelow(st)
    ensures Feed(st, a + b) == Feed(Feed(st, a), b)
    decreases |b|
  {
    if b == [] {
      assert a + b == a;
    } else {
      var b' := b[..|b| - 1];
      assert (a + b)[..|a + b| - 1] == a + b';
      FeedAppend(st, a, b');
    }
  }

  /** Every candidate the walk finds has the shape `Fits` asks for. */
  lemma {:induction false} FoundFits(ts: seq<Token>, pos: nat, ob: string, cb: string)
    ensures forall k :: 0 <= k < |Found(ts, pos, ob, cb)| ==> Fits(Found(ts, pos, ob, cb)[k], ob, cb)
    decreases ts
  {
    if ts != [] && !Stops(ts[0]) {
      FoundInFits(ts[0], pos, ob, cb);
      FoundFits(ts[1..], pos + Len(ts[0]), ob, cb);
    }
  }

  lemma {:induction false} FoundInFits(t: Token, pos: nat, ob: string, cb: string)
    ensures forall k :: 0 <= k < |FoundIn(t, pos, ob, cb)| ==> Fits(FoundIn(t, pos, ob, cb)[k], ob, cb)
    decreases t
  {
    match t
    case Text(_) =>
    case Tok(_, _, Stream(ts)) => FoundFits(ts, pos, ob, cb);
    case Tok(_, _, Plain(_)) =>
  }

  /**
   * After a tokenize pass the pair map is symmetric, every pair has its
   * opener first, of the same type ordinal and level as its closer, pairs
   * never cross, unpaired brackets have level 0, and what is left on the
   * stack are unpaired opening brackets.
   */
  lemma MatchAllMatched(tokens: seq<Token>, ob: string, cb: string)
    ensures Matched(MatchAll(tokens, ob, cb), ob, cb)
  {
    FoundFits(tokens, 0, ob, cb);
    FeedMatched(Empty, Found(tokens, 0, ob, cb), ob, cb);
  }

  // ---------------------------------------------------------------------
  // Offsets of the brackets found.
  // ---------------------------------------------------------------------

  /**
   * The brackets found in a stream starting at `pos` lie inside it, each
   * spans its own text, each is a punctuation token with that text as its
   * content, and they come in increasing, non-overlapping order.
   */
  ghost predicate Placed(cs: seq<Candidate>, pos: nat, len: nat)
  {
    (forall k :: 0 <= k < |cs| ==>
       var b := cs[k].bracket;
       pos <= b.start < b.end <= pos + len && b.end == b.start + |b.text|
       && b.token.Tok? && b.token.content == Plain(b.text)
       && IsPunctuation(b.token.kind, b.token.alias))
    && (forall k, m :: 0 <= k < m < |cs| ==> cs[k].bracket.end <= cs[m].bracket.start)
  }

  lemma PlacedAppend(a: seq<Candidate>, b: seq<Candidate>, pos: nat, la: nat, lb: nat)
    requires Placed(a, pos, la) && Placed(b, pos + la, lb)
    ensures Placed(a + b, pos, la + lb)
  {
    var ab := a + b;
    forall k, m | 0 <= k < m < |ab|
      ensures ab[k].bracket.end <= ab[m].bracket.start
    {
      if k < |a| && |a| <= m {
        assert ab[m] == b[m - |a|];
      }
    }
  }

  lemma {:induction false} FoundPlaced(ts: seq<Token>, pos: nat, ob: string, cb: string)
    ensures Placed(Found(ts, pos, ob, cb), pos, LenAll(ts))
    decreases ts
  {
    if ts != [] && !Stops(ts[0]) {
      var head, tail := FoundIn(ts[0], pos, ob, cb), Found(ts[1..], pos + Len(ts[0]), ob, cb);
      FoundInPlaced(ts[0], pos, ob, cb);
      FoundPlaced(ts[1..], pos + Len(ts[0]), ob, cb);
      PlacedAppend(head, tail, pos, Len(ts[0]), LenAll(ts[1..]));
      assert Found(ts, pos, ob, cb) == head + tail;
      assert LenAll(ts) == Len(ts[0]) + LenAll(ts[1..]);
    } else {
      assert Found(ts, pos, ob, cb) == [];
    }
  }

  lemma {:induction false} FoundInPlaced(t: Token, pos: nat, ob: string, cb: string)
    ensures Placed(FoundIn(t, pos, ob, cb), pos, Len(t))
    decreases t
  {
    match t
    case Text(_) =>
    case Tok(_, _, Stream(ts)) => FoundPlaced(ts, pos, ob, cb);
    case Tok(kind, alias, Plain(s)) =>
      if IsPunctuation(kind, alias) {
        var r := Classify(t, s, pos, ob, cb);
        if r.Some? {
          assert TestBracket(s, ob, |s| - 1) != 0 || TestBracket(s, cb, |s| - 1) != 0;
          assert |s| > 0;
        }
      }
  }

  /** Taking brackets only appends records and changes no record but its level. */
  lemma {:induction false} FeedRecords(st: MatchState, cs: seq<Candidate>)
    requires StackBelow(st)
    ensures var r := Feed(st, cs);
      (forall j :: 0 <= j < |st.brackets| ==> r.brackets[j].(level := 0) == st.brackets[j].(level := 0))
      && (forall k :: 0 <= k < |cs| ==>
            r.brackets[|st.brackets| + k].(level := 0) == cs[k].bracket.(level := 0))
    decreases |cs|
  {
    if cs != [] {
      var cs' := cs[..|cs| - 1];
      FeedRecords(st, cs');
      StepRecords(Feed(st, cs'), cs[|cs| - 1]);
      var p, r := Feed(st, cs'), Feed(st, cs);
      forall k | 0 <= k < |cs|
        ensures r.brackets[|st.brackets| + k].(level := 0) == cs[k].bracket.(level := 0)
      {
        if k < |cs'| {
          assert cs'[k] == cs[k];
          assert p.brackets[|st.brackets| + k].(level := 0) == cs'[k].bracket.(level := 0);
        }
      }
    }
  }

  lemma StepRecords(st: MatchState, c: Candidate)
    requires StackBelow(st)
    ensures var r := Step(st, c);
      (forall j :: 0 <= j < |st.brackets| ==> r.brackets[j].(level := 0) == st.brackets[j].(level := 0))
      && r.brackets[|st.brackets|].(level := 0) == c.bracket.(level := 0)
  {
  }

  /**
   * The recorded brackets of a pass are the punctuation tokens the walk
   * met, in increasing order of their start offsets, each spanning its own
   * text.
   */
  lemma MatchAllOrdered(tokens: seq<Token>, ob: string, cb: string)
    ensures var bs := MatchAll(tokens, ob, cb).brackets;
      (forall k :: 0 <= k < |bs| ==>
         bs[k].start < bs[k].end <= LenAll(tokens) && bs[k].end == bs[k].start + |bs[k].text|
         && bs[k].token.Tok? && bs[k].token.content == Plain(bs[k].text)
         && IsPunctuation(bs[k].token.kind, bs[k].token.alias))
      && (forall k, m :: 0 <= k < m < |bs| ==> bs[k].end <= bs[m].start)
      && |FlatAll(tokens)| == LenAll(tokens)
      && (forall k :: 0 <= k < |bs| ==> FlatAll(tokens)[bs[k].start..bs[k].end] == bs[k].text)
  {
    var cs := Found(tokens, 0, ob, cb);
    var bs := MatchAll(tokens, ob, cb).brackets;
    FoundPlaced(tokens, 0, ob, cb);
    FoundSpelled(tokens, 0, ob, cb);
    FlatAllLen(tokens);
    FeedRecords(Empty, cs);
    PlacedRecords(bs, cs, LenAll(tokens));
    SpelledRecords(bs, cs, FlatAll(tokens));
  }

  /** Records equal to spelled candidates up to their levels are spelled alike. */
  lemma SpelledRecords(bs: seq<Bracket>, cs: seq<Candidate>, text: string)
    requires Spelled(cs, text, 0) && |bs| == |cs|
    requires forall k :: 0 <= k < |cs| ==> bs[0 + k].(level := 0) == cs[k].bracket.(level := 0)
    ensures forall k :: 0 <= k < |bs| ==> bs[k].start <= bs[k].end <= |text| && text[bs[k].start..bs[k].end] == bs[k].text
  {
    forall k | 0 <= k < |bs|
      ensures bs[k].start <= bs[k].end <= |text| && text[bs[k].start..bs[k].end] == bs[k].text
    {
      assert bs[0 + k].(level := 0) == cs[k].bracket.(level := 0);
    }
  }

  /** Records equal to placed candidates up to their levels are placed alike. */
  lemma PlacedRecords(bs: seq<Bracket>, cs: seq<Candidate>, len: nat)
    requires Placed(cs, 0, len) && |bs| == |cs|
    requires forall k :: 0 <= k < |cs| ==> bs[0 + k].(level := 0) == cs[k].bracket.(level := 0)
    ensures forall k :: 0 <= k < |bs| ==>
      bs[k].start < bs[k].end <= len && bs[k].end == bs[k].start + |bs[k].text|
      && bs[k].token.Tok? && bs[k].token.content == Plain(bs[k].text)
      && IsPunctuation(bs[k].token.kind, bs[k].token.alias)
    ensures forall k, m :: 0 <= k < m < |bs| ==> bs[k].end <= bs[m].start
  {
    forall k | 0 <= k < |bs|
      ensures bs[k].start == cs[k].bracket.start && bs[k].end == cs[k].bracket.end
      ensures bs[k].text == cs[k].bracket.text && bs[k].token == cs[k].bracket.token
    {
      assert bs[0 + k].(level := 0) == cs[k].bracket.(level := 0);
    }
  }

  // ---------------------------------------------------------------------
  // The text the offsets index, and the leaves the walk visits.
  // ---------------------------------------------------------------------

  /** The text a token stands for: its strings in depth-first order. */
  function Flat(t: Token): string
    decreases t
  {
    match t
    case Text(s) => s
    case Tok(_, _, Plain(s)) => s
    case Tok(_, _, Stream(ts)) => FlatAll(ts)
  }

  function FlatAll(ts: seq<Token>): string
    decreases ts
  {
    if ts == [] then "" else Flat(ts[0]) + FlatAll(ts[1..])
  }

  /** A token's length is the length of the text it stands for. */
  lemma {:induction false} FlatLen(t: Token)
    ensures |Flat(t)| == Len(t)
    decreases t
  {
    match t
    case Text(_) =>
    case Tok(_, _, Plain(_)) =>
    case Tok(_, _, Stream(ts)) => FlatAllLen(ts);
  }

  lemma {:induction false} FlatAllLen(ts: seq<Token>)
    ensures |FlatAll(ts)| == LenAll(ts)
    decreases ts
  {
    if ts != [] {
      FlatLen(ts[0]);
      FlatAllLen(ts[1..]);
    }
  }

  /** Each bracket, read in `text` from offset `pos`, spans exactly its own text. */
  ghost predicate Spelled(cs: seq<Candidate>, text: string, pos: nat)
  {
    forall k :: 0 <= k < |cs| ==>
      pos <= cs[k].bracket.start <= cs[k].bracket.end <= pos + |text|
      && text[cs[k].bracket.start - pos..cs[k].bracket.end - pos] == cs[k].bracket.text
  }

  lemma SpelledAppend(a: seq<Candidate>, b: seq<Candidate>, x: string, y: string, pos: nat)
    requires Spelled(a, x, pos) && Spelled(b, y, pos + |x|)
    ensures Spelled(a + b, x + y, pos)
  {
    var ab, xy := a + b, x + y;
    forall k | 0 <= k < |ab|
      ensures pos <= ab[k].bracket.start <= ab[k].bracket.end <= pos + |xy|
      ensures xy[ab[k].bracket.start - pos..ab[k].bracket.end - pos] == ab[k].bracket.text
    {
      if k < |a| {
        assert ab[k] == a[k];
        SliceLeft(x, y, a[k].bracket.start - pos, a[k].bracket.end - pos);
      } else {
        assert ab[k] == b[k - |a|];
        SliceRight(x, y, b[k - |a|].bracket.start - pos, b[k - |a|].bracket.end - pos);
      }
    }
  }

  lemma SliceLeft(x: string, y: string, s: nat, e: nat)
    requires s <= e <= |x|
    ensures (x + y)[s..e] == x[s..e]
  {
  }

  lemma SliceRight(x: string, y: string, s: nat, e: nat)
    requires |x| <= s <= e <= |x| + |y|
    ensures (x + y)[s..e] == y[s - |x|..e - |x|]
  {
  }

  lemma {:induction false} FoundSpelled(ts: seq<Token>, pos: nat, ob: string, cb: string)
    ensures Spelled(Found(ts, pos, ob, cb), FlatAll(ts), pos)
    decreases ts
  {
    if ts != [] && !Stops(ts[0]) {
      FoundInSpelled(ts[0], pos, ob, cb);
      FoundSpelled(ts[1..], pos + Len(ts[0]), ob, cb);
      FlatLen(ts[0]);
      SpelledAppend(FoundIn(ts[0], pos, ob, cb), Found(ts[1..], pos + Len(ts[0]), ob, cb),
                    Flat(ts[0]), FlatAll(ts[1..]), pos);
    }
  }

  lemma {:induction false} FoundInSpelled(t: Token, pos: nat, ob: string, cb: string)
    ensures Spelled(FoundIn(t, pos, ob, cb), Flat(t), pos)
    decreases t
  {
    match t
    case Text(_) =>
    case Tok(_, _, Stream(ts)) => FoundSpelled(ts, pos, ob, cb);
    case Tok(_, _, Plain(s)) => assert s[0..|s|] == s;
  }

  /** A leaf the walk visits: a string, or a token with string content, with its text and start offset. */
  datatype Leaf = Leaf(token: Token, text: string, start: nat)

  /** The leaves the walk of a stream visits from `pos`, in depth-first order, up to its first empty string. */
  function Walk(ts: seq<Token>, pos: nat): seq<Leaf>
    decreases ts
  {
    if ts == [] || Stops(ts[0]) then [] else WalkIn(ts[0], pos) + Walk(ts[1..], pos + Len(ts[0]))
  }

  function WalkIn(t: Token, pos: nat): seq<Leaf>
    decreases t
  {
    match t
    case Text(s) => [Leaf(t, s, pos)]
    case Tok(_, _, Plain(s)) => [Leaf(t, s, pos)]
    case Tok(_, _, Stream(ts)) => Walk(ts, pos)
  }

  /** A leaf the matcher takes: a punctuation token whose text tests as an opening or a closing bracket. */
  predicate IsBracketLeaf(l: Leaf, ob: string, cb: string)
  {
    && l.token.Tok? && l.token.content == Plain(l.text) && IsPunctuation(l.token.kind, l.token.alias)
    && (TestBracket(l.text, ob, |l.text| - 1) != 0 || TestBracket(l.text, cb, |l.text| - 1) != 0)
  }

  /** The brackets among the leaves, in their order. */
  function Brackets(ls: seq<Leaf>, ob: string, cb: string): seq<Candidate>
  {
    if ls == [] then []
    else (if IsBracketLeaf(ls[0], ob, cb) then [Classify(ls[0].token, ls[0].text, ls[0].start, ob, cb).value] else [])
         + Brackets(ls[1..], ob, cb)
  }

  lemma {:induction false} BracketsAppend(a: seq<Leaf>, b: seq<Leaf>, ob: string, cb: string)
    ensures Brackets(a + b, ob, cb) == Brackets(a, ob, cb) + Brackets(b, ob, cb)
  {
    if a == [] {
      assert a + b == b;
    } else {
      BracketsAppend(a[1..], b, ob, cb);
      assert (a + b)[0] == a[0] && (a + b)[1..] == a[1..] + b;
    }
  }

  /** The bracket leaf at `j` gives the bracket after those of the leaves before it. */
  lemma BracketAt(w: seq<Leaf>, j: nat, ob: string, cb: string)
    requires j < |w| && IsBracketLeaf(w[j], ob, cb)
    ensures var k := |Brackets(w[..j], ob, cb)|;
      k < |Brackets(w, ob, cb)|
      && Brackets(w, ob, cb)[k] == Classify(w[j].token, w[j].text, w[j].start, ob, cb).value
  {
    assert w == w[..j] + w[j..];
    BracketsAppend(w[..j], w[j..], ob, cb);
    assert w[j..][0] == w[j];
  }

  /** The walk finds the brackets among the leaves it visits. */
  lemma {:induction false} FoundWalk(ts: seq<Token>, pos: nat, ob: string, cb: string)
    ensures Found(ts, pos, ob, cb) == Brackets(Walk(ts, pos), ob, cb)
    decreases ts
  {
    if ts != [] && !Stops(ts[0]) {
      FoundInWalk(ts[0], pos, ob, cb);
      FoundWalk(ts[1..], pos + Len(ts[0]), ob, cb);
      BracketsAppend(WalkIn(ts[0], pos), Walk(ts[1..], pos + Len(ts[0])), ob, cb);
    }
  }

  lemma {:induction false} FoundInWalk(t: Token, pos: nat, ob: string, cb: string)
    ensures FoundIn(t, pos, ob, cb) == Brackets(WalkIn(t, pos), ob, cb)
    decreases t
  {
    match t
    case Text(s) =>
      assert [Leaf(t, s, pos)][1..] == [];
    case Tok(_, _, Stream(ts)) =>
      FoundWalk(ts, pos, ob, cb);
    case Tok(_, _, Plain(s)) =>
      assert [Leaf(t, s, pos)][1..] == [];
  }

  /**
   * A tokenize pass records exactly the bracket leaves the walk visits, in
   * the order it visits them. The bracket leaf at `j` becomes the record
   * that follows those of the leaves before it, with its token, text and
   * offsets, and it is opening exactly when it tests as opening.
   */
  lemma MatchAllComplete(tokens: seq<Token>, ob: string, cb: string)
    ensures var bs, w := MatchAll(tokens, ob, cb).brackets, Walk(tokens, 0);
      |bs| == |Brackets(w, ob, cb)|
      && (forall k :: 0 <= k < |bs| ==> bs[k].(level := 0) == Brackets(w, ob, cb)[k].bracket)
      && (forall j :: 0 <= j < |w| && IsBracketLeaf(w[j], ob, cb) ==>
            var k := |Brackets(w[..j], ob, cb)|;
            k < |bs| && bs[k].token == w[j].token && bs[k].text == w[j].text
            && bs[k].start == w[j].start && bs[k].end == w[j].start + |w[j].text|
            && (bs[k].opening <==> TestBracket(w[j].text, ob, |w[j].text| - 1) != 0))
  {
    var cs, w := Brackets(Walk(tokens, 0), ob, cb), Walk(tokens, 0);
    var bs := MatchAll(tokens, ob, cb).brackets;
    RecordsAreBrackets(tokens, ob, cb);
    forall j | 0 <= j < |w| && IsBracketLeaf(w[j], ob, cb)
      ensures var k := |Brackets(w[..j], ob, cb)|;
            k < |bs| && bs[k].token == w[j].token && bs[k].text == w[j].text
            && bs[k].start == w[j].start && bs[k].end == w[j].start + |w[j].text|
            && (bs[k].opening <==> TestBracket(w[j].text, ob, |w[j].text| - 1) != 0)
    {
      BracketAt(w, j, ob, cb);
      var k := |Brackets(w[..j], ob, cb)|;
      assert bs[k].(level := 0) == cs[k].bracket;
    }
  }

  /** The records of a pass, levels aside, are the brackets among the leaves the walk visits. */
  lemma RecordsAreBrackets(tokens: seq<Token>, ob: string, cb: string)
    ensures var bs, cs := MatchAll(tokens, ob, cb).brackets, Brackets(Walk(tokens, 0), ob, cb);
      |bs| == |cs| && forall k :: 0 <= k < |bs| ==> bs[k].(level := 0) == cs[k].bracket
  {
    var cs := Found(tokens, 0, ob, cb);
    FoundFits(tokens, 0, ob, cb);
    assert forall k :: 0 <= k < |cs| ==> cs[k].bracket.level == 0;
    FedRecords(cs);
    FoundWalk(tokens, 0, ob, cb);
  }

  /** Feeding brackets of level 0 records each of them in turn, levels aside. */
  lemma FedRecords(cs: seq<Candidate>)
    requires forall k :: 0 <= k < |cs| ==> cs[k].bracket.level == 0
    ensures var bs := Feed(Empty, cs).brackets;
      |bs| == |cs| && forall k :: 0 <= k < |bs| ==> bs[k].(level := 0) == cs[k].bracket
  {
    FeedRecords(Empty, cs);
    var bs := Feed(Empty, cs).brackets;
    forall k | 0 <= k < |bs|
      ensures bs[k].(level := 0) == cs[k].bracket
    {
      assert bs[0 + k].(level := 0) == cs[k].bracket.(level := 0);
    }
  }

  /** No string anywhere in the tree is empty, so the walk stops nowhere early. */
  predicate WholeAll(ts: seq<Token>)
    decreases ts
  {
    ts == [] || (!Stops(ts[0]) && WholeIn(ts[0]) && WholeAll(ts[1..]))
  }

  predicate WholeIn(t: Token)
    decreases t
  {
    match t
    case Tok(_, _, Stream(ts)) => WholeAll(ts)
    case _ => true
  }

  /** The total length of the leaves' texts. */
  function TextLen(w: seq<Leaf>): nat
  {
    if w == [] then 0 else |w[0].text| + TextLen(w[1..])
  }

  lemma {:induction false} TextLenAppend(a: seq<Leaf>, b: seq<Leaf>)
    ensures TextLen(a + b) == TextLen(a) + TextLen(b)
  {
    if a == [] {
      assert a + b == b;
    } else {
      TextLenAppend(a[1..], b);
      assert (a + b)[0] == a[0] && (a + b)[1..] == a[1..] + b;
    }
  }

  /** Each leaf starts at `pos` plus the total length of the leaves before it. */
  ghost predicate Abutting(w: seq<Leaf>, pos: nat)
  {
    forall j :: 0 <= j < |w| ==> w[j].start == pos + TextLen(w[..j])
  }

  lemma AbuttingAppend(a: seq<Leaf>, b: seq<Leaf>, pos: nat)
    requires Abutting(a, pos) && Abutting(b, pos + TextLen(a))
    ensures Abutting(a + b, pos)
  {
    var ab := a + b;
    forall j | 0 <= j < |ab|
      ensures ab[j].start == pos + TextLen(ab[..j])
    {
      if j < |a| {
        assert ab[j] == a[j] && ab[..j] == a[..j];
      } else {
        assert ab[j] == b[j - |a|] && ab[..j] == a + b[..j - |a|];
        TextLenAppend(a, b[..j - |a|]);
      }
    }
  }

  /**
   * When no string is empty, the walk visits every leaf: their lengths add
   * up to the length of the stream, and each leaf starts at the total
   * length of the leaves before it.
   */
  lemma {:induction false} WalkAbuts(ts: seq<Token>, pos: nat)
    requires WholeAll(ts)
    ensures TextLen(Walk(ts, pos)) == LenAll(ts) && Abutting(Walk(ts, pos), pos)
    decreases ts
  {
    if ts != [] {
      var a, b := WalkIn(ts[0], pos), Walk(ts[1..], pos + Len(ts[0]));
      WalkInAbuts(ts[0], pos);
      WalkAbuts(ts[1..], pos + Len(ts[0]));
      TextLenAppend(a, b);
      AbuttingAppend(a, b, pos);
    }
  }

  lemma {:induction false} WalkInAbuts(t: Token, pos: nat)
    requires WholeIn(t)
    ensures TextLen(WalkIn(t, pos)) == Len(t) && Abutting(WalkIn(t, pos), pos)
    decreases t
  {
    match t
    case Text(s) =>
      assert [Leaf(t, s, pos)][1..] == [] && [Leaf(t, s, pos)][..0] == [];
    case Tok(_, _, Stream(ts)) =>
      WalkAbuts(ts, pos);
    case Tok(_, _, Plain(s)) =>
      assert [Leaf(t, s, pos)][1..] == [] && [Leaf(t, s, pos)][..0] == [];
  }

  /** A punctuation token without alias. */
  function Punct(s: string): Token
  {
    Tok("punctuation", "", Plain(s))
  }

  /** A one-character punctuation token is an opening bracket, a closing one, or none. */
  lemma PunctFound(c: char, pos: nat, ob: string, cb: string)
    ensures FoundIn(Punct([c]), pos, ob, cb)
         == if c in ob then [Candidate(Bracket(Punct([c]), pos, 0, [c], true, pos + 1), IndexOf(ob, c, 0) + 1)]
            else if c in cb then [Candidate(Bracket(Punct([c]), pos, 0, [c], false, pos + 1), IndexOf(cb, c, 0) + 1)]
            else []
  {
    assert IsPunctuation("punctuation", "");
    assert [c][0] == c;
  }

  lemma FoundCons(t: Token, ts: seq<Token>, pos: nat, ob: string, cb: string, head: seq<Candidate>, rest: seq<Candidate>)
    requires !Stops(t)
    requires FoundIn(t, pos, ob, cb) == head && Found(ts, pos + Len(t), ob, cb) == rest
    ensures Found([t] + ts, pos, ob, cb) == head + rest
  {
    assert ([t] + ts)[0] == t && ([t] + ts)[1..] == ts;
  }

  lemma FeedOne(st: MatchState, c: Candidate)
    requires StackBelow(st)
    ensures Feed(st, [c]) == Step(st, c)
  {
    assert [c][..0] == [];
  }

  lemma FeedCons(st: MatchState, c: Candidate, cs: seq<Candidate>)
    requires StackBelow(st)
    ensures Feed(st, [c] + cs) == Feed(Step(st, c), cs)
  {
    FeedAppend(st, [c], cs);
    assert [c][..0] == [];
  }

  /** A stream of one-character punctuation tokens, one per character of `s`. */
  function Puncts(s: string): (r: seq<Token>)
    ensures |r| == |s|
  {
    if s == [] then [] else [Punct([s[0]])] + Puncts(s[1..])
  }

  /** The bracket a one-character punctuation token at `pos` becomes. */
  function CharCandidate(c: char, pos: nat, ob: string, cb: string): Candidate
  {
    if c in ob then Candidate(Bracket(Punct([c]), pos, 0, [c], true, pos + 1), IndexOf(ob, c, 0) + 1)
    else Candidate(Bracket(Punct([c]), pos, 0, [c], false, pos + 1), IndexOf(cb, c, 0) + 1)
  }

  /** When every character is a bracket, each one-character token becomes one bracket, in order. */
  lemma {:induction false} FoundPuncts(s: string, pos: nat, ob: string, cb: string)
    requires forall k :: 0 <= k < |s| ==> s[k] in ob || s[k] in cb
    ensures |Found(Puncts(s), pos, ob, cb)| == |s|
    ensures forall k :: 0 <= k < |s| ==> Found(Puncts(s), pos, ob, cb)[k] == CharCandidate(s[k], pos + k, ob, cb)
    decreases |s|
  {
    if s != [] {
      var t, rest := Punct([s[0]]), s[1..];
      var head := CharCandidate(s[0], pos, ob, cb);
      FoundPuncts(rest, pos + 1, ob, cb);
      var tail := Found(Puncts(rest), pos + 1, ob, cb);
      PunctFound(s[0], pos, ob, cb);
      assert Len(t) == 1 && Puncts(s) == [t] + Puncts(rest);
      FoundCons(t, Puncts(rest), pos, ob, cb, [head], tail);
      var cs := Found(Puncts(s), pos, ob, cb);
      assert cs == [head] + tail;
      forall k | 0 <= k < |s|
        ensures cs[k] == CharCandidate(s[k], pos + k, ob, cb)
      {
        if k == 0 {
          assert cs[k] == head;
        } else {
          assert s[k] == rest[k - 1] && cs[k] == tail[k - 1];
          assert tail[k - 1] == CharCandidate(rest[k - 1], pos + 1 + (k - 1), ob, cb);
        }
      }
    }
  }

  /** A closing bracket whose type is on top of the stack pairs with that opener. */
  lemma CloseTop(st: MatchState, c: Candidate)
    requires StackBelow(st) && !c.bracket.opening
    requires |st.stack| > 0 && st.stack[|st.stack| - 1].kind == c.kind
    ensures var r, i := Step(st, c), |st.stack| - 1;
      var o, n := st.stack[i].index, |st.brackets|;
      r.stack == st.stack[..i] && r.pairs == st.pairs[n := o][o := n]
      && r.brackets[n].level == i && r.brackets[o].level == i
      && forall k :: 0 <= k < n && k != o ==> r.brackets[k] == st.brackets[k]
  {
  }

  /** The state after the first `n` candidates of `cs`. */
  lemma FeedPrefix(cs: seq<Candidate>, n: nat)
    requires n < |cs|
    ensures Feed(Empty, cs[..n + 1]) == Step(Feed(Empty, cs[..n]), cs[n])
  {
    assert cs[..n + 1][..n] == cs[..n];
  }

  /** Three openers in a row are all pushed, unpaired, in order. */
  lemma OpenThree(cs: seq<Candidate>)
    requires |cs| >= 3 && cs[0].bracket.opening && cs[1].bracket.opening && cs[2].bracket.opening
    ensures var st := Feed(Empty, cs[..3]);
      st.brackets == [cs[0].bracket, cs[1].bracket, cs[2].bracket] && st.pairs == map[]
      && st.stack == [Entry(0, cs[0].kind), Entry(1, cs[1].kind), Entry(2, cs[2].kind)]
  {
    FeedPrefix(cs, 0);
    FeedPrefix(cs, 1);
    FeedPrefix(cs, 2);
    assert cs[..0] == [];
  }

  /**
   * Three opening brackets of distinct types closed in reverse order (as in
   * "([{}])"): the pairs are nested, with levels 0, 1 and 2 from the
   * outside in, and nothing is left open.
   */
  lemma NestedFeed(cs: seq<Candidate>)
    requires |cs| == 6
    requires forall k :: 0 <= k < 6 ==> cs[k].bracket.level == 0 && (cs[k].bracket.opening <==> k < 3)
    requires cs[0].kind == cs[5].kind && cs[1].kind == cs[4].kind && cs[2].kind == cs[3].kind
    ensures var st := Feed(Empty, cs);
      |st.brackets| == 6
      && st.brackets[0].level == 0 && st.brackets[1].level == 1 && st.brackets[2].level == 2
      && st.brackets[3].level == 2 && st.brackets[4].level == 1 && st.brackets[5].level == 0
      && st.pairs == map[0 := 5, 1 := 4, 2 := 3, 3 := 2, 4 := 1, 5 := 0]
      && st.stack == []
  {
    var s3 := Feed(Empty, cs[..3]);
    OpenThree(cs);
    FeedPrefix(cs, 3);
    CloseTop(s3, cs[3]);
    var s4 := Feed(Empty, cs[..4]);
    assert s4.stack == [Entry(0, cs[0].kind), Entry(1, cs[1].kind)];
    FeedPrefix(cs, 4);
    CloseTop(s4, cs[4]);
    var s5 := Feed(Empty, cs[..5]);
    assert s5.stack == [Entry(0, cs[0].kind)];
    FeedPrefix(cs, 5);
    CloseTop(s5, cs[5]);
    assert cs[..6] == cs;
    NestedPairs();
  }

  lemma NestedPairs()
    ensures map[][3 := 2][2 := 3][4 := 1][1 := 4][5 := 0][0 := 5]
         == map[0 := 5, 1 := 4, 2 := 3, 3 := 2, 4 := 1, 5 := 0]
  {
  }

  /** The first occurrence of `c` in `s` is at `k`. */
  lemma IndexOfAt(s: string, c: char, k: nat)
    requires k < |s| && s[k] == c && forall j :: 0 <= j < k ==> s[j] != c
    ensures IndexOf(s, c, 0) == k
  {
  }

  /** With the default bracket strings, "(" pairs with ")", "[" with "]" and "{" with "}". */
  lemma DefaultKinds(ob: string, cb: string)
    requires ob == "([{" && cb == ")]}"
    ensures IndexOf(ob, '(', 0) == IndexOf(cb, ')', 0)
    ensures IndexOf(ob, '[', 0) == IndexOf(cb, ']', 0)
    ensures IndexOf(ob, '{', 0) == IndexOf(cb, '}', 0)
  {
    IndexOfAt(ob, '(', 0);
    IndexOfAt(cb, ')', 0);
    IndexOfAt(ob, '[', 1);
    IndexOfAt(cb, ']', 1);
    IndexOfAt(ob, '{', 2);
    IndexOfAt(cb, '}', 2);
  }

  /**
   * "([{}])" with the default bracket strings: the pairs are nested, with
   * levels 0, 1 and 2 from the outside in, and nothing is left open.
   */
  lemma NestedLevels(s: string, ob: string, cb: string)
    requires s == "([{}])" && ob == "([{" && cb == ")]}"
    ensures var st := MatchAll(Puncts(s), ob, cb);
      |st.brackets| == 6
      && st.brackets[0].level == 0 && st.brackets[1].level == 1 && st.brackets[2].level == 2
      && st.brackets[3].level == 2 && st.brackets[4].level == 1 && st.brackets[5].level == 0
      && st.pairs == map[0 := 5, 1 := 4, 2 := 3, 3 := 2, 4 := 1, 5 := 0]
      && st.stack == []
  {
    assert s[0] in ob && s[1] in ob && s[2] in ob && s[3] in cb && s[4] in cb && s[5] in cb;
    assert s[3] !in ob && s[4] !in ob && s[5] !in ob;
    FoundPuncts(s, 0, ob, cb);
    var cs := Found(Puncts(s), 0, ob, cb);
    DefaultKinds(ob, cb);
    NestedFeed(cs);
  }

  /**
   * ")(" with the default bracket strings: the closing bracket has nothing
   * to pair with and the opening one is left open, so in rainbow mode both
   * get the alias "bracket-error".
   */
  lemma CrossedErrors(s: string, ob: string, cb: string)
    requires s == ")(" && ob == "([{" && cb == ")]}"
    ensures var st := MatchAll(Puncts(s), ob, cb);
      var painted := Paint(st.brackets, st.pairs);
      |painted| == 2 && st.pairs == map[]
      && AliasOf(painted[0].token) == "bracket-error" && AliasOf(painted[1].token) == "bracket-error"
  {
    assert s[0] in cb && s[0] !in ob && s[1] in ob;
    FoundPuncts(s, 0, ob, cb);
    var cs := Found(Puncts(s), 0, ob, cb);
    assert cs == [cs[0]] + [cs[1]];
    FeedCons(Empty, cs[0], [cs[1]]);
    FeedCons(Step(Empty, cs[0]), cs[1], []);
  }

  // ---------------------------------------------------------------------
  // Rainbow aliases.
  // ---------------------------------------------------------------------

  function AliasOf(t: Token): string
  {
    if t.Tok? then t.alias else ""
  }

  function WithAlias(t: Token, alias: string): (r: Token)
    ensures t.Tok? ==> r.Tok? && r.kind == t.kind && r.content == t.content && r.alias == alias
    ensures t.Text? ==> r == t
  {
    match t
    case Tok(kind, _, content) => Tok(kind, alias, content)
    case Text(_) => t
  }

  /**
   * The alias a rainbow pass gives a bracket token: its old alias and a
   * space when it had one, then "bracket-level-" with the level modulo 12
   * for a paired bracket, or "bracket-error" for an unpaired one.
   */
  function RainbowAlias(alias: string, paired: bool, level: nat): string
  {
    (if alias != "" then alias + " " else "") + "bracket-"
    + (if paired then "level-" + Decimal(level % 12) else "error")
  }

  /** The rainbow alias keeps the old one in front and tells paired and unpaired brackets apart. */
  lemma RainbowAliasShape(alias: string, paired: bool, level: nat)
    ensures var r := RainbowAlias(alias, paired, level);
      (alias != "" ==> r[..|alias| + 1] == alias + " ")
      && (paired ==> EndsWith(r, "bracket-level-" + Decimal(level % 12)))
      && (EndsWith(r, "bracket-error") <==> !paired)
  {
    var r := RainbowAlias(alias, paired, level);
    var head := if alias != "" then alias + " " else "";
    var d := Decimal(level % 12);
    if paired {
      assert r == head + ("bracket-level-" + d);
      assert r[|r| - 1] == d[|d| - 1];
      assert '0' <= r[|r| - 1] <= '9';
      EndsWithLast(r, "bracket-error");
    } else {
      assert r == head + "bracket-error";
    }
    if alias != "" {
      assert r == (alias + " ") + ("bracket-" + (if paired then "level-" + d else "error"));
    }
  }

  lemma EndsWithLast(s: string, t: string)
    requires |t| > 0
    ensures EndsWith(s, t) ==> s[|s| - 1] == t[|t| - 1]
  {
    if EndsWith(s, t) {
      assert s[|s| - |t|..][|t| - 1] == t[|t| - 1];
    }
  }

  /** Every bracket's token gets its rainbow alias; nothing else changes. */
  function Paint(bs: seq<Bracket>, pairs: map<nat, nat>): (r: seq<Bracket>)
  {
    seq(|bs|, i requires 0 <= i < |bs| =>
      bs[i].(token := WithAlias(bs[i].token, RainbowAlias(AliasOf(bs[i].token), i in pairs, bs[i].level))))
  }

  /**
   * Painting changes only the token aliases: offsets, texts, kinds and
   * levels stay, and each bracket token's alias becomes its rainbow alias.
   */
  lemma PaintKeeps(bs: seq<Bracket>, pairs: map<nat, nat>)
    ensures var r := Paint(bs, pairs);
      |r| == |bs|
      && (forall i :: 0 <= i < |bs| ==> r[i].(token := bs[i].token) == bs[i])
      && (forall i :: 0 <= i < |bs| && bs[i].token.Tok? ==>
            r[i].token.Tok? && r[i].token.content == bs[i].token.content
            && r[i].token.kind == bs[i].token.kind
            && r[i].token.alias == RainbowAlias(bs[i].token.alias, i in pairs, bs[i].level))
  {
  }

  // ---------------------------------------------------------------------
  // The matcher object.
  // ---------------------------------------------------------------------

  /**
   * The state the tokenize handler keeps between passes. `generation`
   * counts the passes: each pass creates fresh bracket tuples, so a tuple
   * is identified by its pass and its index.
   */
  class BracketMatcher {
    const openingBrackets: string
    const closingBrackets: string
    const rainbow: bool
    var brackets: seq<Bracket>
    var pairs: map<nat, nat>
    var stack: seq<Entry>
    var generation: nat

    function State(): MatchState
      reads this
    {
      MatchState(brackets, pairs, stack)
    }

    /** The matcher with the default bracket strings "([{" and ")]}" and rainbow mode on. */
    constructor (openingBrackets: string := "([{", closingBrackets: string := ")]}", rainbow: bool := true)
      ensures this.openingBrackets == openingBrackets && this.closingBrackets == closingBrackets
      ensures this.rainbow == rainbow
      ensures State() == Empty && generation == 0
    {
      this.openingBrackets := openingBrackets;
      this.closingBrackets := closingBrackets;
      this.rainbow := rainbow;
      brackets, pairs, stack := [], map[], [];
      generation := 0;
    }

    /**
     * The tokenize handler: reset the arrays, walk the token tree, and in
     * rainbow mode rewrite every bracket token's alias.
     */
    method Tokenize(tokens: seq<Token>)
      modifies this`brackets, this`pairs, this`stack, this`generation
      ensures var st := MatchAll(tokens, openingBrackets, closingBrackets);
        pairs == st.pairs && stack == st.stack
        && brackets == (if rainbow then Paint(st.brackets, st.pairs) else st.brackets)
      ensures generation == old(generation) + 1
    {
      pairs, brackets, stack := map[], [], [];
      generation := generation + 1;
      MatchRecursive(tokens, 0);
      if rainbow {
        Recolor();
      }
    }

    /** `matchRecursive(tokens, position)`: the walk, taking brackets as it meets them. */
    method MatchRecursive(tokens: seq<Token>, position: nat)
      requires StackBelow(State())
      modifies this`brackets, this`pairs, this`stack
      ensures State() == Feed(old(State()), Found(tokens, position, openingBrackets, closingBrackets))
      decreases tokens
    {
      var i: nat, pos: nat := 0, position;
      ghost var rest := tokens;
      ghost var target := Feed(State(), Found(tokens, position, openingBrackets, closingBrackets));
      while i < |tokens| && !Stops(tokens[i])
        invariant 0 <= i <= |tokens| && rest == tokens[i..]
        invariant Walked(State(), rest, pos, openingBrackets, closingBrackets, target)
      {
        var token := tokens[i];
        var next: nat := pos + Len(token);
        ghost var tail := rest[1..];
        ghost var before := State();
        WalkToken(token, pos);
        WalkStep(before, State(), rest, tail, pos, next, openingBrackets, closingBrackets, target);
        i, pos, rest := i + 1, next, tail;
      }
      WalkDone(State(), rest, pos, openingBrackets, closingBrackets, target);
    }

    /** The loop body of the walk: one token, starting at `pos`. */
    method WalkToken(token: Token, pos: nat)
      requires StackBelow(State())
      modifies this`brackets, this`pairs, this`stack
      ensures State() == Feed(old(State()), FoundIn(token, pos, openingBrackets, closingBrackets))
      decreases token
    {
      match token {
        case Text(_) =>
        case Tok(_, _, Stream(sub)) =>
          MatchRecursive(sub, pos);
        case Tok(kind, alias, Plain(s)) =>
          if IsPunctuation(kind, alias) {
            var openingType := TestBracket(s, openingBrackets, |s| - 1);
            var closingType := if openingType != 0 then openingType else TestBracket(s, closingBrackets, |s| - 1);
            if closingType != 0 {
              var c := Candidate(Bracket(token, pos, 0, s, openingType != 0, pos + |s|), closingType);
              assert FoundIn(token, pos, openingBrackets, closingBrackets) == [c];
              ghost var before := State();
              Take(c);
              FeedOne(before, c);
            } else {
              assert FoundIn(token, pos, openingBrackets, closingBrackets) == [];
            }
          } else {
            assert FoundIn(token, pos, openingBrackets, closingBrackets) == [];
          }
      }
    }

    /** One bracket recorded, then pushed, or paired by the search down the stack. */
    method Take(c: Candidate)
      requires StackBelow(State())
      modifies this`brackets, this`pairs, this`stack
      ensures State() == Step(old(State()), c)
    {
      var index := |brackets|;
      brackets := brackets + [c.bracket];
      if c.bracket.opening {
        stack := stack + [Entry(index, c.kind)];
      } else {
        var i := FindOpener(stack, c.kind);
        if i >= 0 {
          var o := stack[i].index;
          pairs := pairs[index := o][o := index];
          brackets := brackets[index := brackets[index].(level := i)][o := brackets[o].(level := i)];
          stack := stack[..i];
        }
      }
    }

    /** The rainbow loop over the recorded brackets. */
    method Recolor()
      modifies this`brackets
      ensures brackets == Paint(old(brackets), pairs)
    {
      var i := 0;
      while i < |brackets|
        invariant 0 <= i <= |brackets| == |old(brackets)|
        invariant forall k :: 0 <= k < i ==> brackets[k] == Paint(old(brackets), pairs)[k]
        invariant forall k :: i <= k < |brackets| ==> brackets[k] == old(brackets)[k]
      {
        var b := brackets[i];
        var alias := RainbowAlias(AliasOf(b.token), i in pairs, b.level);
        brackets := brackets[i := b.(token := WithAlias(b.token, alias))];
        i := i + 1;
      }
    }
  }

  /** The search down the stack for the topmost entry of type `kind`. */
  method FindOpener(stack: seq<Entry>, kind: nat) returns (i: int)
    ensures i == TopMatch(stack, kind)
  {
    i := |stack|;
    while i > 0
      invariant 0 <= i <= |stack|
      invariant forall j :: i <= j < |stack| ==> stack[j].kind != kind
    {
      i := i - 1;
      if stack[i].kind == kind {
        TopMatchUnique(stack, kind, i);
        return;
      }
    }
    TopMatchUnique(stack, kind, -1);
    i := -1;
  }

  lemma TopMatchUnique(stack: seq<Entry>, kind: nat, i: int)
    requires -1 <= i < |stack|
    requires i >= 0 ==> stack[i].kind == kind
    requires forall j :: i < j < |stack| ==> stack[j].kind != kind
    ensures i == TopMatch(stack, kind)
  {
  }

  /** Taking the brackets of `rest`, from offset `pos`, leads from `st` to `target`. */
  ghost predicate Walked(st: MatchState, rest: seq<Token>, pos: nat, ob: string, cb: string, target: MatchState)
  {
    StackBelow(st) && Feed(st, Found(rest, pos, ob, cb)) == target
  }

  /** Walking one more token takes its brackets, then those of the rest of the stream. */
  lemma WalkStep(before: MatchState, after: MatchState, rest: seq<Token>, tail: seq<Token>, pos: nat, next: nat,
                 ob: string, cb: string, target: MatchState)
    requires Walked(before, rest, pos, ob, cb, target)
    requires rest != [] && !Stops(rest[0]) && tail == rest[1..] && next == pos + Len(rest[0])
    requires after == Feed(before, FoundIn(rest[0], pos, ob, cb))
    ensures Walked(after, tail, next, ob, cb, target)
  {
    FeedAppend(before, FoundIn(rest[0], pos, ob, cb), Found(tail, next, ob, cb));
  }

  /** The walk of a stream ends at its end or at its first empty string. */
  lemma WalkDone(st: MatchState, rest: seq<Token>, pos: nat, ob: string, cb: string, target: MatchState)
    requires Walked(st, rest, pos, ob, cb, target)
    requires rest == [] || Stops(rest[0])
    ensures st == target
  {
  }
}
