/**
 * The few JavaScript string built-ins the editor relies on, with the meaning
 * the ECMAScript specification gives them, restricted to one-character
 * searches (the only kind the editor performs). A string here is a sequence
 * of Unicode characters, so lengths and indices count characters where
 * JavaScript counts UTF-16 code units; the two agree on text inside the
 * Basic Multilingual Plane.
 */
module JsString {

  datatype Option<+T> = None | Some(value: T)

  /** `s.indexOf(c, from)`: the first index `>= from` holding `c`, or -1. */
  function IndexOf(s: string, c: char, from: int): (r: int)
    ensures r == -1 || (0 <= from <= r < |s| && s[r] == c) || (from < 0 <= r < |s| && s[r] == c)
    ensures r == -1 ==> forall k :: 0 <= k < |s| && from <= k ==> s[k] != c
    ensures r != -1 ==> forall k :: 0 <= k < r && from <= k ==> s[k] != c
    decreases |s| - from
  {
    if from < 0 then IndexOf(s, c, 0)
    else if from >= |s| then -1
    else if s[from] == c then from
    else IndexOf(s, c, from + 1)
  }

  /**
   * `s.lastIndexOf(c, from)`: the largest index `<= from` holding `c`, or -1.
   * A negative `from` is clamped to 0, as ECMAScript does.
   */
  function LastIndexOf(s: string, c: char, from: int): (r: int)
    ensures -1 <= r < |s|
    ensures r != -1 ==> s[r] == c && r <= if from < 0 then 0 else from
    ensures forall k :: r < k < |s| && k <= from ==> s[k] != c
    ensures from < 0 && r == -1 ==> |s| == 0 || s[0] != c
    decreases if from < 0 then 1 else from + 1
  {
    if from < 0 then (if |s| > 0 && s[0] == c then 0 else -1)
    else if from >= |s| then (if |s| == 0 then -1 else LastIndexOf(s, c, |s| - 1))
    else if s[from] == c then from
    else if from == 0 then -1
    else LastIndexOf(s, c, from - 1)
  }

  /** The characters matched by `\s` in an ECMAScript regular expression. */
  predicate IsSpace(c: char)
  {
    c == '\t' || c == '\n' || c == '\U{000B}' || c == '\U{000C}' || c == '\r' || c == ' '
    || c == '\U{00A0}' || c == '\U{1680}' || ('\U{2000}' <= c <= '\U{200A}')
    || c == '\U{2028}' || c == '\U{2029}' || c == '\U{202F}' || c == '\U{205F}'
    || c == '\U{3000}' || c == '\U{FEFF}'
  }

  /** `s.search(/\S/)`: the index of the first non-space character, or -1. */
  function SearchNonSpace(s: string, from: nat := 0): (r: int)
    requires from <= |s|
    ensures r == -1 || (from <= r < |s| && !IsSpace(s[r]))
    ensures forall k :: from <= k < |s| && (r == -1 || k < r) ==> IsSpace(s[k])
    decreases |s| - from
  {
    if from == |s| then -1
    else if !IsSpace(s[from]) then from
    else SearchNonSpace(s, from + 1)
  }

  /** `a < b` on JavaScript strings: lexicographic order of the characters. */
  predicate LexLess(a: string, b: string)
  {
    if |b| == 0 then false
    else if |a| == 0 then true
    else if a[0] != b[0] then a[0] < b[0]
    else LexLess(a[1..], b[1..])
  }

  /** The decimal digits of `n` (`String(n)` for a non-negative integer). */
  function Decimal(n: nat): (r: string)
    ensures |r| >= 1
    ensures forall k :: 0 <= k < |r| ==> '0' <= r[k] <= '9'
  {
    if n < 10 then [DigitChar(n)] else Decimal(n / 10) + [DigitChar(n % 10)]
  }

  function DigitChar(d: nat): (c: char)
    requires d < 10
    ensures '0' <= c <= '9'
  {
    ['0', '1', '2', '3', '4', '5', '6', '7', '8', '9'][d]
  }

  /** `s` ends with `t`. */
  predicate EndsWith(s: string, t: string)
  {
    |t| <= |s| && s[|s| - |t|..] == t
  }

  /** `s.split(sep)` for a one-character separator: the pieces between the separators. */
  function Split(s: string, sep: char): (r: seq<string>)
    ensures |r| >= 1
    ensures forall k :: 0 <= k < |r| ==> sep !in r[k]
    decreases |s|
  {
    var i := IndexOf(s, sep, 0);
    if i < 0 then
      assert forall k :: 0 <= k < |s| ==> s[k] != sep;
      [s]
    else
      var head, rest := s[..i], Split(s[i + 1..], sep);
      assert forall k :: 0 <= k < |head| ==> head[k] != sep;
      [head] + rest
  }

  /** `parts.join(sep)`. */
  function Join(parts: seq<string>, sep: char): string
    requires |parts| >= 1
  {
    if |parts| == 1 then parts[0] else parts[0] + [sep] + Join(parts[1..], sep)
  }

  /** Joining the pieces again gives back the string split. */
  lemma {:induction false} SplitJoin(s: string, sep: char)
    ensures Join(Split(s, sep), sep) == s
    decreases |s|
  {
    var i := IndexOf(s, sep, 0);
    if i >= 0 {
      SplitJoin(s[i + 1..], sep);
      assert s == s[..i] + [sep] + s[i + 1..];
    }
  }
}
