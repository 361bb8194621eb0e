/** The str operations of Python that the pipeline uses: whitespace as
    `str.isspace` and the regex class `\s` see it, `strip`, `find`,
    `rfind`, `join`, and ASCII case folding for case-insensitive matching. */
module Text {

  /** Python's `str.isspace`, which is also the set `\s` matches in a str
      pattern and the set `str.strip()` removes. */
  predicate IsSpace(c: char) {
    || ('\t' <= c <= '\r')
    || ('\U{1c}' <= c <= ' ')
    || c == '\U{85}' || c == '\U{a0}' || c == '\U{1680}'
    || ('\U{2000}' <= c <= '\U{200a}')
    || c == '\U{2028}' || c == '\U{2029}' || c == '\U{202f}'
    || c == '\U{205f}' || c == '\U{3000}'
  }

  predicate AllSpace(t: string) {
    forall k :: 0 <= k < |t| ==> IsSpace(t[k])
  }

  predicate IsDigit(c: char) { '0' <= c <= '9' }

  predicate IsLetter(c: char) { 'A' <= c <= 'Z' || 'a' <= c <= 'z' }

  /** ASCII lower case; the model's case-insensitive comparison. */
  function Lower(c: char): char {
    if 'A' <= c <= 'Z' then (c as int + 32) as char else c
  }

  /** The character classes the heuristic patterns use. */
  datatype CharClass =
    | Space       // \s
    | Digit       // [0-9]
    | Letter      // [A-Za-z]
    | NumberChar  // [A-Za-z0-9\-]
    | NotNewline  // .

  predicate InClass(c: char, cl: CharClass) {
    match cl
    case Space => IsSpace(c)
    case Digit => IsDigit(c)
    case Letter => IsLetter(c)
    case NumberChar => IsLetter(c) || IsDigit(c) || c == '-'
    case NotNewline => c != '\n'
  }

  predicate AllIn(t: string, cl: CharClass) {
    forall k :: 0 <= k < |t| ==> InClass(t[k], cl)
  }

  /** The end of the longest run of class cl that starts at j. */
  function RunEnd(s: string, j: nat, cl: CharClass): (r: nat)
    requires j <= |s|
    ensures j <= r <= |s|
    ensures forall k :: j <= k < r ==> InClass(s[k], cl)
    ensures r == |s| || !InClass(s[r], cl)
    decreases |s| - j
  {
    if j == |s| || !InClass(s[j], cl) then j else RunEnd(s, j + 1, cl)
  }

  /** Whether lit occurs at position i of s, ignoring ASCII case. */
  predicate LitAt(s: string, i: nat, lit: string) {
    i + |lit| <= |s| && LitFrom(s, i, lit, 0)
  }

  predicate LitFrom(s: string, i: nat, lit: string, k: nat)
    decreases |lit| - k
  {
    k >= |lit| || (i + k < |s| && Lower(s[i + k]) == Lower(lit[k]) && LitFrom(s, i, lit, k + 1))
  }

  lemma {:induction false} LitFromMeans(s: string, i: nat, lit: string, k: nat)
    requires k <= |lit|
    requires i + |lit| <= |s|
    ensures LitFrom(s, i, lit, k) <==> forall j :: k <= j < |lit| ==> Lower(s[i + j]) == Lower(lit[j])
    decreases |lit| - k
  {
    if k < |lit| {
      LitFromMeans(s, i, lit, k + 1);
    }
  }

  /** `LitAt` is the case-insensitive comparison of a window of s with lit. */
  lemma LitAtMeans(s: string, i: nat, lit: string)
    ensures LitAt(s, i, lit) <==>
      (i + |lit| <= |s| && forall j :: 0 <= j < |lit| ==> Lower(s[i + j]) == Lower(lit[j]))
  {
    if i + |lit| <= |s| {
      LitFromMeans(s, i, lit, 0);
    }
  }

  /** s holds line at offset off. */
  predicate LineAt(s: string, off: nat, line: string) {
    off + |line| <= |s| && forall t :: 0 <= t < |line| ==> s[off + t] == line[t]
  }

  /** `str.lstrip()`: the suffix left after the leading whitespace. */
  function StripStart(t: string): (r: string)
    ensures |r| <= |t| && r == t[|t| - |r|..]
    ensures forall k :: 0 <= k < |t| - |r| ==> IsSpace(t[k])
    ensures r == [] || !IsSpace(r[0])
  {
    if t != [] && IsSpace(t[0]) then StripStart(t[1..]) else t
  }

  /** `str.rstrip()`: the prefix left before the trailing whitespace. */
  function StripEnd(t: string): (r: string)
    ensures |r| <= |t| && r == t[..|r|]
    ensures forall k :: |r| <= k < |t| ==> IsSpace(t[k])
    ensures r == [] || !IsSpace(r[|r| - 1])
  {
    if t != [] && IsSpace(t[|t| - 1]) then StripEnd(t[..|t| - 1]) else t
  }

  /** `str.strip()`. */
  function Strip(t: string): string {
    StripEnd(StripStart(t))
  }

  /** The bounds of the window `strip` keeps. */
  function StripLo(t: string): nat {
    |t| - |StripStart(t)|
  }

  /** `strip` keeps t[StripLo(t)..StripLo(t) + |Strip(t)|], and cuts only
      whitespace on either side of it. */
  lemma StripSlice(t: string)
    ensures StripLo(t) + |Strip(t)| <= |t|
    ensures Strip(t) == t[StripLo(t)..StripLo(t) + |Strip(t)|]
    ensures forall k :: 0 <= k < StripLo(t) ==> IsSpace(t[k])
    ensures forall k :: StripLo(t) + |Strip(t)| <= k < |t| ==> IsSpace(t[k])
  {
    var u := StripStart(t);
    var r := StripEnd(u);
    var lo := |t| - |u|;
    SliceOfSuffix(t, u, r, lo);
  }

  /** A prefix r of the suffix u == t[lo..], with whitespace after r in u, is
      the window t[lo..lo + |r|], with whitespace after it in t. */
  lemma SliceOfSuffix(t: string, u: string, r: string, lo: nat)
    requires lo <= |t| && u == t[lo..] && |r| <= |u| && r == u[..|r|]
    requires forall k :: |r| <= k < |u| ==> IsSpace(u[k])
    ensures r == t[lo..lo + |r|]
    ensures forall k :: lo + |r| <= k < |t| ==> IsSpace(t[k])
  {
    forall k | lo + |r| <= k < |t| ensures IsSpace(t[k]) {
      assert t[k] == u[k - lo];
    }
  }

  /** What `strip` keeps: a window of t whose ends are not whitespace, with
      only whitespace cut off on either side. */
  lemma StripWindow(t: string)
    ensures exists lo, hi ::
      && 0 <= lo <= hi <= |t| && Strip(t) == t[lo..hi]
      && (forall k :: 0 <= k < lo ==> IsSpace(t[k]))
      && (forall k :: hi <= k < |t| ==> IsSpace(t[k]))
    ensures Strip(t) == [] || (!IsSpace(Strip(t)[0]) && !IsSpace(Strip(t)[|Strip(t)| - 1]))
  {
    StripSlice(t);
    var u := StripStart(t);
    if Strip(t) != [] {
      assert Strip(t)[0] == u[0];
    }
  }

  /** `not t.strip()` holds exactly when t is whitespace only. */
  lemma {:induction false} StripEmptyIff(t: string)
    ensures Strip(t) == [] <==> AllSpace(t)
  {
    var u := StripStart(t);
    if u != [] {
      assert StripEnd(u)[0] == u[0];
      assert !IsSpace(t[|t| - |u|]);
    }
  }

  /** A string whose ends are not whitespace is its own `strip`. */
  lemma StripIdentity(t: string)
    requires t == [] || (!IsSpace(t[0]) && !IsSpace(t[|t| - 1]))
    ensures Strip(t) == t
  {
  }

  /** A string of a class without whitespace is its own `strip`. */
  lemma StripClass(t: string, cl: CharClass)
    requires AllIn(t, cl) && cl != Space && cl != NotNewline
    ensures Strip(t) == t
  {
    assert forall k :: 0 <= k < |t| ==> !IsSpace(t[k]);
    StripIdentity(t);
  }

  /** Stripping a string without newlines leaves one with none, and
      stripping it again changes nothing. */
  lemma StripLine(t: string)
    requires AllIn(t, NotNewline)
    ensures '\n' !in Strip(t) && Strip(Strip(t)) == Strip(t)
  {
    StripSlice(t);
    StripWindow(t);
    var lo := StripLo(t);
    forall k | 0 <= k < |Strip(t)| ensures Strip(t)[k] != '\n' {
      assert Strip(t)[k] == t[lo + k];
    }
    StripIdentity(Strip(t));
  }

  /** `str.find(c)`: the first index of c, or -1. */
  function IndexOf(t: string, c: char): (r: int)
    ensures -1 <= r < |t|
    ensures r == -1 <==> c !in t
    ensures r >= 0 ==> t[r] == c && forall k :: 0 <= k < r ==> t[k] != c
  {
    if t == [] then -1
    else if t[0] == c then 0
    else var r := IndexOf(t[1..], c); if r == -1 then -1 else r + 1
  }

  /** `str.rfind(c)`: the last index of c, or -1. */
  function LastIndexOf(t: string, c: char): (r: int)
    ensures -1 <= r < |t|
    ensures r == -1 <==> c !in t
    ensures r >= 0 ==> t[r] == c && forall k :: r < k < |t| ==> t[k] != c
  {
    if t == [] then -1
    else if t[|t| - 1] == c then |t| - 1
    else LastIndexOf(t[..|t| - 1], c)
  }

  /** `sep.join(parts)`. */
  function Join(parts: seq<string>, sep: string): (r: string)
    ensures parts == [] ==> r == ""
    ensures |parts| > 0 ==> |r| == TotalLength(parts) + (|parts| - 1) * |sep|
    ensures |parts| > 0 ==> r[..|parts[0]|] == parts[0]
  {
    if parts == [] then ""
    else if |parts| == 1 then parts[0]
    else parts[0] + sep + Join(parts[1..], sep)
  }

  function TotalLength(parts: seq<string>): nat {
    if parts == [] then 0 else |parts[0]| + TotalLength(parts[1..])
  }
}
