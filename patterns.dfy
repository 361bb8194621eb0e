/** The six regular expressions of the heuristic extractor, each as a
    hand-written matcher with Python `re.search(pat, s, re.IGNORECASE)`
    semantics: the leftmost position where the pattern matches, and at
    that position the match that backtracking tries first (greedy `\s*`,
    greedy groups, alternatives in order).

    Beside each matcher stands a declarative description of the strings the
    pattern matches (`PatMatch`); the lemmas at the end show that the
    matcher finds a match exactly when one exists, at the leftmost
    position, with the greatest (start, end) of the captured group there,
    which is the match Python's backtracking engine reports. */
module Patterns {
  import opened Wrappers
  import opened Text

  datatype Span = Span(start: nat, end: nat)
  datatype Hit = Hit(pos: nat, span: Span)

  /** The capturing group, which ends every pattern. */
  datatype Group =
    | Plus(cl: CharClass)  // (X+) for a character class X
    | IsoDate              // ([0-9]{4}-[0-9]{2}-[0-9]{2})
    | ThreeLetters         // ([A-Za-z]{3})
    | Numeral              // ([0-9]+(?:\.[0-9]+)?)

  /** Simple: one of several literal prefixes (an alternation, tried in
      order), then `\s*`, then the group. TotalThenCurrency is
      `Total:\s*[0-9]+(?:\.[0-9]+)?\s*([A-Za-z]{3})`. */
  datatype Pattern =
    | Simple(prefixes: seq<string>, group: Group)
    | TotalThenCurrency

  /** `Vendor:\s*(.+)` */
  const VendorPattern := Simple(["Vendor:"], Plus(NotNewline))
  /** `(?:Invoice Number|Invoice No\.?):\s*([A-Za-z0-9\-]+)` */
  const NumberPattern := Simple(["Invoice Number:", "Invoice No.:", "Invoice No:"], Plus(NumberChar))
  /** `(?:Invoice Date|Date):\s*([0-9]{4}-[0-9]{2}-[0-9]{2})` */
  const DatePattern := Simple(["Invoice Date:", "Date:"], IsoDate)
  /** `Total:\s*([0-9]+(?:\.[0-9]+)?)` */
  const TotalPattern := Simple(["Total:"], Numeral)
  /** `Currency:\s*([A-Za-z]{3})` */
  const CurrencyPattern := Simple(["Currency:"], ThreeLetters)

  const TotalLit := "Total:"

  // ---------------------------------------------------------------------
  // The languages of the groups

  predicate IsoDateText(t: string) {
    && |t| == 10
    && AllIn(t[..4], Digit) && t[4] == '-'
    && AllIn(t[5..7], Digit) && t[7] == '-'
    && AllIn(t[8..], Digit)
  }

  /** A digit run, or a digit run, a dot and a digit run. */
  predicate DottedAt(t: string, d: int) {
    0 < d < |t| - 1 && t[d] == '.' && AllIn(t[..d], Digit) && AllIn(t[d + 1..], Digit)
  }

  ghost predicate NumeralText(t: string) {
    |t| > 0 && (AllIn(t, Digit) || exists d :: DottedAt(t, d))
  }

  ghost predicate InLanguage(t: string, g: Group) {
    match g
    case Plus(cl) => |t| > 0 && AllIn(t, cl)
    case IsoDate => IsoDateText(t)
    case ThreeLetters => |t| == 3 && AllIn(t, Letter)
    case Numeral => NumeralText(t)
  }

  /** `\s*` from lo to a, then the group from a to b. */
  ghost predicate SpacedMatch(s: string, lo: nat, a: nat, b: nat, g: Group) {
    lo <= a <= b <= |s| && AllSpace(s[lo..a]) && InLanguage(s[a..b], g)
  }

  /** The k-th alternative of the prefix matches at i, the group spans [a, b). */
  ghost predicate MatchVia(prefixes: seq<string>, g: Group, s: string, i: nat, k: int, a: nat, b: nat) {
    0 <= k < |prefixes| && LitAt(s, i, prefixes[k]) && SpacedMatch(s, i + |prefixes[k]|, a, b, g)
  }

  /** `Total:` at i, spaces up to w, a numeral up to f, spaces up to a, and
      three letters at a. */
  ghost predicate CurrencyMatch(s: string, i: nat, w: nat, f: nat, a: nat) {
    && LitAt(s, i, TotalLit)
    && i + 6 <= w <= f <= a && a + 3 <= |s|
    && AllSpace(s[i + 6..w]) && NumeralText(s[w..f]) && AllSpace(s[f..a])
    && InLanguage(s[a..a + 3], ThreeLetters)
  }

  /** The pattern matches at position i with its group spanning [a, b). */
  ghost predicate PatMatch(p: Pattern, s: string, i: nat, a: nat, b: nat) {
    match p
    case Simple(pre, g) => exists k :: MatchVia(pre, g, s, i, k, a, b)
    case TotalThenCurrency => b == a + 3 && exists w, f :: CurrencyMatch(s, i, w, f, a)
  }

  /** The order in which backtracking tries group spans at one position. */
  predicate TriedBefore(a: nat, b: nat, a': nat, b': nat) {
    a' < a || (a' == a && b' <= b)
  }

  /** The match `re.search` reports: at the leftmost position with a match,
      the span there that backtracking reaches first. */
  ghost predicate ChosenMatch(p: Pattern, s: string, i: nat, a: nat, b: nat) {
    && PatMatch(p, s, i, a, b)
    && (forall j: nat, a': nat, b': nat :: j < i ==> !PatMatch(p, s, j, a', b'))
    && (forall a': nat, b': nat :: PatMatch(p, s, i, a', b') ==> TriedBefore(a, b, a', b'))
  }

  // ---------------------------------------------------------------------
  // The matchers

  predicate IsoDateAt(s: string, p: nat) {
    && p + 10 <= |s|
    && IsDigit(s[p]) && IsDigit(s[p + 1]) && IsDigit(s[p + 2]) && IsDigit(s[p + 3])
    && s[p + 4] == '-' && IsDigit(s[p + 5]) && IsDigit(s[p + 6])
    && s[p + 7] == '-' && IsDigit(s[p + 8]) && IsDigit(s[p + 9])
  }

  /** `[0-9]+(?:\.[0-9]+)?` at p: all digits, then the fraction if there is one. */
  function NumeralEnd(s: string, p: nat): (r: Option<nat>)
    requires p <= |s|
    ensures r.Some? ==> p < r.value <= |s|
  {
    var d := RunEnd(s, p, Digit);
    if d == p then None
    else if d + 1 < |s| && s[d] == '.' && IsDigit(s[d + 1]) then Some(RunEnd(s, d + 1, Digit))
    else Some(d)
  }

  /** Where a group that ends the pattern stops when it starts at p. Nothing
      follows it, so its first (greedy) success is the match. */
  function GroupEnd(s: string, p: nat, g: Group): (r: Option<nat>)
    requires p <= |s|
    ensures r.Some? ==> p < r.value <= |s|
  {
    match g
    case Plus(cl) => if p < |s| && InClass(s[p], cl) then Some(RunEnd(s, p, cl)) else None
    case IsoDate => if IsoDateAt(s, p) then Some(p + 10) else None
    case ThreeLetters =>
      if p + 3 <= |s| && IsLetter(s[p]) && IsLetter(s[p + 1]) && IsLetter(s[p + 2]) then Some(p + 3) else None
    case Numeral => NumeralEnd(s, p)
  }

  /** `\s*` that has taken the whitespace up to p, giving it back one
      character at a time until the group matches or lo is reached. */
  function Backoff(s: string, lo: nat, p: nat, g: Group): (r: Option<Span>)
    requires lo <= p <= |s|
    ensures r.Some? ==> lo <= r.value.start <= p && r.value.start < r.value.end <= |s|
    decreases p
  {
    match GroupEnd(s, p, g)
    case Some(e) => Some(Span(p, e))
    case None => if p == lo then None else Backoff(s, lo, p - 1, g)
  }

  /** `\s*` then the group, from lo. */
  function SpacedGroup(s: string, lo: nat, g: Group): (r: Option<Span>)
    requires lo <= |s|
    ensures r.Some? ==> lo <= r.value.start < r.value.end <= |s|
  {
    Backoff(s, lo, RunEnd(s, lo, Space), g)
  }

  /** The alternatives of the prefix in order, each followed by the rest of the pattern. */
  function Alternatives(alts: seq<string>, g: Group, s: string, i: nat): (r: Option<Span>)
    ensures r.Some? ==> i <= r.value.start < r.value.end <= |s|
    decreases |alts|
  {
    if alts == [] then None
    else
      var first := if LitAt(s, i, alts[0]) then SpacedGroup(s, i + |alts[0]|, g) else None;
      if first.Some? then first else Alternatives(alts[1..], g, s, i)
  }

  /** The currency-after-total pattern at i. Only one path through its
      backtracking can succeed (`CurrencyMatchUnique`), so the greedy path
      is tried alone. */
  function CurrencyAfterTotalAt(s: string, i: nat): (r: Option<Span>)
    ensures r.Some? ==> i <= r.value.start && r.value.end == r.value.start + 3 <= |s|
  {
    if !LitAt(s, i, TotalLit) then None
    else
      var w := RunEnd(s, i + 6, Space);
      match NumeralEnd(s, w)
      case None => None
      case Some(f) =>
        var a := RunEnd(s, f, Space);
        if a + 3 <= |s| && IsLetter(s[a]) && IsLetter(s[a + 1]) && IsLetter(s[a + 2])
        then Some(Span(a, a + 3)) else None
  }

  function MatchAt(p: Pattern, s: string, i: nat): (r: Option<Span>)
    ensures r.Some? ==> i <= r.value.start <= r.value.end <= |s|
  {
    match p
    case Simple(pre, g) => Alternatives(pre, g, s, i)
    case TotalThenCurrency => CurrencyAfterTotalAt(s, i)
  }

  /** `re.search`: the first position from i on where the pattern matches. */
  function Search(p: Pattern, s: string, i: nat): (h: Option<Hit>)
    requires i <= |s|
    ensures h.Some? ==> i <= h.value.pos <= |s| && MatchAt(p, s, h.value.pos) == Some(h.value.span)
    ensures h.Some? ==> forall j :: i <= j < h.value.pos ==> MatchAt(p, s, j).None?
    ensures h.None? ==> forall j :: i <= j <= |s| ==> MatchAt(p, s, j).None?
    decreases |s| - i
  {
    var m := MatchAt(p, s, i);
    if m.Some? then Some(Hit(i, m.value))
    else if i == |s| then None
    else Search(p, s, i + 1)
  }

  /** The source's `find(pat, s)`: the first match's group, stripped, or None. */
  function Find(p: Pattern, s: string): (r: Option<string>) {
    match Search(p, s, 0)
    case None => None
    case Some(h) => Some(Strip(s[h.span.start..h.span.end]))
  }

  // ---------------------------------------------------------------------
  // The matchers against the languages

  lemma GroupEndSound(s: string, p: nat, g: Group)
    requires p <= |s| && GroupEnd(s, p, g).Some?
    ensures InLanguage(s[p..GroupEnd(s, p, g).value], g)
  {
    var e := GroupEnd(s, p, g).value;
    var t := s[p..e];
    match g
    case Plus(cl) =>
    case IsoDate =>
      assert AllIn(t[..4], Digit) && AllIn(t[5..7], Digit) && AllIn(t[8..], Digit);
    case ThreeLetters =>
    case Numeral => NumeralEndSound(s, p);
  }

  /** `[0-9]+(?:\.[0-9]+)?` takes a numeral. */
  lemma NumeralEndSound(s: string, p: nat)
    requires p <= |s| && NumeralEnd(s, p).Some?
    ensures NumeralText(s[p..NumeralEnd(s, p).value])
  {
    var d := RunEnd(s, p, Digit);
    var e := NumeralEnd(s, p).value;
    var t := s[p..e];
    if e == d {
      DigitRun(s, p, d);
    } else {
      assert e == RunEnd(s, d + 1, Digit);
      DigitRun(s, p, d);
      DigitRun(s, d + 1, e);
      assert t[..d - p] == s[p..d] && t[d - p + 1..] == s[d + 1..e];
      assert DottedAt(t, d - p);
    }
  }

  /** Digits from j up to e are a string of digits. */
  lemma DigitRun(s: string, j: nat, e: nat)
    requires j <= e <= |s| && forall k :: j <= k < e ==> InClass(s[k], Digit)
    ensures AllIn(s[j..e], Digit)
  {
    forall k | 0 <= k < e - j ensures InClass(s[j..e][k], Digit) {
      assert s[j..e][k] == s[j + k];
    }
  }

  /** The group, started at p, takes every span of its language that starts there. */
  lemma GroupEndLongest(s: string, p: nat, b: nat, g: Group)
    requires p <= b <= |s| && InLanguage(s[p..b], g)
    ensures GroupEnd(s, p, g).Some? && b <= GroupEnd(s, p, g).value
  {
    match g
    case Plus(cl) =>
      assert s[p..b][0] == s[p];
      RunEndCovers(s, p, b, cl);
    case IsoDate => IsoDateFound(s, p, b);
    case ThreeLetters =>
      var t := s[p..b];
      assert t[0] == s[p] && t[1] == s[p + 1] && t[2] == s[p + 2];
    case Numeral => NumeralGreedy(s, p, b);
  }

  lemma IsoDateFound(s: string, p: nat, b: nat)
    requires p <= b <= |s| && IsoDateText(s[p..b])
    ensures IsoDateAt(s, p) && b == p + 10
  {
    var t := s[p..b];
    assert t[0] == s[p] && t[1] == s[p + 1] && t[2] == s[p + 2] && t[3] == s[p + 3];
    assert t[..4][0] == t[0] && t[..4][1] == t[1] && t[..4][2] == t[2] && t[..4][3] == t[3];
    assert t[5..7][0] == t[5] && t[5..7][1] == t[6];
    assert t[8..][0] == t[8] && t[8..][1] == t[9];
  }

  /** A numeral from p to f is covered by the greedy numeral at p, and is
      that numeral when the character after it cannot continue one. */
  lemma NumeralGreedy(s: string, p: nat, f: nat)
    requires p <= f <= |s| && NumeralText(s[p..f])
    ensures NumeralEnd(s, p).Some? && f <= NumeralEnd(s, p).value
    ensures (f == |s| || (!IsDigit(s[f]) && s[f] != '.')) ==> NumeralEnd(s, p) == Some(f)
  {
    var t := s[p..f];
    var d := RunEnd(s, p, Digit);
    assert t[0] == s[p];
    if AllIn(t, Digit) {
      RunEndCovers(s, p, f, Digit);
    } else {
      var k :| DottedAt(t, k);
      assert t[..k] == s[p..p + k];
      RunEndCovers(s, p, p + k, Digit);
      assert s[p + k] == t[k];
      assert d == p + k;
      assert t[k + 1..][0] == s[d + 1];
      assert t[k + 1..] == s[d + 1..f];
      RunEndCovers(s, d + 1, f, Digit);
    }
  }

  /** A run of class cl from j to b is inside the longest run from j. */
  lemma RunEndCovers(s: string, j: nat, b: nat, cl: CharClass)
    requires j <= b <= |s| && AllIn(s[j..b], cl)
    ensures b <= RunEnd(s, j, cl)
  {
    forall k | j <= k < b ensures InClass(s[k], cl) {
      assert s[j..b][k - j] == s[k];
    }
  }

  /** A run of class cl from j that stops at e is the longest run from j. */
  lemma {:induction false} RunEndExact(s: string, j: nat, e: nat, cl: CharClass)
    requires j <= e <= |s|
    requires forall k :: j <= k < e ==> InClass(s[k], cl)
    requires e == |s| || !InClass(s[e], cl)
    ensures RunEnd(s, j, cl) == e
    decreases |s| - j
  {
    if j < e {
      RunEndExact(s, j + 1, e, cl);
    }
  }

  lemma {:induction false} BackoffSound(s: string, lo: nat, p: nat, g: Group)
    requires lo <= p <= |s| && Backoff(s, lo, p, g).Some?
    ensures GroupEnd(s, Backoff(s, lo, p, g).value.start, g) == Some(Backoff(s, lo, p, g).value.end)
    decreases p
  {
    if GroupEnd(s, p, g).None? {
      BackoffSound(s, lo, p - 1, g);
    }
  }

  /** Giving back whitespace from p, the first group found starts at or
      after any start a <= p that admits the group, and if it starts at a it
      ends no earlier than b. */
  lemma {:induction false} BackoffGreatest(s: string, lo: nat, p: nat, a: nat, b: nat, g: Group)
    requires lo <= a <= p <= |s| && a <= b <= |s| && InLanguage(s[a..b], g)
    ensures Backoff(s, lo, p, g).Some?
    ensures TriedBefore(Backoff(s, lo, p, g).value.start, Backoff(s, lo, p, g).value.end, a, b)
    decreases p
  {
    GroupEndLongest(s, a, b, g);
    if GroupEnd(s, p, g).None? {
      BackoffGreatest(s, lo, p - 1, a, b, g);
    }
  }

  lemma SpacedSound(s: string, lo: nat, g: Group)
    requires lo <= |s| && SpacedGroup(s, lo, g).Some?
    ensures SpacedMatch(s, lo, SpacedGroup(s, lo, g).value.start, SpacedGroup(s, lo, g).value.end, g)
  {
    var w := RunEnd(s, lo, Space);
    BackoffSound(s, lo, w, g);
    var sp := SpacedGroup(s, lo, g).value;
    GroupEndSound(s, sp.start, g);
    assert AllSpace(s[lo..sp.start]);
  }

  lemma SpacedGreatest(s: string, lo: nat, a: nat, b: nat, g: Group)
    requires SpacedMatch(s, lo, a, b, g)
    ensures SpacedGroup(s, lo, g).Some?
    ensures TriedBefore(SpacedGroup(s, lo, g).value.start, SpacedGroup(s, lo, g).value.end, a, b)
  {
    var w := RunEnd(s, lo, Space);
    forall k | lo <= k < a ensures IsSpace(s[k]) {
      assert s[lo..a][k - lo] == s[k];
    }
    BackoffGreatest(s, lo, w, a, b, g);
  }

  lemma {:induction false} AlternativesSound(alts: seq<string>, g: Group, s: string, i: nat)
    requires Alternatives(alts, g, s, i).Some?
    ensures exists k :: MatchVia(alts, g, s, i, k, Alternatives(alts, g, s, i).value.start, Alternatives(alts, g, s, i).value.end)
    decreases |alts|
  {
    var sp := Alternatives(alts, g, s, i).value;
    if LitAt(s, i, alts[0]) && SpacedGroup(s, i + |alts[0]|, g).Some? {
      SpacedSound(s, i + |alts[0]|, g);
      assert MatchVia(alts, g, s, i, 0, sp.start, sp.end);
    } else {
      AlternativesSound(alts[1..], g, s, i);
      var k :| MatchVia(alts[1..], g, s, i, k, sp.start, sp.end);
      assert MatchVia(alts, g, s, i, k + 1, sp.start, sp.end);
    }
  }

  /** Two literals that differ, ignoring case, at a position both have. */
  predicate Distinguished(x: string, y: string) {
    exists j :: 0 <= j < |x| && j < |y| && Lower(x[j]) != Lower(y[j])
  }

  /** No two alternatives can both match at one position. */
  predicate Exclusive(alts: seq<string>) {
    forall k1, k2 :: 0 <= k1 < k2 < |alts| ==> Distinguished(alts[k1], alts[k2])
  }

  lemma DistinguishedApart(s: string, i: nat, x: string, y: string)
    requires Distinguished(x, y)
    ensures !(LitAt(s, i, x) && LitAt(s, i, y))
  {
    LitAtMeans(s, i, x);
    LitAtMeans(s, i, y);
  }

  lemma {:induction false} AlternativesGreatest(alts: seq<string>, g: Group, s: string, i: nat, k: int, a: nat, b: nat)
    requires Exclusive(alts) && MatchVia(alts, g, s, i, k, a, b)
    ensures Alternatives(alts, g, s, i).Some?
    ensures TriedBefore(Alternatives(alts, g, s, i).value.start, Alternatives(alts, g, s, i).value.end, a, b)
    decreases |alts|
  {
    if k == 0 {
      SpacedGreatest(s, i + |alts[0]|, a, b, g);
    } else {
      DistinguishedApart(s, i, alts[0], alts[k]);
      assert MatchVia(alts[1..], g, s, i, k - 1, a, b);
      AlternativesGreatest(alts[1..], g, s, i, k - 1, a, b);
    }
  }

  /** Whether every match at a position is found by the matcher there. */
  predicate Unambiguous(p: Pattern) {
    match p
    case Simple(pre, _) => Exclusive(pre)
    case TotalThenCurrency => true
  }

  // ---------------------------------------------------------------------
  // The currency-after-total pattern

  /** What a currency-after-total match at i consists of: `Total:`, the
      whitespace run, the greedy numeral, the whitespace run, three letters. */
  lemma CurrencyParts(s: string, i: nat)
    requires CurrencyAfterTotalAt(s, i).Some?
    ensures LitAt(s, i, TotalLit) && i + 6 <= |s|
    ensures var w := RunEnd(s, i + 6, Space);
      && NumeralEnd(s, w).Some?
      && var a := RunEnd(s, NumeralEnd(s, w).value, Space);
      && CurrencyAfterTotalAt(s, i) == Some(Span(a, a + 3))
      && a + 3 <= |s| && IsLetter(s[a]) && IsLetter(s[a + 1]) && IsLetter(s[a + 2])
  {
  }

  lemma CurrencySound(s: string, i: nat)
    requires CurrencyAfterTotalAt(s, i).Some?
    ensures exists w, f :: CurrencyMatch(s, i, w, f, CurrencyAfterTotalAt(s, i).value.start)
  {
    CurrencyParts(s, i);
    var w := RunEnd(s, i + 6, Space);
    var f := NumeralEnd(s, w).value;
    var a := RunEnd(s, f, Space);
    GroupEndSound(s, w, Numeral);
    CurrencyMatchOf(s, i, w, f, a);
  }

  lemma CurrencyMatchOf(s: string, i: nat, w: nat, f: nat, a: nat)
    requires LitAt(s, i, TotalLit) && i + 6 <= w <= f <= a && a + 3 <= |s|
    requires forall k :: i + 6 <= k < w ==> IsSpace(s[k])
    requires forall k :: f <= k < a ==> IsSpace(s[k])
    requires InLanguage(s[w..f], Numeral)
    requires IsLetter(s[a]) && IsLetter(s[a + 1]) && IsLetter(s[a + 2])
    ensures CurrencyMatch(s, i, w, f, a)
  {
    assert AllIn(s[a..a + 3], Letter) by {
      var c := s[a..a + 3];
      assert c[0] == s[a] && c[1] == s[a + 1] && c[2] == s[a + 2];
    }
    assert AllSpace(s[i + 6..w]) && AllSpace(s[f..a]);
  }

  /** Every way of matching the currency-after-total pattern at i passes
      through the same positions, those of the greedy path. */
  lemma CurrencyMatchUnique(s: string, i: nat, w: nat, f: nat, a: nat)
    requires CurrencyMatch(s, i, w, f, a)
    ensures CurrencyAfterTotalAt(s, i) == Some(Span(a, a + 3))
  {
    var code := s[a..a + 3];
    assert s[a] == code[0] && s[a + 1] == code[1] && s[a + 2] == code[2];
    assert IsLetter(s[a]) && IsLetter(s[a + 1]) && IsLetter(s[a + 2]);
    assert IsDigit(s[w]) by {
      assert s[w..f][0] == s[w];
    }
    SpaceRunTo(s, i + 6, w);
    assert !IsDigit(s[f]) && s[f] != '.' by {
      if f < a {
        assert s[f] == s[f..a][0];
      }
    }
    NumeralGreedy(s, w, f);
    SpaceRunTo(s, f, a);
    CurrencyPath(s, i, w, f, a);
  }

  /** The greedy path through the positions w, f and a. */
  lemma CurrencyPath(s: string, i: nat, w: nat, f: nat, a: nat)
    requires LitAt(s, i, TotalLit) && i + 6 <= |s|
    requires RunEnd(s, i + 6, Space) == w && NumeralEnd(s, w) == Some(f) && RunEnd(s, f, Space) == a
    requires a + 3 <= |s| && IsLetter(s[a]) && IsLetter(s[a + 1]) && IsLetter(s[a + 2])
    ensures CurrencyAfterTotalAt(s, i) == Some(Span(a, a + 3))
  {
  }

  /** Whitespace from lo up to a character that is not whitespace is the
      run `\s*` takes from lo. */
  lemma SpaceRunTo(s: string, lo: nat, e: nat)
    requires lo <= e < |s| && AllSpace(s[lo..e]) && !IsSpace(s[e])
    ensures RunEnd(s, lo, Space) == e
  {
    forall k | lo <= k < e ensures IsSpace(s[k]) {
      assert s[lo..e][k - lo] == s[k];
    }
    RunEndExact(s, lo, e, Space);
  }

  // ---------------------------------------------------------------------
  // One position, any pattern

  lemma MatchAtSound(p: Pattern, s: string, i: nat)
    requires MatchAt(p, s, i).Some?
    ensures PatMatch(p, s, i, MatchAt(p, s, i).value.start, MatchAt(p, s, i).value.end)
  {
    match p
    case Simple(pre, g) => AlternativesSound(pre, g, s, i);
    case TotalThenCurrency => CurrencySound(s, i);
  }

  lemma MatchAtGreatest(p: Pattern, s: string, i: nat, a: nat, b: nat)
    requires Unambiguous(p) && PatMatch(p, s, i, a, b)
    ensures MatchAt(p, s, i).Some?
    ensures TriedBefore(MatchAt(p, s, i).value.start, MatchAt(p, s, i).value.end, a, b)
  {
    match p
    case Simple(pre, g) =>
      var k :| MatchVia(pre, g, s, i, k, a, b);
      AlternativesGreatest(pre, g, s, i, k, a, b);
    case TotalThenCurrency =>
      var w, f :| CurrencyMatch(s, i, w, f, a);
      CurrencyMatchUnique(s, i, w, f, a);
  }

  lemma PatMatchInside(p: Pattern, s: string, i: nat, a: nat, b: nat)
    requires PatMatch(p, s, i, a, b)
    ensures i <= a <= b <= |s|
  {
    match p
    case Simple(pre, g) =>
    case TotalThenCurrency =>
  }

  // ---------------------------------------------------------------------
  // What `find` returns

  /** `find` returns None exactly when the pattern matches nowhere, and
      otherwise the stripped group of the match `re.search` reports. */
  lemma FindMeans(p: Pattern, s: string)
    requires Unambiguous(p)
    ensures Find(p, s).None? <==> forall i: nat, a: nat, b: nat :: !PatMatch(p, s, i, a, b)
    ensures Find(p, s).Some? ==>
      exists i: nat, a: nat, b: nat :: ChosenMatch(p, s, i, a, b) && a <= b <= |s| && Find(p, s).value == Strip(s[a..b])
  {
    var h := Search(p, s, 0);
    if h.None? {
      forall i: nat, a: nat, b: nat | PatMatch(p, s, i, a, b) ensures false {
        PatMatchInside(p, s, i, a, b);
        MatchAtGreatest(p, s, i, a, b);
      }
    } else {
      var i := h.value.pos;
      var sp := h.value.span;
      MatchAtSound(p, s, i);
      forall j: nat, a': nat, b': nat | j < i && PatMatch(p, s, j, a', b') ensures false {
        PatMatchInside(p, s, j, a', b');
        MatchAtGreatest(p, s, j, a', b');
      }
      forall a': nat, b': nat | PatMatch(p, s, i, a', b') ensures TriedBefore(sp.start, sp.end, a', b') {
        MatchAtGreatest(p, s, i, a', b');
      }
      assert ChosenMatch(p, s, i, sp.start, sp.end);
    }
  }

  /** What `find` returns is the stripped text of a span in the group's language. */
  lemma FindInLanguage(pre: seq<string>, g: Group, s: string)
    requires Find(Simple(pre, g), s).Some?
    ensures exists a: nat, b: nat :: a <= b <= |s| && InLanguage(s[a..b], g) && Find(Simple(pre, g), s).value == Strip(s[a..b])
  {
    var h := Search(Simple(pre, g), s, 0).value;
    MatchAtSound(Simple(pre, g), s, h.pos);
    var k :| MatchVia(pre, g, s, h.pos, k, h.span.start, h.span.end);
    assert InLanguage(s[h.span.start..h.span.end], g);
  }

  /** In each of the six patterns, no two prefixes can match at the same place. */
  lemma PatternsUnambiguous()
    ensures Unambiguous(VendorPattern) && Unambiguous(NumberPattern) && Unambiguous(DatePattern)
    ensures Unambiguous(TotalPattern) && Unambiguous(CurrencyPattern) && Unambiguous(TotalThenCurrency)
  {
    var n := NumberPattern.prefixes;
    assert Lower(n[0][10]) != Lower(n[1][10]);
    assert Lower(n[0][10]) != Lower(n[2][10]);
    assert Lower(n[1][10]) != Lower(n[2][10]);
    assert Distinguished(n[0], n[1]) && Distinguished(n[0], n[2]) && Distinguished(n[1], n[2]);
    var d := DatePattern.prefixes;
    assert Lower(d[0][0]) != Lower(d[1][0]);
    assert Distinguished(d[0], d[1]);
  }

  // ---------------------------------------------------------------------
  // What `find` returns

  /** Groups other than `(.+)` never contain whitespace. */
  predicate SpaceFree(g: Group) {
    g != Plus(Space) && g != Plus(NotNewline)
  }

  lemma InLanguageStripped(t: string, g: Group)
    requires InLanguage(t, g) && SpaceFree(g)
    ensures Strip(t) == t
  {
    match g
    case Plus(cl) => StripClass(t, cl);
    case IsoDate =>
      forall k | 0 <= k < |t| ensures !IsSpace(t[k]) {
        if k < 4 { assert t[..4][k] == t[k]; }
        else if 5 <= k < 7 { assert t[5..7][k - 5] == t[k]; }
        else if 8 <= k { assert t[8..][k - 8] == t[k]; }
      }
      StripIdentity(t);
    case ThreeLetters => StripClass(t, Letter);
    case Numeral =>
      if !AllIn(t, Digit) {
        var d :| DottedAt(t, d);
        assert t[..d][0] == t[0] && t[d + 1..][|t| - d - 2] == t[|t| - 1];
      }
      StripIdentity(t);
  }

  /** For a group without whitespace, `find` returns the group's text
      itself, which is in the group's language. */
  lemma FindExact(pre: seq<string>, g: Group, s: string)
    requires SpaceFree(g)
    ensures Find(Simple(pre, g), s).Some? ==> InLanguage(Find(Simple(pre, g), s).value, g)
  {
    if Find(Simple(pre, g), s).Some? {
      FindInLanguage(pre, g, s);
      var a: nat, b: nat :| a <= b <= |s| && InLanguage(s[a..b], g) && Find(Simple(pre, g), s).value == Strip(s[a..b]);
      InLanguageStripped(s[a..b], g);
    }
  }

  /** For `(.+)`, `find` returns a stripped text without newlines. */
  lemma FindLine(pre: seq<string>, s: string)
    ensures var v := Find(Simple(pre, Plus(NotNewline)), s);
      v.Some? ==> '\n' !in v.value && Strip(v.value) == v.value
  {
    if Find(Simple(pre, Plus(NotNewline)), s).Some? {
      FindInLanguage(pre, Plus(NotNewline), s);
      var a: nat, b: nat :| a <= b <= |s| && InLanguage(s[a..b], Plus(NotNewline))
        && Find(Simple(pre, Plus(NotNewline)), s).value == Strip(s[a..b]);
      StripLine(s[a..b]);
    }
  }

  /** The currency after a total is three letters. */
  lemma CurrencyLetters(s: string, i: nat)
    requires CurrencyAfterTotalAt(s, i).Some?
    ensures var sp := CurrencyAfterTotalAt(s, i).value; AllIn(s[sp.start..sp.end], Letter)
  {
    CurrencyParts(s, i);
    var a := CurrencyAfterTotalAt(s, i).value.start;
    var c := s[a..a + 3];
    assert c[0] == s[a] && c[1] == s[a + 1] && c[2] == s[a + 2];
  }

  lemma FindCurrencyAfterTotal(s: string)
    ensures var v := Find(TotalThenCurrency, s); v.Some? ==> |v.value| == 3 && AllIn(v.value, Letter)
  {
    var h := Search(TotalThenCurrency, s, 0);
    if h.Some? {
      var sp := h.value.span;
      CurrencyLetters(s, h.value.pos);
      StripClass(s[sp.start..sp.end], Letter);
    }
  }
}

/** Tools for establishing what the matchers return on a concrete text:
    where the first match is, and where no match can start. */
module PatternFacts {
  import opened Wrappers
  import opened Text
  import opened Patterns

  /** A match at i with none before it is the hit `re.search` reports. */
  lemma SearchFirst(p: Pattern, s: string, i: nat, sp: Span)
    requires i <= |s| && MatchAt(p, s, i) == Some(sp)
    requires forall j :: 0 <= j < i ==> MatchAt(p, s, j).None?
    ensures Search(p, s, 0) == Some(Hit(i, sp))
  {
    var h := Search(p, s, 0);
    assert h.Some?;
    FirstHit(p, s, i, sp, h.value);
  }

  /** Two positions that are each the first with a match are the same. */
  lemma FirstHit(p: Pattern, s: string, i: nat, sp: Span, h: Hit)
    requires MatchAt(p, s, i) == Some(sp) && forall j :: 0 <= j < i ==> MatchAt(p, s, j).None?
    requires MatchAt(p, s, h.pos) == Some(h.span) && forall j :: 0 <= j < h.pos ==> MatchAt(p, s, j).None?
    ensures h == Hit(i, sp)
  {
  }

  /** A literal found inside a line is found at the same place in s. */
  lemma LitInLine(s: string, off: nat, line: string, c: nat, lit: string)
    requires LineAt(s, off, line) && c + |lit| <= |line|
    requires forall t :: 0 <= t < |lit| ==> Lower(line[c + t]) == Lower(lit[t])
    ensures LitAt(s, off + c, lit)
  {
    LitAtMeans(s, off + c, lit);
    forall t | 0 <= t < |lit| ensures Lower(s[off + c + t]) == Lower(lit[t]) {
      assert s[off + c + t] == line[c + t];
    }
  }

  /** A literal that disagrees with a line at one character is not found there. */
  lemma NotLitInLine(s: string, off: nat, line: string, c: nat, lit: string, t: nat)
    requires LineAt(s, off, line) && c + t < |line| && t < |lit|
    requires Lower(line[c + t]) != Lower(lit[t])
    ensures !LitAt(s, off + c, lit)
  {
    LitAtMeans(s, off + c, lit);
    assert s[off + c + t] == line[c + t];
  }

  /** A run that ends inside a line ends at the same place in s. */
  lemma RunInLine(s: string, off: nat, line: string, c: nat, e: nat, cl: CharClass)
    requires LineAt(s, off, line) && c <= e < |line|
    requires forall t :: c <= t < e ==> InClass(line[t], cl)
    requires !InClass(line[e], cl)
    ensures RunEnd(s, off + c, cl) == off + e
  {
    assert forall k :: off + c <= k < off + e ==> s[k] == line[k - off];
    assert s[off + e] == line[e];
    RunEndExact(s, off + c, off + e, cl);
  }

  lemma SliceInLine(s: string, off: nat, line: string, c: nat, e: nat)
    requires LineAt(s, off, line) && c <= e <= |line|
    ensures s[off + c..off + e] == line[c..e]
  {
    forall k | 0 <= k < e - c ensures s[off + c..off + e][k] == line[c..e][k] {
      assert s[off + c + k] == line[c + k];
    }
  }

  /** An alternative whose literal is found at i, with the group right
      after the spaces that follow it. */
  lemma AltFound(pre: seq<string>, g: Group, s: string, i: nat, w: nat, e: nat)
    requires pre != [] && LitAt(s, i, pre[0])
    requires RunEnd(s, i + |pre[0]|, Space) == w && GroupEnd(s, w, g) == Some(e)
    ensures Alternatives(pre, g, s, i) == Some(Span(w, e))
  {
  }

  /** An alternative whose literal is not found at i is passed over. */
  lemma AltSkipped(pre: seq<string>, g: Group, s: string, i: nat)
    requires pre != [] && !LitAt(s, i, pre[0])
    ensures Alternatives(pre, g, s, i) == Alternatives(pre[1..], g, s, i)
  {
  }

  /** The literals a pattern's matches begin with. */
  function Lits(p: Pattern): seq<string> {
    match p
    case Simple(pre, _) => pre
    case TotalThenCurrency => [TotalLit]
  }

  lemma MatchNeedsLit(p: Pattern, s: string, k: nat)
    ensures MatchAt(p, s, k).Some? ==> exists j :: 0 <= j < |Lits(p)| && LitAt(s, k, Lits(p)[j])
  {
    match p
    case Simple(pre, g) =>
      AltNeedsLit(pre, g, s, k);
      assert Lits(p) == pre;
    case TotalThenCurrency =>
      assert Lits(p)[0] == TotalLit;
  }

  lemma {:induction false} AltNeedsLit(alts: seq<string>, g: Group, s: string, k: nat)
    ensures Alternatives(alts, g, s, k).Some? ==> exists j :: 0 <= j < |alts| && LitAt(s, k, alts[j])
    decreases |alts|
  {
    if alts != [] && !(LitAt(s, k, alts[0]) && SpacedGroup(s, k + |alts[0]|, g).Some?) {
      AltNeedsLit(alts[1..], g, s, k);
      if Alternatives(alts[1..], g, s, k).Some? {
        var j :| 0 <= j < |alts[1..]| && LitAt(s, k, alts[1..][j]);
        assert alts[1..][j] == alts[j + 1];
      }
    }
  }

  /** The first three characters of lit, ignoring case, stand at k of line. */
  predicate StubAt(line: string, k: nat, lit: string)
    requires k + 3 <= |line| && |lit| >= 3
  {
    Lower(line[k]) == Lower(lit[0]) && Lower(line[k + 1]) == Lower(lit[1]) && Lower(line[k + 2]) == Lower(lit[2])
  }

  /** Every literal begins with three letters. */
  predicate LettersFirst(lits: seq<string>) {
    forall j :: 0 <= j < |lits| ==> |lits[j]| >= 3 && IsLetter(lits[j][0]) && IsLetter(lits[j][1]) && IsLetter(lits[j][2])
  }

  /** No window of line from position `from` on holds the first three
      characters of lit. */
  predicate StubFree(line: string, lit: string, from: nat) {
    |lit| >= 3 && forall k: nat :: from <= k && k + 3 <= |line| ==> !StubAt(line, k, lit)
  }

  /** No match starts at or after position `from` of a line ending in a
      newline when no literal of the pattern has its first three characters
      there. */
  lemma NoMatchInLine(p: Pattern, s: string, off: nat, line: string, from: nat)
    requires LineAt(s, off, line) && |line| > 0 && line[|line| - 1] == '\n'
    requires LettersFirst(Lits(p))
    requires forall j :: 0 <= j < |Lits(p)| ==> StubFree(line, Lits(p)[j], from)
    ensures forall k :: off + from <= k < off + |line| ==> MatchAt(p, s, k).None?
  {
    forall k | off + from <= k < off + |line| ensures MatchAt(p, s, k).None? {
      NoMatchAt(p, s, off, line, from, k);
    }
  }

  lemma NoMatchAt(p: Pattern, s: string, off: nat, line: string, from: nat, k: nat)
    requires LineAt(s, off, line) && |line| > 0 && line[|line| - 1] == '\n'
    requires LettersFirst(Lits(p))
    requires forall j :: 0 <= j < |Lits(p)| ==> StubFree(line, Lits(p)[j], from)
    requires off + from <= k < off + |line|
    ensures MatchAt(p, s, k).None?
  {
    var r: nat := k - off;
    forall j | 0 <= j < |Lits(p)| ensures !LitAt(s, k, Lits(p)[j]) {
      var lit := Lits(p)[j];
      LitAtMeans(s, k, lit);
      if r + 3 <= |line| {
        assert StubFree(line, lit, from);
        assert !StubAt(line, r, lit);
        assert s[k] == line[r] && s[k + 1] == line[r + 1] && s[k + 2] == line[r + 2];
      } else {
        var t: nat := |line| - 1 - r;
        assert s[k + t] == '\n';
      }
    }
    MatchNeedsLit(p, s, k);
  }
}
