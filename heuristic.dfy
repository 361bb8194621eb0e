/** `_heuristic_extract`: the regex fallback that turns cleaned invoice text
    into a JSON object with the keys vendor, number, date, total, currency
    and line_items. */
module Heuristic {
  import opened Wrappers
  import opened JsonValues
  import opened Text
  import opened Patterns

  /** The keys of the extracted object. */
  const ExtractKeys: set<string> := {"vendor", "number", "date", "total", "currency", "line_items"}

  function DigitValue(c: char): (r: nat)
    requires IsDigit(c)
    ensures r < 10
  {
    c as int - '0' as int
  }

  /** The value of a string of decimal digits. */
  function DigitsValue(d: string): nat
    requires AllIn(d, Digit)
  {
    if d == [] then 0 else DigitsValue(d[..|d| - 1]) * 10 + DigitValue(d[|d| - 1])
  }

  function Pow10(n: nat): (r: nat)
    ensures r >= 1
  {
    if n == 0 then 1 else 10 * Pow10(n - 1)
  }

  /** A numeral's dot, if it has one, is the one `find` reports. */
  lemma NumeralSplit(t: string)
    requires NumeralText(t)
    ensures IndexOf(t, '.') == -1 ==> AllIn(t, Digit)
    ensures IndexOf(t, '.') != -1 ==> DottedAt(t, IndexOf(t, '.'))
  {
    if !AllIn(t, Digit) {
      var d :| DottedAt(t, d);
      assert t[d] == '.';
      forall k | 0 <= k < d ensures t[k] != '.' {
        assert t[..d][k] == t[k];
      }
    }
  }

  /** `float(t)` for a numeral t, as an exact decimal. */
  function NumeralValue(t: string): (r: real)
    requires NumeralText(t)
    ensures r >= 0.0
  {
    NumeralSplit(t);
    var d := IndexOf(t, '.');
    if d == -1 then DigitsValue(t) as real
    else DigitsValue(t[..d]) as real + DigitsValue(t[d + 1..]) as real / Pow10(|t| - d - 1) as real
  }

  /** t without its dot, and the number of digits after the dot. */
  function Undotted(t: string): string {
    var d := IndexOf(t, '.');
    if d == -1 then t else t[..d] + t[d + 1..]
  }

  function FracLength(t: string): nat {
    var d := IndexOf(t, '.');
    if d == -1 then 0 else |t| - d - 1
  }

  lemma {:induction false} DigitsAppend(x: string, y: string)
    requires AllIn(x, Digit) && AllIn(y, Digit)
    ensures AllIn(x + y, Digit)
    ensures DigitsValue(x + y) == DigitsValue(x) * Pow10(|y|) + DigitsValue(y)
    decreases |y|
  {
    if y == [] {
      assert x + y == x;
    } else {
      var y' := y[..|y| - 1];
      var c := y[|y| - 1];
      assert AllIn(y', Digit);
      assert (x + y)[..|x + y| - 1] == x + y';
      DigitsAppend(x, y');
      assert DigitsValue(x + y) == DigitsValue(x + y') * 10 + DigitValue(c);
      Regroup(DigitsValue(x), Pow10(|y'|), DigitsValue(y'), DigitValue(c));
    }
  }

  lemma Regroup(x: nat, p: nat, y: nat, c: nat)
    ensures (x * p + y) * 10 + c == x * (10 * p) + (y * 10 + c)
  {
  }

  /** The value of a numeral is its digits, read without the dot, divided
      by ten to the number of digits after the dot. */
  lemma NumeralValueScaled(t: string)
    requires NumeralText(t)
    ensures AllIn(Undotted(t), Digit)
    ensures NumeralValue(t) == DigitsValue(Undotted(t)) as real / Pow10(FracLength(t)) as real
  {
    if IndexOf(t, '.') == -1 {
      ScaledPlain(t);
    } else {
      ScaledDotted(t);
    }
  }

  lemma ScaledPlain(t: string)
    requires NumeralText(t) && IndexOf(t, '.') == -1
    ensures AllIn(Undotted(t), Digit)
    ensures NumeralValue(t) == DigitsValue(Undotted(t)) as real / Pow10(FracLength(t)) as real
  {
    NumeralSplit(t);
    assert Undotted(t) == t && FracLength(t) == 0 && Pow10(0) == 1;
    Rescale(NumeralValue(t), DigitsValue(t), 0, 1, DigitsValue(t));
  }

  lemma ScaledDotted(t: string)
    requires NumeralText(t) && IndexOf(t, '.') != -1
    ensures AllIn(Undotted(t), Digit)
    ensures NumeralValue(t) == DigitsValue(Undotted(t)) as real / Pow10(FracLength(t)) as real
  {
    NumeralSplit(t);
    var d := IndexOf(t, '.');
    var x, y := t[..d], t[d + 1..];
    assert Undotted(t) == x + y && FracLength(t) == |y|;
    DigitsAppend(x, y);
    Rescale(NumeralValue(t), DigitsValue(x), DigitsValue(y), Pow10(|y|), DigitsValue(x + y));
  }

  /** m + n / p == (m * p + n) / p. */
  lemma Rescale(v: real, m: nat, n: nat, p: nat, w: nat)
    requires p > 0 && v == m as real + n as real / p as real && w == m * p + n
    ensures v == w as real / p as real
  {
    assert (m * p) as real == m as real * p as real;
  }

  /** What `find` reports through `Total:` is a numeral. */
  lemma TotalIsNumeral(s: string)
    ensures Find(TotalPattern, s).Some? ==> NumeralText(Find(TotalPattern, s).value)
  {
    FindExact(TotalPattern.prefixes, Numeral, s);
  }

  function AsJson(o: Option<string>): Json {
    if o.Some? then JStr(o.value) else JNull
  }

  /** Python's `a or b` on two results of `find`: a when it is a non-empty
      str, b otherwise. */
  function OrElse(a: Option<string>, b: Option<string>): Option<string> {
    if a.Some? && a.value != "" then a else b
  }

  /** `float(total) if total else None`. */
  function TotalValue(total: Option<string>): Json
    requires total.Some? ==> NumeralText(total.value)
  {
    if total.Some? && total.value != "" then JNum(NumeralValue(total.value)) else JNull
  }

  /** The five scalar fields `_heuristic_extract` computes. */
  datatype Fields = Fields(vendor: Json, number: Json, date: Json, total: Json, currency: Json)

  function ExtractFields(cleanText: string): Fields {
    var currency := OrElse(Find(TotalThenCurrency, cleanText), Find(CurrencyPattern, cleanText));
    TotalIsNumeral(cleanText);
    Fields(
      AsJson(Find(VendorPattern, cleanText)),
      AsJson(Find(NumberPattern, cleanText)),
      AsJson(Find(DatePattern, cleanText)),
      TotalValue(Find(TotalPattern, cleanText)),
      AsJson(currency))
  }

  /** The dict `_heuristic_extract` returns for the fields f. */
  function AsObject(f: Fields): map<string, Json> {
    map[
      "vendor" := f.vendor,
      "number" := f.number,
      "date" := f.date,
      "total" := f.total,
      "currency" := f.currency,
      "line_items" := JArr([])]
  }

  /** `_heuristic_extract(clean_text)`. */
  function HeuristicExtract(cleanText: string): map<string, Json> {
    AsObject(ExtractFields(cleanText))
  }

  /** The extractor always returns exactly its six keys, each field under
      its own name and line_items empty. */
  lemma HeuristicKeys(f: Fields)
    ensures AsObject(f).Keys == ExtractKeys
    ensures var r := AsObject(f);
      && r["vendor"] == f.vendor && r["number"] == f.number && r["date"] == f.date
      && r["total"] == f.total && r["currency"] == f.currency && r["line_items"] == JArr([])
  {
  }

  /** Some match of the pattern exists somewhere in s. */
  ghost predicate Matches(p: Pattern, s: string) {
    exists i: nat, a: nat, b: nat :: PatMatch(p, s, i, a, b)
  }

  /** `find` gives None exactly when the pattern matches nowhere, and
      otherwise the stripped group of the match `re.search` chooses. */
  lemma FindReports(p: Pattern, s: string)
    requires Unambiguous(p)
    ensures Find(p, s).None? <==> !Matches(p, s)
    ensures Find(p, s).Some? ==>
      exists i: nat, a: nat, b: nat :: ChosenMatch(p, s, i, a, b) && a <= b <= |s| && Find(p, s).value == Strip(s[a..b])
  {
    FindMeans(p, s);
  }

  /** A str field is null exactly when its pattern matches nowhere, and
      otherwise the stripped group of the match `re.search` chooses. */
  ghost predicate FieldReports(p: Pattern, s: string, v: Json) {
    && (v == JNull <==> !Matches(p, s))
    && (v.JStr? ==> exists i: nat, a: nat, b: nat :: ChosenMatch(p, s, i, a, b) && a <= b <= |s| && v.s == Strip(s[a..b]))
  }

  lemma FieldReportsFind(p: Pattern, s: string)
    requires Unambiguous(p)
    ensures FieldReports(p, s, AsJson(Find(p, s)))
  {
    FindReports(p, s);
  }

  /** vendor, number and date each report their pattern's match. */
  lemma HeuristicFields(s: string)
    ensures FieldReports(VendorPattern, s, ExtractFields(s).vendor)
    ensures FieldReports(NumberPattern, s, ExtractFields(s).number)
    ensures FieldReports(DatePattern, s, ExtractFields(s).date)
  {
    PatternsUnambiguous();
    FieldReportsFind(VendorPattern, s);
    FieldReportsFind(NumberPattern, s);
    FieldReportsFind(DatePattern, s);
  }

  /** The total is null exactly when `Total:` and a numeral match nowhere,
      and otherwise the value of the numeral `re.search` chooses. */
  lemma HeuristicTotal(s: string)
    ensures ExtractFields(s).total == JNull <==> !Matches(TotalPattern, s)
    ensures ExtractFields(s).total.JNum? ==> exists i: nat, a: nat, b: nat ::
      && ChosenMatch(TotalPattern, s, i, a, b) && a <= b <= |s| && NumeralText(Strip(s[a..b]))
      && ExtractFields(s).total.n == NumeralValue(Strip(s[a..b]))
  {
    PatternsUnambiguous();
    FindReports(TotalPattern, s);
    TotalIsNumeral(s);
  }

  /** The currency is the three letters after the total's numeral when
      there are any, else those after `Currency:`, and null when neither
      pattern matches. */
  lemma HeuristicCurrency(s: string)
    ensures Matches(TotalThenCurrency, s) ==> ExtractFields(s).currency == AsJson(Find(TotalThenCurrency, s))
    ensures !Matches(TotalThenCurrency, s) ==> ExtractFields(s).currency == AsJson(Find(CurrencyPattern, s))
    ensures ExtractFields(s).currency == JNull <==> !Matches(TotalThenCurrency, s) && !Matches(CurrencyPattern, s)
  {
    PatternsUnambiguous();
    FindReports(TotalThenCurrency, s);
    FindReports(CurrencyPattern, s);
    FindCurrencyAfterTotal(s);
  }

  /** The shapes of the fields: a vendor is one stripped line, a number a
      run of letters, digits and hyphens, a date YYYY-MM-DD, a currency
      three letters and a total a non-negative number. */
  lemma HeuristicShapes(s: string)
    ensures var v := ExtractFields(s).vendor;
      v == JNull || (v.JStr? && '\n' !in v.s && Strip(v.s) == v.s)
    ensures var v := ExtractFields(s).number;
      v == JNull || (v.JStr? && |v.s| > 0 && AllIn(v.s, NumberChar))
    ensures var v := ExtractFields(s).date;
      v == JNull || (v.JStr? && IsoDateText(v.s))
    ensures var v := ExtractFields(s).currency;
      v == JNull || (v.JStr? && |v.s| == 3 && AllIn(v.s, Letter))
    ensures var v := ExtractFields(s).total;
      v == JNull || (v.JNum? && v.n >= 0.0)
  {
    FindShapes(s);
  }

  lemma FindShapes(s: string)
    ensures var v := Find(VendorPattern, s); v.Some? ==> '\n' !in v.value && Strip(v.value) == v.value
    ensures var v := Find(NumberPattern, s); v.Some? ==> |v.value| > 0 && AllIn(v.value, NumberChar)
    ensures var v := Find(DatePattern, s); v.Some? ==> IsoDateText(v.value)
    ensures var v := Find(CurrencyPattern, s); v.Some? ==> |v.value| == 3 && AllIn(v.value, Letter)
    ensures var v := Find(TotalThenCurrency, s); v.Some? ==> |v.value| == 3 && AllIn(v.value, Letter)
  {
    FindLine(VendorPattern.prefixes, s);
    FindExact(NumberPattern.prefixes, Plus(NumberChar), s);
    FindExact(DatePattern.prefixes, IsoDate, s);
    FindExact(CurrencyPattern.prefixes, ThreeLetters, s);
    FindCurrencyAfterTotal(s);
  }
}
