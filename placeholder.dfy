/** What `_heuristic_extract` makes of NODE_OCR's placeholder text: the
    invoice ACME Corp, number 12345, dated 2025-09-24, over 1000.00 USD.
    Each step is stated for any text holding the placeholder's lines at
    their offsets, and then for the placeholder itself. */
module PlaceholderExtract {
  import opened Wrappers
  import opened JsonValues
  import opened Text
  import opened Patterns
  import opened PatternFacts
  import opened Ocr
  import opened Heuristic

  // ---------------------------------------------------------------------
  // Where no literal can start

  /** Literals with the same first three characters are absent from the same windows. */
  lemma StubShared(line: string, a: string, b: string, from: nat)
    requires StubFree(line, a, from) && |b| >= 3
    requires b[0] == a[0] && b[1] == a[1] && b[2] == a[2]
    ensures StubFree(line, b, from)
  {
    forall k: nat | from <= k && k + 3 <= |line| ensures !StubAt(line, k, b) {
      assert !StubAt(line, k, a);
    }
  }

  lemma Line0Stubs()
    ensures StubFree(PlaceholderLine0, "Vendor:", 0)
    ensures StubFree(PlaceholderLine0, "Invoice Number:", 0)
  {
  }

  lemma Line0MoreStubs()
    ensures StubFree(PlaceholderLine0, "Date:", 0)
    ensures StubFree(PlaceholderLine0, "Total:", 0)
  {
  }

  lemma Line1Stubs()
    ensures StubFree(PlaceholderLine1, "Invoice Number:", 0)
    ensures StubFree(PlaceholderLine1, "Date:", 0)
  {
  }

  lemma Line1MoreStubs()
    ensures StubFree(PlaceholderLine1, "Total:", 0)
  {
  }

  lemma Line2Stubs()
    ensures StubFree(PlaceholderLine2, "Invoice Date:", 1)
    ensures StubFree(PlaceholderLine2, "Date:", 1)
  {
  }

  lemma Line2MoreStubs()
    ensures StubFree(PlaceholderLine2, "Total:", 0)
  {
  }

  lemma Line3Stubs()
    ensures StubFree(PlaceholderLine3, "Total:", 0)
  {
  }

  // ---------------------------------------------------------------------
  // Where no match can start

  lemma VendorLineFree(s: string, off: nat, line: string)
    requires LineAt(s, off, line) && |line| > 0 && line[|line| - 1] == '\n'
    requires StubFree(line, "Vendor:", 0)
    ensures forall k :: off <= k < off + |line| ==> MatchAt(VendorPattern, s, k).None?
  {
    assert Lits(VendorPattern) == ["Vendor:"];
    NoMatchInLine(VendorPattern, s, off, line, 0);
  }

  lemma NumberLineFree(s: string, off: nat, line: string)
    requires LineAt(s, off, line) && |line| > 0 && line[|line| - 1] == '\n'
    requires StubFree(line, "Invoice Number:", 0)
    ensures forall k :: off <= k < off + |line| ==> MatchAt(NumberPattern, s, k).None?
  {
    StubShared(line, "Invoice Number:", "Invoice No.:", 0);
    StubShared(line, "Invoice Number:", "Invoice No:", 0);
    assert Lits(NumberPattern) == ["Invoice Number:", "Invoice No.:", "Invoice No:"];
    NoMatchInLine(NumberPattern, s, off, line, 0);
  }

  lemma DateLineFree(s: string, off: nat, line: string, from: nat)
    requires LineAt(s, off, line) && |line| > 0 && line[|line| - 1] == '\n'
    requires StubFree(line, "Invoice Date:", from) && StubFree(line, "Date:", from)
    ensures forall k :: off + from <= k < off + |line| ==> MatchAt(DatePattern, s, k).None?
  {
    assert Lits(DatePattern) == ["Invoice Date:", "Date:"];
    NoMatchInLine(DatePattern, s, off, line, from);
  }

  /** The two patterns that begin with `Total:`. */
  predicate TotalFirst(p: Pattern) {
    p == TotalPattern || p == TotalThenCurrency
  }

  lemma TotalLineFree(p: Pattern, s: string, off: nat, line: string)
    requires TotalFirst(p)
    requires LineAt(s, off, line) && |line| > 0 && line[|line| - 1] == '\n'
    requires StubFree(line, "Total:", 0)
    ensures forall k :: off <= k < off + |line| ==> MatchAt(p, s, k).None?
  {
    assert Lits(p) == ["Total:"];
    NoMatchInLine(p, s, off, line, 0);
  }

  /** `find` strips the group of the hit `re.search` reports. */
  lemma FindHit(p: Pattern, s: string, h: Hit)
    requires Search(p, s, 0) == Some(h)
    ensures h.span.start <= h.span.end <= |s| && Find(p, s) == Some(Strip(s[h.span.start..h.span.end]))
  {
  }

  // ---------------------------------------------------------------------
  // vendor: `Vendor:` on line 1, the group "ACME Corp"

  lemma VendorLit(s: string)
    requires LineAt(s, 30, PlaceholderLine1)
    ensures LitAt(s, 30, "Vendor:")
  {
    LitInLine(s, 30, PlaceholderLine1, 0, "Vendor:");
  }

  lemma VendorSpace(s: string)
    requires LineAt(s, 30, PlaceholderLine1)
    ensures RunEnd(s, 37, Space) == 38
  {
    RunInLine(s, 30, PlaceholderLine1, 7, 8, Space);
  }

  lemma VendorGroup(s: string)
    requires LineAt(s, 30, PlaceholderLine1)
    ensures RunEnd(s, 38, NotNewline) == 47
  {
    RunInLine(s, 30, PlaceholderLine1, 8, 17, NotNewline);
  }

  lemma VendorOnLine1(s: string)
    requires LineAt(s, 30, PlaceholderLine1)
    ensures MatchAt(VendorPattern, s, 30) == Some(Span(38, 47))
  {
    VendorLit(s);
    VendorSpace(s);
    VendorGroup(s);
    AltFound(VendorPattern.prefixes, VendorPattern.group, s, 30, 38, 47);
  }

  lemma VendorBefore(s: string)
    requires LineAt(s, 0, PlaceholderLine0)
    ensures forall k :: 0 <= k < 30 ==> MatchAt(VendorPattern, s, k).None?
  {
    Line0Stubs();
    VendorLineFree(s, 0, PlaceholderLine0);
  }

  lemma VendorSearch(s: string)
    requires LineAt(s, 0, PlaceholderLine0) && LineAt(s, 30, PlaceholderLine1)
    ensures Search(VendorPattern, s, 0) == Some(Hit(30, Span(38, 47)))
  {
    VendorBefore(s);
    VendorOnLine1(s);
    SearchFirst(VendorPattern, s, 30, Span(38, 47));
  }

  lemma VendorFound(s: string)
    requires LineAt(s, 0, PlaceholderLine0) && LineAt(s, 30, PlaceholderLine1)
    ensures Find(VendorPattern, s) == Some("ACME Corp")
  {
    VendorSearch(s);
    SliceInLine(s, 30, PlaceholderLine1, 8, 17);
    VendorText();
    StripIdentity("ACME Corp");
    FindHit(VendorPattern, s, Hit(30, Span(38, 47)));
  }

  lemma VendorText()
    ensures PlaceholderLine1[8..17] == "ACME Corp"
  {
  }

  // ---------------------------------------------------------------------
  // number: `Invoice Number:` on line 2, the group "12345"

  lemma NumberLit(s: string)
    requires LineAt(s, 48, PlaceholderLine2)
    ensures LitAt(s, 48, "Invoice Number:")
  {
    LitInLine(s, 48, PlaceholderLine2, 0, "Invoice Number:");
  }

  lemma NumberSpace(s: string)
    requires LineAt(s, 48, PlaceholderLine2)
    ensures RunEnd(s, 63, Space) == 64
  {
    RunInLine(s, 48, PlaceholderLine2, 15, 16, Space);
  }

  lemma NumberGroup(s: string)
    requires LineAt(s, 48, PlaceholderLine2)
    ensures RunEnd(s, 64, NumberChar) == 69
  {
    RunInLine(s, 48, PlaceholderLine2, 16, 21, NumberChar);
  }

  lemma NumberOnLine2(s: string)
    requires LineAt(s, 48, PlaceholderLine2)
    ensures MatchAt(NumberPattern, s, 48) == Some(Span(64, 69))
  {
    NumberLit(s);
    NumberSpace(s);
    NumberGroup(s);
    AltFound(NumberPattern.prefixes, NumberPattern.group, s, 48, 64, 69);
  }

  lemma NumberBefore(s: string)
    requires LineAt(s, 0, PlaceholderLine0) && LineAt(s, 30, PlaceholderLine1)
    ensures forall k :: 0 <= k < 48 ==> MatchAt(NumberPattern, s, k).None?
  {
    Line0Stubs();
    Line1Stubs();
    NumberLineFree(s, 0, PlaceholderLine0);
    NumberLineFree(s, 30, PlaceholderLine1);
  }

  lemma NumberSearch(s: string)
    requires LineAt(s, 0, PlaceholderLine0) && LineAt(s, 30, PlaceholderLine1) && LineAt(s, 48, PlaceholderLine2)
    ensures Search(NumberPattern, s, 0) == Some(Hit(48, Span(64, 69)))
  {
    NumberBefore(s);
    NumberOnLine2(s);
    SearchFirst(NumberPattern, s, 48, Span(64, 69));
  }

  lemma NumberText()
    ensures PlaceholderLine2[16..21] == "12345"
  {
  }

  lemma NumberFound(s: string)
    requires LineAt(s, 0, PlaceholderLine0) && LineAt(s, 30, PlaceholderLine1) && LineAt(s, 48, PlaceholderLine2)
    ensures Find(NumberPattern, s) == Some("12345")
  {
    NumberSearch(s);
    SliceInLine(s, 48, PlaceholderLine2, 16, 21);
    NumberText();
    StripIdentity("12345");
    FindHit(NumberPattern, s, Hit(48, Span(64, 69)));
  }

  // ---------------------------------------------------------------------
  // date: `Date:` on line 3, the group "2025-09-24"

  /** Neither alternative matches at the start of line 2. */
  lemma DateNotOnLine2(s: string)
    requires LineAt(s, 48, PlaceholderLine2)
    ensures MatchAt(DatePattern, s, 48).None?
  {
    NotLitInLine(s, 48, PlaceholderLine2, 0, "Invoice Date:", 8);
    NotLitInLine(s, 48, PlaceholderLine2, 0, "Date:", 0);
    AltSkipped(DatePattern.prefixes, IsoDate, s, 48);
    AltSkipped(["Date:"], IsoDate, s, 48);
  }

  lemma DateLit(s: string)
    requires LineAt(s, 70, PlaceholderLine3)
    ensures !LitAt(s, 70, "Invoice Date:") && LitAt(s, 70, "Date:")
  {
    NotLitInLine(s, 70, PlaceholderLine3, 0, "Invoice Date:", 0);
    LitInLine(s, 70, PlaceholderLine3, 0, "Date:");
  }

  lemma DateSpace(s: string)
    requires LineAt(s, 70, PlaceholderLine3)
    ensures RunEnd(s, 75, Space) == 76
  {
    RunInLine(s, 70, PlaceholderLine3, 5, 6, Space);
  }

  lemma DateGroup(s: string)
    requires LineAt(s, 70, PlaceholderLine3)
    ensures IsoDateAt(s, 76)
  {
    assert s[76] == PlaceholderLine3[6] && s[77] == PlaceholderLine3[7];
    assert s[78] == PlaceholderLine3[8] && s[79] == PlaceholderLine3[9];
    assert s[80] == PlaceholderLine3[10] && s[81] == PlaceholderLine3[11];
    assert s[82] == PlaceholderLine3[12] && s[83] == PlaceholderLine3[13];
    assert s[84] == PlaceholderLine3[14] && s[85] == PlaceholderLine3[15];
  }

  lemma DateOnLine3(s: string)
    requires LineAt(s, 70, PlaceholderLine3)
    ensures MatchAt(DatePattern, s, 70) == Some(Span(76, 86))
  {
    DateLit(s);
    DateSpace(s);
    DateGroup(s);
    AltSkipped(DatePattern.prefixes, IsoDate, s, 70);
    AltFound(["Date:"], IsoDate, s, 70, 76, 86);
  }

  lemma DateBeforeLine2(s: string)
    requires LineAt(s, 0, PlaceholderLine0) && LineAt(s, 30, PlaceholderLine1)
    ensures forall k :: 0 <= k < 48 ==> MatchAt(DatePattern, s, k).None?
  {
    Line0Stubs();
    Line0MoreStubs();
    Line1Stubs();
    StubShared(PlaceholderLine0, "Invoice Number:", "Invoice Date:", 0);
    StubShared(PlaceholderLine1, "Invoice Number:", "Invoice Date:", 0);
    DateLineFree(s, 0, PlaceholderLine0, 0);
    DateLineFree(s, 30, PlaceholderLine1, 0);
  }

  lemma DateBefore(s: string)
    requires LineAt(s, 0, PlaceholderLine0) && LineAt(s, 30, PlaceholderLine1) && LineAt(s, 48, PlaceholderLine2)
    ensures forall k :: 0 <= k < 70 ==> MatchAt(DatePattern, s, k).None?
  {
    DateBeforeLine2(s);
    DateNotOnLine2(s);
    Line2Stubs();
    DateLineFree(s, 48, PlaceholderLine2, 1);
  }

  lemma DateSearch(s: string)
    requires LineAt(s, 0, PlaceholderLine0) && LineAt(s, 30, PlaceholderLine1)
    requires LineAt(s, 48, PlaceholderLine2) && LineAt(s, 70, PlaceholderLine3)
    ensures Search(DatePattern, s, 0) == Some(Hit(70, Span(76, 86)))
  {
    DateBefore(s);
    DateOnLine3(s);
    SearchFirst(DatePattern, s, 70, Span(76, 86));
  }

  lemma DateText()
    ensures PlaceholderLine3[6..16] == "2025-09-24"
  {
  }

  lemma DateFound(s: string)
    requires LineAt(s, 0, PlaceholderLine0) && LineAt(s, 30, PlaceholderLine1)
    requires LineAt(s, 48, PlaceholderLine2) && LineAt(s, 70, PlaceholderLine3)
    ensures Find(DatePattern, s) == Some("2025-09-24")
  {
    DateSearch(s);
    SliceInLine(s, 70, PlaceholderLine3, 6, 16);
    DateText();
    StripIdentity("2025-09-24");
    FindHit(DatePattern, s, Hit(70, Span(76, 86)));
  }

  // ---------------------------------------------------------------------
  // total and currency: `Total:` on line 4, the groups "1000.00" and "USD"

  lemma TotalBefore(p: Pattern, s: string)
    requires TotalFirst(p)
    requires LineAt(s, 0, PlaceholderLine0) && LineAt(s, 30, PlaceholderLine1)
    requires LineAt(s, 48, PlaceholderLine2) && LineAt(s, 70, PlaceholderLine3)
    ensures forall k :: 0 <= k < 87 ==> MatchAt(p, s, k).None?
  {
    TotalBeforeLine2(p, s);
    Line2MoreStubs();
    Line3Stubs();
    TotalLineFree(p, s, 48, PlaceholderLine2);
    TotalLineFree(p, s, 70, PlaceholderLine3);
  }

  lemma TotalBeforeLine2(p: Pattern, s: string)
    requires TotalFirst(p)
    requires LineAt(s, 0, PlaceholderLine0) && LineAt(s, 30, PlaceholderLine1)
    ensures forall k :: 0 <= k < 48 ==> MatchAt(p, s, k).None?
  {
    Line0MoreStubs();
    Line1MoreStubs();
    TotalLineFree(p, s, 0, PlaceholderLine0);
    TotalLineFree(p, s, 30, PlaceholderLine1);
  }

  lemma TotalLitAt(s: string)
    requires LineAt(s, 87, PlaceholderLine4)
    ensures LitAt(s, 87, TotalLit)
  {
    LitInLine(s, 87, PlaceholderLine4, 0, TotalLit);
  }

  lemma TotalSpace(s: string)
    requires LineAt(s, 87, PlaceholderLine4)
    ensures RunEnd(s, 93, Space) == 94
  {
    RunInLine(s, 87, PlaceholderLine4, 6, 7, Space);
  }

  lemma TotalWhole(s: string)
    requires LineAt(s, 87, PlaceholderLine4)
    ensures RunEnd(s, 94, Digit) == 98
  {
    RunInLine(s, 87, PlaceholderLine4, 7, 11, Digit);
  }

  lemma TotalFraction(s: string)
    requires LineAt(s, 87, PlaceholderLine4)
    ensures RunEnd(s, 99, Digit) == 101
  {
    RunInLine(s, 87, PlaceholderLine4, 12, 14, Digit);
  }

  lemma TotalDot(s: string)
    requires LineAt(s, 87, PlaceholderLine4)
    ensures |s| >= 105 && s[98] == '.' && IsDigit(s[99])
  {
    assert s[98] == PlaceholderLine4[11] && s[99] == PlaceholderLine4[12];
  }

  lemma TotalNumeral(s: string)
    requires LineAt(s, 87, PlaceholderLine4)
    ensures NumeralEnd(s, 94) == Some(101)
  {
    TotalWhole(s);
    TotalDot(s);
    TotalFraction(s);
  }

  lemma TotalOnLine4(s: string)
    requires LineAt(s, 87, PlaceholderLine4)
    ensures MatchAt(TotalPattern, s, 87) == Some(Span(94, 101))
  {
    TotalLitAt(s);
    TotalSpace(s);
    TotalNumeral(s);
    AltFound(TotalPattern.prefixes, Numeral, s, 87, 94, 101);
  }

  lemma CurrencySpace(s: string)
    requires LineAt(s, 87, PlaceholderLine4)
    ensures RunEnd(s, 101, Space) == 102
  {
    RunInLine(s, 87, PlaceholderLine4, 14, 15, Space);
  }

  lemma CurrencyCode(s: string)
    requires LineAt(s, 87, PlaceholderLine4)
    ensures |s| >= 105 && IsLetter(s[102]) && IsLetter(s[103]) && IsLetter(s[104])
  {
    assert s[102] == PlaceholderLine4[15] && s[103] == PlaceholderLine4[16] && s[104] == PlaceholderLine4[17];
  }

  lemma CurrencyOnLine4(s: string)
    requires LineAt(s, 87, PlaceholderLine4)
    ensures MatchAt(TotalThenCurrency, s, 87) == Some(Span(102, 105))
  {
    TotalLitAt(s);
    TotalSpace(s);
    TotalNumeral(s);
    CurrencySpace(s);
    CurrencyCode(s);
  }

  lemma TotalSearch(s: string)
    requires LineAt(s, 0, PlaceholderLine0) && LineAt(s, 30, PlaceholderLine1)
    requires LineAt(s, 48, PlaceholderLine2) && LineAt(s, 70, PlaceholderLine3) && LineAt(s, 87, PlaceholderLine4)
    ensures Search(TotalPattern, s, 0) == Some(Hit(87, Span(94, 101)))
  {
    TotalBefore(TotalPattern, s);
    TotalOnLine4(s);
    SearchFirst(TotalPattern, s, 87, Span(94, 101));
  }

  lemma CurrencySearch(s: string)
    requires LineAt(s, 0, PlaceholderLine0) && LineAt(s, 30, PlaceholderLine1)
    requires LineAt(s, 48, PlaceholderLine2) && LineAt(s, 70, PlaceholderLine3) && LineAt(s, 87, PlaceholderLine4)
    ensures Search(TotalThenCurrency, s, 0) == Some(Hit(87, Span(102, 105)))
  {
    TotalBefore(TotalThenCurrency, s);
    CurrencyOnLine4(s);
    SearchFirst(TotalThenCurrency, s, 87, Span(102, 105));
  }

  lemma TotalText()
    ensures PlaceholderLine4[7..14] == "1000.00" && PlaceholderLine4[15..18] == "USD"
  {
  }

  lemma TotalFound(s: string)
    requires LineAt(s, 0, PlaceholderLine0) && LineAt(s, 30, PlaceholderLine1)
    requires LineAt(s, 48, PlaceholderLine2) && LineAt(s, 70, PlaceholderLine3) && LineAt(s, 87, PlaceholderLine4)
    ensures Find(TotalPattern, s) == Some("1000.00")
  {
    TotalSearch(s);
    SliceInLine(s, 87, PlaceholderLine4, 7, 14);
    TotalText();
    StripIdentity("1000.00");
    FindHit(TotalPattern, s, Hit(87, Span(94, 101)));
  }

  lemma CurrencyFound(s: string)
    requires LineAt(s, 0, PlaceholderLine0) && LineAt(s, 30, PlaceholderLine1)
    requires LineAt(s, 48, PlaceholderLine2) && LineAt(s, 70, PlaceholderLine3) && LineAt(s, 87, PlaceholderLine4)
    ensures Find(TotalThenCurrency, s) == Some("USD")
  {
    CurrencySearch(s);
    SliceInLine(s, 87, PlaceholderLine4, 15, 18);
    TotalText();
    StripIdentity("USD");
    FindHit(TotalThenCurrency, s, Hit(87, Span(102, 105)));
  }

  /** `float("1000.00")`. */
  lemma TotalAmount()
    ensures NumeralText("1000.00") && NumeralValue("1000.00") == 1000.0
  {
    TotalSplit();
    TotalDigits();
    ThousandFrom("1000.00");
  }

  /** A numeral of four digits, a dot and two digits, reading 1000 and 0. */
  lemma ThousandFrom(t: string)
    requires |t| == 7 && DottedAt(t, 4) && IndexOf(t, '.') == 4
    requires DigitsValue(t[..4]) == 1000 && DigitsValue(t[5..]) == 0
    ensures NumeralText(t) && NumeralValue(t) == 1000.0
  {
    assert Pow10(2) == 100;
    assert NumeralValue(t) == DigitsValue(t[..4]) as real + DigitsValue(t[5..]) as real / Pow10(2) as real;
  }

  lemma TotalSplit()
    ensures var t := "1000.00"; DottedAt(t, 4) && IndexOf(t, '.') == 4 && t[..4] == "1000" && t[5..] == "00"
  {
    var t := "1000.00";
    assert t[..4] == "1000" && t[5..] == "00";
    assert t[4] == '.';
  }

  lemma TotalDigits()
    ensures AllIn("1000", Digit) && DigitsValue("1000") == 1000
    ensures AllIn("00", Digit) && DigitsValue("00") == 0
  {
    assert "1000"[..3] == "100" && "100"[..2] == "10" && "10"[..1] == "1" && "1"[..0] == "";
    assert DigitsValue("1") == 1;
    assert DigitsValue("10") == 10;
    assert DigitsValue("100") == 100;
    assert "00"[..1] == "0" && "0"[..0] == "";
    assert DigitsValue("0") == 0;
  }

  // ---------------------------------------------------------------------
  // The whole record

  /** The record the placeholder's lines yield. */
  const PlaceholderFields := Fields(JStr("ACME Corp"), JStr("12345"), JStr("2025-09-24"), JNum(1000.0), JStr("USD"))

  /** Any text holding the placeholder's five lines at their offsets yields
      the placeholder's record. */
  lemma FieldsOfLines(s: string)
    requires LineAt(s, 0, PlaceholderLine0) && LineAt(s, 30, PlaceholderLine1)
    requires LineAt(s, 48, PlaceholderLine2) && LineAt(s, 70, PlaceholderLine3) && LineAt(s, 87, PlaceholderLine4)
    ensures ExtractFields(s) == PlaceholderFields
  {
    VendorFound(s);
    NumberFound(s);
    DateFound(s);
    TotalFound(s);
    CurrencyFound(s);
    TotalAmount();
  }

  /** `_heuristic_extract` on NODE_OCR's placeholder recovers every field
      written in it. */
  lemma ExtractPlaceholder()
    ensures ExtractFields(Placeholder) == PlaceholderFields
    ensures HeuristicExtract(Placeholder) == AsObject(PlaceholderFields)
  {
    PlaceholderLayout();
    FieldsOfLines(Placeholder);
  }
}
