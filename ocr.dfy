/** NODE_OCR and its lazily built, cached OCR engine. The engine itself
    (EasyOCR) is outside the model: constructing it is an attempt that
    either yields a handle or raises, and reading an image with it is a
    function from handle and path to the recognised lines, or to None when
    it raises. */
module Ocr {
  import opened Wrappers
  import opened Text

  /** The text NODE_OCR returns whenever real OCR is unavailable or fails,
      one constant per line. */
  const PlaceholderLine0: string := "Mock OCR text for testing UI.\n"
  const PlaceholderLine1: string := "Vendor: ACME Corp\n"
  const PlaceholderLine2: string := "Invoice Number: 12345\n"
  const PlaceholderLine3: string := "Date: 2025-09-24\n"
  const PlaceholderLine4: string := "Total: 1000.00 USD"
  const Placeholder: string :=
    PlaceholderLine0 + PlaceholderLine1 + PlaceholderLine2 + PlaceholderLine3 + PlaceholderLine4

  /** An engine instance (an `easyocr.Reader`); its identity is all the
      model needs. */
  datatype EngineHandle = EngineHandle(id: nat)

  /** What `ocr.readtext(path, detail=0)` gives: the recognised lines, or
      None when it raises. */
  type ReadText = (EngineHandle, string) -> Option<seq<string>>

  /** The reader NODE_OCR works with on a call, given the cached one and
      what constructing a new one would give. */
  function ReaderFor(cached: Option<EngineHandle>, attempt: Option<EngineHandle>): Option<EngineHandle> {
    if cached.Some? then cached else attempt
  }

  /** The `ocr_text` NODE_OCR returns. */
  function OcrText(cached: Option<EngineHandle>, attempt: Option<EngineHandle>, readText: ReadText, path: string): string {
    match ReaderFor(cached, attempt)
    case None => Placeholder
    case Some(engine) =>
      match readText(engine, path)
      case None => Placeholder
      case Some(lines) =>
        var text := Join(lines, "\n");
        if Strip(text) == [] then Placeholder else text
  }

  /** The module-level `_ocr_reader` and the two functions that use it. */
  class OcrAdapter {
    var reader: Option<EngineHandle>
    /** How many engines have been built so far. */
    ghost var constructions: nat

    /** The cache holds an engine exactly when one has been built, and at
        most one ever is. */
    ghost predicate Valid()
      reads this
    {
      constructions <= 1 && (reader.Some? <==> constructions == 1)
    }

    constructor ()
      ensures Valid() && reader == None && constructions == 0
    {
      reader := None;
      constructions := 0;
    }

    /** `get_ocr_reader()`: the cached engine if there is one; otherwise the
        outcome of building one, kept when it succeeds. */
    method GetReader(attempt: Option<EngineHandle>) returns (r: Option<EngineHandle>)
      requires Valid()
      modifies this
      ensures Valid()
      ensures r == ReaderFor(old(reader), attempt) && reader == r
      ensures old(reader).Some? ==> reader == old(reader) && constructions == old(constructions)
      ensures old(reader).None? && attempt.None? ==> reader.None? && constructions == old(constructions)
    {
      if reader.Some? {
        return reader;
      }
      if attempt.Some? {
        reader := attempt;
        constructions := constructions + 1;
        return reader;
      }
      return None;
    }

    /** `NODE_OCR(file_path)`: the recognised lines joined by newlines, or
        the placeholder when there is no engine, reading raises, or the
        text is blank. */
    method NodeOcr(filePath: string, attempt: Option<EngineHandle>, readText: ReadText)
      returns (out: map<string, string>)
      requires Valid()
      modifies this
      ensures Valid()
      ensures out == map["ocr_text" := OcrText(old(reader), attempt, readText, filePath)]
      ensures reader == ReaderFor(old(reader), attempt)
      ensures old(reader).Some? ==> constructions == old(constructions)
    {
      var engine := GetReader(attempt);
      if engine.None? {
        return map["ocr_text" := Placeholder];
      }
      var lines := readText(engine.value, filePath);
      if lines.None? {
        return map["ocr_text" := Placeholder];
      }
      var text := Join(lines.value, "\n");
      if Strip(text) == [] {
        return map["ocr_text" := Placeholder];
      }
      return map["ocr_text" := text];
    }
  }

  lemma PlaceholderLayout()
    ensures |Placeholder| == 105
    ensures LineAt(Placeholder, 0, PlaceholderLine0) && LineAt(Placeholder, 30, PlaceholderLine1)
    ensures LineAt(Placeholder, 48, PlaceholderLine2) && LineAt(Placeholder, 70, PlaceholderLine3)
    ensures LineAt(Placeholder, 87, PlaceholderLine4)
  {
    var a := PlaceholderLine0 + PlaceholderLine1;
    var b := a + PlaceholderLine2;
    var c := b + PlaceholderLine3;
    assert LineAt(a, 0, PlaceholderLine0) && LineAt(a, 30, PlaceholderLine1);
    assert LineAt(b, 0, a) && LineAt(b, 48, PlaceholderLine2);
    assert LineAt(c, 0, b) && LineAt(c, 70, PlaceholderLine3);
    assert LineAt(Placeholder, 0, c) && LineAt(Placeholder, 87, PlaceholderLine4);
  }

  /** The placeholder is not blank. */
  lemma PlaceholderNotBlank()
    ensures !AllSpace(Placeholder) && Strip(Placeholder) != []
  {
    PlaceholderLayout();
    assert Placeholder[0] == PlaceholderLine0[0] == 'M';
    StripEmptyIff(Placeholder);
  }

  /** Whatever happens, NODE_OCR's text is never blank, and it is the
      recognised text exactly when an engine is at hand, reading succeeds
      and its text is not blank. */
  lemma OcrTextMeans(cached: Option<EngineHandle>, attempt: Option<EngineHandle>, readText: ReadText, path: string)
    ensures !AllSpace(OcrText(cached, attempt, readText, path))
    ensures ReaderFor(cached, attempt).None? ==> OcrText(cached, attempt, readText, path) == Placeholder
    ensures ReaderFor(cached, attempt).Some? && readText(ReaderFor(cached, attempt).value, path).None?
      ==> OcrText(cached, attempt, readText, path) == Placeholder
    ensures ReaderFor(cached, attempt).Some? && readText(ReaderFor(cached, attempt).value, path).Some?
      ==> var text := Join(readText(ReaderFor(cached, attempt).value, path).value, "\n");
          OcrText(cached, attempt, readText, path) == (if AllSpace(text) then Placeholder else text)
  {
    PlaceholderNotBlank();
    var engine := ReaderFor(cached, attempt);
    if engine.Some? && readText(engine.value, path).Some? {
      var text := Join(readText(engine.value, path).value, "\n");
      StripEmptyIff(text);
    }
  }
}
