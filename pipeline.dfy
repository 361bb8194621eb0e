/** `run_invoice_pipeline`: CLEAN, then EXTRACT, each a call to the
    text-generation service with its own fallback, then `parse_json_safe`
    and NODE_VALIDATE, with every result recorded in an outputs dict. */
module Pipeline {
  import opened Wrappers
  import opened JsonValues
  import opened Text
  import opened Ocr
  import opened Heuristic
  import opened PlaceholderExtract
  import opened Normalize
  import opened Validate

  datatype Stage = Clean | Extract

  /** What a call to the text-generation service gives: it raises, or it
      returns some value (a str, a dict or anything else). */
  datatype Reply = Failed | Returned(value: Json)

  /** The service, given the stage and that stage's input text. Building
      the graph and running it are one call: either step raising is a
      failure of the stage. */
  type Service = (Stage, string) -> Reply

  /** The pipeline returns its outputs, or raises: NODE_VALIDATE raises on
      anything that is not a dict. */
  datatype Outcome = Completed(outputs: map<string, Json>) | Raised

  /** `{"fallback": True}`, the raw reply recorded for a failed stage. */
  const FallbackMarker: Json := JObj(map["fallback" := JBool(true)])

  const OutputKeys: set<string> := {"clean_text", "CLEAN_raw", "raw_json", "EXTRACT_raw", "validate"}

  /** The five outputs, one field each. */
  datatype Outputs = Outputs(cleanText: string, cleanRaw: Json, rawJson: string, extractRaw: Json, validate: Json)

  function AsMap(o: Outputs): map<string, Json> {
    map[
      "clean_text" := JStr(o.cleanText),
      "CLEAN_raw" := o.cleanRaw,
      "raw_json" := JStr(o.rawJson),
      "EXTRACT_raw" := o.extractRaw,
      "validate" := o.validate]
  }

  /** The outputs dict has exactly its five keys, each holding its output. */
  lemma AsMapKeys(o: Outputs)
    ensures AsMap(o).Keys == OutputKeys
    ensures var r := AsMap(o);
      && r["clean_text"] == JStr(o.cleanText) && r["CLEAN_raw"] == o.cleanRaw
      && r["raw_json"] == JStr(o.rawJson) && r["EXTRACT_raw"] == o.extractRaw && r["validate"] == o.validate
  {
  }

  // ---------------------------------------------------------------------
  // The stages

  /** `clean_text`: the CLEAN reply's text, unless the call failed or the
      text is blank, when it is the OCR text. */
  function CleanText(ocrText: string, service: Service, host: Host): string {
    match service(Clean, ocrText)
    case Failed => ocrText
    case Returned(v) =>
      var t := PickText(v, Some("CLEAN_output"), host);
      if Strip(t) == [] then ocrText else t
  }

  function CleanRaw(ocrText: string, service: Service): Json {
    match service(Clean, ocrText)
    case Failed => FallbackMarker
    case Returned(v) => v
  }

  /** `raw_json`: the EXTRACT reply's text, or when the call fails the
      heuristic record serialised by `json.dumps` (which escapes non-ASCII). */
  function RawJson(cleanText: string, service: Service, host: Host): string {
    match service(Extract, cleanText)
    case Failed => host.dumps(JObj(HeuristicExtract(cleanText)), true)
    case Returned(v) => PickText(v, Some("EXTRACT_output"), host)
  }

  function ExtractRaw(cleanText: string, service: Service): Json {
    match service(Extract, cleanText)
    case Failed => FallbackMarker
    case Returned(v) => v
  }

  /** The record NODE_VALIDATE is given. */
  function Data(ocrText: string, service: Service, host: Host): Json {
    ParseJsonSafe(JStr(RawJson(CleanText(ocrText, service, host), service, host)), host)
  }

  /** The outputs of a run that does not raise, None when it raises. */
  function Run(ocrText: string, service: Service, host: Host): Option<Outputs> {
    var clean := CleanText(ocrText, service, host);
    var data := Data(ocrText, service, host);
    if !data.JObj? then None
    else
      Some(Outputs(clean, CleanRaw(ocrText, service), RawJson(clean, service, host),
                   ExtractRaw(clean, service), Report(Issues(data.fields, host))))
  }

  function Pipeline(ocrText: string, service: Service, host: Host): Outcome {
    match Run(ocrText, service, host)
    case None => Raised
    case Some(o) => Completed(AsMap(o))
  }

  /** The CLEAN stage: the service's reply, kept unless the call fails or
      its text is blank. */
  method CleanStage(ocrText: string, service: Service, host: Host) returns (cleanText: string, cleanRaw: Json)
    ensures cleanText == CleanText(ocrText, service, host)
    ensures cleanRaw == CleanRaw(ocrText, service)
  {
    var reply := service(Clean, ocrText);
    if reply.Returned? {
      cleanText := PickText(reply.value, Some("CLEAN_output"), host);
      if Strip(cleanText) == [] {
        cleanText := ocrText;
      }
      cleanRaw := reply.value;
    } else {
      cleanText, cleanRaw := ocrText, FallbackMarker;
    }
  }

  /** The EXTRACT stage: the service's reply as text, or the heuristic
      record serialised when the call fails. */
  method ExtractStage(cleanText: string, service: Service, host: Host) returns (rawJson: string, extractRaw: Json)
    ensures rawJson == RawJson(cleanText, service, host)
    ensures extractRaw == ExtractRaw(cleanText, service)
  {
    var reply := service(Extract, cleanText);
    if reply.Returned? {
      rawJson := PickText(reply.value, Some("EXTRACT_output"), host);
      extractRaw := reply.value;
    } else {
      rawJson := host.dumps(JObj(HeuristicExtract(cleanText)), true);
      extractRaw := FallbackMarker;
    }
  }

  /** `run_invoice_pipeline(ocr_text)`, filling the outputs dict stage by
      stage. */
  method RunInvoicePipeline(ocrText: string, service: Service, host: Host) returns (result: Outcome)
    ensures result == Pipeline(ocrText, service, host)
  {
    var outputs: map<string, Json> := map[];
    var cleanText, cleanRaw := CleanStage(ocrText, service, host);
    outputs := outputs["clean_text" := JStr(cleanText)]["CLEAN_raw" := cleanRaw];
    var rawJson, extractRaw := ExtractStage(cleanText, service, host);
    outputs := outputs["raw_json" := JStr(rawJson)]["EXTRACT_raw" := extractRaw];
    var data := ParseJsonSafe(outputs["raw_json"], host);
    if !data.JObj? {
      return Raised;
    }
    var valid, issues := NodeValidate(data, host);
    outputs := outputs["validate" := Report(issues)];
    assert outputs == AsMap(Outputs(cleanText, cleanRaw, rawJson, extractRaw, Report(issues)));
    return Completed(outputs);
  }

  // ---------------------------------------------------------------------
  // What the pipeline promises

  /** A run that completes records exactly the five outputs. */
  lemma PipelineKeys(ocrText: string, service: Service, host: Host)
    ensures Pipeline(ocrText, service, host).Completed? ==> Pipeline(ocrText, service, host).outputs.Keys == OutputKeys
  {
    if Run(ocrText, service, host).Some? {
      AsMapKeys(Run(ocrText, service, host).value);
    }
  }

  /** The run raises exactly when `parse_json_safe` does not give a dict. */
  lemma RaisedIff(ocrText: string, service: Service, host: Host)
    ensures Pipeline(ocrText, service, host) == Raised <==> !Data(ocrText, service, host).JObj?
  {
  }

  /** CLEAN: a failed call, or a reply whose text is whitespace only, leaves
      the OCR text; otherwise the reply's text is kept. The raw reply is
      recorded, or the fallback marker when the call fails. */
  lemma CleanFallback(ocrText: string, service: Service, host: Host)
    ensures service(Clean, ocrText).Failed? ==>
      CleanText(ocrText, service, host) == ocrText && CleanRaw(ocrText, service) == FallbackMarker
    ensures service(Clean, ocrText).Returned? ==>
      var t := PickText(service(Clean, ocrText).value, Some("CLEAN_output"), host);
      && CleanText(ocrText, service, host) == (if AllSpace(t) then ocrText else t)
      && CleanRaw(ocrText, service) == service(Clean, ocrText).value
  {
    if service(Clean, ocrText).Returned? {
      StripEmptyIff(PickText(service(Clean, ocrText).value, Some("CLEAN_output"), host));
    }
  }

  /** The text handed to EXTRACT is never blank when the OCR text is not,
      and NODE_OCR's text never is. */
  lemma CleanNeverBlank(ocrText: string, service: Service, host: Host)
    requires !AllSpace(ocrText)
    ensures !AllSpace(CleanText(ocrText, service, host))
  {
    CleanFallback(ocrText, service, host);
  }

  /** EXTRACT: a failed call gives the heuristic record, serialised, and the
      fallback marker; otherwise the reply's text and the reply. */
  lemma ExtractFallback(cleanText: string, service: Service, host: Host)
    ensures service(Extract, cleanText).Failed? ==>
      RawJson(cleanText, service, host) == host.dumps(JObj(HeuristicExtract(cleanText)), true)
      && ExtractRaw(cleanText, service) == FallbackMarker
    ensures service(Extract, cleanText).Returned? ==>
      RawJson(cleanText, service, host) == PickText(service(Extract, cleanText).value, Some("EXTRACT_output"), host)
      && ExtractRaw(cleanText, service) == service(Extract, cleanText).value
  {
  }

  /** A run that completes reports NODE_VALIDATE's verdict on the parsed
      `raw_json`. */
  lemma ValidateRecorded(ocrText: string, service: Service, host: Host)
    ensures Run(ocrText, service, host).Some? ==>
      var o := Run(ocrText, service, host).value;
      && Data(ocrText, service, host).JObj?
      && o.validate == Report(Issues(Data(ocrText, service, host).fields, host))
      && o.validate.fields["valid"] == JBool(Issues(Data(ocrText, service, host).fields, host) == [])
  {
  }

  /** When EXTRACT fails and the parser reads the serialised heuristic record
      back as that record, the run completes and validates it. */
  lemma HeuristicPathCompletes(ocrText: string, service: Service, host: Host)
    requires var d := HeuristicExtract(CleanText(ocrText, service, host));
      host.parse(host.dumps(JObj(d), true)) == Some(JObj(d))
    requires service(Extract, CleanText(ocrText, service, host)).Failed?
    ensures Run(ocrText, service, host).Some?
    ensures Run(ocrText, service, host).value.validate
      == Report(Issues(HeuristicExtract(CleanText(ocrText, service, host)), host))
  {
    ParseDumped(HeuristicExtract(CleanText(ocrText, service, host)), host, true);
  }

  // ---------------------------------------------------------------------
  // The heuristic record before the validator

  /** A str field of the heuristic record passes the key rule exactly when
      its pattern matched and the stripped group is not empty. */
  predicate Present(v: Json) {
    v != JNull && v != JStr("")
  }

  /** The heuristic record is never reported for its line items, and it
      passes exactly when vendor, number, date and currency are present and
      a total was found. */
  lemma HeuristicIssues(f: Fields, host: Host)
    requires f.total == JNull || f.total.JNum?
    ensures LineItemsNotList !in Issues(AsObject(f), host)
    ensures Issues(AsObject(f), host) == [] <==>
      Present(f.vendor) && Present(f.number) && Present(f.date) && Present(f.currency) && f.total != JNull
  {
    var m := AsObject(f);
    HeuristicKeys(f);
    LineItemsIff(m, host);
    ValidIff(m, host);
    assert WellFormed(m, host) <==>
      Present(f.vendor) && Present(f.number) && Present(f.date) && Present(f.currency) && f.total != JNull
    by {
      assert RequiredKeys == ["vendor", "number", "date", "currency"];
      assert MissingKey(m, "vendor") <==> !Present(f.vendor);
      assert MissingKey(m, "number") <==> !Present(f.number);
      assert MissingKey(m, "date") <==> !Present(f.date);
      assert MissingKey(m, "currency") <==> !Present(f.currency);
      assert Get(m, "total") == f.total;
    }
  }

  /** Whatever the text, its heuristic record passes validation exactly when
      the vendor is found and not blank and the number, date, currency and
      total are all found. */
  lemma HeuristicValidIff(s: string, host: Host)
    ensures var f := ExtractFields(s);
      Issues(HeuristicExtract(s), host) == [] <==>
        Present(f.vendor) && f.number != JNull && f.date != JNull && f.currency != JNull && f.total != JNull
  {
    HeuristicShapes(s);
    HeuristicIssues(ExtractFields(s), host);
  }

  /** The placeholder's record passes validation. */
  lemma PlaceholderValid(host: Host)
    ensures Issues(AsObject(PlaceholderFields), host) == []
  {
    HeuristicIssues(PlaceholderFields, host);
  }

  /** With the service failing at both stages and the parser reading the
      serialised placeholder record back as that record, the placeholder text
      runs through to a valid record. */
  lemma PlaceholderDegradesGracefully(service: Service, host: Host)
    requires var d := AsObject(PlaceholderFields);
      host.parse(host.dumps(JObj(d), true)) == Some(JObj(d))
    requires service(Clean, Placeholder).Failed? && service(Extract, Placeholder).Failed?
    ensures Pipeline(Placeholder, service, host).Completed?
    ensures Run(Placeholder, service, host).value.validate == Report([])
  {
    CleanFallback(Placeholder, service, host);
    ExtractPlaceholder();
    HeuristicPathCompletes(Placeholder, service, host);
    PlaceholderValid(host);
  }

  /** The hypothesis of `PlaceholderDegradesGracefully` is one a host can
      meet: it asks for the round trip of a single record only. */
  lemma PlaceholderHypothesisMet()
    ensures exists host: Host :: var d := AsObject(PlaceholderFields);
      host.parse(host.dumps(JObj(d), true)) == Some(JObj(d))
  {
    var d := AsObject(PlaceholderFields);
    var host := Host(s => Some(JObj(d)), (v, a) => "{}", v => "", s => true);
    assert host.parse(host.dumps(JObj(d), true)) == Some(JObj(d));
  }

  /** The run does raise: an EXTRACT reply that parses to a list reaches
      NODE_VALIDATE as a list. */
  lemma RaisesOnList(ocrText: string, service: Service, host: Host)
    requires service(Extract, CleanText(ocrText, service, host)) == Returned(JStr("[]"))
    requires host.parse("[]") == Some(JArr([]))
    ensures Pipeline(ocrText, service, host) == Raised
  {
  }
}
