# Invoice text pipeline — a Dafny model

This project models the data-preparation core of an invoice-processing app
(`Dataprep.py`). An uploaded invoice image goes through OCR. The text is
handed to a text-generation service twice: once to CLEAN it, once to EXTRACT
a JSON record (vendor, number, date, total, currency, line items). The reply
is parsed leniently and the record is checked by NODE_VALIDATE. Every stage
has a fallback:

- OCR substitutes a fixed placeholder text;
- CLEAN keeps the OCR text;
- EXTRACT runs a regex-based extractor over the cleaned text;
- parsing wraps text it cannot read as `{"__raw__": raw}`.

The services the code calls into are parameters of the model:

- the OCR engine (construction and `readtext`);
- the text-generation service (`Service`, one call per stage, either failing
  or returning a value);
- the runtime's `json.loads`, `json.dumps`, `str()` and `float()` on str
  (`JsonValues.Host`).

Everything the module itself decides is written out and proved. That covers
the branch structure, the fallbacks, the key order of `pick_text`, the three
tiers of `parse_json_safe`, the six regexes of `_heuristic_extract` with
Python's leftmost, greedy and backtracking `re.search` semantics, and the
ordered validation rules.

Modules, in dependency order:

- `Wrappers`, `JsonValues` (json.dfy): `Option`, the JSON value type, the
  runtime oracles, `str()`, `float()` acceptance and `dict.get`.
- `Text` (text.dfy): `str.isspace`, `strip`, `find`, `rfind`, `join`, and
  ASCII case-insensitive comparison.
- `Patterns`, `PatternFacts` (patterns.dfy): the regexes.
  - In `Patterns`, each regex is both a matcher (`MatchAt`, `Search`,
    `Find`) and a declarative language (`PatMatch`, `ChosenMatch`), with
    lemmas tying the two together.
  - `PatternFacts` holds tools for concrete texts.
- `Ocr` (ocr.dfy): `get_ocr_reader` and `NODE_OCR`. The global
  `_ocr_reader` is a field of the class `OcrAdapter`.
- `Heuristic` (heuristic.dfy): `_heuristic_extract`, its fields and the
  decimal value of `float(total)`.
- `PlaceholderExtract` (placeholder.dfy): what the extractor gives on the
  OCR placeholder text.
- `Normalize` (normalize.dfy): `pick_text` and `parse_json_safe`.
- `Validate` (validate.dfy): NODE_VALIDATE, as a loop proved against the
  function `Issues`.
- `Pipeline` (pipeline.dfy): `run_invoice_pipeline`, as a method that fills
  the outputs map. It is proved against the function `Pipeline`.

The docstring of `run_invoice_pipeline` (Dataprep.py:55) says it returns all
outputs, but the code can raise. `parse_json_safe` returns whatever
`json.loads` gives when the direct parse succeeds, and that need not be a
dict: a list, a number, a str, a bool or null. On any non-dict,
NODE_VALIDATE raises, at line 177 or at line 185:

- a number, a bool or None raises TypeError at line 177, on `k not in data`;
- a list or str that contains one of the four key names raises
  AttributeError at line 177, on `data.get(k)`;
- a list or str that contains none of them passes line 177. `data.get` at
  line 180 fails, the `except` at line 184 catches it, and the f-string at
  line 185 calls `data.get` again, outside any handler.

The model follows the code:

- `Pipeline.Outcome` has a `Raised` case.
- `Pipeline.RaisedIff` says exactly when it happens.
- `Pipeline.RaisesOnList` shows an EXTRACT reply of `[]` reaching it.

## Model

| member | source | states |
|---|---|---|
| Ocr.OcrAdapter.constructor | Dataprep.py:12 | the engine cache starts empty |
| Ocr.OcrAdapter.GetReader | Dataprep.py:14-24 | a cached engine is returned and kept unchanged; without one, building is attempted and its outcome is returned; the engine is cached only when building succeeds, so a failure leaves the cache empty and the next call tries again; at most one engine is ever built |
| Ocr.OcrAdapter.NodeOcr | Dataprep.py:26-49 | returns the single key `ocr_text`, holding `OcrText` of the cache before the call; the cache then holds what `get_ocr_reader` left |
| Ocr.OcrTextMeans | Dataprep.py:26-49 | gives the placeholder when there is no engine or `readtext` raises; otherwise gives the lines joined by newlines, or the placeholder when that text is whitespace only; the result is never whitespace only |
| Ocr.PlaceholderLayout | Dataprep.py:29-35 | the placeholder has 105 characters, made of its five lines at offsets 0, 30, 48, 70 and 87 |
| Ocr.PlaceholderNotBlank | Dataprep.py:29-35 | the placeholder is not whitespace only, so `strip` leaves text |
| Text.Join | Dataprep.py:37 | `"\n".join`: empty for no parts; otherwise its length is the parts' total length plus one separator between each pair, and it starts with the first part |
| Text.StripEmptyIff | Dataprep.py:38 | `not t.strip()` holds exactly when t is whitespace only |
| Text.StripWindow | Dataprep.py:154 | `strip` returns a window of t whose first and last characters are not whitespace, with only whitespace removed on either side |
| Text.StripLine | Dataprep.py:154 | stripping a text without newlines gives one without newlines, and stripping it again changes nothing |
| Text.LitAtMeans | Dataprep.py:153 | a literal occurs at i under IGNORECASE exactly when each character of the window equals the literal's character, ignoring ASCII case |
| Text.IndexOf | Dataprep.py:144 | `find`: -1 exactly when the character is absent; otherwise the first index holding it |
| Text.LastIndexOf | Dataprep.py:144 | `rfind`: -1 exactly when the character is absent; otherwise the last index holding it |
| Patterns.GroupEndSound | Dataprep.py:156-160 | the span the matcher takes for a group is in that group's language (`.+`, `[A-Za-z0-9\-]+`, `[0-9]{4}-[0-9]{2}-[0-9]{2}`, `[A-Za-z]{3}`, `[0-9]+(?:\.[0-9]+)?`) |
| Patterns.GroupEndLongest | Dataprep.py:156-160 | every span of the group's language that starts at p is covered by the greedy span the matcher takes |
| Patterns.NumeralGreedy | Dataprep.py:159 | a numeral from p is covered by the greedy numeral at p, and is that numeral when the next character cannot continue it |
| Patterns.BackoffSound | Dataprep.py:156-160 | after `\s*` gives characters back, the group matches where the backoff stops |
| Patterns.BackoffGreatest | Dataprep.py:156-160 | no span of the group's language starts later than the backoff's choice, or starts at the same place and ends later |
| Patterns.SpacedSound | Dataprep.py:156-160 | `\s*` then the group: the match found is whitespace followed by a span of the group's language |
| Patterns.SpacedGreatest | Dataprep.py:156-160 | any whitespace-then-group match comes no earlier in backtracking order than the one found |
| Patterns.AlternativesSound | Dataprep.py:157-158 | a match of the alternation is a match through one of its alternatives |
| Patterns.AlternativesGreatest | Dataprep.py:157-158 | when no two alternatives can match at the same place, every match through any alternative comes no earlier in backtracking order than the one reported |
| Patterns.DistinguishedApart | Dataprep.py:157-158 | two literals that differ, ignoring case, at a common index cannot both occur at one position |
| Patterns.PatternsUnambiguous | Dataprep.py:156-160 | the alternatives of each of the six patterns exclude each other (`Invoice Number`, `Invoice No.`, `Invoice No`; `Invoice Date`, `Date`) |
| Patterns.CurrencySound | Dataprep.py:160 | a match of `Total:\s*[0-9]+(?:\.[0-9]+)?\s*([A-Za-z]{3})` goes through `Total:`, whitespace, a numeral, whitespace and three letters |
| Patterns.CurrencyMatchUnique | Dataprep.py:160 | every way of matching the currency-after-total pattern at a position yields the same three letters as the greedy path, so no backtracking can find another |
| Patterns.MatchAtSound | Dataprep.py:153 | whatever the matcher reports at a position is a match of the pattern there |
| Patterns.MatchAtGreatest | Dataprep.py:153 | every match at a position comes no earlier in backtracking order than the reported one |
| Patterns.Search | Dataprep.py:153 | `re.search`: the reported position has a match and no earlier position has one; None exactly when no position has a match |
| Patterns.FindMeans | Dataprep.py:152-154 | `find` is None exactly when the pattern matches nowhere; otherwise it is the stripped group of the leftmost match, taking the span backtracking reaches first |
| Patterns.FindInLanguage | Dataprep.py:152-154 | what `find` returns is the stripped text of a span in the group's language |
| Patterns.InLanguageStripped | Dataprep.py:154 | a group other than `(.+)` never holds whitespace, so `strip` leaves it as it is |
| Patterns.FindExact | Dataprep.py:154-160 | for such a group, `find` returns a string in the group's language |
| Patterns.FindLine | Dataprep.py:154-156 | for `(.+)`, `find` returns a stripped text without newlines |
| Patterns.CurrencyLetters | Dataprep.py:160 | the group of the currency-after-total pattern is three ASCII letters |
| Patterns.FindCurrencyAfterTotal | Dataprep.py:160 | `find` with the currency-after-total pattern gives three ASCII letters or None |
| PatternFacts.SearchFirst | Dataprep.py:153 | a match at i, with no match before i, is the hit `re.search` reports |
| Heuristic.NumeralValue | Dataprep.py:162 | `float(total)` of a matched numeral is a non-negative exact decimal |
| Heuristic.NumeralValueScaled | Dataprep.py:162 | the value of a numeral is its digits read without the dot, divided by ten to the number of digits after the dot |
| Heuristic.DigitsAppend | Dataprep.py:162 | the digits of x followed by y have the value of x times ten to the length of y, plus the value of y |
| Heuristic.TotalIsNumeral | Dataprep.py:159 | what `find` reports for `Total:` is a numeral, so `float()` accepts it; the `except` at line 163 cannot be reached |
| Heuristic.HeuristicKeys | Dataprep.py:165-172 | the record has exactly the keys vendor, number, date, total, currency and line_items, each field under its own name, and line_items is the empty list |
| Heuristic.FindReports | Dataprep.py:152-154 | for an unambiguous pattern, `find` is None exactly when the pattern matches nowhere, and otherwise the stripped group of the chosen match |
| Heuristic.HeuristicFields | Dataprep.py:156-158 | vendor, number and date are each null exactly when their pattern matches nowhere; otherwise each is the stripped group of the match `re.search` chooses |
| Heuristic.HeuristicTotal | Dataprep.py:159-163 | the total is null exactly when `Total:` with a numeral matches nowhere; otherwise it is the decimal value of the chosen numeral |
| Heuristic.HeuristicCurrency | Dataprep.py:160 | the currency comes from the three letters after the total's numeral when that pattern matches, else from `Currency:`, and is null exactly when neither matches |
| Heuristic.HeuristicShapes | Dataprep.py:156-163 | each field is null or has its shape: vendor a stripped one-line str; number a non-empty run of `[A-Za-z0-9-]`; date `DDDD-DD-DD`; currency three letters; total a non-negative number |
| Heuristic.FindShapes | Dataprep.py:156-160 | each pattern's `find` result has its group's shape |
| PlaceholderExtract.VendorFound | Dataprep.py:156 | on the placeholder, the vendor pattern finds `ACME Corp` |
| PlaceholderExtract.NumberFound | Dataprep.py:157 | on the placeholder, the number pattern finds `12345` |
| PlaceholderExtract.DateFound | Dataprep.py:158 | on the placeholder, the date pattern finds `2025-09-24` |
| PlaceholderExtract.TotalFound | Dataprep.py:159 | on the placeholder, the total pattern finds `1000.00` |
| PlaceholderExtract.CurrencyFound | Dataprep.py:160 | on the placeholder, the currency-after-total pattern finds `USD` |
| PlaceholderExtract.TotalAmount | Dataprep.py:162 | `float("1000.00")` is 1000 |
| PlaceholderExtract.ExtractPlaceholder | Dataprep.py:29-35 | `_heuristic_extract` of the OCR placeholder is `ACME Corp`, `12345`, `2025-09-24`, 1000.0, `USD` with no line items |
| Normalize.FirstText | Dataprep.py:128-130 | None exactly when no fallback key holds a str; otherwise the str under the first key that holds one |
| Normalize.PickTextMeans | Dataprep.py:122-132 | `pick_text`, case by case: a str is returned unchanged; for a dict, the preferred key's str when that key is non-empty and holds a str; else the str under the first of output, text, CLEAN_output and EXTRACT_output holding one; else the dict dumped without ASCII escaping; `str(x)` for anything else |
| Normalize.PickTextOrder | Dataprep.py:126-130 | the preferred key beats `output` and `text`; with no preferred key, or a preferred key that does not hold a str, `output` beats `text` |
| Normalize.Wrap | Dataprep.py:138 | `{"__raw__": raw}` has the single key `__raw__`, holding raw |
| Normalize.BraceSpan | Dataprep.py:144-145 | the span from the first `{` to the last `}`; None exactly when there is no `{` or the last `}` is not after it |
| Normalize.ParseJsonSafeTiers | Dataprep.py:134-149 | a dict is returned as it is; any other non-str is wrapped; a str that parses gives its parse; a str that does not parse gives the parse of its braced span when there is one and it parses, and is wrapped otherwise |
| Normalize.ParseJsonSafeSource | Dataprep.py:134-149 | the result is a dict, or else the parser's value for the whole str or for a slice of it |
| Normalize.ParseJsonSafeIdempotent | Dataprep.py:135-136 | when the result is a dict, applying `parse_json_safe` to it again changes nothing |
| Normalize.ParseDumped | Dataprep.py:110 | when the parser reads the serialised text of the dict d back as d, `parse_json_safe(json.dumps(d))` is d |
| Normalize.BraceSpanAt | Dataprep.py:144-145 | a `{` with no `{` before it and a later `}` with no `}` after it are the span |
| Normalize.ParseBracedAt | Dataprep.py:143-149 | a str the parser refuses gives the parse of its braced span when that parses, and is wrapped otherwise |
| Normalize.ParseProseExample | Dataprep.py:143-146 | `Sure! {"vendor":"X","total":5} thanks` gives the inner object when the parser refuses the whole str and accepts the object |
| JsonValues.Str | Dataprep.py:185 | `str()` of a str is the str itself, and of None is `None` |
| JsonValues.Get | Dataprep.py:177 | `dict.get` gives the value under the key, or None when the key is absent |
| Validate.KeyIssues | Dataprep.py:176-178 | at most one issue per required key |
| Validate.NodeValidate | Dataprep.py:174-188 | the loop and the checks after it produce exactly `Issues` of the record; valid exactly when there are no issues |
| Validate.Report | Dataprep.py:188 | the report has exactly the keys valid and issues; valid is true exactly when the list is empty; issues lists the messages in order |
| Validate.KeyIssuesMeans | Dataprep.py:176-178 | `missing key: k` is reported exactly for the keys checked that are absent, None or `""`, and every key issue has that form |
| Validate.KeyIssuesNone | Dataprep.py:176-178 | when no checked key is missing there is no key issue |
| Validate.MessageInjective | Dataprep.py:178 | two `missing key:` messages are equal exactly when they name the same key |
| Validate.KeyIssuesOrdered | Dataprep.py:176-178 | of two missing keys, the one checked first is reported first |
| Validate.IssuesShape | Dataprep.py:174-188 | each rule adds at most one issue, so there are at most six; the key issues come first and the line_items issue last |
| Validate.MissingKeyIff | Dataprep.py:176-178 | for each required key, `missing key: k` is an issue exactly when k is absent, None or `""` |
| Validate.TotalNullIff | Dataprep.py:180-181 | `total is null` is an issue exactly when total is absent or None |
| Validate.TotalNotNumericIff | Dataprep.py:182-185 | `total not numeric: <str(total)>` is an issue exactly when total is present, not None, and not accepted by `float()` |
| Validate.LineItemsIff | Dataprep.py:186-187 | `line_items not a list` is an issue exactly when line_items is present and not a list; an absent line_items counts as the empty list |
| Validate.ValidIff | Dataprep.py:174-188 | a record has no issues exactly when every required key holds a value, the total is present and accepted by `float()`, and line_items, if present, is a list |
| Pipeline.CleanStage | Dataprep.py:61-85 | the CLEAN stage produces `CleanText` and `CleanRaw` |
| Pipeline.ExtractStage | Dataprep.py:87-111 | the EXTRACT stage produces `RawJson` and `ExtractRaw` |
| Pipeline.RunInvoicePipeline | Dataprep.py:54-117 | filling the outputs dict stage by stage gives `Pipeline`: the five outputs, or a raise from NODE_VALIDATE |
| Pipeline.AsMapKeys | Dataprep.py:80-115 | the outputs dict has exactly the keys clean_text, CLEAN_raw, raw_json, EXTRACT_raw and validate, each holding its stage's output |
| Pipeline.PipelineKeys | Dataprep.py:59-117 | a run that returns has exactly those five outputs |
| Pipeline.RaisedIff | Dataprep.py:113-115 | the run raises exactly when `parse_json_safe(raw_json)` is not a dict |
| Pipeline.CleanFallback | Dataprep.py:76-85 | a failed CLEAN call leaves clean_text as the OCR text, with CLEAN_raw `{"fallback": True}`; otherwise clean_text is the reply's text, or the OCR text when that text is whitespace only, and CLEAN_raw is the reply |
| Pipeline.CleanNeverBlank | Dataprep.py:76-85 | when the OCR text is not blank, neither is the text handed to EXTRACT |
| Pipeline.ExtractFallback | Dataprep.py:104-111 | a failed EXTRACT call gives `raw_json` = `json.dumps` of the heuristic record, with EXTRACT_raw `{"fallback": True}`; otherwise `raw_json` is the reply's text, and EXTRACT_raw is the reply |
| Pipeline.ValidateRecorded | Dataprep.py:113-115 | a run that returns records NODE_VALIDATE's report on the parsed `raw_json`, and its valid flag is whether that list is empty |
| Pipeline.HeuristicPathCompletes | Dataprep.py:108-115 | when EXTRACT fails and the parser reads the serialised heuristic record back as that record, the run returns and validates the heuristic record |
| Pipeline.HeuristicIssues | Dataprep.py:165-188 | the heuristic record never draws the line_items issue; it passes exactly when vendor, number, date and currency are present and a total was found |
| Pipeline.HeuristicValidIff | Dataprep.py:151-188 | for any text, the heuristic record passes exactly when the vendor is found and not blank, and number, date, currency and total are all found |
| Pipeline.PlaceholderValid | Dataprep.py:165-188 | the record extracted from the placeholder passes validation |
| Pipeline.PlaceholderDegradesGracefully | Dataprep.py:43-115 | with the service failing at both stages and the parser reading the serialised placeholder record back as that record, the placeholder text runs through to a record reported valid with no issues |
| Pipeline.RaisesOnList | Dataprep.py:113-115 | an EXTRACT reply of `[]` that parses to a list makes the run raise |

## Left out

- The EasyOCR engine, the LangGraph text-generation service (graph
  construction, prompts, entry and finish points) and the runtime's
  `json.loads`, `json.dumps`, `str()` of numbers and containers, and `float()`
  on str are oracles (`EngineHandle`/`ReadText`, `Service`, `Host`). Their
  internals are not modelled.
- Building a stage's graph and running it are one service call. Either one
  raising is that stage's failure, which is the only thing the code
  distinguishes.
- Floating point: numbers are exact decimals. `float("1000.00")` is 1000
  exactly, and no binary rounding is modelled. There is no int/float
  distinction either.
- Validate.TotalNotNumericIff: an int total too large for a float (about
  1.8e308 and above) is taken as numeric. Python's `float()` raises
  OverflowError on it, and the total is then reported not numeric.
- Validate.ValidIff: for the same reason, a record whose total is such an
  int counts as valid here, where the source reports it not numeric.
- Key order in dicts and the byte layout of JSON text are not modelled. A
  dict is a map, and `json.dumps` is an oracle. No lemma assumes that the
  parser inverts it everywhere. `Normalize.ParseDumped`,
  `Pipeline.HeuristicPathCompletes` and
  `Pipeline.PlaceholderDegradesGracefully` each assume that one record, the
  one they serialise, is read back unchanged.
  `Pipeline.PlaceholderHypothesisMet` shows a host that meets that
  hypothesis.
- `json.dumps` raising on a value it cannot serialise, inside `pick_text` or
  at Dataprep.py:110, is not modelled. A JSON value is always serialisable.
- IGNORECASE is modelled as ASCII case folding. Python's IGNORECASE on str
  patterns folds Unicode, and four non-ASCII characters then match the
  patterns' ASCII letters:
  - U+0130 'İ' and U+0131 'ı' match the literal `i` (as in `Invoice`) and
    the classes `[A-Za-z]` and `[A-Za-z0-9\-]`;
  - U+017F 'ſ' and U+212A KELVIN SIGN match those two classes.

  So a text such as `Total: 5 \u212aRW` yields a currency with a
  non-ASCII letter in Python, and the model misses those matches.
- Patterns.CurrencyLetters, Patterns.FindCurrencyAfterTotal,
  Heuristic.HeuristicShapes and Text.LitAtMeans: the shapes they state
  (ASCII letters, `[A-Za-z0-9-]` runs, ASCII case-insensitive equality)
  hold for ASCII case folding. Under Python's Unicode folding, a currency
  or an invoice number can also contain the four characters above.
- `warnings.warn` diagnostics are left out (no observable result).
- The unguarded `from euriai.langgraph import EuriaiLangGraph` at
  Dataprep.py:57 can raise before any stage runs. The model assumes the
  import succeeds.
- The module-level imports of `Fileload` and `config` (Dataprep.py:6-7),
  and so `EURI_API_KEY` and `MODEL`, are not part of this model.
- The `except` at Dataprep.py:163 is unreachable: `Heuristic.TotalIsNumeral`
  shows the matched total is always a numeral that `float()` accepts.
- Concurrency: the source has no guard on `_ocr_reader`, and the model is
  sequential.
- The placeholder text appears twice in the source (lines 29-35 and 43-49)
  with the same value. It is one constant here, written as the concatenation
  of its five lines.
- Ocr.OcrAdapter.GetReader: the ghost counter `constructions` and the
  predicate `Valid` say that at most one engine is ever built. Neither
  exists in the source; they state the caching promise.
- Ocr.OcrAdapter.NodeOcr: does not record that `readtext` is called with
  `detail=0`. Only the recognised strings are modelled.
- Validate.NodeValidate: requires a dict. On any other value the source
  raises, at Dataprep.py:177 or at line 185 outside the handler, and the
  pipeline model reports that as `Raised` instead. Which exception it is
  (TypeError or AttributeError) is not modelled.
