/** `pick_text`, which turns whatever the text-generation service returns
    into a str, and `parse_json_safe`, which turns the EXTRACT stage's text
    into a JSON value, falling back through three tiers. */
module Normalize {
  import opened Wrappers
  import opened JsonValues
  import opened Text

  /** The keys `pick_text` tries, in order, after the preferred one. */
  const FallbackKeys: seq<string> := ["output", "text", "CLEAN_output", "EXTRACT_output"]

  /** The key k is present in m and holds a str. */
  predicate HoldsText(m: map<string, Json>, k: string) {
    k in m && m[k].JStr?
  }

  /** The str under the first key of keys that holds one. */
  function FirstText(m: map<string, Json>, keys: seq<string>): (r: Option<string>)
    ensures r.None? <==> forall i :: 0 <= i < |keys| ==> !HoldsText(m, keys[i])
    ensures r.Some? ==> exists i :: && 0 <= i < |keys| && HoldsText(m, keys[i]) && r.value == m[keys[i]].s
                                    && forall j :: 0 <= j < i ==> !HoldsText(m, keys[j])
    decreases |keys|
  {
    if keys == [] then None
    else if HoldsText(m, keys[0]) then Some(m[keys[0]].s)
    else
      var r := FirstText(m, keys[1..]);
      if r.Some? then
        ghost var i :| 0 <= i < |keys[1..]| && HoldsText(m, keys[1..][i]) && r.value == m[keys[1..][i]].s
          && forall j :: 0 <= j < i ==> !HoldsText(m, keys[1..][j]);
        assert keys[1..][i] == keys[i + 1];
        assert forall j :: 1 <= j < i + 1 ==> keys[j] == keys[1..][j - 1];
        r
      else
        assert forall i :: 1 <= i < |keys| ==> keys[i] == keys[1..][i - 1];
        r
  }

  /** `pick_text(x, prefer_key=preferKey)`. A preferred key counts only when
      it is a non-empty str, as Python's truth test on it demands. */
  function PickText(x: Json, preferKey: Option<string>, host: Host): string {
    match x
    case JStr(s) => s
    case JObj(m) =>
      if preferKey.Some? && preferKey.value != "" && HoldsText(m, preferKey.value) then m[preferKey.value].s
      else
        (match FirstText(m, FallbackKeys)
         case Some(t) => t
         case None => host.dumps(x, false))
    case _ => Str(host, x)
  }

  /** What `pick_text` returns, case by case: a str unchanged; from a dict
      the preferred key's str, else the str under the first fallback key
      holding one, else the dict dumped without ASCII escaping; and `str(x)`
      for anything else. */
  lemma PickTextMeans(x: Json, preferKey: Option<string>, host: Host)
    ensures x.JStr? ==> PickText(x, preferKey, host) == x.s
    ensures x.JObj? && preferKey.Some? && preferKey.value != "" && HoldsText(x.fields, preferKey.value)
      ==> PickText(x, preferKey, host) == x.fields[preferKey.value].s
    ensures x.JObj? && !(preferKey.Some? && preferKey.value != "" && HoldsText(x.fields, preferKey.value)) ==>
      || (exists i :: 0 <= i < |FallbackKeys| && HoldsText(x.fields, FallbackKeys[i])
           && PickText(x, preferKey, host) == x.fields[FallbackKeys[i]].s
           && forall j :: 0 <= j < i ==> !HoldsText(x.fields, FallbackKeys[j]))
      || ((forall i :: 0 <= i < |FallbackKeys| ==> !HoldsText(x.fields, FallbackKeys[i]))
           && PickText(x, preferKey, host) == host.dumps(x, false))
    ensures !x.JStr? && !x.JObj? ==> PickText(x, preferKey, host) == Str(host, x)
  {
  }

  /** The pipeline's two calls: the CLEAN reply's own key beats `output`
      and `text`, and without a preferred key `output` beats `text`. */
  lemma PickTextOrder(m: map<string, Json>, host: Host)
    requires HoldsText(m, "output") && HoldsText(m, "text")
    ensures PickText(JObj(m), None, host) == m["output"].s
    ensures HoldsText(m, "CLEAN_output") ==> PickText(JObj(m), Some("CLEAN_output"), host) == m["CLEAN_output"].s
    ensures !HoldsText(m, "EXTRACT_output") ==> PickText(JObj(m), Some("EXTRACT_output"), host) == m["output"].s
  {
  }

  // ---------------------------------------------------------------------
  // parse_json_safe

  /** `{"__raw__": raw}` */
  function Wrap(raw: Json): (r: Json)
    ensures r.JObj? && r.fields.Keys == {"__raw__"} && r.fields["__raw__"] == raw
  {
    JObj(map["__raw__" := raw])
  }

  /** The span from the first `{` to the last `}` of s, when the first comes
      before the last. */
  function BraceSpan(s: string): (r: Option<(nat, nat)>)
    ensures r.Some? ==> r.value.0 < r.value.1 < |s| && s[r.value.0] == '{' && s[r.value.1] == '}'
    ensures r.Some? ==> r.value.0 == IndexOf(s, '{') && r.value.1 == LastIndexOf(s, '}')
    ensures r.None? <==> IndexOf(s, '{') == -1 || LastIndexOf(s, '}') <= IndexOf(s, '{')
  {
    var st, e := IndexOf(s, '{'), LastIndexOf(s, '}');
    if st != -1 && e != -1 && e > st then Some((st, e)) else None
  }

  /** The second tier: parse the braced span of a str the direct parse
      refused; wrap the str when there is no span or that parse fails too. */
  function ParseBraced(s: string, host: Host): Json {
    match BraceSpan(s)
    case None => Wrap(JStr(s))
    case Some((st, e)) =>
      match host.parse(s[st..e + 1])
      case Some(v) => v
      case None => Wrap(JStr(s))
  }

  /** `parse_json_safe(raw)`. */
  function ParseJsonSafe(raw: Json, host: Host): Json {
    match raw
    case JObj(_) => raw
    case JStr(s) =>
      (match host.parse(s)
       case Some(v) => v
       case None => ParseBraced(s, host))
    case _ => Wrap(raw)
  }

  /** The tiers of `parse_json_safe`, in order. */
  lemma ParseJsonSafeTiers(raw: Json, host: Host)
    ensures raw.JObj? ==> ParseJsonSafe(raw, host) == raw
    ensures !raw.JObj? && !raw.JStr? ==> ParseJsonSafe(raw, host) == Wrap(raw)
    ensures raw.JStr? && host.parse(raw.s).Some? ==> ParseJsonSafe(raw, host) == host.parse(raw.s).value
    ensures raw.JStr? && host.parse(raw.s).None? && BraceSpan(raw.s).Some? ==>
      var span := BraceSpan(raw.s).value;
      ParseJsonSafe(raw, host) ==
        (if host.parse(raw.s[span.0..span.1 + 1]).Some? then host.parse(raw.s[span.0..span.1 + 1]).value else Wrap(raw))
    ensures raw.JStr? && host.parse(raw.s).None? && BraceSpan(raw.s).None? ==> ParseJsonSafe(raw, host) == Wrap(raw)
  {
  }

  /** Whatever `parse_json_safe` returns is an object, unless it is a value
      the parser gave for the whole str or for a slice of it. */
  lemma ParseJsonSafeSource(raw: Json, host: Host)
    ensures var r := ParseJsonSafe(raw, host);
      r.JObj? || (raw.JStr? && exists lo, hi :: 0 <= lo <= hi <= |raw.s| && host.parse(raw.s[lo..hi]) == Some(r))
  {
    var r := ParseJsonSafe(raw, host);
    if raw.JStr? && !r.JObj? {
      var s := raw.s;
      if host.parse(s).Some? {
        assert s[0..|s|] == s;
      } else {
        var span := BraceSpan(s).value;
        assert host.parse(s[span.0..span.1 + 1]) == Some(r);
      }
    }
  }

  /** An object is a fixed point: parsing what `parse_json_safe` returns
      again changes nothing when it returned an object. */
  lemma ParseJsonSafeIdempotent(raw: Json, host: Host)
    ensures ParseJsonSafe(raw, host).JObj? ==> ParseJsonSafe(ParseJsonSafe(raw, host), host) == ParseJsonSafe(raw, host)
  {
  }

  /** `parse_json_safe(json.dumps(d)) == d` for a dict d whose serialised
      text the parser reads back as d. */
  lemma ParseDumped(m: map<string, Json>, host: Host, ensureAscii: bool)
    requires host.parse(host.dumps(JObj(m), ensureAscii)) == Some(JObj(m))
    ensures ParseJsonSafe(JStr(host.dumps(JObj(m), ensureAscii)), host) == JObj(m)
  {
  }

  /** `str.find` finds the first occurrence. */
  lemma IndexOfFirst(s: string, c: char, k: nat)
    requires k < |s| && s[k] == c && forall j :: 0 <= j < k ==> s[j] != c
    ensures IndexOf(s, c) == k
  {
  }

  /** `str.rfind` finds the last occurrence. */
  lemma LastIndexOfLast(s: string, c: char, k: nat)
    requires k < |s| && s[k] == c && forall j :: k < j < |s| ==> s[j] != c
    ensures LastIndexOf(s, c) == k
  {
  }

  /** The span runs from a `{` that no `{` precedes to a `}` that no `}`
      follows. */
  lemma BraceSpanAt(s: string, st: nat, e: nat)
    requires st < e < |s| && s[st] == '{' && s[e] == '}'
    requires forall j :: 0 <= j < st ==> s[j] != '{'
    requires forall j :: e < j < |s| ==> s[j] != '}'
    ensures BraceSpan(s) == Some((st, e))
  {
    IndexOfFirst(s, '{', st);
    LastIndexOfLast(s, '}', e);
  }

  /** A str the parser refuses gives the parse of its braced span if there
      is one, and is wrapped otherwise. */
  lemma ParseBracedAt(s: string, st: nat, e: nat, host: Host)
    requires BraceSpan(s) == Some((st, e)) && host.parse(s).None?
    ensures ParseJsonSafe(JStr(s), host) ==
      (if host.parse(s[st..e + 1]).Some? then host.parse(s[st..e + 1]).value else Wrap(JStr(s)))
  {
  }

  const ProseObject: string := "{\"vendor\":\"X\",\"total\":5}"
  const ProseReply: string := "Sure! " + ProseObject + " thanks"

  lemma ProseLayout()
    ensures |ProseReply| == 37 && ProseReply[6] == '{' && ProseReply[29] == '}'
    ensures forall j :: 0 <= j < 6 ==> ProseReply[j] != '{'
    ensures forall j :: 29 < j < 37 ==> ProseReply[j] != '}'
    ensures ProseReply[6..30] == ProseObject
  {
    assert ProseReply[6..30] == ProseObject;
  }

  /** `Sure! {"vendor":"X","total":5} thanks` gives the inner object when the
      parser refuses the whole str and accepts the object. */
  lemma ParseProseExample(host: Host, obj: Json)
    requires host.parse(ProseReply).None? && host.parse(ProseObject) == Some(obj)
    ensures ParseJsonSafe(JStr(ProseReply), host) == obj
  {
    ProseLayout();
    BraceSpanAt(ProseReply, 6, 29);
    ParseBracedAt(ProseReply, 6, 29, host);
  }
}
