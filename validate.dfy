/** NODE_VALIDATE: the ordered list of issues with an invoice record, and
    whether there are none. */
module Validate {
  import opened Wrappers
  import opened JsonValues

  /** The keys that must hold a non-empty value, in the order they are checked. */
  const RequiredKeys: seq<string> := ["vendor", "number", "date", "currency"]

  /** `k not in data or data.get(k) in (None, "")` */
  predicate MissingKey(m: map<string, Json>, k: string) {
    k !in m || m[k] == JNull || m[k] == JStr("")
  }

  function MissingMessage(k: string): string {
    "missing key: " + k
  }

  /** One issue per key of keys that is missing, in the order of keys. */
  function KeyIssues(m: map<string, Json>, keys: seq<string>): (r: seq<string>)
    ensures |r| <= |keys|
    decreases |keys|
  {
    if keys == [] then []
    else
      var k := keys[|keys| - 1];
      KeyIssues(m, keys[..|keys| - 1]) + (if MissingKey(m, k) then [MissingMessage(k)] else [])
  }

  const TotalNull: string := "total is null"
  const NotNumericPrefix: string := "total not numeric: "
  const LineItemsNotList: string := "line_items not a list"

  /** The total rule: null, or present but not convertible by `float()`. */
  function TotalIssues(m: map<string, Json>, host: Host): seq<string> {
    var t := Get(m, "total");
    if t == JNull then [TotalNull]
    else if FloatCoercible(host, t) then []
    else [NotNumericPrefix + Str(host, t)]
  }

  /** `data.get("line_items", [])` is not a list. An absent key reads as
      the empty list, a key holding None does not. */
  function LineItemsIssues(m: map<string, Json>): seq<string> {
    var items := if "line_items" in m then m["line_items"] else JArr([]);
    if items.JArr? then [] else [LineItemsNotList]
  }

  /** The issues NODE_VALIDATE reports, in the order its rules run. */
  function Issues(m: map<string, Json>, host: Host): seq<string> {
    KeyIssues(m, RequiredKeys) + TotalIssues(m, host) + LineItemsIssues(m)
  }

  /** `NODE_VALIDATE(data)` on a dict. Any other value makes the source
      raise (`data.get` does not exist), which the pipeline model reports
      separately. */
  method NodeValidate(data: Json, host: Host) returns (valid: bool, issues: seq<string>)
    requires data.JObj?
    ensures issues == Issues(data.fields, host)
    ensures valid <==> issues == []
  {
    var m := data.fields;
    issues := [];
    var i := 0;
    while i < |RequiredKeys|
      invariant 0 <= i <= |RequiredKeys|
      invariant issues == KeyIssues(m, RequiredKeys[..i])
    {
      var k := RequiredKeys[i];
      assert RequiredKeys[..i + 1][..i] == RequiredKeys[..i];
      if k !in m || m[k] == JNull || m[k] == JStr("") {
        issues := issues + ["missing key: " + k];
      }
      i := i + 1;
    }
    assert RequiredKeys[..i] == RequiredKeys;
    var total := Get(m, "total");
    if total == JNull {
      issues := issues + ["total is null"];
    } else if !FloatCoercible(host, total) {
      issues := issues + ["total not numeric: " + Str(host, total)];
    }
    var items := if "line_items" in m then m["line_items"] else JArr([]);
    if !items.JArr? {
      issues := issues + ["line_items not a list"];
    }
    valid := |issues| == 0;
  }

  /** `{"valid": ..., "issues": [...]}` */
  function Report(issues: seq<string>): (r: Json)
    ensures r.JObj? && r.fields.Keys == {"valid", "issues"}
    ensures r.fields["valid"] == JBool(issues == [])
    ensures r.fields["issues"].JArr? && |r.fields["issues"].items| == |issues|
    ensures forall i :: 0 <= i < |issues| ==> r.fields["issues"].items[i] == JStr(issues[i])
  {
    JObj(map["valid" := JBool(issues == []), "issues" := JArr(seq(|issues|, i requires 0 <= i < |issues| => JStr(issues[i])))])
  }

  // ---------------------------------------------------------------------
  // What the rules report

  /** Each key rule reports exactly the missing keys, in the order checked. */
  lemma {:induction false} KeyIssuesMeans(m: map<string, Json>, keys: seq<string>)
    ensures forall k :: MissingMessage(k) in KeyIssues(m, keys) <==> k in keys && MissingKey(m, k)
    ensures forall x :: x in KeyIssues(m, keys) ==> exists k :: x == MissingMessage(k)
    decreases |keys|
  {
    if keys != [] {
      var init, last := keys[..|keys| - 1], keys[|keys| - 1];
      assert keys == init + [last];
      KeyIssuesMeans(m, init);
      forall k ensures MissingMessage(k) in KeyIssues(m, keys) <==> k in keys && MissingKey(m, k) {
        MessageInjective(k, last);
      }
    }
  }

  /** No key missing, no key issue. */
  lemma {:induction false} KeyIssuesNone(m: map<string, Json>, keys: seq<string>)
    ensures (forall k :: k in keys ==> !MissingKey(m, k)) ==> KeyIssues(m, keys) == []
    decreases |keys|
  {
    if keys != [] {
      var init := keys[..|keys| - 1];
      assert forall k :: k in init ==> k in keys;
      KeyIssuesNone(m, init);
    }
  }

  /** The message names its key. */
  lemma MessageInjective(k: string, k': string)
    ensures MissingMessage(k) == MissingMessage(k') <==> k == k'
  {
    if MissingMessage(k) == MissingMessage(k') {
      assert k == MissingMessage(k)[13..];
      assert k' == MissingMessage(k')[13..];
    }
  }

  /** The key issues come in the order of the keys: of two keys that are
      both missing, the earlier one is reported first. */
  lemma {:induction false} KeyIssuesOrdered(m: map<string, Json>, keys: seq<string>, a: nat, b: nat)
    requires a < b < |keys| && MissingKey(m, keys[a]) && MissingKey(m, keys[b])
    ensures exists i, j :: && 0 <= i < j < |KeyIssues(m, keys)|
                           && KeyIssues(m, keys)[i] == MissingMessage(keys[a])
                           && KeyIssues(m, keys)[j] == MissingMessage(keys[b])
    decreases |keys|
  {
    var init, last := keys[..|keys| - 1], keys[|keys| - 1];
    if b == |keys| - 1 {
      KeyIssuesMeans(m, init);
      assert keys[a] == init[a];
      assert MissingMessage(keys[a]) in KeyIssues(m, init);
      var i :| 0 <= i < |KeyIssues(m, init)| && KeyIssues(m, init)[i] == MissingMessage(keys[a]);
      var j := |KeyIssues(m, init)|;
      assert KeyIssues(m, keys)[i] == MissingMessage(keys[a]);
      assert KeyIssues(m, keys)[j] == MissingMessage(keys[b]);
    } else {
      assert keys[a] == init[a] && keys[b] == init[b];
      KeyIssuesOrdered(m, init, a, b);
      var i, j :| 0 <= i < j < |KeyIssues(m, init)|
        && KeyIssues(m, init)[i] == MissingMessage(init[a]) && KeyIssues(m, init)[j] == MissingMessage(init[b]);
      assert KeyIssues(m, keys)[i] == KeyIssues(m, init)[i];
      assert KeyIssues(m, keys)[j] == KeyIssues(m, init)[j];
    }
  }

  /** Every rule adds at most one issue: at most six in all, the key issues
      first, then the total's, then the line items'. */
  lemma IssuesShape(m: map<string, Json>, host: Host)
    ensures |Issues(m, host)| <= 6
    ensures |TotalIssues(m, host)| <= 1 && |LineItemsIssues(m)| <= 1
    ensures Issues(m, host)[..|KeyIssues(m, RequiredKeys)|] == KeyIssues(m, RequiredKeys)
    ensures Issues(m, host)[|Issues(m, host)| - |LineItemsIssues(m)|..] == LineItemsIssues(m)
  {
  }

  /** A key is reported missing exactly when it is absent, None or "". */
  lemma MissingKeyIff(m: map<string, Json>, host: Host, k: string)
    requires k in RequiredKeys
    ensures MissingMessage(k) in Issues(m, host) <==> MissingKey(m, k)
  {
    KeyIssuesMeans(m, RequiredKeys);
    var tail := TotalIssues(m, host) + LineItemsIssues(m);
    assert Issues(m, host) == KeyIssues(m, RequiredKeys) + tail;
    assert MissingMessage(k)[0] == 'm';
    assert forall x :: x in tail ==> x[0] == 't' || x[0] == 'l';
  }

  /** "total is null" is reported exactly when the total is absent or None. */
  lemma TotalNullIff(m: map<string, Json>, host: Host)
    ensures TotalNull in Issues(m, host) <==> Get(m, "total") == JNull
  {
    KeyIssuesMeans(m, RequiredKeys);
    assert TotalNull != LineItemsNotList;
    assert forall k :: MissingMessage(k) != TotalNull by {
      forall k ensures MissingMessage(k) != TotalNull {
        assert MissingMessage(k)[0] != TotalNull[0];
      }
    }
  }

  /** A total the rule cannot convert is reported with its `str()`, exactly
      when it is present, not None and not convertible. */
  lemma TotalNotNumericIff(m: map<string, Json>, host: Host)
    ensures (NotNumericPrefix + Str(host, Get(m, "total"))) in Issues(m, host)
      <==> Get(m, "total") != JNull && !FloatCoercible(host, Get(m, "total"))
  {
    var msg := NotNumericPrefix + Str(host, Get(m, "total"));
    KeyIssuesMeans(m, RequiredKeys);
    assert msg[0] == 't' && msg[6] == 'n';
    assert TotalNull[6] == 'i' && LineItemsNotList[0] == 'l';
    assert forall k :: MissingMessage(k) != msg by {
      forall k ensures MissingMessage(k) != msg {
        assert MissingMessage(k)[0] != msg[0];
      }
    }
  }

  /** line_items is reported exactly when it is present and not a list; an
      absent line_items is no issue. */
  lemma LineItemsIff(m: map<string, Json>, host: Host)
    ensures LineItemsNotList in Issues(m, host) <==> "line_items" in m && !m["line_items"].JArr?
  {
    KeyIssuesMeans(m, RequiredKeys);
    assert LineItemsNotList != TotalNull;
    assert forall x :: x in TotalIssues(m, host) ==> x[0] == 't';
    assert forall k :: MissingMessage(k) != LineItemsNotList by {
      forall k ensures MissingMessage(k) != LineItemsNotList {
        assert MissingMessage(k)[0] != LineItemsNotList[0];
      }
    }
  }

  /** A record passes exactly when every required key holds a value, the
      total converts, and line_items, if present, is a list. */
  ghost predicate WellFormed(m: map<string, Json>, host: Host) {
    && (forall k :: k in RequiredKeys ==> !MissingKey(m, k))
    && Get(m, "total") != JNull && FloatCoercible(host, Get(m, "total"))
    && ("line_items" in m ==> m["line_items"].JArr?)
  }

  lemma ValidIff(m: map<string, Json>, host: Host)
    ensures Issues(m, host) == [] <==> WellFormed(m, host)
  {
    KeyIssuesMeans(m, RequiredKeys);
    KeyIssuesNone(m, RequiredKeys);
    if Issues(m, host) == [] {
      forall k | k in RequiredKeys ensures !MissingKey(m, k) {
        assert MissingMessage(k) !in KeyIssues(m, RequiredKeys);
      }
    }
  }
}
