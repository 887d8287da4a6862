/**
 * The post-processing of the language model's reply in the intent extractor:
 * cut the candidate JSON object out of the reply text, decode it, then repair
 * three known quirks of the decoded record, one map update at a time.
 *
 * The JSON decoder is not modelled; it is the parameter `decode`, whose `None`
 * stands for a decoding error. Decoded records are string-to-string maps.
 */
module GptParser {
  import opened Optional
  import opened Text

  /** A decoded intent record: key to value. */
  type Record = map<string, string>

  /**
   * The candidate JSON text of a reply: from the first '{' to the last '}', both
   * included; `None` when the reply lacks either brace. When the last '}' stands
   * before the first '{', Python's slice is empty and so is the span.
   */
  function JsonSpan(reply: string): Option<string>
  {
    var start := Find(reply, '{');
    var end := RFind(reply, '}') + 1;
    if start == -1 || end == 0 then None
    else if start <= end then Some(reply[start..end])
    else Some("")
  }

  /** `span` sits in `reply` at index `i`, with no '{' before it and no '}' after it. */
  predicate OuterBraces(reply: string, span: string, i: int) {
    && 0 <= i <= |reply| - |span|
    && reply[i..i + |span|] == span
    && '{' !in reply[..i]
    && '}' !in reply[i + |span|..]
  }

  /** The span is exactly the stretch from the first '{' to the last '}'. */
  lemma JsonSpanBounds(reply: string)
    ensures JsonSpan(reply).None? <==> '{' !in reply || '}' !in reply
    ensures JsonSpan(reply).Some? && JsonSpan(reply).value != "" ==>
      && JsonSpan(reply).value[0] == '{'
      && JsonSpan(reply).value[|JsonSpan(reply).value| - 1] == '}'
      && exists i :: OuterBraces(reply, JsonSpan(reply).value, i)
    ensures JsonSpan(reply).Some? ==> (JsonSpan(reply).value == "" <==> RFind(reply, '}') < Find(reply, '{'))
  {
    JsonSpanEmpty(reply);
    JsonSpanNone(reply);
    var start := Find(reply, '{');
    var last := RFind(reply, '}');
    if start != -1 && last != -1 && start <= last {
      assert JsonSpan(reply) == Some(reply[start..last + 1]);
      BraceSpan(reply, start, last);
    }
  }

  /** The stretch from a first '{' to a last '}' starts and ends with them and sits between them in the reply. */
  lemma BraceSpan(reply: string, start: int, last: int)
    requires 0 <= start <= last < |reply|
    requires reply[start] == '{' && '{' !in reply[..start]
    requires reply[last] == '}' && '}' !in reply[last + 1..]
    ensures var span := reply[start..last + 1];
      && span[0] == '{' && span[|span| - 1] == '}'
      && OuterBraces(reply, span, start)
  {
    var span := reply[start..last + 1];
    assert span[0] == reply[start];
    assert span[|span| - 1] == reply[last];
  }

  /** There is no span exactly when the reply lacks '{' or '}'. */
  lemma JsonSpanNone(reply: string)
    ensures JsonSpan(reply).None? <==> '{' !in reply || '}' !in reply
  {
    RFindAbsent(reply, '}');
  }

  /** The span is empty exactly when the last '}' stands before the first '{'. */
  lemma JsonSpanEmpty(reply: string)
    ensures JsonSpan(reply).Some? ==> (JsonSpan(reply).value == "" <==> RFind(reply, '}') < Find(reply, '{'))
  {
  }

  /** Rule 1: an intent "chart" whose period came back as "realtime_chart" becomes intent "realtime_chart" without a period. */
  function RealtimeChartRule(m: Record): (r: Record)
  {
    if Get(m, "intent") == Some("chart") && Get(m, "period") == Some("realtime_chart")
    then m["intent" := "realtime_chart"] - {"period"}
    else m
  }

  /** Rule 2: an "indicator" record's code loses its market suffix (the part from the first '.'). */
  function IndicatorCodeRule(m: Record): (r: Record)
  {
    if Get(m, "intent") == Some("indicator") && "code" in m
    then m["code" := BeforeDot(m["code"])]
    else m
  }

  /** Rule 3: a US-market record whose code has a '.' loses the suffix from the first '.'. */
  function UsCodeRule(m: Record): (r: Record)
  {
    if Get(m, "market") == Some("US") && '.' in Get(m, "code").GetOr("")
    then m["code" := BeforeDot(m["code"])]
    else m
  }

  /** The three repairs, in the order the extractor applies them. */
  function Normalize(m: Record): Record
  {
    UsCodeRule(IndicatorCodeRule(RealtimeChartRule(m)))
  }

  /** Reply text to repaired record: strip the reply, cut its span, decode, repair; `None` when there is no span or the span does not decode. */
  function ExtractIntent(reply: string, decode: string -> Option<Record>): Option<Record>
  {
    match JsonSpan(Strip(reply))
    case None => None
    case Some(span) =>
      match decode(span)
      case None => None
      case Some(m) => Some(Normalize(m))
  }

  /**
   * The extractor answers `None` when the stripped reply lacks a brace or its span does
   * not decode; otherwise it answers the decoded record repaired, which a second repair
   * leaves unchanged.
   */
  lemma ExtractIntentResult(reply: string, decode: string -> Option<Record>)
    ensures '{' !in Strip(reply) || '}' !in Strip(reply) ==> ExtractIntent(reply, decode).None?
    ensures ExtractIntent(reply, decode).Some? <==>
      JsonSpan(Strip(reply)).Some? && decode(JsonSpan(Strip(reply)).value).Some?
    ensures ExtractIntent(reply, decode).Some? ==>
      var m := decode(JsonSpan(Strip(reply)).value).value;
      && ExtractIntent(reply, decode).value == Normalize(m)
      && Normalize(ExtractIntent(reply, decode).value) == ExtractIntent(reply, decode).value
  {
    JsonSpanBounds(Strip(reply));
    if ExtractIntent(reply, decode).Some? {
      NormalizeIdempotent(decode(JsonSpan(Strip(reply)).value).value);
    }
  }

  /** Only the keys "intent", "period" and "code" can change; every other key passes through. */
  lemma NormalizeKeepsOtherKeys(m: Record, k: string)
    requires k != "intent" && k != "period" && k != "code"
    ensures k in Normalize(m) <==> k in m
    ensures k in m ==> Normalize(m)[k] == m[k]
  {
  }

  /** "intent", "code" and every key but "period" stay present; "period" is dropped only by rule 1. */
  lemma NormalizeKeepsKeys(m: Record)
    ensures forall k :: k in m && k != "period" ==> k in Normalize(m)
    ensures Normalize(m).Keys <= m.Keys
    ensures "period" in m && "period" !in Normalize(m) ==> m["intent"] == "chart" && m["period"] == "realtime_chart"
  {
  }

  /** A chart record with period "realtime_chart" comes out as intent "realtime_chart" with no period. */
  lemma NormalizeRealtimeChart(m: Record)
    requires Get(m, "intent") == Some("chart") && Get(m, "period") == Some("realtime_chart")
    ensures Normalize(m)["intent"] == "realtime_chart" && "period" !in Normalize(m)
  {
  }

  /** An indicator record's code is cut at its first '.'; a code without '.' is left alone. */
  lemma NormalizeIndicatorCode(m: Record)
    requires Get(m, "intent") == Some("indicator") && "code" in m
    ensures Normalize(m)["code"] == BeforeDot(m["code"]) && '.' !in Normalize(m)["code"]
    ensures '.' !in m["code"] ==> Normalize(m)["code"] == m["code"]
  {
    BeforeDotSpec(m["code"]);
    BeforeDotIdempotent(m["code"]);
  }

  /** A US record whose code holds a '.' comes out with the code cut at its first '.'. */
  lemma NormalizeUsCode(m: Record)
    requires Get(m, "market") == Some("US") && "code" in m && '.' in m["code"]
    ensures Normalize(m)["code"] == BeforeDot(m["code"])
  {
    BeforeDotIdempotent(m["code"]);
  }

  /** Only rule 1 touches the intent: an "indicator" or "chart" record coming out went in as one, a chart with its period unchanged. */
  lemma NormalizeIntentAfterRepair(m: Record)
    requires "intent" in m
    ensures "intent" in Normalize(m)
    ensures Normalize(m)["intent"] == "indicator" ==> m["intent"] == "indicator"
    ensures Normalize(m)["intent"] == "chart" ==>
      Get(Normalize(m), "period") == Get(m, "period") && Get(m, "period") != Some("realtime_chart")
  {
  }

  /** A rule that does not fire leaves its key alone: the intent and period unless rule 1 fires, the code unless rule 2 or 3 does. */
  lemma NormalizeLeavesUntouched(m: Record)
    ensures !(Get(m, "intent") == Some("chart") && Get(m, "period") == Some("realtime_chart")) ==>
      Get(Normalize(m), "intent") == Get(m, "intent") && Get(Normalize(m), "period") == Get(m, "period")
    ensures Get(m, "intent") != Some("indicator") && !(Get(m, "market") == Some("US") && '.' in Get(m, "code").GetOr("")) ==>
      Get(Normalize(m), "code") == Get(m, "code")
  {
  }

  /** Whatever happens to the code, what comes out is a prefix of what went in. */
  lemma NormalizeCodeIsPrefix(m: Record)
    requires "code" in m
    ensures "code" in Normalize(m) && IsPrefix(Normalize(m)["code"], m["code"])
  {
    var c := m["code"];
    BeforeDotSpec(c);
  }

  /** Repairing a repaired record changes nothing. */
  lemma {:induction false} NormalizeIdempotent(m: Record)
    ensures Normalize(Normalize(m)) == Normalize(m)
  {
    var a := RealtimeChartRule(m);
    var b := IndicatorCodeRule(a);
    var n := UsCodeRule(b);
    // Rule 1 cannot fire on n: its "intent" and "period" are those of a, where it has already fired or cannot.
    assert Get(n, "intent") == Get(a, "intent") && Get(n, "period") == Get(a, "period");
    assert RealtimeChartRule(n) == n;
    // Rule 2 on n cuts an already cut code.
    if Get(n, "intent") == Some("indicator") && "code" in n {
      BeforeDotSpec(b["code"]);
      if "code" in a { BeforeDotSpec(a["code"]); }
      assert '.' !in n["code"];
    }
    assert IndicatorCodeRule(n) == n;
    // Rule 3 on n: either the market is not "US" or the code already has no '.'.
    if Get(n, "market") == Some("US") && '.' in Get(n, "code").GetOr("") {
      assert false;
    }
    assert UsCodeRule(n) == n;
  }
}
