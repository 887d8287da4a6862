/**
 * The intent endpoint's routing: a decoded intent record becomes either a route
 * record naming the API path that serves the request, or an error record.
 */
module IntentRoute {
  import opened Optional
  import opened Text
  import GptParser

  /**
   * The endpoint's reply: an error message, or the route the client should call next.
   * `MissingKey` stands for the `KeyError` the handler raises (and the framework turns
   * into a server error) when a truthy record lacks a key it indexes directly.
   */
  datatype Reply =
    | Error(message: string)
    | Route(name: string, code: string, market: string, intent: string, period: Option<string>, path: string)
    | MissingKey(key: string)

  const ParseFailure := "GPT 파싱 실패 또는 알 수 없는 요청"
  const UnsupportedPrefix := "지원하지 않는 intent입니다: "
  const DefaultMarket := "KR"
  const DefaultPeriod := "3mo"
  const PricePath := "/api/stock/price"
  const IndicatorPath := "/api/indicator"

  /** Python truthiness of the extractor's result: `None` and the empty dict are both falsy. */
  predicate Truthy(parsed: Option<map<string, string>>) {
    parsed.Some? && parsed.value != map[]
  }

  /** A truthy record must carry "intent", "code" and "name": the handler indexes them directly. */
  predicate HasRequiredKeys(parsed: Option<map<string, string>>) {
    Truthy(parsed) ==> "intent" in parsed.value && "code" in parsed.value && "name" in parsed.value
  }

  /** The chart endpoint's path for a code and a period. */
  function ChartPath(code: string, period: string): string {
    "/api/stock/chart?code=" + code + "&period=" + period
  }

  /** The route for a decoded record, or an error record. */
  function ParseIntent(parsed: Option<map<string, string>>): Reply
  {
    if !Truthy(parsed) then Error(ParseFailure)
    else if "intent" !in parsed.value then MissingKey("intent")
    else if "code" !in parsed.value then MissingKey("code")
    else if "name" !in parsed.value then MissingKey("name")
    else
      var m := parsed.value;
      var intent, code, name := m["intent"], m["code"], m["name"];
      var market := Get(m, "market").GetOr(DefaultMarket);
      if intent == "chart" then
        var period := Get(m, "period").GetOr(DefaultPeriod);
        Route(name, code, market, "chart", Some(period), ChartPath(code, period))
      else if intent == "indicator" then
        Route(name, code, market, "indicator", None, IndicatorPath)
      else if intent in ["current_price", "high_limit", "low_limit"] then
        Route(name, code, market, intent, None, PricePath)
      else Error(UnsupportedPrefix + intent)
  }

  /**
   * A truthy record without "intent", "code" or "name" makes the handler fail on the
   * first of them it looks up, in that order; a record with all three never does.
   */
  lemma MissingKeyIff(parsed: Option<map<string, string>>)
    ensures ParseIntent(parsed).MissingKey? <==> !HasRequiredKeys(parsed)
    ensures ParseIntent(parsed).MissingKey? ==>
      var m := parsed.value;
      var k := ParseIntent(parsed).key;
      && k !in m
      && (k == "code" ==> "intent" in m)
      && (k == "name" ==> "intent" in m && "code" in m)
      && k in ["intent", "code", "name"]
  {
  }

  /** The fixed parse-failure error comes back exactly when the extractor gave nothing usable. */
  lemma ParseFailureIff(parsed: Option<map<string, string>>)
    ensures ParseIntent(parsed) == Error(ParseFailure) <==> !Truthy(parsed)
  {
    if Truthy(parsed) && ParseIntent(parsed).Error? {
      var msg := ParseIntent(parsed).message;
      assert msg[..|UnsupportedPrefix|] == UnsupportedPrefix;
      assert ParseFailure[..|UnsupportedPrefix|] != UnsupportedPrefix by {
        assert ParseFailure[0] != UnsupportedPrefix[0];
      }
    }
  }

  /** Every route echoes the record's name and code, and its market or "KR" when there is none. */
  lemma RouteEchoesRecord(m: map<string, string>)
    requires HasRequiredKeys(Some(m)) && m != map[]
    ensures ParseIntent(Some(m)).Route? ==>
      && ParseIntent(Some(m)).name == m["name"]
      && ParseIntent(Some(m)).code == m["code"]
      && ParseIntent(Some(m)).market == (if "market" in m then m["market"] else DefaultMarket)
      && ParseIntent(Some(m)).intent == m["intent"]
  {
  }

  /** A chart request is routed to the chart path with the record's period, "3mo" when there is none. */
  lemma ChartRoute(m: map<string, string>)
    requires HasRequiredKeys(Some(m)) && m != map[] && m["intent"] == "chart"
    ensures var p := if "period" in m then m["period"] else DefaultPeriod;
      ParseIntent(Some(m)) == Route(m["name"], m["code"], Get(m, "market").GetOr(DefaultMarket), "chart", Some(p),
        "/api/stock/chart?code=" + m["code"] + "&period=" + p)
  {
  }

  /** An indicator request is routed to the indicator path, without a period. */
  lemma IndicatorRoute(m: map<string, string>)
    requires HasRequiredKeys(Some(m)) && m != map[] && m["intent"] == "indicator"
    ensures ParseIntent(Some(m)) ==
      Route(m["name"], m["code"], Get(m, "market").GetOr(DefaultMarket), "indicator", None, "/api/indicator")
  {
  }

  /** A current-price, upper-limit or lower-limit request is routed to the price path under its own intent, without a period. */
  lemma PriceRoute(m: map<string, string>)
    requires HasRequiredKeys(Some(m)) && m != map[] && m["intent"] in ["current_price", "high_limit", "low_limit"]
    ensures ParseIntent(Some(m)) ==
      Route(m["name"], m["code"], Get(m, "market").GetOr(DefaultMarket), m["intent"], None, "/api/stock/price")
  {
  }

  /** Which path a route carries is decided by the intent alone, and only a chart route carries a period. */
  lemma RoutePathByIntent(parsed: Option<map<string, string>>)
    requires HasRequiredKeys(parsed)
    ensures var r := ParseIntent(parsed);
      r.Route? ==>
        && (r.intent == "chart" <==> r.period.Some?)
        && (r.intent == "chart" ==> IsPrefix("/api/stock/chart?code=", r.path))
        && (r.intent == "indicator" <==> r.path == IndicatorPath)
        && (r.intent in ["current_price", "high_limit", "low_limit"] <==> r.path == PricePath)
  {
    var r := ParseIntent(parsed);
    if r.Route? && r.intent == "chart" {
      assert ChartPath(r.code, r.period.value)[..|"/api/stock/chart?code="|] == "/api/stock/chart?code=";
    }
  }

  /** Any intent outside the five supported ones yields an error whose message names that intent. */
  lemma UnsupportedIntentNamed(m: map<string, string>)
    requires HasRequiredKeys(Some(m)) && m != map[]
    requires m["intent"] !in ["chart", "indicator", "current_price", "high_limit", "low_limit"]
    ensures ParseIntent(Some(m)).Error? && Contains(ParseIntent(Some(m)).message, m["intent"])
  {
    ContainsSuffix(UnsupportedPrefix, m["intent"]);
  }

  /**
   * End to end: a record that went through the extractor's repairs is never routed
   * to an indicator with a suffixed code, nor to a chart with period "realtime_chart".
   */
  lemma RepairedRecordsRouteCleanly(m: map<string, string>)
    requires "intent" in m && "code" in m && "name" in m
    ensures HasRequiredKeys(Some(GptParser.Normalize(m)))
    ensures var r := ParseIntent(Some(GptParser.Normalize(m)));
      && (r.Route? && r.intent == "indicator" ==> '.' !in r.code)
      && (r.Route? && r.intent == "chart" ==> r.period != Some("realtime_chart"))
  {
    GptParser.NormalizeKeepsKeys(m);
    var n := GptParser.Normalize(m);
    var r := ParseIntent(Some(n));
    if r.Route? && r.intent == "indicator" {
      GptParser.NormalizeIntentAfterRepair(m);
      GptParser.NormalizeIndicatorCode(m);
    }
    if r.Route? && r.intent == "chart" {
      GptParser.NormalizeIntentAfterRepair(m);
    }
  }
}
