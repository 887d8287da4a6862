/**
 * The text rules of the speech-query endpoint: a keyword classifier that maps a
 * transcribed sentence to one of five request labels, a stock-name finder over
 * the listed names, and the six-digit padding applied to listed stock codes.
 */
module SpeechQuery {
  import opened Optional
  import opened Text
  import opened Search

  const ChartWords: seq<string> := ["차트", "그래프", "흐름"]
  const PriceWords: seq<string> := ["주가", "가격"]
  const UpperLimitWord := "상한가"
  const LowerLimitWord := "하한가"

  const ChartLabel := "차트 조회"
  const PriceLabel := "현재가 조회"
  const UpperLimitLabel := "상한가 조회"
  const LowerLimitLabel := "하한가 조회"
  const OtherLabel := "기타"

  /** Some word of `words` occurs in `text` (Python `any(w in text for w in words)`). */
  predicate AnyIn(words: seq<string>, text: string) {
    exists i :: 0 <= i < |words| && Contains(text, words[i])
  }

  /** The keyword cascade: chart words, then price words, then upper limit, then lower limit, else "기타". */
  function ClassifyIntent(text: string): string
  {
    if AnyIn(ChartWords, text) then ChartLabel
    else if Contains(text, PriceWords[0]) || Contains(text, PriceWords[1]) then PriceLabel
    else if Contains(text, UpperLimitWord) then UpperLimitLabel
    else if Contains(text, LowerLimitWord) then LowerLimitLabel
    else OtherLabel
  }

  /** One rule of a decision list: the answer given when one of the words occurs. */
  datatype Rule = Rule(words: seq<string>, answer: string)

  /** The classifier as a table, read from top to bottom; the first rule with a matching word decides. */
  const Rules: seq<Rule> := [
    Rule(ChartWords, ChartLabel),
    Rule(PriceWords, PriceLabel),
    Rule([UpperLimitWord], UpperLimitLabel),
    Rule([LowerLimitWord], LowerLimitLabel)
  ]

  /** The answer of the first rule of `rules` with a word in `text`, or "기타". */
  function ByRules(rules: seq<Rule>, text: string): (answer: string)
    ensures answer == OtherLabel || exists i :: 0 <= i < |rules| && answer == rules[i].answer
  {
    match FirstWhere(rules, (r: Rule) => AnyIn(r.words, text))
    case Some(i) => rules[i].answer
    case None => OtherLabel
  }

  /** The hand-written cascade agrees with the decision table on every text. */
  lemma ClassifyIntentIsDecisionList(text: string)
    ensures ClassifyIntent(text) == ByRules(Rules, text)
  {
    var p := (r: Rule) => AnyIn(r.words, text);
    var price := Contains(text, PriceWords[0]) || Contains(text, PriceWords[1]);
    assert AnyIn(PriceWords, text) <==> price by {
      if AnyIn(PriceWords, text) {
        var i :| 0 <= i < |PriceWords| && Contains(text, PriceWords[i]);
        assert i == 0 || i == 1;
      }
      if Contains(text, PriceWords[0]) { assert AnyIn(PriceWords, text); }
      if Contains(text, PriceWords[1]) { assert AnyIn(PriceWords, text); }
    }
    assert AnyIn([UpperLimitWord], text) <==> Contains(text, UpperLimitWord) by {
      assert [UpperLimitWord][0] == UpperLimitWord;
    }
    assert AnyIn([LowerLimitWord], text) <==> Contains(text, LowerLimitWord) by {
      assert [LowerLimitWord][0] == LowerLimitWord;
    }
    if AnyIn(ChartWords, text) {
      FirstWhereAt(Rules, p, 0);
    } else if price {
      FirstWhereAt(Rules, p, 1);
    } else if Contains(text, UpperLimitWord) {
      FirstWhereAt(Rules, p, 2);
    } else if Contains(text, LowerLimitWord) {
      FirstWhereAt(Rules, p, 3);
    } else {
      assert forall i :: 0 <= i < |Rules| ==> !p(Rules[i]);
    }
  }

  /** The result is always one of the five labels. */
  lemma ClassifyIntentLabels(text: string)
    ensures ClassifyIntent(text) in {ChartLabel, PriceLabel, UpperLimitLabel, LowerLimitLabel, OtherLabel}
  {
    ClassifyIntentIsDecisionList(text);
    var l := ByRules(Rules, text);
    if l != OtherLabel {
      var i :| 0 <= i < |Rules| && l == Rules[i].answer;
      assert i in {0, 1, 2, 3};
    }
  }

  /** A chart word wins over every other word; "현재가 조회" comes back exactly when no chart word and a price word occur. */
  lemma ClassifyIntentPrecedence(text: string)
    ensures AnyIn(ChartWords, text) <==> ClassifyIntent(text) == ChartLabel
    ensures ClassifyIntent(text) == PriceLabel <==>
      !AnyIn(ChartWords, text) && (Contains(text, "주가") || Contains(text, "가격"))
    ensures ClassifyIntent(text) == UpperLimitLabel <==>
      !AnyIn(ChartWords, text) && !Contains(text, "주가") && !Contains(text, "가격") && Contains(text, "상한가")
    ensures ClassifyIntent(text) == LowerLimitLabel <==>
      !AnyIn(ChartWords, text) && !Contains(text, "주가") && !Contains(text, "가격")
      && !Contains(text, "상한가") && Contains(text, "하한가")
  {
  }

  /** The first pass's test: the name occurs in the text. */
  function InText(text: string): string -> bool {
    (n: string) => Contains(text, n)
  }

  /** The second pass's test: the name starts with the stripped text. */
  function StartsWithQuery(text: string): string -> bool {
    (n: string) => IsPrefix(Strip(text), n)
  }

  /**
   * The stock name a sentence refers to: the first listed name occurring in the
   * text; failing that, the first listed name that starts with the stripped text;
   * otherwise `None`. The list stands for the `name` column of the stock table.
   */
  function FindStockName(names: seq<string>, text: string): Option<string>
  {
    match FirstWhere(names, InText(text))
    case Some(i) => Some(names[i])
    case None =>
      match FirstWhere(names, StartsWithQuery(text))
      case Some(j) => Some(names[j])
      case None => None
  }

  /** Whatever `FindStockName` answers is a listed name. */
  lemma FindStockNameListed(names: seq<string>, text: string)
    ensures FindStockName(names, text).Some? ==> FindStockName(names, text).value in names
  {
  }

  /** The first pass decides: the first listed name occurring in the text is the answer. */
  lemma FindStockNameFirstInText(names: seq<string>, text: string, i: nat)
    requires i < |names| && Contains(text, names[i])
    requires forall j :: 0 <= j < i ==> !Contains(text, names[j])
    ensures FindStockName(names, text) == Some(names[i])
  {
    FirstWhereAt(names, InText(text), i);
  }

  /** When no listed name occurs in the text, the first listed name starting with the stripped text is the answer. */
  lemma FindStockNameFirstByPrefix(names: seq<string>, text: string, i: nat)
    requires forall j :: 0 <= j < |names| ==> !Contains(text, names[j])
    requires i < |names| && IsPrefix(Strip(text), names[i])
    requires forall j :: 0 <= j < i ==> !IsPrefix(Strip(text), names[j])
    ensures FindStockName(names, text) == Some(names[i])
  {
    assert forall j :: 0 <= j < |names| ==> !InText(text)(names[j]);
    FirstWhereAt(names, StartsWithQuery(text), i);
  }

  /** `None` comes back exactly when no listed name occurs in the text and none starts with the stripped text. */
  lemma FindStockNameNone(names: seq<string>, text: string)
    ensures FindStockName(names, text).None? <==>
      forall i :: 0 <= i < |names| ==> !Contains(text, names[i]) && !IsPrefix(Strip(text), names[i])
  {
    assert forall i :: 0 <= i < |names| ==> (InText(text)(names[i]) <==> Contains(text, names[i]));
    assert forall i :: 0 <= i < |names| ==> (StartsWithQuery(text)(names[i]) <==> IsPrefix(Strip(text), names[i]));
  }

  /** A name with a character that is not white space never occurs in a white-space-only text. */
  lemma VisibleNameNotInBlank(text: string, name: string)
    requires forall k :: 0 <= k < |text| ==> IsSpace(text[k])
    requires exists k :: 0 <= k < |name| && !IsSpace(name[k])
    ensures !Contains(text, name)
  {
    ContainsAt(text, name);
  }

  /** A white-space-only sentence strips to "", which every name starts with, so the first listed name is chosen. */
  lemma BlankTextPicksFirstName(names: seq<string>, text: string)
    requires |names| > 0
    requires forall k :: 0 <= k < |text| ==> IsSpace(text[k])
    requires forall i :: 0 <= i < |names| ==> exists k :: 0 <= k < |names[i]| && !IsSpace(names[i][k])
    ensures FindStockName(names, text) == Some(names[0])
  {
    forall i | 0 <= i < |names| ensures !Contains(text, names[i]) {
      VisibleNameNotInBlank(text, names[i]);
    }
    assert Strip(text) == [];
    FindStockNameFirstByPrefix(names, text, 0);
  }

  /** The stock-code column padding: a code padded with '0' on the left to six characters. */
  function PadStockCode(code: string): (r: string)
    ensures |r| == if |code| >= 6 then |code| else 6
    ensures |code| >= 6 ==> r == code
  {
    ZFill(code, 6)
  }

  /** Padding a code of decimal digits keeps it all digits and keeps its numeric value. */
  lemma PadStockCodeKeepsValue(n: nat)
    ensures forall k :: 0 <= k < |PadStockCode(Decimal(n))| ==> IsDigit(PadStockCode(Decimal(n))[k])
    ensures DecimalValue(PadStockCode(Decimal(n))) == n
    ensures |PadStockCode(Decimal(n))| == 6 <==> n < 1000000
  {
    var d := Decimal(n);
    var r := PadStockCode(d);
    DecimalDigits(n);
    if |d| < 6 {
      assert r == Zeros(6 - |d|) + d;
      LeadingZerosValue(6 - |d|, d);
    }
    DecimalRoundTrip(n);
    DecimalWidth(n, 6);
    assert Pow10(6) == 1000000;
  }
}
