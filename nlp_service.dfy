/**
 * The period-keyword rule of the natural-language service: a Korean phrase such
 * as "일주일" or "3년" in the user's text selects a chart length in days; "전체"
 * (everything) selects the whole history, written -1.
 */
module PeriodExtraction {
  import opened Optional
  import opened Text
  import opened Search

  /** The keyword table, in declaration order (Python dicts iterate in insertion order). */
  const PeriodTable: seq<(string, int)> := [
    ("일주일", 7),
    ("1주", 7),
    ("한주", 7),
    ("한달", 30),
    ("1개월", 30),
    ("3개월", 90),
    ("1년", 365),
    ("3년", 1095),
    ("5년", 1825)
  ]

  /** The keyword that asks for the whole history. */
  const WholeHistory := "전체"

  /** The test applied to each table entry: its keyword occurs in `text`. */
  function KeywordIn(text: string): ((string, int)) -> bool {
    (e: (string, int)) => Contains(text, e.0)
  }

  /** The day count of the first table keyword found in `text`; else -1 when "전체" occurs; else `None`. */
  function ExtractPeriod(text: string): Option<int>
  {
    match FirstWhere(PeriodTable, KeywordIn(text))
    case Some(i) => Some(PeriodTable[i].1)
    case None => if Contains(text, WholeHistory) then Some(-1) else None
  }

  /** The result is the value of the first keyword, in table order, that occurs in the text. */
  lemma FirstKeywordWins(text: string, i: nat)
    requires i < |PeriodTable| && Contains(text, PeriodTable[i].0)
    requires forall j :: 0 <= j < i ==> !Contains(text, PeriodTable[j].0)
    ensures ExtractPeriod(text) == Some(PeriodTable[i].1)
  {
    FirstWhereAt(PeriodTable, KeywordIn(text), i);
  }

  /** "일주일" comes first in the table, so a text holding it means seven days whatever else it says ("1년" included). */
  lemma WeekBeatsEverything(text: string)
    requires Contains(text, "일주일")
    ensures ExtractPeriod(text) == Some(7)
  {
    FirstKeywordWins(text, 0);
  }

  /** -1 comes back exactly when no keyword occurs and "전체" does: a keyword takes precedence over "전체". */
  lemma WholeHistoryOnlyWithoutKeyword(text: string)
    ensures ExtractPeriod(text) == Some(-1) <==>
      (forall i :: 0 <= i < |PeriodTable| ==> !Contains(text, PeriodTable[i].0)) && Contains(text, WholeHistory)
  {
    var p := KeywordIn(text);
    match FirstWhere(PeriodTable, p)
    case Some(i) =>
      assert p(PeriodTable[i]);
      TableDays(i);
    case None =>
  }

  /** `None` comes back exactly when neither a keyword nor "전체" occurs. */
  lemma NoPeriodIff(text: string)
    ensures ExtractPeriod(text).None? <==>
      (forall i :: 0 <= i < |PeriodTable| ==> !Contains(text, PeriodTable[i].0)) && !Contains(text, WholeHistory)
  {
    var p := KeywordIn(text);
    match FirstWhere(PeriodTable, p)
    case Some(i) =>
      assert p(PeriodTable[i]);
    case None =>
  }

  /** Every answer is one of the table's day counts or -1. */
  lemma PeriodRange(text: string)
    ensures ExtractPeriod(text).Some? ==> ExtractPeriod(text).value in {7, 30, 90, 365, 1095, 1825, -1}
  {
    var p := KeywordIn(text);
    match FirstWhere(PeriodTable, p)
    case Some(i) =>
      TableDays(i);
    case None =>
  }

  /** Every day count in the table is one of the six chart lengths. */
  lemma TableDays(i: nat)
    requires i < |PeriodTable|
    ensures PeriodTable[i].1 in {7, 30, 90, 365, 1095, 1825}
  {
  }
}
