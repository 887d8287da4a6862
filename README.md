# Hear-Stock backend: subscription registry and text rules

A model of the hearstock-backend core, a FastAPI service that answers spoken
or typed stock questions and relays real-time Kiwoom quotes to browser clients.

- **`Kiwoom` / `KiwoomManager`** (`kiwoom_connection_manager.dfy`). The
  real-time connection manager.
  - The class `ConnectionManager` keeps the manager's own fields:
    - `subscriptions`: stock code to the set of client sockets;
    - `stockToGrp`: stock code to subscription group;
    - `grpToStock`: the reverse map;
    - `nextGrpNo`: the group counter.
  - Its methods are `subscribe`, `unsubscribe`, `handle_disconnect`,
    `_resubscribe_all`, `_generate_grp_no` and the tick fan-out of the reader
    task. They are proved against the value-level functions of module `Kiwoom`
    (`SubscribeNext`, `UnsubscribeNext`, `DisconnectNext`, `RegFrames`,
    `TickRecipients`).
  - The properties are lemmas about those functions.
  - The control frames sent to the feed (REG, REMOVE) accumulate in the ghost
    log `sent`.
  - Line 145 of the manager stores each new group against *itself*
    (`grp_to_stock[grp_no] = grp_no`). The model keeps that.
    `RecipientsOnlyForGroupKeyedStocks` and `SixDigitCodesReceiveNoTicks` state
    what follows: a tick reaches clients only when its group string is itself a
    subscribed stock code. With six-digit stock codes and fewer than 10000
    groups, no tick reaches anybody.
- **`PeriodExtraction`** (`nlp_service.dfy`). The keyword-to-period table and
  `extract_period`.
- **`SpeechQuery`** (`whisper.dfy`). The keyword intent classifier, the stock-name
  finder and the six-digit code padding of the speech-query endpoint.
- **`GptParser`** (`gpt_parser.dfy`). Post-processing of the language model's
  reply: the JSON span between the outer braces, then three repairs of the
  decoded record.
- **`IntentRoute`** (`intent.py` → `intent.dfy`). Routes a decoded intent record
  to an API path or to an error.
- Support modules:
  - `Optional` holds `Option` and `dict.get`.
  - `Text` holds the Python string operations used: `in`, `startswith`, `find`,
    `rfind`, `split('.')[0]`, `strip`, `zfill` and `str(n)`.
  - `Search` holds the first-match loop as a function.

## Model

| member | source | states |
|---|---|---|
| KiwoomManager.ConnectionManager.GenerateGrpNo | app/services/kiwoom_connection_manager.py:30-34 | returns the id of the current counter value, zero-padded to four characters, and advances the counter by one; the id has four characters exactly while the counter is below 10000 |
| Kiwoom.GroupId | app/services/kiwoom_connection_manager.py:32 | `str(n).zfill(4)`; no ensures of its own, its format, value and injectivity are GroupIdFormat and GroupIdInjective |
| Kiwoom.GroupIdFormat | app/services/kiwoom_connection_manager.py:32 | a group id is all digits, at least four long, exactly four iff the counter is below 10000, and reads back as the counter value |
| Kiwoom.GroupIdInjective | app/services/kiwoom_connection_manager.py:30-34 | distinct counter values give distinct group ids |
| Kiwoom.EmptyRegistry | app/services/kiwoom_connection_manager.py:17-28 | the registry of a new manager (empty maps, counter 0) satisfies the registry invariant |
| KiwoomManager.ConnectionManager.constructor | app/services/kiwoom_connection_manager.py:17-28 | a new manager is valid, holds the empty registry and has sent nothing |
| Kiwoom.ConsistentGroups | app/services/kiwoom_connection_manager.py:143-145 | in a consistent registry the reverse map is keyed by exactly the groups in use and no two stocks share a group |
| Kiwoom.FreshGroupUnused | app/services/kiwoom_connection_manager.py:143-145 | the next group id is not in use in either map |
| Kiwoom.SubscribeNext | app/services/kiwoom_connection_manager.py:134-145 | the registry after `subscribe`; no ensures of its own, characterised by SubscribeEffect, SubscribeKeepsConsistent, SubscribeIdempotent and UnsubscribeUndoesSubscribe |
| Kiwoom.SubscribeFrames | app/services/kiwoom_connection_manager.py:149-158 | the REG frame `subscribe` sends on a live connection; characterised by SubscribeEffect and UndoFirstSubscriptionFrames |
| KiwoomManager.ConnectionManager.Subscribe | app/services/kiwoom_connection_manager.py:134-158 | keeps the invariant; the new state is `SubscribeNext` of the old; on a live connection the log gains the REG frame of a first subscription and nothing otherwise |
| Kiwoom.SubscribeKeepsConsistent | app/services/kiwoom_connection_manager.py:134-158 | subscribing preserves the registry invariant |
| Kiwoom.FirstSubscriptionConsistent | app/services/kiwoom_connection_manager.py:142-145 | a first subscription registers the stock under a fresh group and keeps the invariant |
| Kiwoom.SubscribeEffect | app/services/kiwoom_connection_manager.py:134-158 | the client joins the stock; other stocks are untouched. A first subscription takes an unused group id, stores it against the stock and, as written, against itself, advances the counter and emits one REG for the code up to its first '.'. A later subscription changes no group and emits nothing |
| Kiwoom.SubscribeIdempotent | app/services/kiwoom_connection_manager.py:137-139 | subscribing an already subscribed client changes nothing and sends nothing |
| Kiwoom.UnsubscribeNext | app/services/kiwoom_connection_manager.py:160-171 | the registry after `unsubscribe`, with the `pop(..., None)` and `if grp_no:` guards; characterised by UnsubscribeEffect, UnsubscribeKeepsConsistent, UnsubscribeMember and UnsubscribeUndoesSubscribe |
| Kiwoom.UnsubscribeFrames | app/services/kiwoom_connection_manager.py:170-178 | the REMOVE frame `unsubscribe` sends on a live connection; characterised by UnsubscribeEffect and UnsubscribeMember |
| KiwoomManager.ConnectionManager.Unsubscribe | app/services/kiwoom_connection_manager.py:160-178 | keeps the invariant; the new state is `UnsubscribeNext` of the old; on a live connection the log gains the REMOVE frame of a dropped group |
| Kiwoom.UnsubscribeKeepsConsistent | app/services/kiwoom_connection_manager.py:160-178 | unsubscribing preserves the registry invariant |
| Kiwoom.UnsubscribeEffect | app/services/kiwoom_connection_manager.py:160-178 | three cases: no effect for a non-subscriber; only the stock's set shrinks for one of several subscribers; for the last subscriber the stock and its non-empty group leave every map and one REMOVE names that group |
| Kiwoom.UnsubscribeUndoesSubscribe | app/services/kiwoom_connection_manager.py:134-178 | unsubscribe right after subscribe restores the registry, except that a first subscription used up one counter value; the feed then sees REG and REMOVE for the same group |
| Kiwoom.UndoLaterSubscription | app/services/kiwoom_connection_manager.py:137-164 | subscribe then unsubscribe on a stock that already had subscribers gives back the registry exactly |
| Kiwoom.UndoFirstSubscription | app/services/kiwoom_connection_manager.py:142-171 | subscribe then unsubscribe on a new stock gives back the registry with the counter advanced by one |
| Kiwoom.UndoFirstSubscriptionFrames | app/services/kiwoom_connection_manager.py:149-176 | those two calls emit a REG and a REMOVE for the same group |
| Kiwoom.UnsubscribeMember | app/services/kiwoom_connection_manager.py:163-171 | for a subscribed client, the maps `unsubscribe` changes, as equations, and the REMOVE frame exactly when the client was the only subscriber |
| Kiwoom.ConsistentRegistered | app/services/kiwoom_connection_manager.py:169-170 | in a consistent registry every subscribed stock has a non-empty group, so `pop(..., None)` and `if grp_no:` always pass |
| Kiwoom.DisconnectNext | app/services/kiwoom_connection_manager.py:189-190 | the registry after the `unsubscribe` calls of a disconnect, in order; characterised by DisconnectDetaches, DisconnectPrefix and DisconnectKeepsConsistent |
| Kiwoom.DisconnectFrames | app/services/kiwoom_connection_manager.py:189-190 | the frames those calls send; characterised by DisconnectPrefixFrames and DisconnectDetaches |
| KiwoomManager.ConnectionManager.HandleDisconnect | app/services/kiwoom_connection_manager.py:180-190 | collects, without repeats, exactly the stocks the client subscribes to; the new state and the log are those of unsubscribing from them in that order; keeps the invariant |
| Kiwoom.DisconnectKeepsConsistent | app/services/kiwoom_connection_manager.py:189-190 | a run of unsubscribes preserves the registry invariant |
| Kiwoom.DisconnectPrefix | app/services/kiwoom_connection_manager.py:189-190 | after leaving some of its stocks, the subscriptions are `Detach` of the stocks handled, surviving stocks keep their groups, and the counter is unchanged |
| Kiwoom.DisconnectPrefixFrames | app/services/kiwoom_connection_manager.py:174-190 | the frames of a disconnect are one REMOVE per stock whose only subscriber was the client, in order, with that stock's group |
| Kiwoom.DisconnectLastFrames | app/services/kiwoom_connection_manager.py:167-176 | the last unsubscribe of a disconnect emits a REMOVE with the stock's original group exactly when the client was its only subscriber |
| Kiwoom.DisconnectDetaches | app/services/kiwoom_connection_manager.py:180-190 | afterwards the client is in no subscriber set and every other client's subscriptions are unchanged; stocks are dropped exactly where the client was the only subscriber, each gets one REMOVE with its group, and none repeats |
| Kiwoom.DetachStep | app/services/kiwoom_connection_manager.py:164-168 | one more stock handled moves the subscriptions as `unsubscribe` does: the set shrinks, or the emptied stock is deleted |
| Kiwoom.DetachSnapshot | app/services/kiwoom_connection_manager.py:183-186 | leaving the stocks the client is in is the same as leaving every stock |
| Kiwoom.DetachAllMemberships | app/services/kiwoom_connection_manager.py:180-190 | after leaving every stock the client is nowhere, no set is empty, and other clients' memberships are as before |
| Kiwoom.Dropped | app/services/kiwoom_connection_manager.py:167-168 | the stocks of the order whose only subscriber is the client, exactly |
| Kiwoom.DroppedDistinct | app/services/kiwoom_connection_manager.py:183-186 | the dropped stocks of a list without repeats have no repeats |
| Kiwoom.RemoveFramesAt | app/services/kiwoom_connection_manager.py:174-176 | one REMOVE frame per stock, the i-th carrying the i-th stock's group |
| Kiwoom.RegFrames | app/services/kiwoom_connection_manager.py:88-97 | the REG frames of `_resubscribe_all` in visiting order; characterised by RegFramesAt and ResubscribeRegistersEveryGroupOnce |
| KiwoomManager.ConnectionManager.ResubscribeAll | app/services/kiwoom_connection_manager.py:84-99 | changes no registry field; visits every stock with a group once; appends their REG frames in the order visited |
| Kiwoom.RegFramesAt | app/services/kiwoom_connection_manager.py:88-97 | one REG per stock, the i-th with the i-th stock's group and its code up to the first '.' |
| Kiwoom.ResubscribeRegistersEveryGroupOnce | app/services/kiwoom_connection_manager.py:84-99 | every live group is registered again exactly once, under its own id, with the code of the stock it was issued for |
| Kiwoom.TickRecipients | app/services/kiwoom_connection_manager.py:110-123 | the clients a REAL tick goes to; characterised by RecipientsOnlyForGroupKeyedStocks and SixDigitCodesReceiveNoTicks |
| KiwoomManager.ConnectionManager.Recipients | app/services/kiwoom_connection_manager.py:110-123 | the clients a REAL tick goes to; non-empty exactly when the tick's group is live and is itself a subscribed stock code |
| Kiwoom.RecipientsOnlyForGroupKeyedStocks | app/services/kiwoom_connection_manager.py:111-114 | with the self-mapping that line 145 writes, a tick reaches someone iff its group is live and is a subscribed stock key, and then reaches that key's subscribers |
| Kiwoom.SixDigitCodesReceiveNoTicks | app/services/kiwoom_connection_manager.py:111-114 | given the self-mapping of line 145 and with six-character stock codes and at most 10000 groups issued, no tick reaches any client |
| PeriodExtraction.ExtractPeriod | app/services/nlp_service.py:15-21 | `extract_period`; no ensures of its own, characterised by FirstKeywordWins, WholeHistoryOnlyWithoutKeyword, NoPeriodIff and PeriodRange |
| PeriodExtraction.FirstKeywordWins | app/services/nlp_service.py:15-18 | the answer is the days of the first table keyword, in table order, that occurs in the text |
| PeriodExtraction.WeekBeatsEverything | app/services/nlp_service.py:3-18 | a text containing "일주일" means 7 days, whatever else it contains |
| PeriodExtraction.WholeHistoryOnlyWithoutKeyword | app/services/nlp_service.py:15-20 | -1 comes back iff no keyword occurs and "전체" does |
| PeriodExtraction.NoPeriodIff | app/services/nlp_service.py:15-21 | `None` comes back iff neither a keyword nor "전체" occurs |
| PeriodExtraction.PeriodRange | app/services/nlp_service.py:3-21 | every answer is 7, 30, 90, 365, 1095, 1825 or -1 |
| PeriodExtraction.TableDays | app/services/nlp_service.py:3-13 | every day count in the table is one of the six chart lengths |
| Search.FirstWhere | app/services/nlp_service.py:16-18 | the first index satisfying the test, or `None` iff no element satisfies it |
| Search.FirstWhereAt | app/api/whisper.py:23-25 | the first satisfying element is the one found |
| SpeechQuery.ClassifyIntent | app/api/whisper.py:31-41 | `classify_intent`; characterised by ClassifyIntentIsDecisionList, ClassifyIntentLabels and ClassifyIntentPrecedence |
| SpeechQuery.ByRules | app/api/whisper.py:31-41 | a decision list answers one of its rules' answers or "기타" |
| SpeechQuery.ClassifyIntentIsDecisionList | app/api/whisper.py:31-41 | the hand-written cascade agrees, on every text, with the four-rule decision table read top to bottom |
| SpeechQuery.ClassifyIntentLabels | app/api/whisper.py:31-41 | the answer is always one of the five labels |
| SpeechQuery.ClassifyIntentPrecedence | app/api/whisper.py:31-41 | each label, iff its keyword occurs and no keyword of an earlier rule does |
| SpeechQuery.FindStockName | app/api/whisper.py:22-29 | `find_stock_name`; characterised by FindStockNameListed, FindStockNameFirstInText, FindStockNameFirstByPrefix, FindStockNameNone and BlankTextPicksFirstName |
| SpeechQuery.FindStockNameListed | app/api/whisper.py:22-29 | any name found is a listed name |
| SpeechQuery.FindStockNameFirstInText | app/api/whisper.py:23-25 | the first listed name occurring in the text is the answer |
| SpeechQuery.FindStockNameFirstByPrefix | app/api/whisper.py:26-28 | when no name occurs in the text, the first name starting with the stripped text is the answer |
| SpeechQuery.FindStockNameNone | app/api/whisper.py:22-29 | `None` iff no name occurs in the text and none starts with the stripped text |
| SpeechQuery.VisibleNameNotInBlank | app/api/whisper.py:24 | a name with a visible character never occurs in a white-space-only text |
| SpeechQuery.BlankTextPicksFirstName | app/api/whisper.py:22-29 | a white-space-only text strips to "", so the first listed name is chosen |
| SpeechQuery.PadStockCode | app/api/whisper.py:17 | the code, left-padded to six characters; longer codes are unchanged |
| SpeechQuery.PadStockCodeKeepsValue | app/api/whisper.py:17 | padding `str(n)` keeps it all digits with value n, and gives exactly six characters iff n < 1000000 |
| GptParser.JsonSpan | app/nlp/gpt_parser.py:93-98 | the slice `result[find('{'):rfind('}') + 1]`, or `None`; characterised by JsonSpanBounds |
| GptParser.JsonSpanBounds | app/nlp/gpt_parser.py:93-98 | no span iff the reply lacks '{' or '}'; the span is empty iff the last '}' comes before the first '{'; a non-empty span starts with '{', ends with '}', and has no '{' before it and no '}' after it in the reply |
| GptParser.JsonSpanEmpty | app/nlp/gpt_parser.py:94-98 | the span is empty exactly when the last '}' stands before the first '{' (Python's empty slice) |
| GptParser.ExtractIntent | app/nlp/gpt_parser.py:89-116 | `extract_intent` after the model call; characterised by ExtractIntentResult |
| GptParser.ExtractIntentResult | app/nlp/gpt_parser.py:89-116 | `None` without a brace pair or when decoding fails; otherwise the decoded record repaired, which a second repair leaves unchanged |
| GptParser.RealtimeChartRule | app/nlp/gpt_parser.py:100-103 | repair 1; characterised by NormalizeRealtimeChart and NormalizeLeavesUntouched |
| GptParser.IndicatorCodeRule | app/nlp/gpt_parser.py:105-107 | repair 2; characterised by NormalizeIndicatorCode and NormalizeLeavesUntouched |
| GptParser.UsCodeRule | app/nlp/gpt_parser.py:109-111 | repair 3; characterised by NormalizeUsCode and NormalizeLeavesUntouched |
| GptParser.Normalize | app/nlp/gpt_parser.py:100-111 | the three repairs in order; characterised by the Normalize lemmas below |
| GptParser.NormalizeKeepsOtherKeys | app/nlp/gpt_parser.py:100-111 | keys other than "intent", "period" and "code" pass through unchanged |
| GptParser.NormalizeKeepsKeys | app/nlp/gpt_parser.py:100-111 | no key is added; only "period" can be dropped, and only by the realtime-chart rule |
| GptParser.NormalizeRealtimeChart | app/nlp/gpt_parser.py:100-103 | a chart record with period "realtime_chart" becomes intent "realtime_chart" without a period |
| GptParser.NormalizeIndicatorCode | app/nlp/gpt_parser.py:105-107 | an indicator record's code is cut at its first '.' and then has none; a code without '.' is kept |
| GptParser.NormalizeUsCode | app/nlp/gpt_parser.py:109-111 | a US record's dotted code is cut at its first '.' |
| GptParser.NormalizeIntentAfterRepair | app/nlp/gpt_parser.py:100-107 | an indicator or chart intent coming out went in as one; a chart keeps its period, which is not "realtime_chart" |
| GptParser.NormalizeLeavesUntouched | app/nlp/gpt_parser.py:100-111 | a repair that does not fire leaves its key alone: intent and period unless repair 1 fires, the code unless repair 2 or 3 fires |
| GptParser.NormalizeCodeIsPrefix | app/nlp/gpt_parser.py:105-111 | the repaired code is a prefix of the original |
| GptParser.NormalizeIdempotent | app/nlp/gpt_parser.py:100-111 | repairing a repaired record changes nothing |
| Text.BeforeDot | app/nlp/gpt_parser.py:107 | `s.split('.')[0]`; characterised by BeforeDotSpec and BeforeDotIdempotent |
| Text.BeforeDotSpec | app/nlp/gpt_parser.py:107 | `split('.')[0]` is a prefix without '.', followed by the first '.' when there is one, and the whole string when there is none |
| Text.BeforeDotIdempotent | app/nlp/gpt_parser.py:111 | cutting at the first '.' twice is cutting once |
| Text.Find | app/nlp/gpt_parser.py:93 | `find`: -1 iff the character is absent, else its first index |
| Text.RFind | app/nlp/gpt_parser.py:94 | `rfind`: an index holding the character with none after it, or -1 when there is none |
| Text.Strip | app/api/whisper.py:27 | `strip`: `s` less exactly its leading and trailing white space (some index where the result sits with only white space before and after it); empty iff the text is all white space; no white space at either end |
| Text.RFindAbsent | app/nlp/gpt_parser.py:94-95 | `rfind` gives -1 exactly when the character is absent, and otherwise no later index holds it |
| Text.Contains | app/api/whisper.py:24 | `key in text`; characterised by ContainsAt |
| Text.StripExact | app/api/whisper.py:27 | what `strip` keeps sits in the text with only white space before and after it |
| Text.ContainsAt | app/api/whisper.py:24 | `key in text` iff the key sits at some index of the text |
| Text.ZFill | app/api/whisper.py:17 | `s.zfill(width)`: the result has length max(|s|, width) and a string already that long is returned unchanged; the padding is ZFillPadding |
| Text.ZFillPadding | app/api/whisper.py:17 | `zfill` adds only '0's, after a sign and before the rest |
| Text.Decimal | app/services/kiwoom_connection_manager.py:32 | `str(n)`: at least one character, no leading zero for n > 0; its digits are DecimalDigits and its value DecimalRoundTrip |
| Text.DecimalRoundTrip | app/api/whisper.py:17 | reading back `str(n)` gives n |
| IntentRoute.ParseIntent | app/api/intent.py:11-51 | the handler `parse_intent` after extraction; characterised by the IntentRoute lemmas below |
| IntentRoute.ParseFailureIff | app/api/intent.py:14-15 | the parse-failure error comes back iff the extractor's result is falsy |
| IntentRoute.MissingKeyIff | app/api/intent.py:17-19 | the handler fails on a missing key iff a truthy record lacks "intent", "code" or "name", and it names the first missing one in that order |
| IntentRoute.RouteEchoesRecord | app/api/intent.py:17-49 | every route echoes the record's name, code and intent, and its market or "KR" |
| IntentRoute.ChartRoute | app/api/intent.py:22-31 | a chart record goes to the chart path with its period, "3mo" by default |
| IntentRoute.IndicatorRoute | app/api/intent.py:33-40 | an indicator record gets exactly the indicator route, with its market or "KR" and no period |
| IntentRoute.PriceRoute | app/api/intent.py:42-49 | a current_price, high_limit or low_limit record gets exactly the price route under its own intent, with no period |
| IntentRoute.RoutePathByIntent | app/api/intent.py:22-49 | the path is decided by the intent alone, and only a chart route carries a period |
| IntentRoute.UnsupportedIntentNamed | app/api/intent.py:51 | any other intent gives an error whose message contains that intent |
| IntentRoute.RepairedRecordsRouteCleanly | app/api/intent.py:17-40 | a repaired record is never routed to an indicator with a dotted code, nor to a chart with period "realtime_chart" |

## Left out

- Network and timing are not modelled: the Kiwoom socket, login, the reconnect
  loop (`connect_and_manage`), `asyncio.sleep` and the reader task's receive
  loop. Whether a frame goes out is the parameter `connected`, which stands
  for `is_running and kiwoom_ws.open`. Sending is an append to the ghost log
  `sent`.
- The singleton `__new__` is replaced by an explicit constructor. The lock is
  not modelled: each locked method is one atomic step.
- KiwoomManager.ConnectionManager.HandleDisconnect: the original awaits
  `unsubscribe` while holding the manager's non-reentrant lock, and
  `unsubscribe` takes that lock again. As written, it never completes once the
  client has a subscription. The method models the intended sequential effect.
- Send failures are not modelled: the `try/except` around the send in
  `_resubscribe_all` and the prints. Every send is taken to succeed.
- KiwoomManager.ConnectionManager.ResubscribeAll: dictionary iteration order
  becomes an arbitrary order without repeats, returned as the ghost `order`.
  `HandleDisconnect` does the same.
- The reader task's JSON decoding, and the enrichment and send of the
  message, are not modelled. Only the choice of recipients is.
- `owner` (the stock each live group was issued for) and `sent` are ghost
  bookkeeping. The original keeps neither.
- The `KeyError` of `del grp_to_stock[grp_no]` is not modelled as an error. The
  registry invariant rules it out; `UnsubscribeNext` simply removes the key.
- JSON decoding in `extract_intent` is the function parameter `decode`. Only
  `json.JSONDecodeError` (its `None`) is modelled. Decoded records are
  string-to-string maps: non-string values and a top-level non-object are not
  modelled.
- The OpenAI request that produces the reply text is not modelled. The reply
  is a parameter.
- The stock table (CSV loading, the pandas DataFrame, `cp949` decoding) is not
  modelled. `FindStockName` takes the name column as a sequence.
  `PadStockCode` is the per-cell padding, and PadStockCodeKeepsValue covers
  numeric cells read as non-negative integers.
- `parse_query`'s code lookup and the FastAPI router glue are not modelled.
- `transcribe` (speech to text) is not part of this model.
- IntentRoute.ParseIntent: a `KeyError` on a missing required key is the reply
  `MissingKey(key)`, not a server error response.
- Text.IsSpace covers the code points Python's `str.isspace()` accepts. No
  Unicode normalisation is modelled.
