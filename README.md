# Crypto price alerts: a verified model of the collection and alert pipeline

The system watches a fixed set of crypto currencies. A scheduled
`collect-data` job fetches USD quotes from CoinGecko and appends them to a
price history. A scheduled `analyze-data` job reads the latest price of
every currency once, then judges every active alert rule (`BTC > 50000`)
against that snapshot. It e-mails the owner of each triggered rule whose
owner is found and switches that rule off. Users create, edit, delete and toggle their rules
through validated forms. A failed job reports its error to an operator
address.

The model in Dafny:

- `common.dfy` (`Common`): `Option`/`Result` and ASCII upper-casing.
- `coingecko.dfy` (`CoinGecko`): the supported-coin table, forward and reverse lookup, request headers. It also converts a provider reply into a symbol→price map.
- `notifier.dfy` (`Notifier`): the mail relay as an outbox of attempted messages. Whether a delivery succeeds is left open.
- `price_history.dfy` (`PriceStore`): the append-only price series as a class over `seq<PricePoint>`. The latest-price queries are functions of the series.
- `alert_rule.dfy` (`RuleStore`): the rule table as a class over `map<nat, Row>`. Rule objects are a class whose `Update` changes the object and the stored row.
- `alert_service.dfy` (`Alerts`): the trigger decision, and the evaluation loop proved against a specification function `Evaluate`.
- `alerts_view.dfy` (`AlertViews`): the create/edit validation ladders and the ownership guard.
- `cron.dfy` (`Cron`): the two scheduled endpoints.

A triggered rule is deactivated only when its owner is found: the
`rule.update(is_active=False)` call sits inside the `if user:` branch
(app/services/alert.py:62-73). The model follows the code. A triggered rule
without an owner is counted as triggered, gets no e-mail and stays active.
`RerunOnlyOwnerless` shows that such rules are the only ones that fire
again on a second run.

Inputs standing in for the outside world:

- the HTTP reply, or a transport error (a `FetchOutcome`);
- the outcome of `float(threshold)` (`Option<real>`);
- the clock (`now`);
- the user table, as a map from user id to e-mail address;
- the configured operator address and API key;
- store refusals: `rejects` for the batch insert, `storeError` for the evaluation job.

## Model

| member | source | states |
|---|---|---|
| Common.Upper | app/services/coingecko.py:100 | upper-casing keeps the length, replaces each lower-case ASCII letter by its capital (code point minus 32) and keeps every other character, so it yields no lower-case letter and leaves an upper-case string unchanged |
| Common.UpperIdempotent | app/models/alert_rule.py:111-114 | upper-casing twice is upper-casing once |
| CoinGecko.CoinOrderListsIds | app/services/coingecko.py:16-24 | the declared order lists every provider id exactly once |
| CoinGecko.CoinOrderDistinct | app/services/coingecko.py:16-24 | no provider id appears twice in the declared order |
| CoinGecko.SymbolsDistinct | app/services/coingecko.py:16-24 | no two provider ids share a symbol, so the table is injective |
| CoinGecko.SymbolsUpper | app/services/coingecko.py:16-24 | every supported symbol is upper case |
| CoinGecko.SupportedCurrencies | app/services/coingecko.py:106-109 | the copy has exactly the table's keys and values |
| CoinGecko.SymbolForCoin | app/services/coingecko.py:92-95 | a symbol is returned exactly for a supported id, and it is that id's supported symbol |
| CoinGecko.CoinForSymbol | app/services/coingecko.py:97-104 | case-insensitive: an id is returned exactly when the upper-cased symbol is supported, and it is the id mapping to it; round trip: the symbol of any id c maps back to c; None for unsupported symbols |
| CoinGecko.FindCoin | app/services/coingecko.py:100-104 | the same search over any injective id table walked in an order covering it: an id exactly when the symbol is a value, and then the unique id mapping to it |
| CoinGecko.Headers | app/services/coingecko.py:29-34 | `Accept: application/json` is always present; the API-key header is present exactly when a non-empty key is configured, and carries it; there are no other headers |
| CoinGecko.ParsePrices | app/services/coingecko.py:55-61 | the map has only supported symbols; a symbol is present exactly when its coin's entry has a `usd` field, with that field's value |
| CoinGecko.CollectQuotes | app/services/coingecko.py:56-59 | the same loop over any injective id table and duplicate-free order: keys within the symbols, present exactly for quoted coins, with the quoted value |
| CoinGecko.ParsedFromUnique | app/services/coingecko.py:55-61 | the reply fully determines the symbol map |
| CoinGecko.ParsedShape | app/services/coingecko.py:55-61 | the map is empty exactly when no supported coin is quoted; its keys are upper case |
| CoinGecko.GetPrices | app/services/coingecko.py:36-63 | a transport error or a 4xx/5xx status gives an error (prefixed message, never a partial map) and nothing else does; otherwise the parsed map |
| CoinGecko.IsErrorStatus | app/services/coingecko.py:51 | `raise_for_status` rejects exactly the 4xx and 5xx codes |
| CoinGecko.Failed | app/services/coingecko.py:50-51 | a transport error always fails the fetch, a 2xx reply never does, and a 4xx reply always does |
| CoinGecko.GetPrice | app/services/coingecko.py:65-90 | error exactly on transport error or error status; otherwise the coin's `usd` value, or None exactly when it is not quoted |
| Notifier.AdminNotice | app/services/email.py:77-89 | one message to the operator when an address is configured, none otherwise |
| Notifier.Mailer.constructor | app/services/email.py:17-20 | a relay with the configured operator address and an empty outbox |
| Notifier.Mailer.SendAlertEmail | app/services/email.py:28-75 | exactly one alert message is recorded with the given fields; the delivery result is unconstrained |
| Notifier.Mailer.SendAdminAlert | app/services/email.py:77-119 | records the operator notice (nothing when no address is configured), and answers false when unconfigured |
| PriceStore.LatestPoints | app/models/price_history.py:44-50 | the `DISTINCT ON` query as a fold over the series: each symbol is mapped to a point of that symbol (its newest one, by `LatestPointsAt`) |
| PriceStore.LatestPricesOf | app/models/price_history.py:44-53 | the dict `get_latest_prices` builds from the `DISTINCT ON` rows: each symbol of the fold mapped to its point's price; its meaning is stated by `LatestPricesSpec` (exactly the recorded symbols, each at its newest price) |
| PriceStore.LatestOf | app/models/price_history.py:61-68 | the `LIMIT 1` query: a point of the asked symbol drawn from the series, and None exactly when the symbol has no point |
| PriceStore.LatestAtUnique | app/models/price_history.py:44-47 | the point the latest-price queries select for a symbol is unique |
| PriceStore.LatestPointsAt | app/models/price_history.py:44-50 | the fold has a symbol exactly when the series has a point for it, and then holds its newest point |
| PriceStore.LatestPricesSpec | app/models/price_history.py:44-50 | the latest map has exactly the recorded symbols, each with the price of its newest point |
| PriceStore.LatestOfAt | app/models/price_history.py:61-68 | the single-symbol query finds a point exactly when one exists, and it is the newest |
| PriceStore.LatestOfAgrees | app/models/price_history.py:56-68 | the single-symbol query and the all-symbol query agree |
| PriceStore.PriceHistory.constructor | app/services/db.py:47-54 | a freshly created `price_history` table holds no points |
| PriceStore.PriceHistory.Create | app/models/price_history.py:17-35 | appends exactly one point with the upper-cased symbol, stamped `now` unless a timestamp is given; earlier points untouched |
| PriceStore.PriceHistory.BulkCreate | app/models/price_history.py:74-98 | fails exactly when some insert is refused, and then leaves the series unchanged; otherwise appends one point per entry, upper-cased, all under the same timestamp |
| PriceStore.PriceHistory.LatestPrices | app/models/price_history.py:38-53 | exactly the symbols with a point, each with the price of a newest point |
| PriceStore.PriceHistory.LatestPrice | app/models/price_history.py:55-71 | upper-cases the symbol and agrees with the all-symbol map there, None when absent |
| PriceStore.LatestAfterBatch | app/models/price_history.py:74-98 | after a batch of upper-case keys, not older than the series, the latest map is the old one overridden by the batch |
| PriceStore.LatestAfterBatchAt | app/models/price_history.py:44-47 | the per-symbol form: batch symbols report the batch price, other symbols keep theirs |
| PriceStore.BatchCurrencies | app/models/price_history.py:80-93 | the batch lists each upper-case key of the price map once, in the walk order, with the common timestamp |
| PriceStore.BatchSymbolNewest | app/models/price_history.py:44-47 | a symbol of the batch has, after the batch, a newest point carrying the batch price |
| PriceStore.BatchPointIsLatest | app/models/price_history.py:44-47 | the batch point of a symbol is the newest point of the extended series for it |
| PriceStore.LatestPointIs | app/models/price_history.py:44-47 | the fold picks the newest point of a symbol |
| PriceStore.OtherSymbolKept | app/models/price_history.py:44-47 | a symbol outside the batch keeps its newest point, and stays absent when it had none |
| PriceStore.FirstBatch | app/models/price_history.py:44-53 | on an empty history, the latest prices after one batch of upper-case keys are exactly the batch's map |
| PriceStore.TwoBatchesExample | app/models/price_history.py:45-47 | {BTC:50000, ETH:3000} at t1, then {BTC:51000} at t2 > t1, give {BTC:51000, ETH:3000} |
| PriceStore.FirstBatchExample | app/models/price_history.py:45-47 | the first batch alone gives {BTC:50000, ETH:3000}, all stamped t1 |
| RuleStore.Patch | app/models/alert_rule.py:109-126 | the object side of `update`: each passed field takes the passed value (a currency upper-cased), every field not passed keeps its value, so an upper-case currency stays upper case |
| RuleStore.PatchKeepsIdentity | app/models/alert_rule.py:109-126 | an update never touches id, owner or creation time; with no fields it changes nothing |
| RuleStore.PatchIdempotent | app/models/alert_rule.py:109-126 | applying the same update twice equals applying it once |
| RuleStore.Written | app/models/alert_rule.py:128-134 | the `UPDATE ... WHERE id` rewrites only that row, and only if it exists |
| RuleStore.InsertNewestFirst | app/models/alert_rule.py:47-49 | inserting keeps every row and adds the new one |
| RuleStore.InsertKeepsNewestFirst | app/models/alert_rule.py:47-49 | insertion keeps the `created_at DESC` order |
| RuleStore.InsertKeepsDistinct | app/models/alert_rule.py:47-49 | insertion of a new id keeps ids distinct |
| RuleStore.AlertRule.constructor | app/models/alert_rule.py:9-17 | an object whose fields are the given row |
| RuleStore.AlertRule.Update | app/models/alert_rule.py:103-135 | the object gets exactly the passed fields, a new currency upper-cased; the stored row is rewritten the same way only when some field was passed; answers true; an object in sync with its row stays in sync |
| RuleStore.AlertRule.Delete | app/models/alert_rule.py:140-149 | removes only the row with this id |
| RuleStore.Snapshot | app/models/alert_rule.py:53-56 | the rows a list of rule objects holds, in order |
| RuleStore.NewRules | app/models/alert_rule.py:53-56 | one fresh, distinct object per fetched row |
| RuleStore.RuleTable.constructor | app/services/db.py:34-44 | a freshly created `alert_rules` table is empty and its `SERIAL` id sequence starts at 1 |
| RuleStore.RuleTable.Create | app/models/alert_rule.py:19-39 | one new row, active by default (app/services/db.py:41), under a fresh id, currency upper-cased, stamped `now`; other rows unchanged |
| RuleStore.RuleTable.FindById | app/models/alert_rule.py:62-81 | null exactly when the id is absent, else a fresh object equal to the row |
| RuleStore.RuleTable.FindAllActive | app/models/alert_rule.py:83-101 | exactly the active rows, each once |
| RuleStore.RuleTable.FindByUser | app/models/alert_rule.py:41-60 | exactly the user's rows, each once, newest first |
| RuleStore.RuleTable.Write | app/models/alert_rule.py:128-134 | the stored effect of an update |
| RuleStore.RuleTable.Remove | app/models/alert_rule.py:145 | the stored effect of a delete |
| Alerts.CheckRuleTriggered | app/services/alert.py:15-30 | `>` triggers exactly when price > threshold, `<` exactly when price < threshold, any other condition never |
| Alerts.EqualPriceNeverTriggers | app/services/alert.py:26-29 | a price equal to the threshold never triggers |
| Alerts.TriggerExamples | app/services/alert.py:26-30 | the boundary cases 0.00001234/0.00001235, 0.00001234/0.00001233 and 99999999.99/100000000.00, and `=` never triggering |
| Alerts.Fires | app/services/alert.py:51-58 | the rule's currency has a latest price and `check_rule_triggered` holds at it: the case that counts as triggered (`EvaluateCounts`) |
| Alerts.Notified | app/services/alert.py:57-62 | a rule that fires and whose owner is found: the only case that sends an e-mail and deactivates (`EvaluateDeactivated`, `EvaluateEmailsExact`) |
| Alerts.AlertFor | app/services/alert.py:64-70 | the e-mail `send_alert_email` is called with: the owner's address, the rule's currency, condition and threshold, and the snapshot price |
| Alerts.CountFiring | app/services/alert.py:57-58 | the reference count of firing rules is at most the number of rules |
| Alerts.CountFiringAppend | app/services/alert.py:57-58 | counting a list extended by one rule |
| Alerts.CountFiringNone | app/services/alert.py:57-58 | no firing rule means a count of zero |
| Alerts.Step | app/services/alert.py:48-73 | one iteration: the rule is counted, counted as triggered exactly when it has a price and fires, and deactivated and sent one e-mail to its owner exactly when it also has an owner; earlier e-mails are kept |
| Alerts.Evaluate | app/services/alert.py:47-73 | the loop over the snapshot as repeated `Step`s from zero counters; its properties are `EvaluateBounds`, `EvaluateCounts`, `EvaluateDeactivated` and the e-mail lemmas |
| Alerts.EvaluateBounds | app/services/alert.py:44-73 | every rule is checked once, no more rules trigger than are checked, and there are no more e-mails than triggered rules |
| Alerts.EvaluateCounts | app/services/alert.py:44-58 | `alerts_checked` is the number of active rules; `alerts_triggered` is the number of rules whose price exists and whose condition holds (owner or not), so at most `alerts_checked` |
| Alerts.EvaluateDeactivated | app/services/alert.py:57-73 | a rule id is deactivated exactly when a rule with it triggered and its owner was found |
| Alerts.EvaluateEmailsSound | app/services/alert.py:61-70 | every alert e-mail goes to a found owner of a triggered rule, with the snapshot price; no more e-mails than triggered rules |
| Alerts.EvaluateEmailsComplete | app/services/alert.py:61-70 | every triggered rule with a found owner had its e-mail attempted |
| Alerts.NotifiedAlerts | app/services/alert.py:57-70 | the reference outbox, read front to back: one alert per triggered rule with a found owner, in snapshot order; never longer than the count of firing rules |
| Alerts.NotifiedAlertsAppend | app/services/alert.py:57-70 | the reference outbox of a list extended by one rule gains exactly that rule's alert when it is notified, and nothing otherwise |
| Alerts.EvaluateEmailsExact | app/services/alert.py:47-73 | the outbox of a run is exactly one `send_alert_email` per notified rule, in snapshot order: no rule e-mailed twice, none skipped |
| Alerts.Deactivate | app/services/alert.py:73 | deactivation never removes or adds a row |
| Alerts.DeactivateOneMore | app/services/alert.py:73 | one more `update(is_active=False)` is one more deactivated id |
| Alerts.DeactivatedAreNotified | app/services/alert.py:47-73 | over an active snapshot, the deactivated ids are exactly the active rows that triggered and have an owner |
| Alerts.RunOutcome | app/services/alert.py:47-73 | after a run each row is either switched off (active, triggered, owner found) or exactly as before, whatever the snapshot order and delivery results |
| Alerts.RerunOnlyOwnerless | app/services/alert.py:57-73 | after a run, the only active rules that still fire on the same prices are ownerless ones |
| Alerts.SecondRunQuiet | app/services/alert.py:57-73 | with every owner present, a second run on the same prices triggers nothing |
| Alerts.SingleRuleExample | app/services/alert.py:32-75 | one rule BTC > 50000 at 55000 gives (1, 1) and is switched off; a second run gives (0, 0) |
| Alerts.SingleRowSnapshot | app/models/alert_rule.py:89-91 | the active snapshot of a one-row active table is that row |
| Alerts.SharedIdAtMostOne | app/models/alert_rule.py:89-91 | a duplicate-free snapshot holds at most one row per id |
| Alerts.NoActiveRowsNoSnapshot | app/models/alert_rule.py:89-91 | a table without active rows has an empty snapshot |
| Alerts.EvaluateSnoc | app/services/alert.py:47-73 | one more loop iteration is one more `Step` |
| Alerts.ProcessAlerts | app/services/alert.py:32-75 | one snapshot of active rules and one price map; counters, table and outbox are those of `Evaluate` over that snapshot; nothing else in the table changes |
| Alerts.ProcessSnapshot | app/services/alert.py:47-73 | the loop over the rule objects realises `Evaluate`: counters, table and outbox |
| Alerts.ProcessRule | app/services/alert.py:48-73 | one iteration: counts the rule, skips it without a price or trigger, otherwise counts it as triggered and, with an owner, sends the e-mail and deactivates it |
| AlertViews.ValidateCreate | app/views/alerts.py:27-51 | the ladder in source order: missing fields, unsupported upper-cased currency, condition other than `>`/`<`, threshold unparsable or ≤ 0, each reported exactly when the earlier checks pass; accepted fields are the upper-cased currency, the condition and the parsed threshold |
| AlertViews.ValidateEdit | app/views/alerts.py:83-100 | only non-empty fields and a positive threshold are checked; an accepted form updates all four fields, the active flag on exactly when the checkbox sent "on" |
| AlertViews.CreatedRuleSound | app/views/alerts.py:33-60 | every rule the create form accepts is supported, upper case, with a valid condition and a positive threshold |
| AlertViews.EditSkipsCurrencyAndCondition | app/views/alerts.py:90-109 | a form the create form refuses (currency `doge2`, condition `=`) passes the edit form and stores a rule no create check would accept |
| AlertViews.EditKeepsThresholdsPositive | app/views/alerts.py:94-109 | an accepted edit keeps every stored threshold positive |
| AlertViews.ListAlerts | app/views/alerts.py:10-17 | the current user's rules, newest first |
| AlertViews.CreateAlert | app/views/alerts.py:20-65 | a rejected form stores nothing; an accepted one stores exactly one new active rule, owned by the current user, with the validated fields |
| AlertViews.EditAlert | app/views/alerts.py:70-114 | absent or foreign rule: not found, nothing changes; rejected form: nothing changes; otherwise only that rule gets the four fields |
| AlertViews.DeleteAlert | app/views/alerts.py:119-136 | removes the rule exactly when it exists and is the current user's; otherwise nothing changes |
| AlertViews.ToggleAlert | app/views/alerts.py:139-157 | behind the same guard flips only the active flag and reports the new state; otherwise nothing changes |
| Cron.CollectData | app/views/cron.py:12-47 | a fetch error, an empty map or a refused insert fails with its message, stores nothing and attempts one operator notice; otherwise one batch of the parsed map under `now`, count equal to the map size, no notice |
| Cron.CollectedPricesAreLatest | app/views/cron.py:21-28 | when no stored point is newer than `now`, after a successful collection the latest map is the old one overridden by the fetched map, so every quoted coin's latest price is the value just fetched; with a clock that steps back the highest-timestamp rule of app/models/price_history.py:45-47 would keep the older point |
| Cron.AnalyzeData | app/views/cron.py:50-77 | success passes the evaluator's (checked, triggered) through; a store failure leaves the table unchanged, yields its message and attempts one operator notice |

## Left out

- HTTP, SMTP, JSON decoding and the database connection are not modelled. Replies, delivery results and store failures are inputs.
- Session handling, `login_required` and password hashing (app/views/auth.py, app/models/user.py) are not modelled. The evaluator sees users as a map from id to e-mail address.
- Page rendering and the flashed message texts are not modelled. Each rejection is a `FormError` value.
- The GET branches of the form views are not modelled, because they only render.
- Prices are exact reals. Floating point and the store's `NUMERIC(20,8)` rounding are not modelled.
- `float("nan")` and `float("inf")` pass the `<= 0` test in the source. Parse outcomes here are reals, so these cases are not covered.
- Column widths (`VARCHAR(10)` currency, `CHAR(1)` condition) are not enforced.
- Upper-casing is ASCII only. Python's Unicode case mapping is not modelled.
- A reply whose JSON is not an object of objects is not modelled.
- Point ids and rule creation times come from the database. Points carry no id, and `created_at` is the `now` parameter.
- On equal timestamps, the latest-price queries select the most recently inserted point. SQL leaves that choice unspecified.
- PriceStore.PriceHistory.BulkCreate: the iteration order of the input map is an arbitrary duplicate-free order, not Python's insertion order.
- Cron.AnalyzeData: a store failure is modelled only before the evaluation changes anything. A failure part-way through the loop, after earlier rules were already switched off, is not modelled.
- The exception paths of single-row create, update and delete (database errors after validation) are not modelled. The store accepts them.
- Concurrent runs of the two jobs are not modelled.
- `get_price` is modelled but is not used by the pipeline.
