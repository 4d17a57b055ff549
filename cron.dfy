/** The two scheduled endpoints: collecting prices into the history and
    evaluating the alert rules. Each turns any failure into a failure record
    carrying the error message and one failure report to the operator. The
    provider reply, the clock and store failures are inputs. */
module Cron {
  import opened Common
  import opened CoinGecko
  import opened PriceStore
  import opened RuleStore
  import opened Notifier
  import opened Alerts

  const CollectTask := "数据收集任务"
  const AnalyzeTask := "数据分析任务"
  const NoPricesError := "No prices returned from CoinGecko"

  /** The JSON record an endpoint answers with. */
  datatype CronResult =
    | Collected(count: nat, prices: map<string, real>, timestamp: int)
    | Analyzed(checked: nat, triggered: nat)
    | Failure(error: string)

  /** `collect_data`: fetch, refuse an empty map, then one batch write under
      the single timestamp `now`. `rejects` lists the symbols whose insert the
      store refuses, with the error it raises. */
  method CollectData(fetch: FetchOutcome, history: PriceHistory, mailer: Mailer, now: int,
                     rejects: map<string, string>)
    returns (res: CronResult, ghost parsed: map<string, real>, ghost batch: seq<PricePoint>, ghost order: seq<string>)
    modifies history, mailer
    ensures res.Collected? || res.Failure?
    ensures Failed(fetch) ==> res == Failure(FetchPricesError + fetch.reason)
    ensures !Failed(fetch) ==> ParsedFrom(fetch.body, parsed)
    ensures !Failed(fetch) && parsed == map[] ==> res == Failure(NoPricesError)
    ensures !Failed(fetch) && parsed != map[] ==>
      (res.Failure? <==> exists k :: k in parsed && Upper(k) in rejects)
    ensures !Failed(fetch) && parsed != map[] && res.Failure? ==>
      exists k :: k in parsed && Upper(k) in rejects && res.error == rejects[Upper(k)]
    ensures res.Failure? ==> history.points == old(history.points)
    ensures res.Failure? ==> mailer.outbox == old(mailer.outbox) + AdminNotice(mailer.adminEmail, res.error, CollectTask)
    ensures res.Collected? ==>
      && !Failed(fetch) && res == Collected(|parsed|, parsed, now) && parsed != map[]
      && IsBatch(batch, parsed, now, order)
      && history.points == old(history.points) + batch
      && mailer.outbox == old(mailer.outbox)
  {
    parsed, batch, order := map[], [], [];
    var fetched := GetPrices(fetch);
    var error: string;
    if fetched.Err? {
      error := fetched.error;
    } else {
      var prices := fetched.value;
      parsed := prices;
      if prices == map[] {
        error := NoPricesError;
      } else {
        var stored;
        stored, order := history.BulkCreate(prices, Some(now), now, rejects);
        if stored.Ok? {
          batch := stored.value;
          return Collected(|prices|, prices, now), parsed, batch, order;
        }
        error := stored.error;
      }
    }
    var _ := mailer.SendAdminAlert(error, CollectTask);
    res := Failure(error);
  }

  /** After a successful collection stamped no earlier than every stored
      point, the latest prices are the old ones overridden by the fetched
      map: the next evaluation sees exactly what was just collected. */
  lemma CollectedPricesAreLatest(ps: seq<PricePoint>, body: Body, parsed: map<string, real>,
                                 batch: seq<PricePoint>, now: int, order: seq<string>)
    requires ParsedFrom(body, parsed) && IsBatch(batch, parsed, now, order)
    requires forall i :: 0 <= i < |ps| ==> ps[i].timestamp <= now
    ensures LatestPricesOf(ps + batch) == LatestPricesOf(ps) + parsed
    ensures forall c :: c in CoinIds && Quoted(body, c) ==>
      LatestPricesOf(ps + batch)[CoinIds[c]] == body[c][UsdField]
  {
    ParsedShape(body, parsed);
    LatestAfterBatch(ps, batch, parsed, now, order);
  }

  /** `analyze_data`: run the evaluator and pass its two counters through.
      `storeError` is a failure of the store while reading the snapshot, which
      happens before anything is changed. */
  method AnalyzeData(table: RuleTable, history: PriceHistory, users: map<nat, string>, mailer: Mailer,
                     storeError: Option<string>)
    returns (res: CronResult, ghost snapshot: seq<Row>)
    requires table.Valid()
    modifies table, mailer
    ensures res.Analyzed? || res.Failure?
    ensures table.Valid() && table.nextId == old(table.nextId)
    ensures res.Failure? <==> storeError.Some?
    ensures res.Failure? ==>
      && res.error == storeError.value
      && table.rows == old(table.rows)
      && mailer.outbox == old(mailer.outbox) + AdminNotice(mailer.adminEmail, res.error, AnalyzeTask)
    ensures res.Analyzed? ==>
      var t := Evaluate(snapshot, history.LatestPrices(), users);
      && IsActiveSnapshot(old(table.rows), snapshot)
      && res == Analyzed(t.checked, t.triggered)
      && table.rows == Deactivate(old(table.rows), t.deactivated)
      && mailer.outbox == old(mailer.outbox) + t.emails
  {
    if storeError.Some? {
      var _ := mailer.SendAdminAlert(storeError.value, AnalyzeTask);
      return Failure(storeError.value), [];
    }
    var checked, triggered;
    checked, triggered, snapshot := ProcessAlerts(table, history, users, mailer);
    res := Analyzed(checked, triggered);
  }
}
