/** The price history: an append-only series of observed prices. Writes only
    append (one point, or one batch committed at the end); the "latest price"
    queries are functions of the series. */
module PriceStore {
  import opened Common

  /** One observation. Timestamps are abstract instants supplied by the caller. */
  datatype PricePoint = PricePoint(currency: string, price: real, timestamp: int)

  predicate HasSymbol(ps: seq<PricePoint>, s: string)
  {
    exists i :: 0 <= i < |ps| && ps[i].currency == s
  }

  /** Point `i` is the one the latest-price queries select for `s`: no point
      of `s` is newer, and among equally new ones it was inserted last. */
  ghost predicate IsLatestAt(ps: seq<PricePoint>, s: string, i: int)
  {
    && 0 <= i < |ps|
    && ps[i].currency == s
    && forall j :: 0 <= j < |ps| && ps[j].currency == s ==>
         ps[j].timestamp < ps[i].timestamp || (ps[j].timestamp == ps[i].timestamp && j <= i)
  }

  lemma LatestAtUnique(ps: seq<PricePoint>, s: string, i: int, k: int)
    requires IsLatestAt(ps, s, i) && IsLatestAt(ps, s, k)
    ensures i == k
  {
  }

  /** The `DISTINCT ON (currency_symbol) ... ORDER BY timestamp DESC` query as a
      fold over the series in insertion order. */
  function LatestPoints(ps: seq<PricePoint>): (m: map<string, PricePoint>)
    ensures forall s :: s in m ==> m[s].currency == s
  {
    if ps == [] then map[]
    else
      var m := LatestPoints(ps[..|ps| - 1]);
      var p := ps[|ps| - 1];
      if p.currency !in m || m[p.currency].timestamp <= p.timestamp then m[p.currency := p] else m
  }

  function LatestPricesOf(ps: seq<PricePoint>): map<string, real>
  {
    var m := LatestPoints(ps);
    map s | s in m :: m[s].price
  }

  /** The `WHERE currency_symbol = s ORDER BY timestamp DESC LIMIT 1` query,
      defined on its own, scanning from the front. */
  function LatestOf(ps: seq<PricePoint>, s: string): (r: Option<PricePoint>)
    ensures r.Some? ==> r.value in ps && r.value.currency == s
    ensures r.None? <==> !HasSymbol(ps, s)
  {
    if ps == [] then None
    else
      var rest := LatestOf(ps[1..], s);
      if ps[0].currency == s && (rest.None? || rest.value.timestamp < ps[0].timestamp)
      then Some(ps[0]) else rest
  }

  lemma {:induction false} LatestPointsAt(ps: seq<PricePoint>, s: string)
    ensures s in LatestPoints(ps) <==> HasSymbol(ps, s)
    ensures s in LatestPoints(ps) ==> exists i :: IsLatestAt(ps, s, i) && LatestPoints(ps)[s] == ps[i]
  {
    if ps != [] {
      var n := |ps| - 1;
      var init := ps[..n];
      var p := ps[n];
      LatestPointsAt(init, s);
      var m := LatestPoints(init);
      assert forall j :: 0 <= j < n ==> init[j] == ps[j];
      if HasSymbol(init, s) {
        var i0 :| IsLatestAt(init, s, i0) && m[s] == init[i0];
        if p.currency == s && m[s].timestamp <= p.timestamp {
          assert IsLatestAt(ps, s, n);
        } else {
          assert IsLatestAt(ps, s, i0);
        }
      } else if p.currency == s {
        assert IsLatestAt(ps, s, n);
      }
    }
  }

  /** What the latest-prices map means: exactly the symbols that have a point,
      each mapped to the price of its newest point. */
  lemma LatestPricesSpec(ps: seq<PricePoint>)
    ensures forall s :: s in LatestPricesOf(ps) <==> HasSymbol(ps, s)
    ensures forall s :: s in LatestPricesOf(ps) ==>
      exists i :: IsLatestAt(ps, s, i) && LatestPricesOf(ps)[s] == ps[i].price
  {
    forall s
      ensures s in LatestPricesOf(ps) <==> HasSymbol(ps, s)
      ensures s in LatestPricesOf(ps) ==>
        exists i :: IsLatestAt(ps, s, i) && LatestPricesOf(ps)[s] == ps[i].price
    {
      LatestPointsAt(ps, s);
    }
  }

  lemma {:induction false} LatestOfAt(ps: seq<PricePoint>, s: string)
    ensures LatestOf(ps, s).Some? <==> HasSymbol(ps, s)
    ensures LatestOf(ps, s).Some? ==> exists i :: IsLatestAt(ps, s, i) && LatestOf(ps, s).value == ps[i]
  {
    if ps != [] {
      var tail := ps[1..];
      LatestOfAt(tail, s);
      var rest := LatestOf(tail, s);
      assert forall j :: 1 <= j < |ps| ==> ps[j] == tail[j - 1];
      if rest.Some? {
        var i0 :| IsLatestAt(tail, s, i0) && rest.value == tail[i0];
        if ps[0].currency == s && rest.value.timestamp < ps[0].timestamp {
          assert IsLatestAt(ps, s, 0);
        } else {
          assert IsLatestAt(ps, s, i0 + 1);
        }
      } else if ps[0].currency == s {
        assert IsLatestAt(ps, s, 0);
      }
    }
  }

  /** The single-symbol query agrees with the all-symbols query. */
  lemma LatestOfAgrees(ps: seq<PricePoint>, s: string)
    ensures LatestOf(ps, s).Some? <==> s in LatestPricesOf(ps)
    ensures LatestOf(ps, s).Some? ==> LatestOf(ps, s).value.price == LatestPricesOf(ps)[s]
  {
    LatestOfAt(ps, s);
    LatestPointsAt(ps, s);
    if LatestOf(ps, s).Some? {
      var i :| IsLatestAt(ps, s, i) && LatestOf(ps, s).value == ps[i];
      var k :| IsLatestAt(ps, s, k) && LatestPoints(ps)[s] == ps[k];
      LatestAtUnique(ps, s, i, k);
    }
  }

  function Stamp(timestamp: Option<int>, now: int): int
  {
    if timestamp.Some? then timestamp.value else now
  }

  /** `batch` holds one point per entry of `prices`, visited in `order`, each
      with its symbol upper-cased and the shared timestamp `ts`. */
  ghost predicate IsBatch(batch: seq<PricePoint>, prices: map<string, real>, ts: int, order: seq<string>)
  {
    && |order| == |batch| == |prices|
    && (forall k :: k in prices <==> k in order)
    && (forall i, j :: 0 <= i < j < |order| ==> order[i] != order[j])
    && (forall i :: 0 <= i < |batch| ==> batch[i] == PricePoint(Upper(order[i]), prices[order[i]], ts))
  }

  class PriceHistory {
    /** The `price_history` table in insertion order. */
    var points: seq<PricePoint>

    constructor ()
      ensures points == []
    {
      points := [];
    }

    /** `PriceHistory.create`: append one point, stamped `now` unless a
        timestamp is given. */
    method Create(symbol: string, price: real, timestamp: Option<int>, now: int) returns (p: PricePoint)
      modifies this
      ensures p == PricePoint(Upper(symbol), price, Stamp(timestamp, now))
      ensures points == old(points) + [p]
    {
      var ts := if timestamp.Some? then timestamp.value else now;
      p := PricePoint(Upper(symbol), price, ts);
      points := points + [p];
    }

    /** `bulk_create`: insert one point per entry under one timestamp and commit
        after the last insert. The database's refusals are an input: `rejects`
        maps an upper-cased symbol whose insert fails to the error raised. A
        failed insert abandons the uncommitted batch, leaving the series as it
        was. */
    method BulkCreate(prices: map<string, real>, timestamp: Option<int>, now: int, rejects: map<string, string>)
      returns (r: Result<seq<PricePoint>, string>, ghost order: seq<string>)
      modifies this
      ensures r.Err? <==> exists k :: k in prices && Upper(k) in rejects
      ensures r.Err? ==> points == old(points)
      ensures r.Err? ==> exists k :: k in prices && Upper(k) in rejects && r.error == rejects[Upper(k)]
      ensures r.Ok? ==> IsBatch(r.value, prices, Stamp(timestamp, now), order)
      ensures r.Ok? ==> points == old(points) + r.value
    {
      var ts := if timestamp.Some? then timestamp.value else now;
      var remaining := prices.Keys;
      var created: seq<PricePoint> := [];
      order := [];
      while remaining != {}
        invariant remaining <= prices.Keys
        invariant forall k :: k in prices ==> (k in remaining <==> k !in order)
        invariant forall i :: 0 <= i < |order| ==> order[i] in prices && Upper(order[i]) !in rejects
        invariant forall i, j :: 0 <= i < j < |order| ==> order[i] != order[j]
        invariant |order| == |created| && |order| + |remaining| == |prices|
        invariant forall i :: 0 <= i < |created| ==> created[i] == PricePoint(Upper(order[i]), prices[order[i]], ts)
        invariant points == old(points)
        decreases remaining
      {
        var k :| k in remaining;
        var symbol := Upper(k);
        if symbol in rejects {
          r := Err(rejects[symbol]);
          return;
        }
        created := created + [PricePoint(symbol, prices[k], ts)];
        order := order + [k];
        remaining := remaining - {k};
      }
      points := points + created;
      r := Ok(created);
    }

    /** `get_latest_prices`. */
    function LatestPrices(): (m: map<string, real>)
      reads this
      ensures forall s :: s in m <==> HasSymbol(points, s)
      ensures forall s :: s in m ==> exists i :: IsLatestAt(points, s, i) && m[s] == points[i].price
    {
      LatestPricesSpec(points);
      LatestPricesOf(points)
    }

    /** `get_latest_price`: the newest price of the upper-cased symbol. */
    function LatestPrice(symbol: string): (r: Option<real>)
      reads this
      ensures r.Some? <==> Upper(symbol) in LatestPrices()
      ensures r.Some? ==> r.value == LatestPrices()[Upper(symbol)]
    {
      LatestOfAgrees(points, Upper(symbol));
      var p := LatestOf(points, Upper(symbol));
      if p.Some? then Some(p.value.price) else None
    }
  }

  /** Appending a batch whose timestamp is not older than anything recorded
      makes each of its symbols report the batch price and leaves every other
      symbol's latest price as it was. */
  lemma LatestAfterBatch(ps: seq<PricePoint>, batch: seq<PricePoint>, prices: map<string, real>, ts: int, order: seq<string>)
    requires IsBatch(batch, prices, ts, order)
    requires forall k :: k in prices ==> IsUpper(k)
    requires forall i :: 0 <= i < |ps| ==> ps[i].timestamp <= ts
    ensures LatestPricesOf(ps + batch) == LatestPricesOf(ps) + prices
  {
    var qs := ps + batch;
    forall s
      ensures s in LatestPricesOf(qs) <==> s in LatestPricesOf(ps) || s in prices
      ensures s in prices ==> LatestPricesOf(qs)[s] == prices[s]
      ensures s !in prices && s in LatestPricesOf(ps) ==> LatestPricesOf(qs)[s] == LatestPricesOf(ps)[s]
    {
      LatestAfterBatchAt(ps, batch, prices, ts, order, s);
    }
  }

  lemma LatestAfterBatchAt(ps: seq<PricePoint>, batch: seq<PricePoint>, prices: map<string, real>, ts: int, order: seq<string>, s: string)
    requires IsBatch(batch, prices, ts, order)
    requires forall k :: k in prices ==> IsUpper(k)
    requires forall i :: 0 <= i < |ps| ==> ps[i].timestamp <= ts
    ensures s in LatestPricesOf(ps + batch) <==> s in LatestPricesOf(ps) || s in prices
    ensures s in prices ==> LatestPricesOf(ps + batch)[s] == prices[s]
    ensures s !in prices && s in LatestPricesOf(ps) ==> LatestPricesOf(ps + batch)[s] == LatestPricesOf(ps)[s]
  {
    BatchCurrencies(batch, prices, ts, order);
    if s in prices {
      BatchSymbolNewest(ps, batch, prices, ts, order, s);
    } else {
      OtherSymbolKept(ps, batch, prices, ts, order, s);
    }
  }

  /** A batch over upper-case keys: each point carries its key unchanged. */
  ghost predicate KeyedBatch(batch: seq<PricePoint>, prices: map<string, real>, ts: int, order: seq<string>)
  {
    && |order| == |batch|
    && (forall k :: k in prices <==> k in order)
    && (forall i, j :: 0 <= i < j < |order| ==> order[i] != order[j])
    && (forall i :: 0 <= i < |batch| ==> batch[i] == PricePoint(order[i], prices[order[i]], ts))
  }

  lemma BatchCurrencies(batch: seq<PricePoint>, prices: map<string, real>, ts: int, order: seq<string>)
    requires IsBatch(batch, prices, ts, order)
    requires forall k :: k in prices ==> IsUpper(k)
    ensures KeyedBatch(batch, prices, ts, order)
  {
    forall i | 0 <= i < |batch| ensures batch[i] == PricePoint(order[i], prices[order[i]], ts) {
      assert order[i] in prices;
    }
  }

  /** A batch symbol's newest point is its batch point. */
  lemma BatchSymbolNewest(ps: seq<PricePoint>, batch: seq<PricePoint>, prices: map<string, real>, ts: int, order: seq<string>, s: string)
    requires KeyedBatch(batch, prices, ts, order) && s in prices
    requires forall i :: 0 <= i < |ps| ==> ps[i].timestamp <= ts
    ensures s in LatestPoints(ps + batch) && LatestPoints(ps + batch)[s].price == prices[s]
  {
    var i :| 0 <= i < |order| && order[i] == s;
    BatchPointIsLatest(ps, batch, prices, ts, order, i);
    LatestPointIs(ps + batch, s, |ps| + i);
  }

  lemma BatchPointIsLatest(ps: seq<PricePoint>, batch: seq<PricePoint>, prices: map<string, real>, ts: int, order: seq<string>, i: nat)
    requires KeyedBatch(batch, prices, ts, order) && i < |order|
    requires forall i :: 0 <= i < |ps| ==> ps[i].timestamp <= ts
    ensures IsLatestAt(ps + batch, order[i], |ps| + i) && (ps + batch)[|ps| + i].price == prices[order[i]]
  {
    var qs := ps + batch;
    var n := |ps|;
    var s := order[i];
    assert qs[n + i] == batch[i];
    forall j | 0 <= j < |qs| && qs[j].currency == s
      ensures qs[j].timestamp < ts || (qs[j].timestamp == ts && j <= n + i)
    {
      if j >= n {
        assert qs[j] == batch[j - n];
      } else {
        assert qs[j] == ps[j];
      }
    }
  }

  /** The fold holds exactly the point the characterisation selects. */
  lemma LatestPointIs(ps: seq<PricePoint>, s: string, k: int)
    requires IsLatestAt(ps, s, k)
    ensures s in LatestPoints(ps) && LatestPoints(ps)[s] == ps[k]
  {
    LatestPointsAt(ps, s);
    var i :| IsLatestAt(ps, s, i) && LatestPoints(ps)[s] == ps[i];
    LatestAtUnique(ps, s, i, k);
  }

  /** A symbol outside the batch keeps its newest point. */
  lemma OtherSymbolKept(ps: seq<PricePoint>, batch: seq<PricePoint>, prices: map<string, real>, ts: int, order: seq<string>, s: string)
    requires KeyedBatch(batch, prices, ts, order) && s !in prices
    ensures s in LatestPoints(ps + batch) <==> s in LatestPoints(ps)
    ensures s in LatestPoints(ps) ==> LatestPoints(ps + batch)[s] == LatestPoints(ps)[s]
  {
    var qs := ps + batch;
    var n := |ps|;
    assert forall j :: 0 <= j < n ==> qs[j] == ps[j];
    assert forall j :: n <= j < |qs| ==> qs[j].currency != s by {
      forall j | n <= j < |qs| ensures qs[j].currency != s {
        assert qs[j] == batch[j - n];
        assert order[j - n] in prices;
      }
    }
    LatestPointsAt(qs, s);
    LatestPointsAt(ps, s);
    assert HasSymbol(qs, s) <==> HasSymbol(ps, s) by {
      if HasSymbol(qs, s) {
        var j :| 0 <= j < |qs| && qs[j].currency == s;
        assert ps[j].currency == s;
      }
    }
    if HasSymbol(ps, s) {
      var i :| IsLatestAt(ps, s, i) && LatestPoints(ps)[s] == ps[i];
      assert IsLatestAt(qs, s, i);
      var k :| IsLatestAt(qs, s, k) && LatestPoints(qs)[s] == qs[k];
      LatestAtUnique(qs, s, k, i);
    }
  }

  /** Batch {BTC: 50000, ETH: 3000} at t1 followed by batch {BTC: 51000} at a
      later t2 leaves latest prices {BTC: 51000, ETH: 3000}. */
  lemma TwoBatchesExample(b1: seq<PricePoint>, o1: seq<string>, b2: seq<PricePoint>, o2: seq<string>, t1: int, t2: int)
    requires IsBatch(b1, map["BTC" := 50000.0, "ETH" := 3000.0], t1, o1)
    requires IsBatch(b2, map["BTC" := 51000.0], t2, o2)
    requires t1 < t2
    ensures LatestPricesOf(b1 + b2) == map["BTC" := 51000.0, "ETH" := 3000.0]
  {
    FirstBatchExample(b1, o1, t1);
    ExampleKeysUpper();
    LatestAfterBatch(b1, b2, map["BTC" := 51000.0], t2, o2);
    ExampleMerge();
  }

  /** Proof step of `TwoBatchesExample`: the map override on the literals,
      kept apart so that its cost stays out of the example. */
  lemma ExampleMerge()
    ensures map["BTC" := 50000.0, "ETH" := 3000.0] + map["BTC" := 51000.0]
        == map["BTC" := 51000.0, "ETH" := 3000.0]
  {
  }

  /** On an empty history, the latest prices after one batch are exactly the
      batch's map. */
  lemma FirstBatch(batch: seq<PricePoint>, prices: map<string, real>, ts: int, order: seq<string>)
    requires IsBatch(batch, prices, ts, order)
    requires forall k :: k in prices ==> IsUpper(k)
    ensures LatestPricesOf(batch) == prices
  {
    LatestAfterBatch([], batch, prices, ts, order);
    EmptyHistory(batch, prices);
  }

  /** Proof step of `FirstBatch`: the empty history contributes nothing. */
  lemma EmptyHistory(batch: seq<PricePoint>, prices: map<string, real>)
    ensures LatestPricesOf([] + batch) == LatestPricesOf([]) + prices ==> LatestPricesOf(batch) == prices
  {
    assert [] + batch == batch;
    assert LatestPricesOf([]) == map[];
    assert map[] + prices == prices;
  }

  lemma FirstBatchExample(b1: seq<PricePoint>, o1: seq<string>, t1: int)
    requires IsBatch(b1, map["BTC" := 50000.0, "ETH" := 3000.0], t1, o1)
    ensures LatestPricesOf(b1) == map["BTC" := 50000.0, "ETH" := 3000.0]
    ensures forall i :: 0 <= i < |b1| ==> b1[i].timestamp == t1
  {
    ExampleKeysUpper();
    FirstBatch(b1, map["BTC" := 50000.0, "ETH" := 3000.0], t1, o1);
  }

  /** Proof step of the examples: their symbols are already upper case, which
      discharges the upper-case-keys precondition of `LatestAfterBatch`. */
  lemma ExampleKeysUpper()
    ensures forall k :: k in map["BTC" := 50000.0, "ETH" := 3000.0] ==> IsUpper(k)
    ensures forall k :: k in map["BTC" := 51000.0] ==> IsUpper(k)
  {
    assert IsUpper("BTC") && IsUpper("ETH");
  }
}
