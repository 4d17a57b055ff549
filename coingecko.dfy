/** The price provider: the fixed table of supported coins, the request
    headers, and the conversion of a provider reply into a symbol -> USD
    price map. The HTTP request itself is an input: either a transport
    failure or a reply with a status code and a decoded JSON body. */
module CoinGecko {
  import opened Common

  /** Provider id -> currency symbol. */
  const CoinIds: map<string, string> := map[
    "bitcoin" := "BTC",
    "ethereum" := "ETH",
    "binancecoin" := "BNB",
    "ripple" := "XRP",
    "cardano" := "ADA",
    "solana" := "SOL",
    "dogecoin" := "DOGE"
  ]

  /** The order in which the provider ids are declared (and iterated). */
  const CoinOrder: seq<string> :=
    ["bitcoin", "ethereum", "binancecoin", "ripple", "cardano", "solana", "dogecoin"]

  const AcceptHeader := "Accept"
  const ApiKeyHeader := "x-cg-demo-api-key"
  const UsdField := "usd"
  const FetchPricesError := "Failed to fetch prices from CoinGecko: "
  const FetchPriceError := "Failed to fetch price from CoinGecko: "

  /** The set of supported currency symbols. */
  function Symbols(): set<string>
  {
    CoinIds.Values
  }

  /** The declaration order lists every provider id exactly once. */
  lemma CoinOrderListsIds()
    ensures |CoinOrder| == |CoinIds|
    ensures forall c :: c in CoinIds <==> c in CoinOrder
    ensures forall i, j :: 0 <= i < j < |CoinOrder| ==> CoinOrder[i] != CoinOrder[j]
  {
    assert CoinIds.Keys == set c | c in CoinOrder;
    CoinOrderDistinct();
    DistinctCardinality(CoinOrder);
  }

  /** The declared ids differ pairwise, which their first letters and lengths
      already show. */
  lemma CoinOrderDistinct()
    ensures forall i, j :: 0 <= i < j < |CoinOrder| ==> CoinOrder[i] != CoinOrder[j]
  {
    forall i, j | 0 <= i < j < |CoinOrder| ensures CoinOrder[i] != CoinOrder[j] {
      assert CoinOrder[i][0] != CoinOrder[j][0] || |CoinOrder[i]| != |CoinOrder[j]|;
    }
  }

  /** A duplicate-free sequence has as many elements as its set. */
  lemma {:induction false} DistinctCardinality<T>(s: seq<T>)
    requires forall i, j :: 0 <= i < j < |s| ==> s[i] != s[j]
    ensures |set x | x in s| == |s|
  {
    if s != [] {
      var t := s[..|s| - 1];
      DistinctCardinality(t);
      assert (set x | x in s) == (set x | x in t) + {s[|s| - 1]};
      assert s[|s| - 1] !in t;
    }
  }

  /** No two provider ids share a symbol, so the map can be inverted. */
  lemma SymbolsDistinct()
    ensures forall a, b :: a in CoinIds && b in CoinIds && CoinIds[a] == CoinIds[b] ==> a == b
  {
  }

  /** Every supported symbol is already upper case. */
  lemma SymbolsUpper()
    ensures forall c :: c in CoinIds ==> IsUpper(CoinIds[c])
  {
  }

  /** `get_supported_currencies`: a copy of the supported-coin table. Values are
      immutable here, so a caller changing its copy cannot affect the table. */
  function SupportedCurrencies(): (m: map<string, string>)
    ensures m.Keys == CoinIds.Keys
    ensures forall c :: c in m ==> m[c] == CoinIds[c]
  {
    CoinIds
  }

  /** `get_symbol_for_coin`: forward lookup. */
  function SymbolForCoin(coinId: string): (r: Option<string>)
    ensures r.Some? <==> coinId in CoinIds
    ensures r.Some? ==> r.value == CoinIds[coinId] && r.value in Symbols()
  {
    if coinId in CoinIds then Some(CoinIds[coinId]) else None
  }

  /** `get_coin_for_symbol`: case-insensitive reverse lookup by linear search
      over the declared order, returning at the first match. */
  method CoinForSymbol(symbol: string) returns (r: Option<string>)
    ensures r.Some? <==> Upper(symbol) in Symbols()
    ensures r.Some? ==> r.value in CoinIds && CoinIds[r.value] == Upper(symbol)
    ensures forall c :: c in CoinIds && CoinIds[c] == Upper(symbol) ==> r == Some(c)
    ensures forall c :: SymbolForCoin(c) == Some(symbol) ==> r == Some(c)
  {
    CoinOrderListsIds();
    SymbolsDistinct();
    SymbolsUpper();
    r := FindCoin(CoinIds, CoinOrder, Upper(symbol));
  }

  /** The search loop of `get_coin_for_symbol` over any injective id table
      walked in an order that covers it. */
  method FindCoin(ids: map<string, string>, order: seq<string>, sym: string) returns (r: Option<string>)
    requires forall c :: c in ids <==> c in order
    requires forall a, b :: a in ids && b in ids && ids[a] == ids[b] ==> a == b
    ensures r.Some? <==> sym in ids.Values
    ensures r.Some? ==> r.value in ids && ids[r.value] == sym
    ensures forall c :: c in ids && ids[c] == sym ==> r == Some(c)
  {
    var i := 0;
    while i < |order|
      invariant 0 <= i <= |order|
      invariant forall j :: 0 <= j < i ==> ids[order[j]] != sym
    {
      if ids[order[i]] == sym {
        return Some(order[i]);
      }
      i := i + 1;
    }
    forall c | c in ids ensures ids[c] != sym {
      var j :| 0 <= j < |order| && order[j] == c;
    }
    return None;
  }

  /** `_get_headers`: always asks for JSON; adds the API key header exactly
      when a non-empty key is configured. */
  function Headers(apiKey: Option<string>): (h: map<string, string>)
    ensures AcceptHeader in h && h[AcceptHeader] == "application/json"
    ensures ApiKeyHeader in h <==> apiKey.Some? && apiKey.value != ""
    ensures ApiKeyHeader in h ==> h[ApiKeyHeader] == apiKey.value
    ensures h.Keys <= {AcceptHeader, ApiKeyHeader}
  {
    var base := map[AcceptHeader := "application/json"];
    if apiKey.Some? && apiKey.value != "" then base[ApiKeyHeader := apiKey.value] else base
  }

  /** A decoded reply: provider id -> (field name -> number). */
  type Body = map<string, map<string, real>>

  /** The outcome of the HTTP call: the request failed outright (connection
      error, timeout), or a reply arrived with a status code. */
  datatype FetchOutcome =
    | TransportError(reason: string)
    | Reply(status: int, reason: string, body: Body)

  /** `raise_for_status` rejects client and server error codes. */
  predicate IsErrorStatus(status: int): (b: bool)
    ensures b <==> status / 100 == 4 || status / 100 == 5
  {
    400 <= status < 600
  }

  predicate Failed(fetch: FetchOutcome): (b: bool)
    ensures fetch.TransportError? ==> b
    ensures fetch.Reply? && 200 <= fetch.status < 300 ==> !b
    ensures fetch.Reply? && fetch.status / 100 == 4 ==> b
  {
    fetch.TransportError? || IsErrorStatus(fetch.status)
  }

  /** A coin contributes a price exactly when the body has an entry for its
      provider id carrying a `usd` field. */
  predicate Quoted(body: Body, coinId: string)
  {
    coinId in body && UsdField in body[coinId]
  }

  /** `prices` is the symbol-keyed view of `body`: only supported symbols,
      one for each quoted coin, each with that coin's `usd` value. */
  ghost predicate ParsedFrom(body: Body, prices: map<string, real>)
  {
    && prices.Keys <= Symbols()
    && (forall c :: c in CoinIds ==> (CoinIds[c] in prices <==> Quoted(body, c)))
    && (forall c :: c in CoinIds && CoinIds[c] in prices ==> prices[CoinIds[c]] == body[c][UsdField])
  }

  /** A body determines its symbol map: the conversion is a function. */
  lemma ParsedFromUnique(body: Body, p: map<string, real>, q: map<string, real>)
    requires ParsedFrom(body, p) && ParsedFrom(body, q)
    ensures p == q
  {
    forall s | s in p ensures s in q && p[s] == q[s] {
      var c :| c in CoinIds && CoinIds[c] == s;
    }
    forall s | s in q ensures s in p {
      var c :| c in CoinIds && CoinIds[c] == s;
    }
  }

  /** The map is empty exactly when no supported coin is quoted, and its keys
      are upper case. */
  lemma ParsedShape(body: Body, prices: map<string, real>)
    requires ParsedFrom(body, prices)
    ensures prices == map[] <==> forall c :: c in CoinIds ==> !Quoted(body, c)
    ensures forall s :: s in prices ==> IsUpper(s)
  {
    SymbolsUpper();
    if prices != map[] {
      var s :| s in prices;
      var c :| c in CoinIds && CoinIds[c] == s;
    }
  }

  /** The loop of `get_prices` that converts the body into a symbol map. */
  method ParsePrices(body: Body) returns (prices: map<string, real>)
    ensures ParsedFrom(body, prices)
  {
    CoinOrderListsIds();
    SymbolsDistinct();
    prices := CollectQuotes(body, CoinIds, CoinOrder);
  }

  /** The same loop over any injective id table walked in a duplicate-free
      order that covers it. */
  method CollectQuotes(body: Body, ids: map<string, string>, order: seq<string>)
    returns (prices: map<string, real>)
    requires forall c :: c in ids <==> c in order
    requires forall i, j :: 0 <= i < j < |order| ==> order[i] != order[j]
    requires forall a, b :: a in ids && b in ids && ids[a] == ids[b] ==> a == b
    ensures prices.Keys <= ids.Values
    ensures forall c :: c in ids ==> (ids[c] in prices <==> Quoted(body, c))
    ensures forall c :: c in ids && ids[c] in prices ==>
      Quoted(body, c) && prices[ids[c]] == body[c][UsdField]
  {
    prices := map[];
    var i := 0;
    while i < |order|
      invariant 0 <= i <= |order|
      invariant prices.Keys <= ids.Values
      invariant forall s :: s in prices ==> exists j :: 0 <= j < i && ids[order[j]] == s
      invariant forall j :: 0 <= j < i ==> (ids[order[j]] in prices <==> Quoted(body, order[j]))
      invariant forall j :: 0 <= j < i && ids[order[j]] in prices ==>
        prices[ids[order[j]]] == body[order[j]][UsdField]
    {
      var coinId := order[i];
      var symbol := ids[coinId];
      if coinId in body && UsdField in body[coinId] {
        prices := prices[symbol := body[coinId][UsdField]];
      }
      i := i + 1;
    }
    forall c | c in ids
      ensures ids[c] in prices <==> Quoted(body, c)
      ensures ids[c] in prices ==> prices[ids[c]] == body[c][UsdField]
    {
      var j :| 0 <= j < |order| && order[j] == c;
    }
  }

  /** `get_prices`: a failed request or an error status becomes an error
      result (never a partial map); any other reply is parsed. */
  method GetPrices(fetch: FetchOutcome) returns (r: Result<map<string, real>, string>)
    ensures r.Err? <==> Failed(fetch)
    ensures r.Err? ==> r.error == FetchPricesError + fetch.reason
    ensures r.Ok? ==> ParsedFrom(fetch.body, r.value)
  {
    if fetch.TransportError? || IsErrorStatus(fetch.status) {
      return Err(FetchPricesError + fetch.reason);
    }
    var prices := ParsePrices(fetch.body);
    return Ok(prices);
  }

  /** `get_price`: the single-coin variant, answering None when the reply has
      no `usd` quote for the requested id. */
  method GetPrice(coinId: string, fetch: FetchOutcome) returns (r: Result<Option<real>, string>)
    ensures r.Err? <==> Failed(fetch)
    ensures r.Err? ==> r.error == FetchPriceError + fetch.reason
    ensures r.Ok? ==> (r.value.Some? <==> Quoted(fetch.body, coinId))
    ensures r.Ok? && r.value.Some? ==> r.value.value == fetch.body[coinId][UsdField]
  {
    if fetch.TransportError? || IsErrorStatus(fetch.status) {
      return Err(FetchPriceError + fetch.reason);
    }
    if coinId in fetch.body && UsdField in fetch.body[coinId] {
      return Ok(Some(fetch.body[coinId][UsdField]));
    }
    return Ok(None);
  }
}
