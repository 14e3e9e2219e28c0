/** The broker adapters (one per exchange) and the aggregator that concatenates their
    output. Payloads arrive already decoded; every way a request, its JSON or a price
    conversion can fail is folded into the payload's shape. */
module Adapters {
  import opened Types
  import opened Symbols

  /** One decoded ticker entry: a native symbol and its price field, which is `None`
      when converting that field to a float raises. */
  datatype Quote = Quote(symbol: string, price: Option<real>)

  /** A decoded response, or `Failed` when the request, the JSON decoding or a key
      lookup raised. */
  datatype Fetch<T> = Failed | Fetched(value: T)

  /** What each exchange answered during one collection round. Binance and Huobi answer one
      request with a ticker list; Coinbase and Bitfinex answer one request per watched
      symbol, modelled as the function from that symbol to its decoded price. Bittrex
      needs no payload: its branch always raises before reading one. */
  datatype Payloads = Payloads(
    binance: Fetch<seq<Quote>>,
    coinbase: string -> Option<real>,
    bitfinex: string -> Option<real>,
    huobi: Fetch<seq<Quote>>)

  /** The record a broker produces for one priced quote. */
  function Normalise(b: Broker, q: Quote, now: Time): PriceRecord
    requires q.price.Some?
  {
    PriceRecord(Canonicalise(b, q.symbol), q.price.value, b, now)
  }

  /** Every watched quote carries a convertible price. */
  predicate WatchedPriced(b: Broker, qs: seq<Quote>)
  {
    forall q :: q in qs && q.symbol in WatchList(b) ==> q.price.Some?
  }

  /** Keep the quotes on the watch-list, in payload order, and normalise them. */
  function Keep(b: Broker, qs: seq<Quote>, now: Time): (rs: seq<PriceRecord>)
    requires WatchedPriced(b, qs)
    ensures forall r :: r in rs ==> exists q :: q in qs && q.symbol in WatchList(b) && r == Normalise(b, q, now)
    ensures forall q :: q in qs && q.symbol in WatchList(b) ==> Normalise(b, q, now) in rs
    ensures forall r :: r in rs ==> r.broker == b && r.timestamp == now && r.symbol in CanonicalSymbols
    decreases |qs|
  {
    if |qs| == 0 then []
    else
      var rest := Keep(b, qs[1..], now);
      assert forall q :: q in qs[1..] ==> q in qs;
      if qs[0].symbol in WatchList(b) then
        CanonicalOnWatchList(b, qs[0].symbol);
        [Normalise(b, qs[0], now)] + rest
      else
        rest
  }

  /** The filter on a single quote: a watched quote yields its normalised record, any other
      quote nothing. */
  lemma KeepSingle(b: Broker, q: Quote, now: Time)
    requires WatchedPriced(b, [q])
    ensures Keep(b, [q], now) == if q.symbol in WatchList(b) then [Normalise(b, q, now)] else []
  {
    assert [q][1..] == [];
  }

  /** Sequence concatenation is associative. */
  lemma ConcatAssoc<T>(a: seq<T>, b: seq<T>, c: seq<T>)
    ensures a + (b + c) == (a + b) + c
  {
  }

  /** The filter on a non-empty payload: the first quote's contribution, then the rest's. */
  lemma KeepCons(b: Broker, qs: seq<Quote>, now: Time)
    requires |qs| > 0 && WatchedPriced(b, qs)
    ensures WatchedPriced(b, qs[1..])
    ensures Keep(b, qs, now)
         == (if qs[0].symbol in WatchList(b) then [Normalise(b, qs[0], now)] else []) + Keep(b, qs[1..], now)
  {
    assert forall q :: q in qs[1..] ==> q in qs;
  }

  /** The filter distributes over concatenation of payloads, so together with `KeepSingle` it
      keeps the payload's order and every duplicate with its own price. */
  lemma {:induction false} KeepConcat(b: Broker, xs: seq<Quote>, ys: seq<Quote>, now: Time)
    requires WatchedPriced(b, xs + ys)
    ensures WatchedPriced(b, xs) && WatchedPriced(b, ys)
    ensures Keep(b, xs + ys, now) == Keep(b, xs, now) + Keep(b, ys, now)
    decreases |xs|
  {
    assert forall q :: q in xs ==> q in xs + ys;
    assert forall q :: q in ys ==> q in xs + ys;
    if |xs| == 0 {
      assert xs + ys == ys;
    } else {
      var zs := xs + ys;
      assert zs[0] == xs[0];
      assert zs[1..] == xs[1..] + ys;
      KeepCons(b, zs, now);
      KeepCons(b, xs, now);
      KeepConcat(b, xs[1..], ys, now);
      var head := if xs[0].symbol in WatchList(b) then [Normalise(b, xs[0], now)] else [];
      ConcatAssoc(head, Keep(b, xs[1..], now), Keep(b, ys, now));
    }
  }

  /** A broker answering with one ticker list (Binance, Huobi). An empty list builds a frame
      without a `symbol` column, so the filter raises; so does an unconvertible watched price. */
  function FromTickerList(b: Broker, payload: Fetch<seq<Quote>>, now: Time): (t: PriceTable)
    ensures t.Table? <==>
      payload.Fetched? && |payload.value| > 0 && WatchedPriced(b, payload.value)
    ensures t.Table? ==> forall r :: r in t.rows ==>
      r.broker == b && r.timestamp == now && r.symbol in CanonicalSymbols
  {
    match payload
    case Failed => NoColumns
    case Fetched(qs) =>
      if |qs| == 0 then NoColumns
      else if WatchedPriced(b, qs) then Table(Keep(b, qs, now))
      else NoColumns
  }

  /** A broker answering one request per watched symbol (Coinbase, Bitfinex): the first
      request that fails aborts the whole broker. */
  function FromEachSymbol(b: Broker, fetch: string -> Option<real>, now: Time): (t: PriceTable)
    ensures t.Table? <==> forall k :: 0 <= k < |Assets| ==> fetch(WatchList(b)[k]).Some?
    ensures t.Table? ==> |t.rows| == |Assets| && forall k :: 0 <= k < |Assets| ==>
      t.rows[k] == PriceRecord(CanonicalSymbols[k], fetch(WatchList(b)[k]).value, b, now)
  {
    var w := WatchList(b);
    if forall k :: 0 <= k < |w| ==> fetch(w[k]).Some? then
      assert forall k :: 0 <= k < |w| ==> Canonicalise(b, w[k]) == CanonicalSymbols[k] by {
        forall k | 0 <= k < |w| { CanonicalSpelling(b, k); }
      }
      Table(seq(|w|, k requires 0 <= k < |w| => Normalise(b, Quote(w[k], fetch(w[k])), now)))
    else
      NoColumns
  }

  /** One broker's contribution to a collection round, stamped with the reading `now`. */
  function GetPrices(b: Broker, p: Payloads, now: Time): (t: PriceTable)
    ensures forall r :: r in Rows(t) ==> r.broker == b && r.timestamp == now
    ensures b == Bittrex ==> t == NoColumns
  {
    match b
    case Binance => FromTickerList(Binance, p.binance, now)
    case Coinbase => FromEachSymbol(Coinbase, p.coinbase, now)
    case Bitfinex => FromEachSymbol(Bitfinex, p.bitfinex, now)
    // The branch decodes through a module that is never imported, so it always raises.
    case Bittrex => NoColumns
    case Huobi => FromTickerList(Huobi, p.huobi, now)
  }

  /** Two frames concatenated: the result has columns when either operand has. */
  function Join(a: PriceTable, b: PriceTable): (t: PriceTable)
    ensures t.NoColumns? <==> a.NoColumns? && b.NoColumns?
    ensures Rows(t) == Rows(a) + Rows(b)
  {
    if a.NoColumns? && b.NoColumns? then NoColumns else Table(Rows(a) + Rows(b))
  }

  /** Frames concatenated in order. */
  function Concat(ts: seq<PriceTable>): PriceTable
    decreases |ts|
  {
    if |ts| == 0 then NoColumns else Join(ts[0], Concat(ts[1..]))
  }

  /** The records of one broker, in order. */
  function OfBroker(rs: seq<PriceRecord>, b: Broker): (r: seq<PriceRecord>)
    ensures forall x :: x in r <==> x in rs && x.broker == b
    decreases |rs|
  {
    if |rs| == 0 then []
    else (if rs[0].broker == b then [rs[0]] else []) + OfBroker(rs[1..], b)
  }

  /** Number of records quoting the symbol `s`. */
  function CountSymbol(rs: seq<PriceRecord>, s: string): nat
    decreases |rs|
  {
    if |rs| == 0 then 0 else (if rs[0].symbol == s then 1 else 0) + CountSymbol(rs[1..], s)
  }

  /** Number of quotes whose native symbol is `s`. */
  function CountQuotes(qs: seq<Quote>, s: string): nat
    decreases |qs|
  {
    if |qs| == 0 then 0 else (if qs[0].symbol == s then 1 else 0) + CountQuotes(qs[1..], s)
  }

  /** The canonical symbol of a watched native spelling is the k-th one exactly when the
      spelling is the broker's k-th. */
  lemma CanonicalHit(b: Broker, native: string, k: nat)
    requires native in WatchList(b) && k < |Assets|
    ensures (Canonicalise(b, native) == CanonicalSymbols[k]) <==> (native == WatchList(b)[k])
  {
    var m :| 0 <= m < |WatchList(b)| && WatchList(b)[m] == native;
    CanonicalJoin(b, b, m, k);
    CanonicalSpelling(b, m);
    CanonicalSpelling(b, k);
  }

  /** Filtering and canonicalisation neither lose nor invent rows: each canonical symbol
      occurs in the output exactly as often as the broker's spelling of it in the payload,
      and any other native symbol is dropped. */
  lemma {:induction false} KeepCounts(b: Broker, qs: seq<Quote>, now: Time, k: nat)
    requires WatchedPriced(b, qs) && k < |Assets|
    ensures CountSymbol(Keep(b, qs, now), CanonicalSymbols[k]) == CountQuotes(qs, WatchList(b)[k])
    decreases |qs|
  {
    if |qs| > 0 {
      var q := qs[0];
      assert q in qs;
      var tail := qs[1..];
      assert WatchedPriced(b, tail) by {
        assert forall x :: x in tail ==> x in qs;
      }
      KeepCounts(b, tail, now, k);
      var rest := Keep(b, tail, now);
      if q.symbol in WatchList(b) {
        CanonicalHit(b, q.symbol, k);
        var out := [Normalise(b, q, now)] + rest;
        assert Keep(b, qs, now) == out;
        assert out[0].symbol == Canonicalise(b, q.symbol);
        assert out[1..] == rest;
      } else {
        assert Keep(b, qs, now) == rest;
        assert q.symbol != WatchList(b)[k];
      }
    }
  }

  /** The per-symbol counts for a ticker-list broker that answered. */
  lemma TickerListCounts(b: Broker, payload: Fetch<seq<Quote>>, now: Time, k: nat)
    requires k < |Assets|
    requires FromTickerList(b, payload, now).Table?
    ensures CountSymbol(FromTickerList(b, payload, now).rows, CanonicalSymbols[k])
         == CountQuotes(payload.value, WatchList(b)[k])
  {
    KeepCounts(b, payload.value, now, k);
  }

  /** Filtering by broker distributes over concatenation. */
  lemma {:induction false} OfBrokerConcat(xs: seq<PriceRecord>, ys: seq<PriceRecord>, b: Broker)
    ensures OfBroker(xs + ys, b) == OfBroker(xs, b) + OfBroker(ys, b)
    decreases |xs|
  {
    if |xs| == 0 {
      assert xs + ys == ys;
    } else {
      assert (xs + ys)[1..] == xs[1..] + ys;
      OfBrokerConcat(xs[1..], ys, b);
    }
  }

  /** Records all of broker `b` survive filtering by `b`; records of another broker vanish. */
  lemma {:induction false} OfBrokerUniform(rs: seq<PriceRecord>, a: Broker, b: Broker)
    requires forall r :: r in rs ==> r.broker == a
    ensures OfBroker(rs, b) == if a == b then rs else []
    decreases |rs|
  {
    if |rs| > 0 {
      assert rs[0] in rs && rs[0].broker == a;
      assert forall r :: r in rs[1..] ==> r in rs;
      OfBrokerUniform(rs[1..], a, b);
      if a == b {
        assert rs == [rs[0]] + rs[1..];
      }
    }
  }

  /** The frames of one collection round, in broker order. */
  function Round(p: Payloads, clock: Broker -> Time): (ts: seq<PriceTable>)
    ensures |ts| == |BrokerOrder|
    ensures forall i :: 0 <= i < |ts| ==> ts[i] == GetPrices(BrokerOrder[i], p, clock(BrokerOrder[i]))
  {
    seq(|BrokerOrder|, i requires 0 <= i < |BrokerOrder| => GetPrices(BrokerOrder[i], p, clock(BrokerOrder[i])))
  }

  /** One collection round: every broker once, in broker order, each at its own clock reading. */
  function CollectAll(p: Payloads, clock: Broker -> Time): PriceTable
  {
    Concat(Round(p, clock))
  }

  /** Concatenating the five frames of a round. */
  lemma ConcatFive(ts: seq<PriceTable>)
    requires |ts| == 5
    ensures Concat(ts) == Join(ts[0], Join(ts[1], Join(ts[2], Join(ts[3], Join(ts[4], NoColumns)))))
  {
    var t1, t2, t3, t4 := ts[1..], ts[2..], ts[3..], ts[4..];
    assert t1[1..] == t2 && t2[1..] == t3 && t3[1..] == t4 && t4[1..] == [];
    assert Concat(t4) == Join(ts[4], NoColumns);
    assert Concat(t3) == Join(ts[3], Concat(t4));
    assert Concat(t2) == Join(ts[2], Concat(t3));
    assert Concat(t1) == Join(ts[1], Concat(t2));
  }

  /** The rows of five concatenated frames whose fourth has no columns. */
  lemma ConcatFiveRows(ts: seq<PriceTable>)
    requires |ts| == 5 && ts[3] == NoColumns
    ensures Rows(Concat(ts)) == Rows(ts[0]) + (Rows(ts[1]) + (Rows(ts[2]) + Rows(ts[4])))
  {
    ConcatFive(ts);
    var r0, r1, r2, r4 := Rows(ts[0]), Rows(ts[1]), Rows(ts[2]), Rows(ts[4]);
    var j4 := Join(ts[4], NoColumns);
    var j3 := Join(ts[3], j4);
    var j2 := Join(ts[2], j3);
    var j1 := Join(ts[1], j2);
    assert Rows(j4) == r4;
    assert Rows(j3) == r4;
    assert Rows(j2) == r2 + r4;
    assert Rows(j1) == r1 + (r2 + r4);
    assert Rows(Concat(ts)) == r0 + (r1 + (r2 + r4));
  }

  /** The aggregate of a collection round is the concatenation of the brokers' results in
      broker order, Bittrex never contributing. */
  lemma CollectAllRows(p: Payloads, clock: Broker -> Time)
    ensures Rows(CollectAll(p, clock)) ==
      Rows(GetPrices(Binance, p, clock(Binance)))
      + (Rows(GetPrices(Coinbase, p, clock(Coinbase)))
      + (Rows(GetPrices(Bitfinex, p, clock(Bitfinex)))
      + Rows(GetPrices(Huobi, p, clock(Huobi)))))
  {
    var ts := Round(p, clock);
    assert ts[3] == GetPrices(Bittrex, p, clock(Bittrex));
    ConcatFiveRows(ts);
    assert ts[0] == GetPrices(Binance, p, clock(Binance));
    assert ts[1] == GetPrices(Coinbase, p, clock(Coinbase));
    assert ts[2] == GetPrices(Bitfinex, p, clock(Bitfinex));
    assert ts[4] == GetPrices(Huobi, p, clock(Huobi));
  }

  /** The aggregate has columns exactly when some broker answered. */
  lemma CollectAllFails(p: Payloads, clock: Broker -> Time)
    ensures CollectAll(p, clock).NoColumns? <==> forall b :: GetPrices(b, p, clock(b)).NoColumns?
  {
    var ts := Round(p, clock);
    ConcatFive(ts);
    assert CollectAll(p, clock).NoColumns? <==> forall i :: 0 <= i < 5 ==> ts[i].NoColumns?;
    forall b ensures b in BrokerOrder {
      match b
      case Binance => assert b == BrokerOrder[0];
      case Coinbase => assert b == BrokerOrder[1];
      case Bitfinex => assert b == BrokerOrder[2];
      case Bittrex => assert b == BrokerOrder[3];
      case Huobi => assert b == BrokerOrder[4];
    }
  }

  /** The records of each broker in the aggregate are exactly that broker's own result, so
      one broker's failure removes nothing contributed by the others; the aggregate's
      length is the sum of the brokers' lengths. */
  lemma CollectAllIsolates(p: Payloads, clock: Broker -> Time, b: Broker)
    ensures OfBroker(Rows(CollectAll(p, clock)), b) == Rows(GetPrices(b, p, clock(b)))
    ensures |Rows(CollectAll(p, clock))| ==
      |Rows(GetPrices(Binance, p, clock(Binance)))|
      + |Rows(GetPrices(Coinbase, p, clock(Coinbase)))|
      + |Rows(GetPrices(Bitfinex, p, clock(Bitfinex)))|
      + |Rows(GetPrices(Huobi, p, clock(Huobi)))|
  {
    CollectAllRows(p, clock);
    var r0 := Rows(GetPrices(Binance, p, clock(Binance)));
    var r1 := Rows(GetPrices(Coinbase, p, clock(Coinbase)));
    var r2 := Rows(GetPrices(Bitfinex, p, clock(Bitfinex)));
    var r4 := Rows(GetPrices(Huobi, p, clock(Huobi)));
    OfBrokerConcat(r0, r1 + (r2 + r4), b);
    OfBrokerConcat(r1, r2 + r4, b);
    OfBrokerConcat(r2, r4, b);
    OfBrokerUniform(r0, Binance, b);
    OfBrokerUniform(r1, Coinbase, b);
    OfBrokerUniform(r2, Bitfinex, b);
    OfBrokerUniform(r4, Huobi, b);
  }
}
