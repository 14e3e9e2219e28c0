/** Cross-broker arbitrage detection over the whole price history. */
module Detector {
  import opened Types

  /** The raw spread of buying at `buy` and selling at `sell`, in percent of the buy price. */
  function SpreadPercent(buy: real, sell: real): (r: real)
    requires buy != 0.0
    ensures buy > 0.0 ==> (r >= 0.0 <==> sell >= buy)
    ensures buy > 0.0 ==> (r == 0.0 <==> sell == buy)
  {
    (sell - buy) / buy * 100.0
  }

  /** Whether the raw spread reaches the threshold; the boundary is included. */
  predicate Qualifies(buy: real, sell: real, minSpreadPercent: real)
    requires buy != 0.0
  {
    SpreadPercent(buy, sell) >= minSpreadPercent
  }

  /** Net result of one round trip after paying the fee percentage on both legs. */
  function Profit(buy: real, sell: real, feePercent: real): real
  {
    sell * (1.0 - feePercent / 100.0) - buy * (1.0 + feePercent / 100.0)
  }

  /** An ordered pair of history positions: buy at row `buy`, sell at row `sell`. */
  datatype Pair = Pair(buy: nat, sell: nat)

  /** The symbol column of the history. */
  function SymbolColumn(h: seq<PriceRecord>): (c: seq<string>)
    ensures |c| == |h| && forall i :: 0 <= i < |h| ==> c[i] == h[i].symbol
  {
    seq(|h|, i requires 0 <= i < |h| => h[i].symbol)
  }

  /** The position of the first occurrence of `x` in `xs`. */
  function FirstIndex(xs: seq<string>, x: string): (r: nat)
    requires x in xs
    ensures r < |xs| && xs[r] == x && forall k :: 0 <= k < r ==> xs[k] != x
    decreases |xs|
  {
    if xs[0] == x then 0 else 1 + FirstIndex(xs[1..], x)
  }

  /** The distinct values of `xs`, in order of first appearance (pandas' `unique`). */
  function Unique(xs: seq<string>): (u: seq<string>)
    ensures forall x :: x in u <==> x in xs
    ensures forall a, b :: 0 <= a < b < |u| ==> u[a] != u[b]
    decreases |xs|
  {
    if |xs| == 0 then []
    else
      var u := Unique(xs[..|xs| - 1]);
      assert forall x :: x in xs <==> x in xs[..|xs| - 1] || x == xs[|xs| - 1] by {
        assert xs == xs[..|xs| - 1] + [xs[|xs| - 1]];
      }
      if xs[|xs| - 1] in u then u else u + [xs[|xs| - 1]]
  }

  /** `Unique` lists the values in strictly increasing order of their first occurrence. */
  lemma {:induction false} UniqueOrder(xs: seq<string>)
    ensures forall a, b :: 0 <= a < b < |Unique(xs)| ==>
      FirstIndex(xs, Unique(xs)[a]) < FirstIndex(xs, Unique(xs)[b])
    decreases |xs|
  {
    if |xs| > 0 {
      var init := xs[..|xs| - 1];
      var last := xs[|xs| - 1];
      UniqueOrder(init);
      var u := Unique(init);
      assert xs == init + [last];
      forall x | x in init ensures FirstIndex(xs, x) == FirstIndex(init, x) {
        var f := FirstIndex(init, x);
        assert xs[f] == x;
        assert forall k :: 0 <= k < f ==> xs[k] == init[k];
      }
      if last !in u {
        assert forall k :: 0 <= k < |init| ==> xs[k] != last by {
          forall k | 0 <= k < |init| ensures xs[k] != last {
            assert xs[k] == init[k] && init[k] in init;
          }
        }
        assert FirstIndex(xs, last) == |xs| - 1;
        var v := u + [last];
        forall a | 0 <= a < |u| ensures FirstIndex(xs, v[a]) < FirstIndex(xs, last) {
          assert v[a] == u[a] && u[a] in init;
        }
      }
    }
  }

  /** A pair the nested loops compare: two rows quoting the same symbol on different
      brokers. A row is never compared with itself, since its broker equals its own. */
  predicate Compared(h: seq<PriceRecord>, p: Pair)
  {
    && p.buy < |h| && p.sell < |h|
    && h[p.buy].symbol == h[p.sell].symbol
    && h[p.buy].broker != h[p.sell].broker
  }

  /** A compared pair the detector reports: the raw spread of buying at the first row and
      selling at the second reaches the threshold. */
  predicate Emits(h: seq<PriceRecord>, minSpreadPercent: real, p: Pair)
  {
    && Compared(h, p)
    && h[p.buy].price != 0.0
    && Qualifies(h[p.buy].price, h[p.sell].price, minSpreadPercent)
  }

  /** Row `i` is compared with some row of another broker quoting the same symbol. */
  predicate HasRival(h: seq<PriceRecord>, i: nat)
    requires i < |h|
  {
    exists j | 0 <= j < |h| :: h[j].symbol == h[i].symbol && h[j].broker != h[i].broker
  }

  /** Some compared pair has a zero buy price: computing its spread raises. */
  predicate DividesByZero(h: seq<PriceRecord>)
  {
    exists i | 0 <= i < |h| :: h[i].price == 0.0 && HasRival(h, i)
  }

  /** Lexicographic order on positions: outer (buy) row first, then inner (sell) row. */
  predicate LexBefore(p: Pair, q: Pair)
  {
    p.buy < q.buy || (p.buy == q.buy && p.sell < q.sell)
  }

  /** The emission order: by first appearance of the symbol, then buy row, then sell row. */
  predicate Before(h: seq<PriceRecord>, p: Pair, q: Pair)
    requires p.buy < |h| && q.buy < |h|
  {
    var c := SymbolColumn(h);
    var fp, fq := FirstIndex(c, h[p.buy].symbol), FirstIndex(c, h[q.buy].symbol);
    fp < fq || (fp == fq && LexBefore(p, q))
  }

  /** The inner loop after `j` steps: rows `0..j-1` of the history compared as the sell
      side against buy row `i`. */
  function Inner(h: seq<PriceRecord>, s: string, m: real, i: nat, j: nat): (ps: seq<Pair>)
    requires i < |h| && h[i].symbol == s && j <= |h|
    ensures forall p :: p in ps <==> p.buy == i && p.sell < j && Emits(h, m, p)
    ensures forall a, b :: 0 <= a < b < |ps| ==> ps[a].buy == ps[b].buy && ps[a].sell < ps[b].sell
  {
    if j == 0 then []
    else
      var done := Inner(h, s, m, i, j - 1);
      var k := j - 1;
      if h[k].symbol == s && h[i].broker != h[k].broker && h[i].price != 0.0
         && Qualifies(h[i].price, h[k].price, m)
      then done + [Pair(i, k)]
      else done
  }

  /** The outer loop after `i` steps: rows `0..i-1` of the history taken as the buy side for
      symbol `s`, each against every row. */
  function Outer(h: seq<PriceRecord>, s: string, m: real, i: nat): (ps: seq<Pair>)
    requires i <= |h|
    ensures forall p :: p in ps <==> p.buy < i && Emits(h, m, p) && h[p.buy].symbol == s
    ensures forall a, b :: 0 <= a < b < |ps| ==> LexBefore(ps[a], ps[b])
  {
    if i == 0 then []
    else
      var done := Outer(h, s, m, i - 1);
      var k := i - 1;
      if h[k].symbol == s then
        var here := Inner(h, s, m, k, |h|);
        assert forall a, b :: 0 <= a < |done| && 0 <= b < |here| ==> LexBefore(done[a], here[b]) by {
          forall a, b | 0 <= a < |done| && 0 <= b < |here| ensures LexBefore(done[a], here[b]) {
            assert done[a] in done && here[b] in here;
          }
        }
        done + here
      else done
  }

  /** The loop over symbols: the blocks of the symbols `syms`, in that order. */
  function OverSymbols(h: seq<PriceRecord>, syms: seq<string>, m: real): (ps: seq<Pair>)
    ensures forall p :: p in ps <==> Emits(h, m, p) && h[p.buy].symbol in syms
  {
    if |syms| == 0 then []
    else
      var init := syms[..|syms| - 1];
      var done := OverSymbols(h, init, m);
      assert forall x :: x in syms <==> x in init || x == syms[|syms| - 1] by {
        assert syms == init + [syms[|syms| - 1]];
      }
      done + Outer(h, syms[|syms| - 1], m, |h|)
  }

  /** Every candidate pair in emission order. */
  function CandidatePairs(h: seq<PriceRecord>, m: real): seq<Pair>
  {
    OverSymbols(h, Unique(SymbolColumn(h)), m)
  }

  /** The opportunity reported for a candidate pair. */
  function OpportunityOf(h: seq<PriceRecord>, p: Pair, feePercent: real, now: Time): Opportunity
    requires p.buy < |h| && p.sell < |h|
  {
    var b, s := h[p.buy], h[p.sell];
    Opportunity(b.symbol, b.broker, s.broker, b.price, s.price, Profit(b.price, s.price, feePercent), now)
  }

  /** The opportunities of a list of candidate pairs, in order. */
  function OpportunitiesOf(h: seq<PriceRecord>, ps: seq<Pair>, feePercent: real, now: Time): (os: seq<Opportunity>)
    requires forall p :: p in ps ==> p.buy < |h| && p.sell < |h|
    ensures |os| == |ps|
  {
    seq(|ps|, k requires 0 <= k < |ps| => OpportunityOf(h, ps[k], feePercent, now))
  }

  /** Detection over the history with the current settings, every opportunity stamped `now`;
      it raises when a compared pair has a zero buy price. */
  function Detect(h: seq<PriceRecord>, st: Settings, now: Time): Result<seq<Opportunity>>
  {
    if DividesByZero(h) then Fail(ZeroDivision)
    else Ok(OpportunitiesOf(h, CandidatePairs(h, st.minSpreadPercent), st.feePercent, now))
  }

  /** A pair whose symbol appears earlier comes first. */
  lemma BeforeBySymbol(h: seq<PriceRecord>, p: Pair, q: Pair)
    requires p.buy < |h| && q.buy < |h|
    requires FirstIndex(SymbolColumn(h), h[p.buy].symbol) < FirstIndex(SymbolColumn(h), h[q.buy].symbol)
    ensures Before(h, p, q)
  {
  }

  /** Within one symbol, the lexicographic order of positions decides. */
  lemma BeforeSameSymbol(h: seq<PriceRecord>, p: Pair, q: Pair)
    requires p.buy < |h| && q.buy < |h|
    requires h[p.buy].symbol == h[q.buy].symbol && LexBefore(p, q)
    ensures Before(h, p, q)
  {
  }

  /** The pairs are in range and strictly in emission order. */
  predicate InEmissionOrder(h: seq<PriceRecord>, ps: seq<Pair>)
  {
    && (forall p :: p in ps ==> p.buy < |h|)
    && forall a, b :: 0 <= a < b < |ps| ==> Before(h, ps[a], ps[b])
  }

  /** Two ordered runs concatenate into an ordered run when every pair of the first
      comes before every pair of the second. */
  lemma ConcatInOrder(h: seq<PriceRecord>, xs: seq<Pair>, ys: seq<Pair>)
    requires InEmissionOrder(h, xs) && InEmissionOrder(h, ys)
    requires forall x, y :: x in xs && y in ys ==> Before(h, x, y)
    ensures InEmissionOrder(h, xs + ys)
  {
    var ps := xs + ys;
    forall a, b | 0 <= a < b < |ps| ensures Before(h, ps[a], ps[b]) {
      if b < |xs| {
        assert ps[a] == xs[a] && ps[b] == xs[b];
      } else if a >= |xs| {
        assert ps[a] == ys[a - |xs|] && ps[b] == ys[b - |xs|];
      } else {
        assert ps[a] == xs[a] && ps[b] == ys[b - |xs|];
        assert xs[a] in xs && ys[b - |xs|] in ys;
      }
    }
  }

  /** One symbol's block is in emission order. */
  lemma BlockInOrder(h: seq<PriceRecord>, s: string, m: real)
    ensures InEmissionOrder(h, Outer(h, s, m, |h|))
  {
    var here := Outer(h, s, m, |h|);
    forall a, b | 0 <= a < b < |here| ensures Before(h, here[a], here[b]) {
      assert here[a] in here && here[b] in here;
      BeforeSameSymbol(h, here[a], here[b]);
    }
  }

  /** The blocks of earlier-appearing symbols precede the block of the last symbol. */
  lemma RestBeforeBlock(h: seq<PriceRecord>, syms: seq<string>, m: real, p: Pair, q: Pair)
    requires |syms| > 0
    requires forall x :: x in syms ==> x in SymbolColumn(h)
    requires forall a :: 0 <= a < |syms| - 1 ==>
      FirstIndex(SymbolColumn(h), syms[a]) < FirstIndex(SymbolColumn(h), syms[|syms| - 1])
    requires p in OverSymbols(h, syms[..|syms| - 1], m)
    requires q in Outer(h, syms[|syms| - 1], m, |h|)
    ensures p.buy < |h| && q.buy < |h| && Before(h, p, q)
  {
    var init := syms[..|syms| - 1];
    var k :| 0 <= k < |init| && init[k] == h[p.buy].symbol;
    assert init[k] == syms[k];
    BeforeBySymbol(h, p, q);
  }

  /** Concatenated symbol blocks come out in emission order when the symbols are listed in
      increasing order of first appearance. */
  lemma {:induction false} OverSymbolsSorted(h: seq<PriceRecord>, syms: seq<string>, m: real)
    requires forall x :: x in syms ==> x in SymbolColumn(h)
    requires forall a, b :: 0 <= a < b < |syms| ==>
      FirstIndex(SymbolColumn(h), syms[a]) < FirstIndex(SymbolColumn(h), syms[b])
    ensures InEmissionOrder(h, OverSymbols(h, syms, m))
    decreases |syms|
  {
    if |syms| > 0 {
      var c := SymbolColumn(h);
      var init := syms[..|syms| - 1];
      var last := syms[|syms| - 1];
      assert forall x :: x in init ==> x in syms;
      forall a, b | 0 <= a < b < |init| ensures FirstIndex(c, init[a]) < FirstIndex(c, init[b]) {
        assert init[a] == syms[a] && init[b] == syms[b];
      }
      OverSymbolsSorted(h, init, m);
      BlockInOrder(h, last, m);
      var done := OverSymbols(h, init, m);
      var here := Outer(h, last, m, |h|);
      forall x, y | x in done && y in here ensures Before(h, x, y) {
        RestBeforeBlock(h, syms, m, x, y);
      }
      ConcatInOrder(h, done, here);
    }
  }

  /** The candidate pairs are exactly the emitted pairs. */
  lemma CandidatePairsExact(h: seq<PriceRecord>, m: real)
    ensures forall p :: p in CandidatePairs(h, m) <==> Emits(h, m, p)
  {
    var c := SymbolColumn(h);
    forall p | Emits(h, m, p) ensures h[p.buy].symbol in Unique(c) {
      assert c[p.buy] == h[p.buy].symbol;
    }
  }

  /** The candidate pairs are exactly the emitted pairs, each once, listed by first appearance
      of the symbol, then by buy row, then by sell row. */
  lemma CandidatePairsSpec(h: seq<PriceRecord>, m: real)
    ensures forall p :: p in CandidatePairs(h, m) <==> Emits(h, m, p)
    ensures InEmissionOrder(h, CandidatePairs(h, m))
  {
    CandidatePairsExact(h, m);
    var c := SymbolColumn(h);
    UniqueOrder(c);
    OverSymbolsSorted(h, Unique(c), m);
  }

  /** The emission order is a strict total order on in-range pairs. */
  lemma BeforeTotal(h: seq<PriceRecord>, p: Pair, q: Pair, r: Pair)
    requires p.buy < |h| && q.buy < |h| && r.buy < |h|
    ensures !(Before(h, p, q) && Before(h, q, p))
    ensures !Before(h, p, p)
    ensures Before(h, p, q) && Before(h, q, r) ==> Before(h, p, r)
    ensures p != q ==> Before(h, p, q) || Before(h, q, p)
  {
    var c := SymbolColumn(h);
    assert c[p.buy] == h[p.buy].symbol && c[q.buy] == h[q.buy].symbol;
    var fp, fq := FirstIndex(c, h[p.buy].symbol), FirstIndex(c, h[q.buy].symbol);
    if fp == fq {
      assert h[p.buy].symbol == c[fp] == h[q.buy].symbol;
    }
  }

  /** The tail of an ordered run is ordered, and its head does not occur in it. */
  lemma TailInOrder(h: seq<PriceRecord>, xs: seq<Pair>)
    requires |xs| > 0 && InEmissionOrder(h, xs)
    ensures InEmissionOrder(h, xs[1..])
    ensures forall p :: p in xs[1..] ==> Before(h, xs[0], p) && p != xs[0]
    ensures forall p :: p in xs <==> p == xs[0] || p in xs[1..]
  {
    var t := xs[1..];
    assert xs == [xs[0]] + t;
    forall a, b | 0 <= a < b < |t| ensures Before(h, t[a], t[b]) {
      assert t[a] == xs[a + 1] && t[b] == xs[b + 1];
    }
    forall p | p in t ensures Before(h, xs[0], p) && p != xs[0] {
      var k :| 0 <= k < |t| && t[k] == p;
      assert xs[k + 1] == p;
      BeforeTotal(h, xs[0], p, p);
    }
  }

  /** Two ordered runs with the same pairs start with the same pair. */
  lemma SameHead(h: seq<PriceRecord>, xs: seq<Pair>, ys: seq<Pair>)
    requires |xs| > 0 && |ys| > 0
    requires InEmissionOrder(h, xs) && InEmissionOrder(h, ys)
    requires forall p :: p in xs <==> p in ys
    ensures xs[0] == ys[0]
  {
    TailInOrder(h, xs);
    TailInOrder(h, ys);
    if xs[0] != ys[0] {
      assert xs[0] in ys && ys[0] in xs;
      assert Before(h, ys[0], xs[0]);
      assert Before(h, xs[0], ys[0]);
      BeforeTotal(h, xs[0], ys[0], ys[0]);
    }
  }

  /** Two lists in emission order holding the same pairs are the same list: the order fixes
      the sequence completely. */
  lemma {:induction false} EmissionOrderUnique(h: seq<PriceRecord>, xs: seq<Pair>, ys: seq<Pair>)
    requires InEmissionOrder(h, xs) && InEmissionOrder(h, ys)
    requires forall p :: p in xs <==> p in ys
    ensures xs == ys
    decreases |xs|
  {
    assert |ys| > 0 ==> ys[0] in xs;
    if |xs| > 0 {
      assert xs[0] in ys;
      SameHead(h, xs, ys);
      TailInOrder(h, xs);
      TailInOrder(h, ys);
      EmissionOrderUnique(h, xs[1..], ys[1..]);
      assert xs == [xs[0]] + xs[1..] && ys == [ys[0]] + ys[1..];
    }
  }

  /** Detection raises exactly when some compared pair has a zero buy price; otherwise it is
      determined by what it emits and in which order: for any list holding exactly the
      emitted pairs in emission order (symbol by first appearance, then buy row, then sell
      row), detection reports precisely their opportunities. */
  lemma DetectCharacterised(h: seq<PriceRecord>, st: Settings, now: Time, ps: seq<Pair>)
    requires InEmissionOrder(h, ps)
    requires forall p :: p in ps <==> Emits(h, st.minSpreadPercent, p)
    ensures forall p :: p in ps ==> p.buy < |h| && p.sell < |h|
    ensures Detect(h, st, now).Fail? <==>
      exists i: nat, j: nat :: Compared(h, Pair(i, j)) && h[i].price == 0.0
    ensures Detect(h, st, now).Ok? ==>
      Detect(h, st, now).value == OpportunitiesOf(h, ps, st.feePercent, now)
  {
    CandidatePairsSpec(h, st.minSpreadPercent);
    EmissionOrderUnique(h, ps, CandidatePairs(h, st.minSpreadPercent));
    if DividesByZero(h) {
      var i :| 0 <= i < |h| && h[i].price == 0.0 && HasRival(h, i);
      var j :| 0 <= j < |h| && h[j].symbol == h[i].symbol && h[j].broker != h[i].broker;
      assert Compared(h, Pair(i, j));
    }
    if exists i: nat, j: nat :: Compared(h, Pair(i, j)) && h[i].price == 0.0 {
      var i: nat, j: nat :| Compared(h, Pair(i, j)) && h[i].price == 0.0;
      assert HasRival(h, i);
    }
  }

  /** Soundness: every reported opportunity comes from two distinct rows of its symbol on
      different brokers whose raw spread reaches the threshold, carries their prices, and
      has the fee-adjusted profit, whatever its sign. */
  lemma DetectSound(h: seq<PriceRecord>, st: Settings, now: Time, o: Opportunity)
    requires Detect(h, st, now).Ok? && o in Detect(h, st, now).value
    ensures o.buyBroker != o.sellBroker
    ensures o.timestamp == now
    ensures o.profit == o.sellPrice * (1.0 - st.feePercent / 100.0) - o.buyPrice * (1.0 + st.feePercent / 100.0)
    ensures o.buyPrice != 0.0 && (o.sellPrice - o.buyPrice) / o.buyPrice * 100.0 >= st.minSpreadPercent
    ensures exists i, j :: (0 <= i < |h| && 0 <= j < |h| && i != j
      && h[i] == PriceRecord(o.symbol, o.buyPrice, o.buyBroker, h[i].timestamp)
      && h[j] == PriceRecord(o.symbol, o.sellPrice, o.sellBroker, h[j].timestamp))
  {
    var q := Origin(h, st, now, o);
    assert h[q.buy] == PriceRecord(o.symbol, o.buyPrice, o.buyBroker, h[q.buy].timestamp);
    assert h[q.sell] == PriceRecord(o.symbol, o.sellPrice, o.sellBroker, h[q.sell].timestamp);
  }

  /** The emitted pair a reported opportunity comes from. */
  lemma Origin(h: seq<PriceRecord>, st: Settings, now: Time, o: Opportunity) returns (q: Pair)
    requires Detect(h, st, now).Ok? && o in Detect(h, st, now).value
    ensures Emits(h, st.minSpreadPercent, q)
    ensures o == OpportunityOf(h, q, st.feePercent, now)
  {
    var m := st.minSpreadPercent;
    var ps := CandidatePairs(h, m);
    CandidatePairsExact(h, m);
    var os := OpportunitiesOf(h, ps, st.feePercent, now);
    var k :| 0 <= k < |os| && os[k] == o;
    q := ps[k];
    assert q in ps;
  }

  /** Completeness: every ordered pair of rows of one symbol on different brokers whose raw
      spread reaches the threshold, the boundary included, is reported, whatever the sign of
      its profit. */
  lemma DetectComplete(h: seq<PriceRecord>, st: Settings, now: Time, i: nat, j: nat)
    requires Detect(h, st, now).Ok?
    requires i < |h| && j < |h|
    requires h[i].symbol == h[j].symbol && h[i].broker != h[j].broker
    requires h[i].price != 0.0 && (h[j].price - h[i].price) / h[i].price * 100.0 >= st.minSpreadPercent
    ensures Opportunity(h[i].symbol, h[i].broker, h[j].broker, h[i].price, h[j].price,
                        Profit(h[i].price, h[j].price, st.feePercent), now) in Detect(h, st, now).value
  {
    var ps := CandidatePairs(h, st.minSpreadPercent);
    CandidatePairsSpec(h, st.minSpreadPercent);
    assert Emits(h, st.minSpreadPercent, Pair(i, j));
    var k :| 0 <= k < |ps| && ps[k] == Pair(i, j);
    assert Detect(h, st, now).value[k] == OpportunityOf(h, Pair(i, j), st.feePercent, now);
  }

  /** Detecting twice over the same history gives the same outcome and the same
      opportunities in the same order; only the detection timestamp differs. */
  lemma DetectDeterministic(h: seq<PriceRecord>, st: Settings, t1: Time, t2: Time)
    ensures Detect(h, st, t1).Ok? <==> Detect(h, st, t2).Ok?
    ensures Detect(h, st, t1).Ok? ==>
      |Detect(h, st, t1).value| == |Detect(h, st, t2).value| &&
      forall k :: 0 <= k < |Detect(h, st, t1).value| ==>
        Detect(h, st, t1).value[k] == Detect(h, st, t2).value[k].(timestamp := t1)
  {
  }

  /** With a positive threshold and positive prices, at most one direction of a pair of rows
      is reported: the reverse of a positive spread is negative. */
  lemma OneDirection(h: seq<PriceRecord>, m: real, i: nat, j: nat)
    requires m > 0.0
    requires i < |h| && j < |h| && h[i].price > 0.0 && h[j].price > 0.0
    ensures !(Emits(h, m, Pair(i, j)) && Emits(h, m, Pair(j, i)))
  {
    var a, b := h[i].price, h[j].price;
    if SpreadPercent(a, b) >= m {
      assert (b - a) / a > 0.0;
      assert b - a > 0.0;
      assert (a - b) / b < 0.0;
    }
  }

  /** Fee adjustment with the default fee: buying at 100 and selling at 101 nets 0.6985. */
  lemma FeeExample()
    ensures Profit(100.0, 101.0, DefaultSettings.feePercent) == 0.6985
  {
  }

  /** Two brokers quoting BTCUSD at 100 and 102 under the default settings: buying on Binance
      and selling on Coinbase (spread 2%) is reported with profit 1.697; the reverse direction
      (spread about -1.96%) is filtered out. */
  lemma TwoBrokerScenario(t0: Time, now: Time)
    ensures var h := [PriceRecord("BTCUSD", 100.0, Binance, t0), PriceRecord("BTCUSD", 102.0, Coinbase, t0)];
      Detect(h, DefaultSettings, now) == Ok([Opportunity("BTCUSD", Binance, Coinbase, 100.0, 102.0, 1.697, now)])
  {
    var h := [PriceRecord("BTCUSD", 100.0, Binance, t0), PriceRecord("BTCUSD", 102.0, Coinbase, t0)];
    var m := DefaultSettings.minSpreadPercent;
    var ps := [Pair(0, 1)];
    assert SpreadPercent(100.0, 102.0) == 2.0;
    assert SpreadPercent(102.0, 100.0) < 0.0;
    forall p ensures p in ps <==> Emits(h, m, p) {
      if Compared(h, p) {
        assert p == Pair(0, 1) || p == Pair(1, 0);
      }
    }
    assert !DividesByZero(h);
    DetectCharacterised(h, DefaultSettings, now, ps);
    var os := OpportunitiesOf(h, ps, DefaultSettings.feePercent, now);
    assert Profit(100.0, 102.0, DefaultSettings.feePercent) == 1.697;
    assert os == [Opportunity("BTCUSD", Binance, Coinbase, 100.0, 102.0, 1.697, now)];
  }

  /** Appending one pair appends its opportunity. */
  lemma OpportunitiesOfSnoc(h: seq<PriceRecord>, ps: seq<Pair>, p: Pair, feePercent: real, now: Time)
    requires forall q :: q in ps ==> q.buy < |h| && q.sell < |h|
    requires p.buy < |h| && p.sell < |h|
    ensures forall q :: q in ps + [p] ==> q.buy < |h| && q.sell < |h|
    ensures OpportunitiesOf(h, ps + [p], feePercent, now)
         == OpportunitiesOf(h, ps, feePercent, now) + [OpportunityOf(h, p, feePercent, now)]
  {
  }

  /** Concatenating pair lists concatenates their opportunities. */
  lemma OpportunitiesOfConcat(h: seq<PriceRecord>, xs: seq<Pair>, ys: seq<Pair>, feePercent: real, now: Time)
    requires forall q :: q in xs ==> q.buy < |h| && q.sell < |h|
    requires forall q :: q in ys ==> q.buy < |h| && q.sell < |h|
    ensures forall q :: q in xs + ys ==> q.buy < |h| && q.sell < |h|
    ensures OpportunitiesOf(h, xs + ys, feePercent, now)
         == OpportunitiesOf(h, xs, feePercent, now) + OpportunitiesOf(h, ys, feePercent, now)
  {
  }

  /** One more symbol appends its block. */
  lemma OverSymbolsStep(h: seq<PriceRecord>, syms: seq<string>, n: nat, m: real)
    requires n < |syms|
    ensures OverSymbols(h, syms[..n + 1], m) == OverSymbols(h, syms[..n], m) + Outer(h, syms[n], m, |h|)
    ensures forall x :: x in syms[..n + 1] <==> x in syms[..n] || x == syms[n]
  {
    assert syms[..n + 1][..n] == syms[..n];
    assert syms[..n + 1] == syms[..n] + [syms[n]];
  }

  /** When no row of any listed symbol has a zero price against a rival, and every symbol
      of the history is listed, nothing divides by zero. */
  lemma NoZeroDivision(h: seq<PriceRecord>, syms: seq<string>)
    requires forall x :: x in SymbolColumn(h) ==> x in syms
    requires forall k :: 0 <= k < |h| && h[k].symbol in syms ==> h[k].price != 0.0 || !HasRival(h, k)
    ensures !DividesByZero(h)
  {
    forall k | 0 <= k < |h| ensures h[k].price != 0.0 || !HasRival(h, k) {
      assert SymbolColumn(h)[k] == h[k].symbol;
    }
  }

  /** The inner loop for buy row `i`: every row of its symbol as the sell side. */
  method ScanRow(h: seq<PriceRecord>, st: Settings, now: Time, i: nat) returns (r: Result<seq<Opportunity>>)
    requires i < |h|
    ensures r.Fail? <==> h[i].price == 0.0 && HasRival(h, i)
    ensures r.Ok? ==> r.value == OpportunitiesOf(h, Inner(h, h[i].symbol, st.minSpreadPercent, i, |h|), st.feePercent, now)
  {
    var s, m, fee := h[i].symbol, st.minSpreadPercent, st.feePercent;
    var opps: seq<Opportunity> := [];
    var raised := false;
    var j := 0;
    while j < |h| && !raised
      invariant 0 <= j <= |h|
      invariant !raised ==> opps == OpportunitiesOf(h, Inner(h, s, m, i, j), fee, now)
      invariant raised ==> h[i].price == 0.0 && HasRival(h, i)
      invariant h[i].price == 0.0 && !raised ==>
        forall k :: 0 <= k < j ==> h[k].symbol != s || h[k].broker == h[i].broker
    {
      if h[j].symbol == s && h[i].broker != h[j].broker {
        if h[i].price == 0.0 {
          assert HasRival(h, i) by { assert h[j].symbol == h[i].symbol; }
          raised := true;
        } else if SpreadPercent(h[i].price, h[j].price) >= m {
          OpportunitiesOfSnoc(h, Inner(h, s, m, i, j), Pair(i, j), fee, now);
          opps := opps + [OpportunityOf(h, Pair(i, j), fee, now)];
        }
      }
      j := j + 1;
    }
    r := if raised then Fail(ZeroDivision) else Ok(opps);
  }

  /** The middle loop for symbol `s`: every row of that symbol as the buy side. */
  method ScanSymbol(h: seq<PriceRecord>, st: Settings, now: Time, s: string) returns (r: Result<seq<Opportunity>>)
    ensures r.Fail? <==> exists i | 0 <= i < |h| :: h[i].symbol == s && h[i].price == 0.0 && HasRival(h, i)
    ensures r.Ok? ==> r.value == OpportunitiesOf(h, Outer(h, s, st.minSpreadPercent, |h|), st.feePercent, now)
  {
    var m, fee := st.minSpreadPercent, st.feePercent;
    var opps: seq<Opportunity> := [];
    var i := 0;
    while i < |h|
      invariant 0 <= i <= |h|
      invariant opps == OpportunitiesOf(h, Outer(h, s, m, i), fee, now)
      invariant forall k :: 0 <= k < i && h[k].symbol == s ==> h[k].price != 0.0 || !HasRival(h, k)
    {
      if h[i].symbol == s {
        var row := ScanRow(h, st, now, i);
        if row.Fail? {
          return Fail(ZeroDivision);
        }
        OpportunitiesOfConcat(h, Outer(h, s, m, i), Inner(h, s, m, i, |h|), fee, now);
        opps := opps + row.value;
      }
      i := i + 1;
    }
    r := Ok(opps);
  }

  /** The detector's loops, in source order: for each symbol in order of first appearance,
      each row of that symbol as the buy side against each row of it as the sell side,
      appending every qualifying opportunity; a zero buy price aborts. */
  method FindOpportunities(h: seq<PriceRecord>, st: Settings, now: Time) returns (r: Result<seq<Opportunity>>)
    ensures r == Detect(h, st, now)
  {
    var m, fee := st.minSpreadPercent, st.feePercent;
    var syms := Unique(SymbolColumn(h));
    var opps: seq<Opportunity> := [];
    var n := 0;
    while n < |syms|
      invariant 0 <= n <= |syms|
      invariant opps == OpportunitiesOf(h, OverSymbols(h, syms[..n], m), fee, now)
      invariant forall k :: 0 <= k < |h| && h[k].symbol in syms[..n] ==> h[k].price != 0.0 || !HasRival(h, k)
    {
      var s := syms[n];
      var block := ScanSymbol(h, st, now, s);
      if block.Fail? {
        return Fail(ZeroDivision);
      }
      OverSymbolsStep(h, syms, n, m);
      OpportunitiesOfConcat(h, OverSymbols(h, syms[..n], m), Outer(h, s, m, |h|), fee, now);
      opps := opps + block.value;
      n := n + 1;
    }
    assert syms[..n] == syms;
    NoZeroDivision(h, syms);
    r := Ok(opps);
  }
}
