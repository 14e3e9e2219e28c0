/** The string operations the adapters apply to each exchange's native symbol spelling,
    the per-exchange watch-lists, and the canonical `<ASSET>USD` symbols they map onto. */
module Symbols {
  import opened Types

  /** The five watched assets, in watch-list order. */
  const Assets: seq<string> := ["BTC", "ETH", "LTC", "XRP", "BCH"]

  /** The canonical symbol of each watched asset, in watch-list order. */
  const CanonicalSymbols: seq<string> := ["BTCUSD", "ETHUSD", "LTCUSD", "XRPUSD", "BCHUSD"]

  /** Each broker's native spelling of the watched symbols, in watch-list order. */
  function WatchList(b: Broker): (w: seq<string>)
    ensures |w| == |Assets|
  {
    match b
    case Binance => ["BTCUSDT", "ETHUSDT", "LTCUSDT", "XRPUSDT", "BCHUSDT"]
    case Coinbase => ["BTC-USD", "ETH-USD", "LTC-USD", "XRP-USD", "BCH-USD"]
    case Bitfinex => ["tBTCUSD", "tETHUSD", "tLTCUSD", "tXRPUSD", "tBCHUSD"]
    case Bittrex => ["BTC-USD", "ETH-USD", "LTC-USD", "XRP-USD", "BCH-USD"]
    case Huobi => ["btcusdt", "ethusdt", "ltcusdt", "xrpusdt", "bchusdt"]
  }

  /** Replace every non-overlapping occurrence of `pat` in `s`, scanning left to right,
      by `rep` (Python's `str.replace` for a non-empty pattern). */
  function Replace(s: string, pat: string, rep: string): (r: string)
    requires |pat| > 0
    ensures |rep| <= |pat| ==> |r| <= |s|
    ensures |rep| == |pat| ==> |r| == |s|
    decreases |s|
  {
    if |s| < |pat| then s
    else if s[..|pat|] == pat then rep + Replace(s[|pat|..], pat, rep)
    else [s[0]] + Replace(s[1..], pat, rep)
  }

  /** Upper-case an ASCII letter; every other character is kept. */
  function UpperChar(c: char): char
  {
    if 'a' <= c <= 'z' then (c as int - 32) as char else c
  }

  /** Python's `str.upper` restricted to ASCII. */
  function ToUpper(s: string): (r: string)
    ensures |r| == |s|
    ensures forall i :: 0 <= i < |s| ==> r[i] == UpperChar(s[i])
    ensures forall i :: 0 <= i < |r| ==> !('a' <= r[i] <= 'z')
    ensures forall i :: 0 <= i < |s| && !('a' <= s[i] <= 'z') ==> r[i] == s[i]
  {
    seq(|s|, i requires 0 <= i < |s| => UpperChar(s[i]))
  }

  /** Python's `s[1:]`: drop the first character, if any. */
  function DropFirst(s: string): (r: string)
    ensures |s| > 0 ==> [s[0]] + r == s
    ensures |s| == 0 ==> r == s
  {
    if |s| == 0 then s else s[1..]
  }

  /** The rewrite each adapter applies to a native symbol it kept. */
  function Canonicalise(b: Broker, native: string): string
  {
    match b
    case Binance => Replace(native, "USDT", "USD")
    case Coinbase => Replace(native, "-", "")
    case Bitfinex => DropFirst(native)
    case Bittrex => Replace(native, "-", "")
    case Huobi => ToUpper(Replace(native, "usdt", "usd"))
  }

  /** A string without the pattern's first character is left alone. */
  lemma {:induction false} ReplaceNoMatch(s: string, pat: string, rep: string)
    requires |pat| > 0 && pat[0] !in s
    ensures Replace(s, pat, rep) == s
    decreases |s|
  {
    if |s| >= |pat| {
      assert s[..|pat|][0] == s[0];
      ReplaceNoMatch(s[1..], pat, rep);
    }
  }

  /** A prefix without the pattern's first character passes through unchanged. */
  lemma {:induction false} ReplaceSkip(a: string, t: string, pat: string, rep: string)
    requires |pat| > 0 && pat[0] !in a
    ensures Replace(a + t, pat, rep) == a + Replace(t, pat, rep)
    decreases |a|
  {
    if |a| > 0 {
      var s := a + t;
      assert s[0] == a[0];
      assert s[1..] == a[1..] + t;
      ReplaceSkip(a[1..], t, pat, rep);
      assert a[0] in a;
      if |s| >= |pat| {
        assert s[..|pat|][0] == a[0];
        assert Replace(s, pat, rep) == [a[0]] + Replace(s[1..], pat, rep);
      } else {
        assert Replace(s, pat, rep) == s;
        assert Replace(t, pat, rep) == t;
      }
      assert a == [a[0]] + a[1..];
    } else {
      assert a + t == t;
    }
  }

  /** An occurrence at the front is rewritten. */
  lemma ReplaceHit(pat: string, t: string, rep: string)
    requires |pat| > 0
    ensures Replace(pat + t, pat, rep) == rep + Replace(t, pat, rep)
  {
    var s := pat + t;
    assert s[..|pat|] == pat;
    assert s[|pat|..] == t;
  }

  /** Replacing a trailing pattern in a string that otherwise lacks its first character. */
  lemma ReplaceTrailing(a: string, pat: string, rep: string)
    requires |pat| > 0 && pat[0] !in a
    ensures Replace(a + pat, pat, rep) == a + rep
  {
    ReplaceSkip(a, pat, pat, rep);
    ReplaceHit(pat, "", rep);
    assert pat + "" == pat;
    assert rep + "" == rep;
  }

  /** The watched asset names: none contains `U`, `u`, `-`, and their lower-case forms
      are Huobi's spellings without the quote currency. */
  lemma AssetShape(k: nat)
    requires k < |Assets|
    ensures 'U' !in Assets[k] && '-' !in Assets[k]
    ensures CanonicalSymbols[k] == Assets[k] + "USD"
    ensures WatchList(Binance)[k] == Assets[k] + "USDT"
    ensures WatchList(Coinbase)[k] == Assets[k] + "-USD"
    ensures WatchList(Bittrex)[k] == Assets[k] + "-USD"
    ensures WatchList(Bitfinex)[k] == "t" + Assets[k] + "USD"
  {
  }

  /** Huobi's lower-case spellings upper-case to the canonical symbols. */
  lemma HuobiShape(k: nat)
    requires k < |Assets|
    ensures exists l :: 'u' !in l && WatchList(Huobi)[k] == l + "usdt" && ToUpper(l + "usd") == CanonicalSymbols[k]
  {
    var l := ["btc", "eth", "ltc", "xrp", "bch"][k];
    assert WatchList(Huobi)[k] == l + "usdt";
    assert ToUpper(l + "usd") == CanonicalSymbols[k];
  }

  /** Removing the dash of `<ASSET>-USD`. */
  lemma DashSpelling(a: string)
    requires '-' !in a
    ensures Replace(a + "-USD", "-", "") == a + "USD"
  {
    assert a + "-USD" == a + ("-" + "USD");
    ReplaceSkip(a, "-" + "USD", "-", "");
    ReplaceHit("-", "USD", "");
    ReplaceNoMatch("USD", "-", "");
    assert "" + "USD" == "USD";
  }

  /** Every broker's native spelling of the k-th watched asset canonicalises to
      `<ASSET>USD`: `BTCUSDT`, `BTC-USD`, `tBTCUSD` and `btcusdt` all become `BTCUSD`. */
  lemma CanonicalSpelling(b: Broker, k: nat)
    requires k < |Assets|
    ensures Canonicalise(b, WatchList(b)[k]) == CanonicalSymbols[k]
  {
    var a := Assets[k];
    AssetShape(k);
    match b
    case Binance =>
      ReplaceTrailing(a, "USDT", "USD");
    case Coinbase =>
      DashSpelling(a);
    case Bitfinex =>
      assert ("t" + a + "USD")[1..] == a + "USD";
    case Bittrex =>
      DashSpelling(a);
    case Huobi =>
      HuobiShape(k);
      var l :| 'u' !in l && WatchList(Huobi)[k] == l + "usdt" && ToUpper(l + "usd") == CanonicalSymbols[k];
      ReplaceTrailing(l, "usdt", "usd");
  }

  /** The five canonical symbols are pairwise distinct. */
  lemma CanonicalDistinct(k: nat, l: nat)
    requires k < |Assets| && l < |Assets|
    ensures CanonicalSymbols[k] == CanonicalSymbols[l] <==> k == l
  {
  }

  /** Canonicalisation is one-to-one on each watch-list and joins the brokers: two brokers'
      spellings of the watched assets k and l meet in one canonical symbol exactly when k == l. */
  lemma CanonicalJoin(b1: Broker, b2: Broker, k: nat, l: nat)
    requires k < |Assets| && l < |Assets|
    ensures Canonicalise(b1, WatchList(b1)[k]) == Canonicalise(b2, WatchList(b2)[l]) <==> k == l
  {
    CanonicalSpelling(b1, k);
    CanonicalSpelling(b2, l);
    CanonicalDistinct(k, l);
  }

  /** The canonical image of a watched spelling is one of the canonical symbols. */
  lemma CanonicalOnWatchList(b: Broker, native: string)
    requires native in WatchList(b)
    ensures Canonicalise(b, native) in CanonicalSymbols
  {
    var k :| 0 <= k < |WatchList(b)| && WatchList(b)[k] == native;
    CanonicalSpelling(b, k);
  }
}
