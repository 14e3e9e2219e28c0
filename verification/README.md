# Crypto arbitrage dashboard — verified model of the price pipeline

This project models the computational core of a small Streamlit dashboard that polls five
cryptocurrency exchanges (Binance, Coinbase, Bitfinex, Bittrex, Huobi). The dashboard keeps
an ever-growing price history. It detects cross-exchange arbitrage opportunities over that
history and "executes" them, which means booking them into a simulated ledger behind a
cooldown. Its pipeline has five stages, each modelled as pure Dafny functions over immutable
datatypes:

- **Broker adapters** (`Symbols`, `Adapters`). Each adapter filters an already-decoded
  payload to a five-asset watch-list. It rewrites the exchange's native symbol spelling to a
  canonical `<ASSET>USD` symbol and stamps each record with its broker and a clock reading.
  Any failure yields a frame without columns.
- **Aggregation** (`Adapters.CollectAll`). The five adapters' frames are concatenated in the
  fixed broker order.
- **Detection** (`Detector`). For each symbol, in order of first appearance, every ordered
  pair of its records on different brokers is compared. A pair is reported when its raw
  spread reaches the threshold, with its fee-adjusted profit, whatever the profit's sign.
  The source's three nested loops are given both as prefix-recursive functions and as
  methods with loop invariants.
- **Execution** (`Executor`). A left fold over the opportunities with one clock reading per
  iteration. An opportunity is booked when the reading is at least the cooldown after the
  last booked transaction.
- **One polling iteration** (`Polling`). The new round is appended to the history, detection
  runs over the whole history, and the opportunities are executed. An exception that escapes
  ends the polling thread.

Pandas frames are modelled by `Types.PriceTable`:

- `NoColumns` is the frame a failed adapter returns, `pd.DataFrame()`. A frame built from an
  empty list is also `NoColumns`.
- `Table(rows)` is a frame that has the four columns, possibly with no rows.

The difference matters: looking up the `symbol` column of a column-less history raises.
Prices, fees and times are `real`; time is seconds relative to the Unix epoch, and
`datetime.min` is `Types.DatetimeMin`.

Three consequences of the code are worth stating on their own:

- Two brokers quoting BTCUSD at 100 (Binance) and 102 (Coinbase), with the default 0.15% fee
  and 0.4% threshold, yield a single opportunity. It buys on Binance and sells on Coinbase,
  with profit 102·0.9985 − 100·1.0015 = 1.697 (`Detector.TwoBrokerScenario`).
- With a positive threshold and positive prices, only one direction of a pair of records is
  ever reported (`Detector.OneDirection`).
- A round in which every broker failed, while the history still has no columns, raises in
  detection and ends the polling loop (see Findings).

## Model

| member | source | states |
|---|---|---|
| Symbols.Canonicalise | streamlit_app.py:48-75 | the rewrite each branch applies to a kept native symbol; it only computes, and its contract is stated by `Symbols.CanonicalSpelling`, `Symbols.CanonicalJoin` and `Symbols.CanonicalOnWatchList` |
| Symbols.CanonicalSpelling | streamlit_app.py:48-75 | every broker's native spelling of the k-th watched asset (`BTCUSDT` at line 48, `BTC-USD` at lines 55 and 69, `tBTCUSD` at line 63, `btcusdt` at line 75, and the same for ETH, LTC, XRP, BCH) is rewritten to the k-th canonical symbol `<ASSET>USD` |
| Symbols.CanonicalJoin | streamlit_app.py:48-75 | two brokers' spellings of watched assets k and l meet in one canonical symbol exactly when k = l, so records of one asset from different brokers are grouped together and different assets never are |
| Symbols.CanonicalDistinct | streamlit_app.py:48-75 | the five canonical symbols are pairwise distinct |
| Symbols.CanonicalOnWatchList | streamlit_app.py:48-75 | any watched native spelling is rewritten to one of the canonical symbols |
| Symbols.Replace | streamlit_app.py:48 | `str.replace` with a non-empty pattern never lengthens a string when the replacement is no longer than the pattern, and keeps its length when both are equally long; its rewriting is stated by `Symbols.ReplaceNoMatch`, `Symbols.ReplaceSkip` and `Symbols.ReplaceHit` |
| Symbols.ReplaceNoMatch | streamlit_app.py:48 | `str.replace` leaves a string lacking the pattern's first character unchanged |
| Symbols.ReplaceSkip | streamlit_app.py:48 | `str.replace` passes a prefix lacking the pattern's first character through unchanged and rewrites the rest |
| Symbols.ReplaceHit | streamlit_app.py:48 | `str.replace` rewrites an occurrence of the pattern at the front |
| Symbols.ReplaceTrailing | streamlit_app.py:75 | replacing a trailing pattern in a string that otherwise lacks its first character rewrites just that suffix |
| Symbols.DashSpelling | streamlit_app.py:55 | removing `-` from `<ASSET>-USD` gives `<ASSET>USD` |
| Symbols.HuobiShape | streamlit_app.py:74-75 | each Huobi spelling is a `u`-free stem plus `usdt` whose `usd` form upper-cases to the canonical symbol |
| Symbols.ToUpper | streamlit_app.py:75 | upper-casing keeps the length, upper-cases each ASCII letter in place, leaves every other character alone, and leaves no lower-case ASCII letter |
| Symbols.DropFirst | streamlit_app.py:63 | `s[1:]` is what follows the first character, so that character followed by the result is `s`; the empty string stays empty |
| Adapters.Keep | streamlit_app.py:46-48 | each filtered record comes from a watched quote, every watched quote yields one, and each carries the broker, the reading and a canonical symbol; order and multiplicity are stated by `Adapters.KeepSingle` and `Adapters.KeepConcat` |
| Adapters.KeepSingle | streamlit_app.py:46-48 | a single watched quote yields exactly its normalised record, with its own price, and an unwatched one yields nothing |
| Adapters.KeepCons | streamlit_app.py:46-48 | the filter on a non-empty payload is the first quote's contribution followed by the rest's |
| Adapters.KeepConcat | streamlit_app.py:46-48 | the filter distributes over concatenation of payloads; with `Adapters.KeepSingle` this fixes the output completely, keeping payload order and every duplicate with its own price |
| Adapters.KeepCounts | streamlit_app.py:46 | the filter keeps the k-th canonical symbol exactly as many times as the payload holds the k-th native spelling, so duplicates survive and unwatched symbols are dropped |
| Adapters.CanonicalHit | streamlit_app.py:48 | a watched native spelling becomes the k-th canonical symbol exactly when it is the k-th watch-list entry |
| Adapters.FromTickerList | streamlit_app.py:42-48 | a ticker-list adapter has columns exactly when the response was decoded, is non-empty and every watched entry's price converts; its records carry the broker, the reading and a canonical symbol |
| Adapters.TickerListCounts | streamlit_app.py:70-76 | in a ticker-list adapter's output, each canonical symbol appears as often as its native spelling appears in the payload |
| Adapters.FromEachSymbol | streamlit_app.py:49-64 | a per-symbol adapter has columns exactly when all five requests succeed, and then holds one record per watched asset in watch-list order with that request's price |
| Adapters.GetPrices | streamlit_app.py:40-82 | every record of a broker's frame carries that broker and the round's reading; the Bittrex branch always fails into the handler |
| Adapters.Join | streamlit_app.py:86 | concatenating two frames yields their rows in order, and has columns unless both operands lack them |
| Adapters.OfBroker | streamlit_app.py:84-87 | a selection used only to state per-broker properties of the aggregate, with no counterpart in the code: the records of one broker are exactly those with that broker field |
| Adapters.OfBrokerConcat | streamlit_app.py:86 | selecting one broker distributes over concatenation |
| Adapters.OfBrokerUniform | streamlit_app.py:84-87 | a property of that selection: selecting a broker from a one-broker frame keeps all of it or nothing |
| Adapters.ConcatFive | streamlit_app.py:86 | concatenating five frames is the right-nested join of them |
| Adapters.ConcatFiveRows | streamlit_app.py:86 | the rows of five concatenated frames, the fourth being column-less, are the other four's rows in order |
| Adapters.CollectAll | streamlit_app.py:84-87 | the aggregation of one round; it only computes, and its contract is stated by `Adapters.CollectAllRows`, `Adapters.CollectAllFails` and `Adapters.CollectAllIsolates` |
| Adapters.CollectAllRows | streamlit_app.py:84-87 | the aggregate is Binance's rows, then Coinbase's, Bitfinex's and Huobi's, Bittrex contributing nothing |
| Adapters.CollectAllFails | streamlit_app.py:84-87 | the aggregate lacks columns exactly when every broker failed |
| Adapters.CollectAllIsolates | streamlit_app.py:80-87 | one broker's records in the aggregate are exactly its own adapter's output, whatever the others did, and the aggregate's length is the sum of the five lengths |
| Detector.SpreadPercent | streamlit_app.py:104 | with a positive buy price, the raw spread is non-negative exactly when the sell price is at least the buy price, and zero exactly when they are equal |
| Detector.Profit | streamlit_app.py:108-110 | the fee-adjusted profit; it only computes, and its contract is stated by `Detector.DetectSound`, `Detector.FeeExample` and `Detector.TwoBrokerScenario` |
| Detector.Detect | streamlit_app.py:89-122 | detection over the history; it only computes, and its contract is stated by `Detector.DetectCharacterised`, `Detector.DetectSound`, `Detector.DetectComplete` and `Detector.DetectDeterministic` |
| Detector.FirstIndex | streamlit_app.py:91 | the position found holds the value and no earlier position does |
| Detector.Unique | streamlit_app.py:91 | `unique` lists each symbol of the column exactly once and nothing else |
| Detector.UniqueOrder | streamlit_app.py:91 | `unique` lists the symbols in strictly increasing order of first appearance |
| Detector.Inner | streamlit_app.py:97-107 | the inner loop for buy row i emits exactly the pairs (i, j) that are compared and reach the threshold, in increasing j |
| Detector.Outer | streamlit_app.py:94-107 | the loop over one symbol's rows emits exactly that symbol's qualifying pairs, in lexicographic order of (buy row, sell row) |
| Detector.OverSymbols | streamlit_app.py:93-107 | the loop over a list of symbols emits exactly the qualifying pairs whose symbol is listed |
| Detector.OverSymbolsSorted | streamlit_app.py:91-97 | with symbols listed in order of first appearance, the pairs come out by symbol first appearance, then buy row, then sell row |
| Detector.CandidatePairsExact | streamlit_app.py:91-107 | the pairs considered over the whole history are exactly the qualifying compared pairs |
| Detector.CandidatePairsSpec | streamlit_app.py:91-107 | those pairs are moreover in emission order |
| Detector.BeforeTotal | streamlit_app.py:91-97 | the emission order is a strict total order on pairs: irreflexive, asymmetric, transitive and connected |
| Detector.TailInOrder | streamlit_app.py:91-97 | the tail of an ordered list is ordered and excludes the head |
| Detector.SameHead | streamlit_app.py:91-97 | two ordered lists with the same pairs have the same first pair |
| Detector.EmissionOrderUnique | streamlit_app.py:91-97 | two ordered lists holding the same pairs are equal, so the order fixes the output |
| Detector.DetectCharacterised | streamlit_app.py:89-122 | detection raises exactly when some compared pair has a zero buy price; otherwise it returns the opportunities of any list holding exactly the qualifying pairs in emission order |
| Detector.Origin | streamlit_app.py:98-120 | every reported opportunity is the opportunity of some qualifying compared pair |
| Detector.DetectSound | streamlit_app.py:98-120 | every reported opportunity has different brokers, the detection time, the fee-adjusted profit of its two prices, a spread at or above the threshold, and comes from two distinct rows of its symbol holding exactly its brokers and prices |
| Detector.DetectComplete | streamlit_app.py:104-120 | every compared pair whose spread reaches the threshold, boundary included, is reported, whatever the sign of its profit |
| Detector.DetectDeterministic | streamlit_app.py:89-122 | two detections over one history agree on the outcome and on every opportunity in order, except the timestamp |
| Detector.OneDirection | streamlit_app.py:104-107 | with a positive threshold and positive prices, at most one direction of a pair of rows is reported |
| Detector.FeeExample | streamlit_app.py:108-110 | buying at 100 and selling at 101 with the 0.15% fee nets 0.6985 |
| Detector.TwoBrokerScenario | streamlit_app.py:89-122 | quotes of 100 on Binance and 102 on Coinbase under the default settings give one opportunity, buy Binance and sell Coinbase, with profit 1.697 |
| Detector.OpportunitiesOfSnoc | streamlit_app.py:112-120 | appending a pair appends its opportunity |
| Detector.OpportunitiesOfConcat | streamlit_app.py:112-120 | the opportunities of concatenated pair lists are the concatenation of their opportunities |
| Detector.OverSymbolsStep | streamlit_app.py:93 | one more symbol appends its block |
| Detector.NoZeroDivision | streamlit_app.py:104 | if no row of any symbol has a zero price against a rival, no division by zero occurs |
| Detector.ScanRow | streamlit_app.py:97-120 | the inner loop raises exactly when its buy price is zero and it has a rival, and otherwise returns the opportunities of `Inner` |
| Detector.ScanSymbol | streamlit_app.py:94-120 | the loop over one symbol raises exactly when one of its rows has a zero price against a rival, and otherwise returns the opportunities of `Outer` |
| Detector.FindOpportunities | streamlit_app.py:89-122 | the source's nested loops compute exactly `Detect` |
| Executor.Step | streamlit_app.py:129-140 | one iteration of the loop; it only computes, and its contract is stated by `Executor.ExecuteLedger` and `Executor.AcceptedIff` |
| Executor.Execute | streamlit_app.py:127-140 | the whole loop as a fold; it only computes, and its contract is stated by `Executor.ExecuteLedger`, `Executor.AcceptedIff`, `Executor.AcceptedApart` and `Executor.AtMostOne` |
| Executor.Accepted | streamlit_app.py:127-140 | the accepted indices are increasing and lie within the iterations run |
| Executor.ExecuteSnoc | streamlit_app.py:127 | one more opportunity is one more loop step |
| Executor.LedgerAfterStep | streamlit_app.py:129-140 | the indexed description of the ledger follows one more loop step |
| Executor.ExecuteLedger | streamlit_app.py:127-140 | the new total is the old one plus the accepted profits; the history keeps its prefix and gains one entry per acceptance, in order, copying symbol, brokers and profit and stamped with that iteration's reading; the last time is the latest acceptance's reading, or unchanged |
| Executor.AcceptedIff | streamlit_app.py:129-140 | an iteration is accepted exactly when its reading is at least the cooldown after the last time left by the iterations before it; rejected iterations are never retried |
| Executor.AcceptedSpacing | streamlit_app.py:129-140 | consecutive acceptances are at least the cooldown apart, and the first is at least the cooldown after the initial last time |
| Executor.SpacedSnoc | streamlit_app.py:129-140 | accepting an iteration whose reading clears the cooldown since the last accepted reading keeps the acceptances spaced by the cooldown |
| Executor.AcceptedApart | streamlit_app.py:129-140 | with a non-decreasing clock, any two acceptances are at least the cooldown apart |
| Executor.FirstTwoApart | streamlit_app.py:129-140 | with a non-decreasing clock, the first two acceptances are at least the cooldown apart and within the clock's span |
| Executor.AtMostOne | streamlit_app.py:127-140 | with a positive cooldown and a clock advancing by less than it during the call, at most one opportunity is accepted |
| Executor.FirstFromStart | streamlit_app.py:10 | from the start-up ledger, a first opportunity read at least the cooldown after `datetime.min` is booked as the only entry |
| Executor.ExecuteLoop | streamlit_app.py:125-140 | the source's loop over mutable gain, history and last time computes exactly `Execute` |
| Polling.PollOnce | streamlit_app.py:143-149 | one iteration as written; it only computes, and its contract is stated by `Polling.HistoryGrows`, `Polling.PollOnceFaults` and `Polling.PollOnceLedger` |
| Polling.HistoryGrows | streamlit_app.py:146-147 | whatever the outcome, the history keeps every earlier record in place and appends the new round, each broker's records growing by exactly its adapter's output |
| Polling.PollOnceFaults | streamlit_app.py:143-149 | an iteration dies for want of a symbol column exactly when the history had no columns and every broker failed, and on a zero price exactly when the appended history divides by zero; a death leaves the ledger untouched |
| Polling.PollOnceLedger | streamlit_app.py:146-149 | when the iteration goes on, the ledger is the old ledger with this pass's accepted opportunities applied |
| Polling.OutageFailsAll | streamlit_app.py:80-82 | in a round with no broker reachable, every adapter returns a frame without columns |
| Polling.StartupOutageCrashes | streamlit_app.py:143-148 | as written, an outage in the very first round makes the iteration raise for want of a symbol column |
| Polling.PollOnceTolerant | streamlit_app.py:143-149 | the corrected iteration; it only computes, and its contract is stated by `Polling.TolerantPollOnce` and `Polling.StartupOutageSurvives` |
| Polling.TolerantPollOnce | streamlit_app.py:143-149 | the corrected iteration never dies for want of a symbol column, leaves the ledger alone when the history still has no columns, and otherwise agrees with the iteration as written |
| Polling.StartupOutageSurvives | streamlit_app.py:143-149 | with the corrected iteration, an outage at start-up keeps the loop going with the start-up globals |

## Left out

- HTTP requests, JSON decoding and DataFrame construction (lines 43-45, 53-54, 61-62, 66-67, 71-73) are foreign I/O. Payloads arrive already decoded, and every decoding failure is folded into `Adapters.Fetch.Failed` or a `None` price.
- The Bittrex branch always raises, because it uses a module that is never imported (line 67). It is modelled as a broker that always fails, so its payload is not modelled.
- The background thread, `time.sleep`, and the unsynchronised sharing of globals with the UI (lines 145-154) are not modelled. The model covers one polling iteration, with the settings passed as a parameter.
- Streamlit and Plotly rendering, the settings widgets, and the `st.error`/`st.write` messages (lines 139, 156-189) are output only. The rendering also calls `calculate_max_spread`, which is never defined.
- `capital_invested` and the `FEES` table (lines 22-28, 35) are never read by any computation.
- Prices, fees and spreads are `real`, not IEEE floats: rounding, infinities and NaN are not modelled. A zero buy price in a compared pair is modelled as a raised division by zero, which ends detection. Negative prices are not excluded.
- Upper-casing is ASCII-only. That suffices for the watched spellings, but not for arbitrary Unicode.
- Detection stamps every opportunity with one clock reading per pass; the source reads the clock once per opportunity (line 119).
- The execution loop reads the clock twice per accepted opportunity (lines 128 and 137). The model uses the first reading for both the cooldown test and the entry's timestamp.
- Each broker's records carry one reading per round (line 78), given by `Polling.Inputs.fetchClock`.

## Findings

| source | as written | input that shows it | evidently intended | confidence | as-written member | corrected member |
|---|---|---|---|---|---|---|
| streamlit_app.py:143-148 | the history starts as a frame without columns (line 31), and every adapter failure is caught and returns a frame without columns (lines 80-82); when every broker fails in every round so far, the concatenated history still has no columns and `prices_df['symbol']` raises KeyError in detection, ending the polling thread | the first round with no exchange reachable: `Polling.Outage` from `Polling.InitialWorld` | a round in which every broker failed detects nothing and the loop goes on, as the per-adapter error handling intends | not executed | Polling.StartupOutageCrashes | Polling.TolerantPollOnce |
