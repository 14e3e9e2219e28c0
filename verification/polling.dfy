/** One iteration of the background polling loop: collect, append to the history, detect over
    the whole history, execute. */
module Polling {
  import opened Types
  import opened Symbols
  import opened Adapters
  import opened Detector
  import opened Executor

  /** The globals the polling loop updates: the accumulated price history and the ledger. */
  datatype World = World(prices: PriceTable, ledger: Ledger)

  /** The globals at start-up: a history without columns and the start-up ledger. */
  const InitialWorld := World(NoColumns, InitialLedger)

  /** What one iteration reads from outside: the parsed payloads, the time each broker's
      records are stamped with, the detection time, and the clock reading of each iteration
      of the execution loop. */
  datatype Inputs = Inputs(payloads: Payloads, fetchClock: Broker -> Time, detectTime: Time, execClock: nat -> Time)

  /** The result of an iteration: the loop goes on with the new globals, or an exception
      escapes and ends the polling thread, leaving the globals as they were when it was
      raised. */
  datatype Outcome = Continue(world: World) | Crash(fault: Fault, world: World)

  /** The execution clock readings for `n` opportunities. */
  function ExecClock(input: Inputs, n: nat): (c: seq<Time>)
    ensures |c| == n
  {
    seq(n, (k: nat) => input.execClock(k))
  }

  /** The history after appending one round of collected prices. */
  function Appended(w: World, input: Inputs): PriceTable
  {
    Join(w.prices, CollectAll(input.payloads, input.fetchClock))
  }

  /** One iteration as written: the history is replaced by its concatenation with the new
      round before detection runs; detection on a history without a symbol column raises,
      and so does a zero buy price; otherwise the detected opportunities are executed. */
  function PollOnce(w: World, input: Inputs, st: Settings): Outcome
  {
    var prices := Appended(w, input);
    if prices.NoColumns? then Crash(MissingSymbolColumn, World(prices, w.ledger))
    else
      match Detect(prices.rows, st, input.detectTime)
      case Fail(f) => Crash(f, World(prices, w.ledger))
      case Ok(opps) =>
        Continue(World(prices, Execute(w.ledger, opps, ExecClock(input, |opps|), st.cooldownSeconds)))
  }

  /** The history only grows: whatever the outcome, it keeps every earlier record in place
      and appends the new round, broker by broker in the fixed order. */
  lemma HistoryGrows(w: World, input: Inputs, st: Settings)
    ensures Rows(PollOnce(w, input, st).world.prices)
         == Rows(w.prices) + Rows(CollectAll(input.payloads, input.fetchClock))
    ensures forall b :: (OfBroker(Rows(PollOnce(w, input, st).world.prices), b)
         == OfBroker(Rows(w.prices), b) + Rows(GetPrices(b, input.payloads, input.fetchClock(b))))
  {
    forall b ensures OfBroker(Rows(PollOnce(w, input, st).world.prices), b)
         == OfBroker(Rows(w.prices), b) + Rows(GetPrices(b, input.payloads, input.fetchClock(b)))
    {
      CollectAllIsolates(input.payloads, input.fetchClock, b);
      OfBrokerConcat(Rows(w.prices), Rows(CollectAll(input.payloads, input.fetchClock)), b);
    }
  }

  /** The iteration raises for want of a symbol column exactly when the history had no
      columns yet and every broker failed in this round; it raises on a zero price exactly
      when the appended history has a compared pair with a zero buy price. A raised
      exception leaves the ledger untouched. */
  lemma PollOnceFaults(w: World, input: Inputs, st: Settings)
    ensures PollOnce(w, input, st) == Crash(MissingSymbolColumn, World(Appended(w, input), w.ledger)) <==>
      w.prices.NoColumns? && forall b :: GetPrices(b, input.payloads, input.fetchClock(b)).NoColumns?
    ensures PollOnce(w, input, st) == Crash(ZeroDivision, World(Appended(w, input), w.ledger)) <==>
      Appended(w, input).Table? && DividesByZero(Appended(w, input).rows)
    ensures PollOnce(w, input, st).Crash? ==> PollOnce(w, input, st).world.ledger == w.ledger
  {
    CollectAllFails(input.payloads, input.fetchClock);
  }

  /** When the iteration goes on, the ledger is the old ledger with the accepted
      opportunities of this detection pass applied: the gain grows by their profits and the
      history of transactions keeps its prefix and gains one entry per acceptance. */
  lemma PollOnceLedger(w: World, input: Inputs, st: Settings)
    requires PollOnce(w, input, st).Continue?
    ensures Appended(w, input).Table? && Detect(Appended(w, input).rows, st, input.detectTime).Ok?
    ensures var opps := Detect(Appended(w, input).rows, st, input.detectTime).value;
      PollOnce(w, input, st).world.ledger
        == LedgerAfter(w.ledger, opps, ExecClock(input, |opps|), st.cooldownSeconds, |opps|)
  {
    var opps := Detect(Appended(w, input).rows, st, input.detectTime).value;
    ExecuteLedger(w.ledger, opps, ExecClock(input, |opps|), st.cooldownSeconds);
  }

  /** The payloads of a round in which no broker can be reached. */
  const Outage := Payloads(Failed, _ => None, _ => None, Failed)

  /** In a round with no broker reachable, every broker yields a table without columns. */
  lemma OutageFailsAll(clock: Broker -> Time)
    ensures forall b :: GetPrices(b, Outage, clock(b)).NoColumns?
  {
    forall b ensures GetPrices(b, Outage, clock(b)).NoColumns? {
      var fetch: string -> Option<real> := _ => None;
      assert fetch(WatchList(b)[0]).None?;
    }
  }

  /** As written, an outage in the very first round kills the polling thread: the history
      still has no columns, so looking up its symbol column raises, although every broker
      failure was caught and reported as an empty result. */
  lemma StartupOutageCrashes(clock: Broker -> Time, detectTime: Time, execClock: nat -> Time, st: Settings)
    ensures PollOnce(InitialWorld, Inputs(Outage, clock, detectTime, execClock), st).Crash?
    ensures PollOnce(InitialWorld, Inputs(Outage, clock, detectTime, execClock), st).fault == MissingSymbolColumn
  {
    OutageFailsAll(clock);
    PollOnceFaults(InitialWorld, Inputs(Outage, clock, detectTime, execClock), st);
  }

  /** One iteration with a history without columns read as an empty history: a round in which
      every broker failed then detects nothing and the loop goes on. */
  function PollOnceTolerant(w: World, input: Inputs, st: Settings): Outcome
  {
    var prices := Appended(w, input);
    match Detect(Rows(prices), st, input.detectTime)
    case Fail(f) => Crash(f, World(prices, w.ledger))
    case Ok(opps) =>
      Continue(World(prices, Execute(w.ledger, opps, ExecClock(input, |opps|), st.cooldownSeconds)))
  }

  /** The tolerant iteration never dies for want of a symbol column; a round in which every
      broker failed over a history without columns leaves the ledger as it was; and wherever
      the iteration as written does not hit that fault, the two agree. */
  lemma TolerantPollOnce(w: World, input: Inputs, st: Settings)
    ensures PollOnceTolerant(w, input, st).Crash? ==> PollOnceTolerant(w, input, st).fault == ZeroDivision
    ensures Appended(w, input).NoColumns? ==>
      PollOnceTolerant(w, input, st) == Continue(World(NoColumns, w.ledger))
    ensures !(PollOnce(w, input, st).Crash? && PollOnce(w, input, st).fault == MissingSymbolColumn) ==>
      PollOnceTolerant(w, input, st) == PollOnce(w, input, st)
  {
    var prices := Appended(w, input);
    if prices.NoColumns? {
      assert !DividesByZero([]);
      assert OpportunitiesOf([], CandidatePairs([], st.minSpreadPercent), st.feePercent, input.detectTime) == [];
    }
  }

  /** With the tolerant iteration, an outage at start-up keeps the loop alive with an empty
      history and the start-up ledger. */
  lemma StartupOutageSurvives(clock: Broker -> Time, detectTime: Time, execClock: nat -> Time, st: Settings)
    ensures PollOnceTolerant(InitialWorld, Inputs(Outage, clock, detectTime, execClock), st)
         == Continue(InitialWorld)
  {
    var input := Inputs(Outage, clock, detectTime, execClock);
    OutageFailsAll(clock);
    CollectAllFails(Outage, clock);
    TolerantPollOnce(InitialWorld, input, st);
  }
}
