/** Cooldown-gated execution of detected opportunities against a running ledger. */
module Executor {
  import opened Types

  /** The executor's global state: the running net gain, the transaction history and the
      time of the last accepted transaction. */
  datatype Ledger = Ledger(totalGain: real, transactions: seq<Transaction>, lastTime: Time)

  /** The ledger at start-up: no gain, no history, and the last transaction at `datetime.min`,
      so that the first opportunity is always accepted. */
  const InitialLedger := Ledger(0.0, [], DatetimeMin)

  /** The ledger entry for an opportunity accepted at time `now`. */
  function TxOf(o: Opportunity, now: Time): Transaction
  {
    Transaction(o.symbol, o.buyBroker, o.sellBroker, o.profit, now)
  }

  /** Whether an opportunity read at `now` clears the cooldown since `last`; the boundary
      is included. */
  predicate Ready(now: Time, last: Time, cooldown: real)
  {
    now - last >= cooldown
  }

  /** One iteration of the execution loop: an opportunity that clears the cooldown adds its
      profit, appends its entry and resets the last transaction time; otherwise it is
      discarded and the ledger is unchanged. */
  function Step(l: Ledger, o: Opportunity, now: Time, cooldown: real): Ledger
  {
    if Ready(now, l.lastTime, cooldown) then
      Ledger(l.totalGain + o.profit, l.transactions + [TxOf(o, now)], now)
    else l
  }

  /** The execution loop over the opportunities in order, `clock[k]` being the clock reading
      taken at the `k`-th iteration. */
  function Execute(l: Ledger, opps: seq<Opportunity>, clock: seq<Time>, cooldown: real): Ledger
    requires |clock| == |opps|
    decreases |opps|
  {
    if |opps| == 0 then l
    else Execute(Step(l, opps[0], clock[0], cooldown), opps[1..], clock[1..], cooldown)
  }

  /** The last transaction time after the accepted indices `idx`: the reading of the latest
      one, or `last0` when none was accepted. */
  function LastOf(last0: Time, clock: seq<Time>, idx: seq<nat>): Time
    requires forall a :: 0 <= a < |idx| ==> idx[a] < |clock|
  {
    if |idx| == 0 then last0 else clock[idx[|idx| - 1]]
  }

  /** The indices among the first `n` iterations whose reading clears the cooldown since the
      reading of the previous accepted index (or `last0` for the first one), increasing. */
  function Accepted(last0: Time, clock: seq<Time>, cooldown: real, n: nat): (idx: seq<nat>)
    requires n <= |clock|
    ensures forall a :: 0 <= a < |idx| ==> idx[a] < n
    ensures forall a, b :: 0 <= a < b < |idx| ==> idx[a] < idx[b]
  {
    if n == 0 then []
    else
      var done := Accepted(last0, clock, cooldown, n - 1);
      if Ready(clock[n - 1], LastOf(last0, clock, done), cooldown) then done + [n - 1] else done
  }

  /** The sum of the profits of the opportunities at the indices `idx`. */
  function GainOf(opps: seq<Opportunity>, idx: seq<nat>): real
    requires forall a :: 0 <= a < |idx| ==> idx[a] < |opps|
  {
    if |idx| == 0 then 0.0
    else GainOf(opps, idx[..|idx| - 1]) + opps[idx[|idx| - 1]].profit
  }

  /** The ledger entries of the opportunities at the indices `idx`, each stamped with the
      reading of its iteration. */
  function EntriesOf(opps: seq<Opportunity>, clock: seq<Time>, idx: seq<nat>): (es: seq<Transaction>)
    requires |clock| == |opps|
    requires forall a :: 0 <= a < |idx| ==> idx[a] < |opps|
  {
    seq(|idx|, a requires 0 <= a < |idx| => TxOf(opps[idx[a]], clock[idx[a]]))
  }

  /** The ledger after the first `n` iterations, stated through the accepted indices. */
  function LedgerAfter(l: Ledger, opps: seq<Opportunity>, clock: seq<Time>, cooldown: real, n: nat): Ledger
    requires |clock| == |opps| && n <= |opps|
  {
    var idx := Accepted(l.lastTime, clock, cooldown, n);
    Ledger(l.totalGain + GainOf(opps, idx),
           l.transactions + EntriesOf(opps, clock, idx),
           LastOf(l.lastTime, clock, idx))
  }

  /** Running one more iteration after a prefix is one more step. */
  lemma {:induction false} ExecuteSnoc(l: Ledger, opps: seq<Opportunity>, clock: seq<Time>, cooldown: real,
                                       o: Opportunity, now: Time)
    requires |clock| == |opps|
    ensures Execute(l, opps + [o], clock + [now], cooldown)
         == Step(Execute(l, opps, clock, cooldown), o, now, cooldown)
    decreases |opps|
  {
    if |opps| == 0 {
      assert (opps + [o])[1..] == [] && (clock + [now])[1..] == [];
    } else {
      assert (opps + [o])[1..] == opps[1..] + [o];
      assert (clock + [now])[1..] == clock[1..] + [now];
      ExecuteSnoc(Step(l, opps[0], clock[0], cooldown), opps[1..], clock[1..], cooldown, o, now);
    }
  }

  /** One more iteration of the indexed description agrees with one more step. */
  lemma LedgerAfterStep(l: Ledger, opps: seq<Opportunity>, clock: seq<Time>, cooldown: real, n: nat)
    requires |clock| == |opps| && n < |opps|
    ensures LedgerAfter(l, opps, clock, cooldown, n + 1)
         == Step(LedgerAfter(l, opps, clock, cooldown, n), opps[n], clock[n], cooldown)
  {
    var idx := Accepted(l.lastTime, clock, cooldown, n);
    if Ready(clock[n], LastOf(l.lastTime, clock, idx), cooldown) {
      var idx' := idx + [n];
      assert idx'[..|idx|] == idx;
      var es, es' := EntriesOf(opps, clock, idx), EntriesOf(opps, clock, idx');
      assert es' == es + [TxOf(opps[n], clock[n])];
      assert l.transactions + es' == (l.transactions + es) + [TxOf(opps[n], clock[n])];
    }
  }

  /** The ledger invariant of the execution loop: the new total is the old total plus the
      profits of the accepted opportunities; the history keeps its old entries and gains one
      entry per accepted opportunity, in order, copying its symbol, brokers and profit and
      stamped with the reading of its iteration; the last transaction time is that of the
      latest acceptance, or unchanged when nothing was accepted. */
  lemma {:induction false} ExecuteLedger(l: Ledger, opps: seq<Opportunity>, clock: seq<Time>, cooldown: real)
    requires |clock| == |opps|
    ensures Execute(l, opps, clock, cooldown) == LedgerAfter(l, opps, clock, cooldown, |opps|)
  {
    var k := 0;
    assert opps[..0] == [] && clock[..0] == [];
    while k < |opps|
      invariant 0 <= k <= |opps|
      invariant Execute(l, opps[..k], clock[..k], cooldown) == LedgerAfter(l, opps, clock, cooldown, k)
    {
      assert opps[..k + 1] == opps[..k] + [opps[k]];
      assert clock[..k + 1] == clock[..k] + [clock[k]];
      ExecuteSnoc(l, opps[..k], clock[..k], cooldown, opps[k], clock[k]);
      LedgerAfterStep(l, opps, clock, cooldown, k);
      k := k + 1;
    }
    assert opps[..k] == opps && clock[..k] == clock;
  }

  /** An iteration is accepted exactly when its reading is at least the cooldown after the
      last transaction time left by the iterations before it; a rejected iteration is never
      reconsidered. */
  lemma {:induction false} AcceptedIff(last0: Time, clock: seq<Time>, cooldown: real, n: nat, k: nat)
    requires n <= |clock| && k < n
    ensures k in Accepted(last0, clock, cooldown, n) <==>
      Ready(clock[k], LastOf(last0, clock, Accepted(last0, clock, cooldown, k)), cooldown)
    decreases n
  {
    var done := Accepted(last0, clock, cooldown, n - 1);
    if k < n - 1 {
      AcceptedIff(last0, clock, cooldown, n - 1, k);
      assert k in Accepted(last0, clock, cooldown, n) <==> k in done;
    } else {
      assert k !in done;
    }
  }

  /** The accepted readings `idx` are spaced by the cooldown: the first is at least the
      cooldown after `last0`, and each further one at least the cooldown after the one
      before it. */
  predicate Spaced(last0: Time, clock: seq<Time>, cooldown: real, idx: seq<nat>)
    requires forall a :: 0 <= a < |idx| ==> idx[a] < |clock|
  {
    && (|idx| > 0 ==> clock[idx[0]] - last0 >= cooldown)
    && forall a :: 0 < a < |idx| ==> clock[idx[a]] - clock[idx[a - 1]] >= cooldown
  }

  /** Appending an index whose reading clears the cooldown since the last accepted reading
      keeps the spacing. */
  lemma SpacedSnoc(last0: Time, clock: seq<Time>, cooldown: real, idx: seq<nat>, k: nat)
    requires k < |clock| && forall a :: 0 <= a < |idx| ==> idx[a] < |clock|
    requires Spaced(last0, clock, cooldown, idx)
    requires Ready(clock[k], LastOf(last0, clock, idx), cooldown)
    ensures Spaced(last0, clock, cooldown, idx + [k])
  {
    var idx' := idx + [k];
    forall a | 0 < a < |idx'| ensures clock[idx'[a]] - clock[idx'[a - 1]] >= cooldown {
      if a < |idx| {
        assert idx'[a] == idx[a] && idx'[a - 1] == idx[a - 1];
      }
    }
  }

  /** Two consecutive acceptances are at least the cooldown apart, and the first one is at
      least the cooldown after the initial last transaction time. */
  lemma {:induction false} AcceptedSpacing(last0: Time, clock: seq<Time>, cooldown: real, n: nat)
    requires n <= |clock|
    ensures Spaced(last0, clock, cooldown, Accepted(last0, clock, cooldown, n))
    decreases n
  {
    if n > 0 {
      AcceptedSpacing(last0, clock, cooldown, n - 1);
      var done := Accepted(last0, clock, cooldown, n - 1);
      if Ready(clock[n - 1], LastOf(last0, clock, done), cooldown) {
        SpacedSnoc(last0, clock, cooldown, done, n - 1);
      }
    }
  }

  /** With a non-decreasing clock, any two acceptances are at least the cooldown apart. */
  lemma AcceptedApart(last0: Time, clock: seq<Time>, cooldown: real, n: nat, a: nat, b: nat)
    requires n <= |clock|
    requires forall x, y :: 0 <= x <= y < |clock| ==> clock[x] <= clock[y]
    requires a < b < |Accepted(last0, clock, cooldown, n)|
    ensures var idx := Accepted(last0, clock, cooldown, n);
      clock[idx[b]] - clock[idx[a]] >= cooldown
  {
    var idx := Accepted(last0, clock, cooldown, n);
    AcceptedSpacing(last0, clock, cooldown, n);
    assert idx[a] <= idx[b - 1];
  }

  /** The first two acceptances lie within the span of a non-decreasing clock, and are at
      least the cooldown apart. */
  lemma FirstTwoApart(last0: Time, clock: seq<Time>, cooldown: real)
    requires forall x, y :: 0 <= x <= y < |clock| ==> clock[x] <= clock[y]
    ensures var idx := Accepted(last0, clock, cooldown, |clock|);
      |idx| > 1 ==> cooldown <= clock[idx[1]] - clock[idx[0]] <= clock[|clock| - 1] - clock[0]
  {
    var idx := Accepted(last0, clock, cooldown, |clock|);
    if |idx| > 1 {
      AcceptedApart(last0, clock, cooldown, |clock|, 0, 1);
      assert clock[0] <= clock[idx[0]] && clock[idx[1]] <= clock[|clock| - 1];
    }
  }

  /** The throttle: with a positive cooldown and a non-decreasing clock that advances by less
      than the cooldown during the call, at most one opportunity is accepted. */
  lemma AtMostOne(l: Ledger, opps: seq<Opportunity>, clock: seq<Time>, cooldown: real)
    requires |clock| == |opps| && cooldown > 0.0
    requires forall x, y :: 0 <= x <= y < |clock| ==> clock[x] <= clock[y]
    requires |clock| > 0 ==> clock[|clock| - 1] - clock[0] < cooldown
    ensures |Execute(l, opps, clock, cooldown).transactions| <= |l.transactions| + 1
  {
    ExecuteLedger(l, opps, clock, cooldown);
    FirstTwoApart(l.lastTime, clock, cooldown);
  }

  /** From the start-up ledger, the first opportunity is accepted whenever its reading is at
      least the cooldown after `datetime.min`; it is then the whole history and the gain. */
  lemma FirstFromStart(o: Opportunity, now: Time, cooldown: real)
    requires now - DatetimeMin >= cooldown
    ensures Execute(InitialLedger, [o], [now], cooldown)
         == Ledger(o.profit, [Transaction(o.symbol, o.buyBroker, o.sellBroker, o.profit, now)], now)
  {
  }

  /** The execution loop as written: mutable gain, history and last time, one clock reading
      per iteration. */
  method ExecuteLoop(l: Ledger, opps: seq<Opportunity>, clock: seq<Time>, cooldown: real) returns (r: Ledger)
    requires |clock| == |opps|
    ensures r == Execute(l, opps, clock, cooldown)
  {
    var totalGain, transactions, lastTime := l.totalGain, l.transactions, l.lastTime;
    var i := 0;
    while i < |opps|
      invariant 0 <= i <= |opps|
      invariant Execute(Ledger(totalGain, transactions, lastTime), opps[i..], clock[i..], cooldown)
             == Execute(l, opps, clock, cooldown)
    {
      var currentTime := clock[i];
      assert opps[i..][1..] == opps[i + 1..] && clock[i..][1..] == clock[i + 1..];
      if currentTime - lastTime >= cooldown {
        var opportunity := opps[i];
        totalGain := totalGain + opportunity.profit;
        transactions := transactions + [TxOf(opportunity, currentTime)];
        lastTime := currentTime;
      }
      i := i + 1;
    }
    r := Ledger(totalGain, transactions, lastTime);
  }
}
