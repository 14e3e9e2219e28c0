/** The data model shared by every stage of the price/arbitrage pipeline. */
module Types {

  /** The five exchanges polled by the dashboard, in polling order. */
  datatype Broker = Binance | Coinbase | Bitfinex | Bittrex | Huobi

  /** The order in which the aggregator asks the brokers for prices. */
  const BrokerOrder: seq<Broker> := [Binance, Coinbase, Bitfinex, Bittrex, Huobi]

  /** Wall-clock instants, as (possibly fractional) seconds relative to the Unix epoch. */
  type Time = real

  /** The instant `datetime.min` (0001-01-01 00:00), in seconds relative to the Unix epoch. */
  const DatetimeMin: Time := -62135596800.0

  datatype Option<T> = None | Some(value: T)

  /** The uncaught exceptions that end the polling loop. */
  datatype Fault =
    | MissingSymbolColumn  // the history frame has no columns, so selecting `symbol` raises
    | ZeroDivision         // a spread is computed against a zero buy price

  datatype Result<T> = Ok(value: T) | Fail(fault: Fault)

  /** One row of the price table: a canonical symbol quoted by a broker at an instant. */
  datatype PriceRecord = PriceRecord(symbol: string, price: real, broker: Broker, timestamp: Time)

  /** A price table as the program holds it. A failed fetch yields an empty frame that has
      no columns at all; every successful fetch yields the four columns, possibly with no rows. */
  datatype PriceTable = NoColumns | Table(rows: seq<PriceRecord>)

  /** The rows of a table; a table without columns has none. */
  function Rows(t: PriceTable): seq<PriceRecord>
  {
    match t
    case NoColumns => []
    case Table(rows) => rows
  }

  /** A detected price difference: buy on `buyBroker`, sell on `sellBroker`. */
  datatype Opportunity = Opportunity(
    symbol: string,
    buyBroker: Broker,
    sellBroker: Broker,
    buyPrice: real,
    sellPrice: real,
    profit: real,
    timestamp: Time)

  /** A ledger entry recording one simulated execution. */
  datatype Transaction = Transaction(
    symbol: string,
    buyBroker: Broker,
    sellBroker: Broker,
    profit: real,
    timestamp: Time)

  /** The user-editable settings that the computation reads: the fee percentage applied to
      both legs, the cooldown between executions in seconds, and the minimum raw spread. */
  datatype Settings = Settings(feePercent: real, cooldownSeconds: real, minSpreadPercent: real)

  /** The settings the dashboard starts with. */
  const DefaultSettings: Settings := Settings(0.15, 30.0, 0.4)
}
