/** The records the core passes around: token holdings, price windows and the treasury.
    Python field names are rendered in camel case; positional constructor order is kept. */
module Types {

  type Symbol = string
  type Address = string

  /** A parsed timestamp; parsing of the provider's text is not modelled. */
  type Timestamp = int

  /** One observed day of a token's price history. */
  datatype Quote = Quote(timestamp: Timestamp, price: real)

  /** A token's price window as built from one portfolio item. */
  datatype HistoricalPrice = HistoricalPrice(
    tokenAddress: Address,
    tokenName: string,
    tokenSymbol: Symbol,
    quotes: seq<Quote>)

  /** A token holding; `balance` is a quantity or, after reconciliation, a value at `end`. */
  datatype ERC20 = ERC20(tokenName: string, tokenSymbol: Symbol, tokenAddress: Address, balance: real)

  datatype Treasury = Treasury(address: Address, assets: seq<ERC20>, windows: seq<HistoricalPrice>)

  /** True iff some asset of `assets` carries symbol `sym`. */
  predicate HasSymbol(assets: seq<ERC20>, sym: Symbol) {
    exists i :: 0 <= i < |assets| && assets[i].tokenSymbol == sym
  }
}
