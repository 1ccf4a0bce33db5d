/** The market snapshot's entity (one coin) and the market-cap size classes
    the dashboard sorts coins into. */
module Market {

  datatype Option<T> = None | Some(value: T)

  type CoinId = string

  /** One coin of a snapshot, reduced to the fields the view logic reads.
      `change24h` is `None` when the provider sends no 24h change. */
  datatype Coin = Coin(
    id: CoinId,
    name: string,
    symbol: string,
    currentPrice: real,
    marketCap: real,
    change24h: Option<real>)

  datatype Bucket = Large | Mid | Small

  const LargeCapFloor: real := 10000000000.0
  const MidCapFloor: real := 1000000000.0

  /** The size class of a market cap; both thresholds are strict. */
  function Category(marketCap: real): (b: Bucket)
  {
    if marketCap > LargeCapFloor then Large
    else if marketCap > MidCapFloor then Mid
    else Small
  }

  /** Position of a size class in the order small < mid < large. */
  function Rank(b: Bucket): (n: nat)
    ensures n <= 2
  {
    match b
    case Small => 0
    case Mid => 1
    case Large => 2
  }

  /** Each class is an interval of market caps: large above 10 billion,
      mid above 1 billion up to and including 10 billion, small the rest. */
  lemma CategoryRanges(m: real)
    ensures Category(m) == Large <==> m > 10000000000.0
    ensures Category(m) == Mid <==> 1000000000.0 < m <= 10000000000.0
    ensures Category(m) == Small <==> m <= 1000000000.0
  {
  }

  /** The thresholds themselves fall into the smaller class. */
  lemma CategoryBoundaries()
    ensures Category(10000000000.0) == Mid
    ensures Category(1000000000.0) == Small
    ensures Category(10000000000.5) == Large
    ensures Category(1000000000.5) == Mid
  {
  }

  /** A larger market cap never lands in a smaller class. */
  lemma CategoryMonotone(m1: real, m2: real)
    requires m1 <= m2
    ensures Rank(Category(m1)) <= Rank(Category(m2))
  {
  }
}
