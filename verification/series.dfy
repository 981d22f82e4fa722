/** Time series as finite maps from a day index to a value, with the few pandas
    operations the spread transform relies on made explicit. */
module Series {

  /** A calendar day as an integer index. */
  type Date = int

  type TimeSeries = map<Date, real>

  /** `series.loc[d]` where a missing date reads as 0 instead of raising KeyError. */
  function ValueOr0(s: TimeSeries, d: Date): real {
    if d in s then s[d] else 0.0
  }

  /** `x * f`. Named so that proofs about the shape of series and tables can hide the
      product and stay within linear arithmetic. */
  function Times(x: real, f: real): real {
    x * f
  }

  /** Multiplying by a fixed factor distributes over a sum. */
  lemma TimesAdd(x: real, y: real, f: real)
    ensures Times(x + y, f) == Times(x, f) + Times(y, f)
  {
  }

  /** Zero times anything is zero. */
  lemma TimesZero(f: real)
    ensures Times(0.0, f) == 0.0
  {
  }

  /** `series * f`: every observation multiplied by `f`, same dates. */
  function Scale(s: TimeSeries, f: real): (r: TimeSeries)
    ensures r.Keys == s.Keys
    ensures forall d :: d in r ==> r[d] == Times(s[d], f)
  {
    map d | d in s :: Times(s[d], f)
  }

  /** Scaling commutes with reading a possibly missing date. */
  lemma ScaleValueOr0(s: TimeSeries, f: real, d: Date)
    ensures ValueOr0(Scale(s, f), d) == Times(ValueOr0(s, d), f)
  {
  }

  /** `make_zeroes(start, end)`: one zero per day of the inclusive range. */
  function Zeroes(start: Date, end: Date): (r: TimeSeries)
    ensures forall d :: d in r <==> start <= d <= end
    ensures forall d :: d in r ==> r[d] == 0.0
    decreases end - start
  {
    if start > end then map[] else Zeroes(start + 1, end)[start := 0.0]
  }

  /** `series + c` for a scalar `c`: every observation shifted by `c`, same dates. */
  function AddScalar(s: TimeSeries, c: real): (r: TimeSeries)
    ensures r.Keys == s.Keys
    ensures forall d :: d in r ==> r[d] == s[d] + c
  {
    map d | d in s :: s[d] + c
  }

  /** `a.add(b, fill_value=0)`: outer join on dates, a side without the date counts as 0. */
  function AddFill0(a: TimeSeries, b: TimeSeries): (r: TimeSeries)
    ensures r.Keys == a.Keys + b.Keys
    ensures forall d :: d in r ==> r[d] == ValueOr0(a, d) + ValueOr0(b, d)
  {
    map d | d in a.Keys + b.Keys :: ValueOr0(a, d) + ValueOr0(b, d)
  }

  /** The outer-join sum reads as the pointwise sum at every date, present or not. */
  lemma AddFill0Pointwise(a: TimeSeries, b: TimeSeries, d: Date)
    ensures ValueOr0(AddFill0(a, b), d) == ValueOr0(a, d) + ValueOr0(b, d)
  {
  }

  /** Adding an empty series with fill value 0 changes nothing. */
  lemma AddFill0EmptyRight(a: TimeSeries)
    ensures AddFill0(a, map[]) == a
  {
  }
}
