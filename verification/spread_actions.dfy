/** The spread backtest transform of backend/app/spread/actions.py: resize every
    token's balance series, divert the removed share into a reserve token's series,
    and reconcile the treasury's asset balances with the resulting table. */
module SpreadActions {
  import opened Wrappers
  import opened Types
  import opened Series

  /** The balance table: one balance series per token symbol. */
  datatype Balances = Balances(balances: map<Symbol, TimeSeries>)

  /** The share of every balance kept after diverting `p` percent. */
  function DownsizingFactor(p: int): real {
    (100 - p) as real / 100.0
  }

  /** The value diverted into the reserve token per day: `p` percent of `total`. */
  function SpreadShare(total: real, p: int): real {
    total * p as real / 100.0
  }

  // ---------------------------------------------------------------------------
  // Resizing

  /** Every series of the table multiplied by `f`. */
  function ScaleTable(m: map<Symbol, TimeSeries>, f: real): (r: map<Symbol, TimeSeries>)
    ensures r.Keys == m.Keys
    ensures forall k :: k in r ==> r[k] == Scale(m[k], f)
  {
    map k | k in m :: Scale(m[k], f)
  }

  /** `_resize_balances`: every series scaled by (100 - p) / 100, no key added or dropped. */
  function ResizeBalances(m: map<Symbol, TimeSeries>, p: int): (r: map<Symbol, TimeSeries>)
    ensures r.Keys == m.Keys
    ensures forall k :: k in r ==> r[k].Keys == m[k].Keys
    ensures forall k, d :: k in r && d in r[k] ==> r[k][d] == m[k][d] * (100 - p) as real / 100.0
  {
    ScaleTable(m, DownsizingFactor(p))
  }

  /** Scaling by 1 is the identity. */
  lemma ScaleOne(s: TimeSeries)
    ensures Scale(s, 1.0) == s
  {
    assert Scale(s, 1.0).Keys == s.Keys;
  }

  /** With p = 0 resizing is the identity. */
  lemma ResizeZeroPercent(m: map<Symbol, TimeSeries>)
    ensures ResizeBalances(m, 0) == m
  {
    var r := ResizeBalances(m, 0);
    forall k | k in m
      ensures r[k] == m[k]
    {
      ScaleOne(m[k]);
    }
  }

  /** With p = 100 every resized observation is 0, on the same dates. */
  lemma ResizeFullPercent(m: map<Symbol, TimeSeries>)
    ensures var r := ResizeBalances(m, 100);
            r.Keys == m.Keys &&
            forall k :: k in r ==> r[k].Keys == m[k].Keys && forall d :: d in r[k] ==> r[k][d] == 0.0
  {
  }

  // ---------------------------------------------------------------------------
  // Totals over the table

  /** The sum over the series named in `keys` of the value at `d`, a series without `d`
      counting 0 (the `get_default_balance` fallback). Keys are taken in an arbitrary
      order; TotalOverRemove shows the order does not matter. */
  ghost function TotalOver(m: map<Symbol, TimeSeries>, keys: set<Symbol>, d: Date): real
    requires keys <= m.Keys
    decreases keys
  {
    if keys == {} then 0.0
    else
      var k := Pick(keys);
      ValueOr0(m[k], d) + TotalOver(m, keys - {k}, d)
  }

  /** Some element of a non-empty key set. */
  ghost function Pick(keys: set<Symbol>): (k: Symbol)
    requires keys != {}
    ensures k in keys
  {
    var k :| k in keys;
    k
  }

  /** The table's total at `d`: every series' value there, summed. */
  ghost function TotalAt(m: map<Symbol, TimeSeries>, d: Date): real {
    TotalOver(m, m.Keys, d)
  }

  /** Taking any key first gives the same total. */
  lemma {:induction false} TotalOverRemove(m: map<Symbol, TimeSeries>, keys: set<Symbol>, k: Symbol, d: Date)
    requires keys <= m.Keys
    requires k in keys
    ensures TotalOver(m, keys, d) == ValueOr0(m[k], d) + TotalOver(m, keys - {k}, d)
    decreases keys
  {
    var j := Pick(keys);
    if j != k {
      TotalOverRemove(m, keys - {j}, k, d);
      TotalOverRemove(m, keys - {k}, j, d);
      assert keys - {j} - {k} == keys - {k} - {j};
    }
  }

  /** The total only reads the named series at `d`. */
  lemma {:induction false} TotalOverFrame(m: map<Symbol, TimeSeries>, n: map<Symbol, TimeSeries>, keys: set<Symbol>, d: Date)
    requires keys <= m.Keys && keys <= n.Keys
    requires forall k :: k in keys ==> ValueOr0(m[k], d) == ValueOr0(n[k], d)
    ensures TotalOver(m, keys, d) == TotalOver(n, keys, d)
    decreases keys
  {
    if keys != {} {
      TotalOverFrame(m, n, keys - {Pick(keys)}, d);
    }
  }

  /** If every named series' value at `d` is `f` times another table's, so is the total. */
  lemma {:induction false} TotalOverProportional(
    m: map<Symbol, TimeSeries>, n: map<Symbol, TimeSeries>, f: real, keys: set<Symbol>, d: Date)
    requires keys <= m.Keys && keys <= n.Keys
    requires forall k :: k in keys ==> ValueOr0(n[k], d) == Times(ValueOr0(m[k], d), f)
    ensures TotalOver(n, keys, d) == Times(TotalOver(m, keys, d), f)
    decreases keys
  {
    if keys == {} {
      assert Times(0.0, f) == 0.0;
    } else {
      var k := Pick(keys);
      TotalOverProportional(m, n, f, keys - {k}, d);
      TimesAdd(ValueOr0(m[k], d), TotalOver(m, keys - {k}, d), f);
    }
  }

  /** Scaling every series scales the total by the same factor. */
  lemma TotalOverScale(m: map<Symbol, TimeSeries>, f: real, keys: set<Symbol>, d: Date)
    requires keys <= m.Keys
    ensures TotalOver(ScaleTable(m, f), keys, d) == Times(TotalOver(m, keys, d), f)
  {
    var n := ScaleTable(m, f);
    forall k | k in keys
      ensures ValueOr0(n[k], d) == Times(ValueOr0(m[k], d), f)
    {
      ScaleValueOr0(m[k], f, d);
    }
    TotalOverProportional(m, n, f, keys, d);
  }

  /** The `sum(map(get_default_balance, balances.values()))` loop: the initial total at `start`. */
  method InitialTotalBalance(m: map<Symbol, TimeSeries>, start: Date) returns (total: real)
    ensures total == TotalAt(m, start)
  {
    total := 0.0;
    var rest := m.Keys;
    while rest != {}
      invariant rest <= m.Keys
      invariant total + TotalOver(m, rest, start) == TotalAt(m, start)
      decreases rest
    {
      var k :| k in rest;
      TotalOverRemove(m, rest, k, start);
      total := total + ValueOr0(m[k], start);
      rest := rest - {k};
    }
  }

  // ---------------------------------------------------------------------------
  // The spread transform

  /** The reserve token's new series: the constant `share` over [start, end], outer-joined
      (`add` with fill value 0) with the resized old reserve series when there was one. */
  function ReserveSeries(resizedOld: Option<TimeSeries>, share: real, start: Date, end: Date): (r: TimeSeries)
    ensures forall d :: d in r <==> start <= d <= end || (resizedOld.Some? && d in resizedOld.value)
    ensures forall d :: d in r ==>
              r[d] == (if start <= d <= end then share else 0.0)
                      + (if resizedOld.Some? then ValueOr0(resizedOld.value, d) else 0.0)
  {
    var extra := AddScalar(Zeroes(start, end), share);
    match resizedOld
    case None => extra
    case Some(s) => AddFill0(extra, s)
  }

  /** The resized old reserve series, if the table had one. */
  function ResizedOldReserve(m: map<Symbol, TimeSeries>, sym: Symbol, p: int): Option<TimeSeries> {
    if sym in m then Some(Scale(m[sym], DownsizingFactor(p))) else None
  }

  /** `update_balances_with_spread`: resize every series, then put the reserve series under `sym`. */
  ghost function UpdateBalancesWithSpread(b: Balances, sym: Symbol, p: int, start: Date, end: Date): (r: Balances)
    ensures r.balances.Keys == b.balances.Keys + {sym}
    ensures forall k :: k in b.balances && k != sym ==>
              r.balances[k] == Scale(b.balances[k], DownsizingFactor(p))
  {
    var initialTotal := TotalAt(b.balances, start);
    var resized := ResizeBalances(b.balances, p);
    var reserve := ReserveSeries(ResizedOldReserve(b.balances, sym, p), SpreadShare(initialTotal, p), start, end);
    Balances(resized[sym := reserve])
  }

  /** The reserve entry of the transformed table is the reserve series built from the
      resized old reserve and the share of the initial total. */
  lemma ReserveOfUpdate(b: Balances, sym: Symbol, p: int, start: Date, end: Date)
    ensures UpdateBalancesWithSpread(b, sym, p, start, end).balances[sym]
         == ReserveSeries(ResizedOldReserve(b.balances, sym, p),
                          SpreadShare(TotalAt(b.balances, start), p), start, end)
    ensures ResizedOldReserve(b.balances, sym, p)
         == (if sym in b.balances then Some(Scale(b.balances[sym], DownsizingFactor(p))) else None)
  {
  }

  /** Without an old reserve series, the new one is the constant share of the initial
      total on exactly the days of [start, end]. */
  lemma SpreadReserveWhenAbsent(b: Balances, sym: Symbol, p: int, start: Date, end: Date)
    requires sym !in b.balances
    ensures var s := UpdateBalancesWithSpread(b, sym, p, start, end).balances[sym];
            (forall d :: d in s <==> start <= d <= end) &&
            (forall d :: d in s ==> s[d] == SpreadShare(TotalAt(b.balances, start), p))
  {
    hide *;
    ReserveOfUpdate(b, sym, p, start, end);
  }

  /** With an old reserve series, the new one covers both date sets; each day holds the
      share (inside [start, end]) plus the resized old value (where there was one). */
  lemma SpreadReserveWhenPresent(b: Balances, sym: Symbol, p: int, start: Date, end: Date)
    requires sym in b.balances
    ensures var s := UpdateBalancesWithSpread(b, sym, p, start, end).balances[sym];
            (forall d :: d in s <==> start <= d <= end || d in b.balances[sym]) &&
            (forall d :: d in s ==>
               s[d] == (if start <= d <= end then SpreadShare(TotalAt(b.balances, start), p) else 0.0)
                       + Times(ValueOr0(b.balances[sym], d), DownsizingFactor(p)))
  {
    hide *;
    var share := SpreadShare(TotalAt(b.balances, start), p);
    var f := DownsizingFactor(p);
    var s := ReserveSeries(Some(Scale(b.balances[sym], f)), share, start, end);
    ReserveOfUpdate(b, sym, p, start, end);
    forall d | d in s
      ensures s[d] == (if start <= d <= end then share else 0.0) + Times(ValueOr0(b.balances[sym], d), f)
    {
      ReserveValueAt(b.balances[sym], f, share, start, end, d);
    }
  }

  /** One day of a reserve series built over a resized old series. */
  lemma ReserveValueAt(prior: TimeSeries, f: real, share: real, start: Date, end: Date, d: Date)
    requires d in ReserveSeries(Some(Scale(prior, f)), share, start, end)
    ensures ReserveSeries(Some(Scale(prior, f)), share, start, end)[d]
            == (if start <= d <= end then share else 0.0) + Times(ValueOr0(prior, d), f)
  {
    hide Times;
    ScaleValueOr0(prior, f, d);
  }

  /** The total value at `start` is the same before and after the transform. */
  lemma SpreadConservesStartTotal(b: Balances, sym: Symbol, p: int, start: Date, end: Date)
    requires start <= end
    ensures TotalAt(UpdateBalancesWithSpread(b, sym, p, start, end).balances, start)
         == TotalAt(b.balances, start)
  {
    hide Times, SpreadShare, DownsizingFactor, UpdateBalancesWithSpread;
    var m := b.balances;
    var t := TotalAt(m, start);
    var f := DownsizingFactor(p);
    var r := UpdateBalancesWithSpread(b, sym, p, start, end).balances;
    var others := m.Keys - {sym};
    // the input: the old reserve's value (if any) plus the other tokens'
    var oldValue := if sym in m then ValueOr0(m[sym], start) else 0.0;
    var rest := TotalOver(m, others, start);
    if sym in m {
      TotalOverRemove(m, m.Keys, sym, start);
    } else {
      assert m.Keys == others;
    }
    assert t == oldValue + rest;
    // the result: the reserve's value plus the other tokens' resized values
    var reserveValue := ValueOr0(r[sym], start);
    var resizedRest := TotalOver(r, others, start);
    TotalOverRemove(r, r.Keys, sym, start);
    assert r.Keys - {sym} == others;
    ResizedRestTotal(b, sym, p, start, end);
    if sym in m {
      SpreadReserveWhenPresent(b, sym, p, start, end);
    } else {
      SpreadReserveWhenAbsent(b, sym, p, start, end);
      TimesZero(f);
    }
    ConservationArithmetic(t, oldValue, rest, reserveValue, resizedRest, p);
  }

  /** The tokens other than the reserve carry, at any date, the resized total of their
      input series. */
  lemma ResizedRestTotal(b: Balances, sym: Symbol, p: int, start: Date, end: Date)
    ensures var others := b.balances.Keys - {sym};
            TotalOver(UpdateBalancesWithSpread(b, sym, p, start, end).balances, others, start)
            == Times(TotalOver(b.balances, others, start), DownsizingFactor(p))
  {
    hide *;
    var m := b.balances;
    var f := DownsizingFactor(p);
    var others := m.Keys - {sym};
    var r := UpdateBalancesWithSpread(b, sym, p, start, end).balances;
    TotalOverFrame(r, ScaleTable(m, f), others, start);
    TotalOverScale(m, f, others, start);
  }

  /** The arithmetic behind conservation: `p` percent of the total plus the resized parts
      give back the total. */
  lemma ConservationArithmetic(t: real, a: real, b: real, x: real, y: real, p: int)
    requires t == a + b
    requires x == SpreadShare(t, p) + Times(a, DownsizingFactor(p))
    requires y == Times(b, DownsizingFactor(p))
    ensures x + y == t
  {
  }

  /** With p = 0 every pre-existing series keeps its values and the reserve's added
      days carry 0. */
  lemma SpreadZeroPercent(b: Balances, sym: Symbol, start: Date, end: Date)
    ensures var r := UpdateBalancesWithSpread(b, sym, 0, start, end).balances;
            (forall k :: k in b.balances && k != sym ==> r[k] == b.balances[k]) &&
            (forall d :: d in r[sym] ==>
               r[sym][d] == (if sym in b.balances then ValueOr0(b.balances[sym], d) else 0.0))
  {
    var r := UpdateBalancesWithSpread(b, sym, 0, start, end).balances;
    assert DownsizingFactor(0) == 1.0;
    assert SpreadShare(TotalAt(b.balances, start), 0) == 0.0;
    forall k | k in b.balances && k != sym
      ensures r[k] == b.balances[k]
    {
      ScaleOne(b.balances[k]);
    }
    if sym in b.balances {
      SpreadReserveWhenPresent(b, sym, 0, start, end);
    } else {
      SpreadReserveWhenAbsent(b, sym, 0, start, end);
    }
  }

  /** With p = 100 every other token's series is identically 0 and the reserve
      holds the whole initial total on every day of [start, end]. */
  lemma SpreadFullPercent(b: Balances, sym: Symbol, start: Date, end: Date)
    ensures var r := UpdateBalancesWithSpread(b, sym, 100, start, end).balances;
            (forall k :: k in b.balances && k != sym ==>
               r[k].Keys == b.balances[k].Keys && forall d :: d in r[k] ==> r[k][d] == 0.0) &&
            (forall d :: start <= d <= end ==> d in r[sym] && r[sym][d] == TotalAt(b.balances, start))
  {
  }

  // ---------------------------------------------------------------------------
  // Treasury reconciliation

  /** The KeyError a `balances.balances[symbol].loc[end]` lookup can raise. */
  datatype LookupError = MissingSeries(symbol: Symbol) | MissingDate(symbol: Symbol, date: Date)

  /** `balances.balances[sym].loc[end]`. */
  function BalanceAt(b: Balances, sym: Symbol, end: Date): (r: Result<real, LookupError>)
    ensures r.Success? <==> sym in b.balances && end in b.balances[sym]
    ensures r.Success? ==> r.value == b.balances[sym][end]
    ensures sym !in b.balances ==> r == Failure(MissingSeries(sym))
  {
    if sym !in b.balances then Failure(MissingSeries(sym))
    else if end !in b.balances[sym] then Failure(MissingDate(sym, end))
    else Success(b.balances[sym][end])
  }

  /** True iff the table has a series for `sym` observed at `end`. */
  predicate Observed(b: Balances, sym: Symbol, end: Date) {
    sym in b.balances && end in b.balances[sym]
  }

  /** The loop setting each asset's balance to its series' value at `end`; the first
      asset whose lookup fails raises. */
  function UpdateAssetBalances(assets: seq<ERC20>, b: Balances, end: Date): (r: Result<seq<ERC20>, LookupError>)
    ensures r.Success? <==> forall i :: 0 <= i < |assets| ==> Observed(b, assets[i].tokenSymbol, end)
    ensures r.Success? ==>
              |r.value| == |assets| &&
              forall i :: 0 <= i < |assets| ==>
                r.value[i] == assets[i].(balance := b.balances[assets[i].tokenSymbol][end])
  {
    if assets == [] then Success([])
    else
      var head :- BalanceAt(b, assets[0].tokenSymbol, end);
      var tail :- UpdateAssetBalances(assets[1..], b, end);
      Success([assets[0].(balance := head)] + tail)
  }

  /** `treasury.get_asset(symbol)`: the first asset carrying `sym`, None where the source
      raises StopIteration. */
  function GetAsset(assets: seq<ERC20>, sym: Symbol): (r: Option<ERC20>)
    ensures r.None? <==> !HasSymbol(assets, sym)
    ensures r.Some? ==>
              exists i :: 0 <= i < |assets| && assets[i] == r.value &&
                          r.value.tokenSymbol == sym &&
                          forall j :: 0 <= j < i ==> assets[j].tokenSymbol != sym
  {
    if assets == [] then None
    else if assets[0].tokenSymbol == sym then Some(assets[0])
    else
      var r := GetAsset(assets[1..], sym);
      assert HasSymbol(assets, sym) ==> HasSymbol(assets[1..], sym) by {
        if HasSymbol(assets, sym) {
          var i :| 0 <= i < |assets| && assets[i].tokenSymbol == sym;
          assert assets[1..][i - 1].tokenSymbol == sym;
        }
      }
      assert HasSymbol(assets[1..], sym) ==> HasSymbol(assets, sym) by {
        if HasSymbol(assets[1..], sym) {
          var i :| 0 <= i < |assets[1..]| && assets[1..][i].tokenSymbol == sym;
          assert assets[i + 1].tokenSymbol == sym;
        }
      }
      if r.Some? then
        var i :| 0 <= i < |assets[1..]| && assets[1..][i] == r.value &&
                 r.value.tokenSymbol == sym &&
                 forall j :: 0 <= j < i ==> assets[1..][j].tokenSymbol != sym;
        assert assets[i + 1] == r.value;
        assert forall j :: 0 <= j < i + 1 ==> assets[j].tokenSymbol != sym by {
          forall j | 0 <= j < i + 1
            ensures assets[j].tokenSymbol != sym
          {
            if j > 0 {
              assert assets[j] == assets[1..][j - 1];
            }
          }
        }
        r
      else
        r
  }

  /** `update_treasury_assets_with_spread_balances`. */
  function UpdateTreasuryAssetsWithSpreadBalances(
    t: Treasury, b: Balances, end: Date, name: string, sym: Symbol, address: Address
  ): (r: Result<Treasury, LookupError>)
    ensures r.Success? <==>
              (forall i :: 0 <= i < |t.assets| ==> Observed(b, t.assets[i].tokenSymbol, end)) &&
              (HasSymbol(t.assets, sym) || Observed(b, sym, end))
    ensures r.Success? ==>
              r.value.address == t.address &&
              r.value.windows == t.windows &&
              |r.value.assets| == |t.assets| + (if HasSymbol(t.assets, sym) then 0 else 1) &&
              (forall i :: 0 <= i < |t.assets| ==>
                 r.value.assets[i] == t.assets[i].(balance := b.balances[t.assets[i].tokenSymbol][end])) &&
              (!HasSymbol(t.assets, sym) ==>
                 r.value.assets[|t.assets|] == ERC20(name, sym, address, b.balances[sym][end]))
    ensures r.Failure? && (forall i :: 0 <= i < |t.assets| ==> Observed(b, t.assets[i].tokenSymbol, end)) ==>
              !HasSymbol(t.assets, sym) && r.error.symbol == sym
  {
    var updated :- UpdateAssetBalances(t.assets, b, end);
    assert HasSymbol(updated, sym) == HasSymbol(t.assets, sym) by {
      assert forall i :: 0 <= i < |t.assets| ==> updated[i].tokenSymbol == t.assets[i].tokenSymbol;
    }
    match GetAsset(updated, sym)
    case Some(_) => Success(t.(assets := updated))
    case None =>
      var balance :- BalanceAt(b, sym, end);
      Success(t.(assets := updated + [ERC20(name, sym, address, balance)]))
  }

  /** Reconciling with the transformed table succeeds once every asset other than the
      reserve has a series observed at `end` and `end` lies in [start, end]: each such
      asset gets its resized value at `end`, and the reserve (appended when missing)
      gets the share of the initial total plus its resized old value. */
  lemma ReconcileAfterSpread(
    t: Treasury, b: Balances, sym: Symbol, p: int, start: Date, end: Date, name: string, address: Address)
    requires start <= end
    requires forall i :: 0 <= i < |t.assets| ==>
               t.assets[i].tokenSymbol == sym || Observed(b, t.assets[i].tokenSymbol, end)
    ensures var r := UpdateTreasuryAssetsWithSpreadBalances(
              t, UpdateBalancesWithSpread(b, sym, p, start, end), end, name, sym, address);
            var reserveBalance := SpreadShare(TotalAt(b.balances, start), p)
              + (if sym in b.balances then Times(ValueOr0(b.balances[sym], end), DownsizingFactor(p)) else 0.0);
            r.Success? &&
            (forall i :: 0 <= i < |t.assets| && t.assets[i].tokenSymbol != sym ==>
               r.value.assets[i].balance
               == Times(b.balances[t.assets[i].tokenSymbol][end], DownsizingFactor(p))) &&
            (forall i :: 0 <= i < |t.assets| && t.assets[i].tokenSymbol == sym ==>
               r.value.assets[i].balance == reserveBalance) &&
            (!HasSymbol(t.assets, sym) ==>
               r.value.assets[|t.assets|] == ERC20(name, sym, address, reserveBalance))
  {
    hide Times, SpreadShare, DownsizingFactor, UpdateBalancesWithSpread, TotalAt;
    var nb := UpdateBalancesWithSpread(b, sym, p, start, end);
    var f := DownsizingFactor(p);
    var reserveBalance := SpreadShare(TotalAt(b.balances, start), p)
      + (if sym in b.balances then Times(ValueOr0(b.balances[sym], end), f) else 0.0);
    if sym in b.balances {
      SpreadReserveWhenPresent(b, sym, p, start, end);
    } else {
      SpreadReserveWhenAbsent(b, sym, p, start, end);
    }
    assert Observed(nb, sym, end) && nb.balances[sym][end] == reserveBalance;
    forall i | 0 <= i < |t.assets| && t.assets[i].tokenSymbol != sym
      ensures Observed(nb, t.assets[i].tokenSymbol, end)
      ensures nb.balances[t.assets[i].tokenSymbol][end] == Times(b.balances[t.assets[i].tokenSymbol][end], f)
    {
      var s := t.assets[i].tokenSymbol;
      assert nb.balances[s] == Scale(b.balances[s], f);
    }
    assert forall i :: 0 <= i < |t.assets| ==> Observed(nb, t.assets[i].tokenSymbol, end);
  }

  /** A treasury of 10 TOKEN_A at $1 and 5 TOKEN_B at $2, flat over days 0..2, with 20
      percent diverted into USDR: at day 0 each token is worth 8, USDR holds 4, and the
      total stays 20. */
  lemma TwoTokenScenario()
    ensures var flat := map[0 := 10.0, 1 := 10.0, 2 := 10.0];
            var b := Balances(map["TOKEN_A" := flat, "TOKEN_B" := flat]);
            var r := UpdateBalancesWithSpread(b, "USDR", 20, 0, 2).balances;
            TotalAt(b.balances, 0) == 20.0 &&
            r["TOKEN_A"][0] == 8.0 && r["TOKEN_B"][0] == 8.0 && r["USDR"][0] == 4.0 &&
            TotalAt(r, 0) == 20.0
  {
    var flat := map[0 := 10.0, 1 := 10.0, 2 := 10.0];
    var m := map["TOKEN_A" := flat, "TOKEN_B" := flat];
    var b := Balances(m);
    assert "TOKEN_A" != "TOKEN_B" by { assert "TOKEN_A"[6] != "TOKEN_B"[6]; }
    TotalOverRemove(m, m.Keys, "TOKEN_A", 0);
    assert m.Keys - {"TOKEN_A"} == {"TOKEN_B"};
    TotalOverRemove(m, {"TOKEN_B"}, "TOKEN_B", 0);
    assert {"TOKEN_B"} - {"TOKEN_B"} == {};
    assert TotalAt(m, 0) == 20.0;
    SpreadReserveWhenAbsent(b, "USDR", 20, 0, 2);
    SpreadConservesStartTotal(b, "USDR", 20, 0, 2);
  }
}
