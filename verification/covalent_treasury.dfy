/** Construction of a treasury from an already fetched Covalent `portfolio_v2` response
    (`get_treasury` of backend/app/libs/covalent/treasury.py): one price window per
    portfolio item, and an asset list from which spam tokens are filtered out. */
module CovalentTreasury {
  import opened Wrappers
  import opened Types

  /** One day of an item's `holdings`: the parsed `timestamp`, the day's `quote_rate`
      and the value of the holding at close (`close.quote`). */
  datatype Holding = Holding(timestamp: Timestamp, quoteRate: real, closeQuote: real)

  /** One entry of the response's `items`. */
  datatype Item = Item(
    contractAddress: Address,
    contractName: string,
    contractTickerSymbol: Symbol,
    holdings: seq<Holding>)

  /** The response fields the construction reads. */
  datatype Portfolio = Portfolio(address: Address, items: seq<Item>)

  /** `holdings[0]` on an empty holdings list, at the given item index. */
  datatype TreasuryError = IndexError(item: nat)

  // ---------------------------------------------------------------------------
  // Price windows

  /** The quote list of one window: one quote per holding, in holding order. */
  function MakeQuotes(hs: seq<Holding>): (r: seq<Quote>)
    ensures |r| == |hs|
    ensures forall i :: 0 <= i < |hs| ==> r[i].timestamp == hs[i].timestamp && r[i].price == hs[i].quoteRate
  {
    if hs == [] then [] else [Quote(hs[0].timestamp, hs[0].quoteRate)] + MakeQuotes(hs[1..])
  }

  /** The price window built from one item. */
  function MakeWindow(item: Item): HistoricalPrice {
    HistoricalPrice(item.contractAddress, item.contractName, item.contractTickerSymbol, MakeQuotes(item.holdings))
  }

  /** The windows loop: one window per item, in item order, none skipped. */
  function MakeWindows(items: seq<Item>): (r: seq<HistoricalPrice>)
    ensures |r| == |items|
    ensures forall i :: 0 <= i < |items| ==>
              r[i].tokenAddress == items[i].contractAddress &&
              r[i].tokenName == items[i].contractName &&
              r[i].tokenSymbol == items[i].contractTickerSymbol &&
              |r[i].quotes| == |items[i].holdings| &&
              forall j :: 0 <= j < |items[i].holdings| ==>
                r[i].quotes[j] == Quote(items[i].holdings[j].timestamp, items[i].holdings[j].quoteRate)
  {
    if items == [] then [] else [MakeWindow(items[0])] + MakeWindows(items[1..])
  }

  // ---------------------------------------------------------------------------
  // The spam filter

  /** The filter's condition: the item has a first holding, its close quote is nonzero
      (Python truthiness of a number) and its address is whitelisted. */
  predicate Retained(item: Item, whitelist: seq<Address>) {
    |item.holdings| > 0 && item.holdings[0].closeQuote != 0.0 && item.contractAddress in whitelist
  }

  /** The asset built from a retained item: its first holding's close quote is the balance. */
  function AsAsset(item: Item): ERC20
    requires |item.holdings| > 0
  {
    ERC20(item.contractName, item.contractTickerSymbol, item.contractAddress, item.holdings[0].closeQuote)
  }

  /** The items the filter keeps, in their original order. */
  function KeepItems(items: seq<Item>, whitelist: seq<Address>): (r: seq<Item>)
    ensures |r| <= |items|
    ensures forall it :: it in r <==> it in items && Retained(it, whitelist)
  {
    if items == [] then []
    else if Retained(items[0], whitelist) then [items[0]] + KeepItems(items[1..], whitelist)
    else KeepItems(items[1..], whitelist)
  }

  /** The positions of the retained items, ascending. */
  function RetainedIndices(items: seq<Item>, whitelist: seq<Address>): seq<nat> {
    if items == [] then []
    else
      var rest := Shift(RetainedIndices(items[1..], whitelist));
      if Retained(items[0], whitelist) then [0] + rest else rest
  }

  /** Every index plus one. */
  function Shift(idx: seq<nat>): (r: seq<nat>)
    ensures |r| == |idx|
    ensures forall j :: 0 <= j < |idx| ==> r[j] == idx[j] + 1
  {
    if idx == [] then [] else [idx[0] + 1] + Shift(idx[1..])
  }

  /** A position is in the shifted list iff its predecessor is in the original. */
  lemma ShiftMember(idx: seq<nat>, i: nat)
    ensures i + 1 in Shift(idx) <==> i in idx
    ensures 0 !in Shift(idx)
  {
    var shifted := Shift(idx);
    if i in idx {
      var j :| 0 <= j < |idx| && idx[j] == i;
      assert shifted[j] == i + 1;
    }
    if i + 1 in shifted {
      var j :| 0 <= j < |shifted| && shifted[j] == i + 1;
      assert idx[j] == i;
    }
  }

  /** The selected positions lie inside the list and ascend strictly. */
  lemma {:induction false} RetainedIndicesAscend(items: seq<Item>, whitelist: seq<Address>)
    ensures forall j :: 0 <= j < |RetainedIndices(items, whitelist)| ==> RetainedIndices(items, whitelist)[j] < |items|
    ensures forall j, k :: 0 <= j < k < |RetainedIndices(items, whitelist)| ==>
              RetainedIndices(items, whitelist)[j] < RetainedIndices(items, whitelist)[k]
  {
    if items != [] {
      var tail := items[1..];
      RetainedIndicesAscend(tail, whitelist);
      var it := RetainedIndices(tail, whitelist);
      var shifted := Shift(it);
      assert forall j :: 0 <= j < |shifted| ==> 1 <= shifted[j] < |items|;
    }
  }

  /** A position is selected iff its item is retained. */
  lemma {:induction false} RetainedIndicesExact(items: seq<Item>, whitelist: seq<Address>)
    ensures forall i :: 0 <= i < |items| ==> (i in RetainedIndices(items, whitelist) <==> Retained(items[i], whitelist))
  {
    if items != [] {
      var tail := items[1..];
      RetainedIndicesExact(tail, whitelist);
      var it := RetainedIndices(tail, whitelist);
      var shifted := Shift(it);
      forall i | 1 <= i < |items|
        ensures i in shifted <==> Retained(items[i], whitelist)
      {
        assert items[i] == tail[i - 1];
        ShiftMember(it, i - 1);
      }
      assert 0 !in shifted;
    }
  }

  /** The j-th kept item is the item at the j-th selected position. */
  lemma {:induction false} KeepItemsAtIndices(items: seq<Item>, whitelist: seq<Address>)
    ensures |RetainedIndices(items, whitelist)| == |KeepItems(items, whitelist)|
    ensures forall j :: 0 <= j < |RetainedIndices(items, whitelist)| ==>
              RetainedIndices(items, whitelist)[j] < |items| &&
              KeepItems(items, whitelist)[j] == items[RetainedIndices(items, whitelist)[j]]
  {
    if items != [] {
      var tail := items[1..];
      KeepItemsAtIndices(tail, whitelist);
      var rt := KeepItems(tail, whitelist);
      var it := RetainedIndices(tail, whitelist);
      var shifted := Shift(it);
      if Retained(items[0], whitelist) {
        var idx := [0] + shifted;
        var r := [items[0]] + rt;
        forall j | 0 <= j < |idx|
          ensures idx[j] < |items| && r[j] == items[idx[j]]
        {
          if j > 0 {
            assert r[j] == rt[j - 1] == tail[it[j - 1]];
          }
        }
      } else {
        forall j | 0 <= j < |shifted|
          ensures shifted[j] < |items| && rt[j] == items[shifted[j]]
        {
          assert rt[j] == tail[it[j]];
        }
      }
    }
  }

  /** KeepItems is the order-preserving selection of exactly the retained positions:
      the selected positions ascend strictly, the j-th kept item is the item at the
      j-th selected position, and a position is selected iff its item is retained. */
  lemma KeepItemsSelects(items: seq<Item>, whitelist: seq<Address>)
    ensures var r := KeepItems(items, whitelist);
            var idx := RetainedIndices(items, whitelist);
            |idx| == |r| &&
            (forall j :: 0 <= j < |idx| ==> idx[j] < |items| && r[j] == items[idx[j]]) &&
            (forall j, k :: 0 <= j < k < |idx| ==> idx[j] < idx[k]) &&
            (forall i :: 0 <= i < |items| ==> (i in idx <==> Retained(items[i], whitelist)))
  {
    KeepItemsAtIndices(items, whitelist);
    RetainedIndicesAscend(items, whitelist);
    RetainedIndicesExact(items, whitelist);
  }

  /** Filtering an already filtered list changes nothing. */
  lemma {:induction false} KeepItemsIdempotent(items: seq<Item>, whitelist: seq<Address>)
    ensures KeepItems(KeepItems(items, whitelist), whitelist) == KeepItems(items, whitelist)
  {
    if items != [] {
      KeepItemsIdempotent(items[1..], whitelist);
      if Retained(items[0], whitelist) {
        var r := [items[0]] + KeepItems(items[1..], whitelist);
        assert r[1..] == KeepItems(items[1..], whitelist);
      }
    }
  }

  /** The filter works item by item: filtering a concatenation concatenates the results. */
  lemma {:induction false} KeepItemsAppend(a: seq<Item>, b: seq<Item>, whitelist: seq<Address>)
    ensures KeepItems(a + b, whitelist) == KeepItems(a, whitelist) + KeepItems(b, whitelist)
  {
    if a == [] {
      assert a + b == b;
    } else {
      assert (a + b)[1..] == a[1..] + b;
      KeepItemsAppend(a[1..], b, whitelist);
    }
  }

  /** The assets comprehension over the kept items. */
  function ToAssets(kept: seq<Item>): (r: seq<ERC20>)
    requires forall i :: 0 <= i < |kept| ==> |kept[i].holdings| > 0
    ensures |r| == |kept|
    ensures forall j :: 0 <= j < |kept| ==> r[j] == AsAsset(kept[j])
  {
    if kept == [] then [] else [AsAsset(kept[0])] + ToAssets(kept[1..])
  }

  /** The filtered asset list. */
  function FilterAssets(items: seq<Item>, whitelist: seq<Address>): (r: seq<ERC20>)
    ensures |r| <= |items|
    ensures forall j :: 0 <= j < |r| ==>
              r[j].tokenAddress in whitelist && r[j].balance != 0.0
  {
    var kept := KeepItems(items, whitelist);
    assert forall i :: 0 <= i < |kept| ==> Retained(kept[i], whitelist) by {
      forall i | 0 <= i < |kept|
        ensures Retained(kept[i], whitelist)
      {
        assert kept[i] in kept;
      }
    }
    ToAssets(kept)
  }

  // ---------------------------------------------------------------------------
  // The treasury

  /** `get_treasury` with the empty-holdings guard taking effect: windows for every
      item, assets for the retained ones. */
  function GetTreasury(p: Portfolio, whitelist: seq<Address>): (r: Treasury)
    ensures r.address == p.address
    ensures |r.windows| == |p.items|
    ensures forall i :: 0 <= i < |p.items| ==> r.windows[i] == MakeWindow(p.items[i])
    ensures |r.assets| <= |p.items|
  {
    Treasury(p.address, FilterAssets(p.items, whitelist), MakeWindows(p.items))
  }

  /** The assets are exactly the retained items, in order, each turned into an asset
      whose balance is the item's first close quote. */
  lemma GetTreasuryAssets(p: Portfolio, whitelist: seq<Address>)
    ensures var r := GetTreasury(p, whitelist);
            var idx := RetainedIndices(p.items, whitelist);
            |r.assets| == |idx| &&
            (forall j :: 0 <= j < |idx| ==>
               idx[j] < |p.items| && Retained(p.items[idx[j]], whitelist) &&
               r.assets[j] == AsAsset(p.items[idx[j]])) &&
            (forall j, k :: 0 <= j < k < |idx| ==> idx[j] < idx[k]) &&
            (forall i :: 0 <= i < |p.items| ==> (i in idx <==> Retained(p.items[i], whitelist)))
  {
    KeepItemsSelects(p.items, whitelist);
    var idx := RetainedIndices(p.items, whitelist);
    forall j | 0 <= j < |idx|
      ensures Retained(p.items[idx[j]], whitelist)
    {
      assert idx[j] in idx;
    }
  }

  /** Every asset comes from a window: its address is the address of some window. */
  lemma AssetsHaveWindows(p: Portfolio, whitelist: seq<Address>)
    ensures var r := GetTreasury(p, whitelist);
            forall j :: 0 <= j < |r.assets| ==>
              exists i :: 0 <= i < |r.windows| && r.windows[i].tokenAddress == r.assets[j].tokenAddress
  {
    var r := GetTreasury(p, whitelist);
    var kept := KeepItems(p.items, whitelist);
    forall j | 0 <= j < |r.assets|
      ensures exists i :: 0 <= i < |r.windows| && r.windows[i].tokenAddress == r.assets[j].tokenAddress
    {
      assert kept[j] in kept;
      assert r.assets[j] == AsAsset(kept[j]);
      var i :| 0 <= i < |p.items| && p.items[i] == kept[j];
      assert r.windows[i].tokenAddress == r.assets[j].tokenAddress;
    }
  }

  // ---------------------------------------------------------------------------
  // The filter as written

  /** The assets comprehension in the source's evaluation order: `holdings[0]` is read
      before any other part of the condition, so an item with no holdings raises
      IndexError; `offset` is the position of `items[0]` in the portfolio. */
  function FilterAssetsAsWritten(items: seq<Item>, whitelist: seq<Address>, offset: nat): (r: Result<seq<ERC20>, TreasuryError>)
    ensures r.Success? <==> forall i :: 0 <= i < |items| ==> |items[i].holdings| > 0
    ensures r.Failure? ==>
              offset <= r.error.item < offset + |items| &&
              |items[r.error.item - offset].holdings| == 0 &&
              forall i :: 0 <= i < r.error.item - offset ==> |items[i].holdings| > 0
  {
    if items == [] then Success([])
    else if |items[0].holdings| == 0 then Failure(IndexError(offset))
    else
      var rest :- FilterAssetsAsWritten(items[1..], whitelist, offset + 1);
      if items[0].holdings[0].closeQuote != 0.0 && items[0].contractAddress in whitelist && |items[0].holdings| > 0
      then Success([AsAsset(items[0])] + rest)
      else Success(rest)
  }

  /** `get_treasury` as written. */
  function GetTreasuryAsWritten(p: Portfolio, whitelist: seq<Address>): (r: Result<Treasury, TreasuryError>)
    ensures r.Success? <==> forall i :: 0 <= i < |p.items| ==> |p.items[i].holdings| > 0
    ensures r.Failure? ==> r.error.item < |p.items| && |p.items[r.error.item].holdings| == 0
  {
    var assets :- FilterAssetsAsWritten(p.items, whitelist, 0);
    Success(Treasury(p.address, assets, MakeWindows(p.items)))
  }

  /** Where every item has a holding, the source as written and the corrected
      construction agree. */
  lemma {:induction false} FilterAssetsAsWrittenAgrees(items: seq<Item>, whitelist: seq<Address>, offset: nat)
    requires forall i :: 0 <= i < |items| ==> |items[i].holdings| > 0
    ensures FilterAssetsAsWritten(items, whitelist, offset) == Success(FilterAssets(items, whitelist))
  {
    if items != [] {
      FilterAssetsAsWrittenAgrees(items[1..], whitelist, offset + 1);
      var kept := KeepItems(items, whitelist);
      var tail := KeepItems(items[1..], whitelist);
      if Retained(items[0], whitelist) {
        assert kept == [items[0]] + tail;
        assert FilterAssets(items, whitelist) == [AsAsset(items[0])] + FilterAssets(items[1..], whitelist);
      } else {
        assert kept == tail;
      }
    }
  }

  /** `GetTreasuryAsWritten` is `GetTreasury` on every portfolio without an empty
      holdings list. */
  lemma GetTreasuryAsWrittenAgrees(p: Portfolio, whitelist: seq<Address>)
    requires forall i :: 0 <= i < |p.items| ==> |p.items[i].holdings| > 0
    ensures GetTreasuryAsWritten(p, whitelist) == Success(GetTreasury(p, whitelist))
  {
    FilterAssetsAsWrittenAgrees(p.items, whitelist, 0);
  }

  /** A whitelisted item without holdings: the source raises where the guard it
      carries was meant to drop the item. */
  lemma EmptyHoldingsCounterexample()
    ensures var p := Portfolio("0xtreasury", [Item("0xa", "Token A", "A", [])]);
            GetTreasuryAsWritten(p, ["0xa"]) == Failure(IndexError(0)) &&
            GetTreasury(p, ["0xa"]) == Treasury("0xtreasury", [], [HistoricalPrice("0xa", "Token A", "A", [])])
  {
    var p := Portfolio("0xtreasury", [Item("0xa", "Token A", "A", [])]);
    assert !Retained(p.items[0], ["0xa"]);
    assert KeepItems(p.items, ["0xa"]) == [];
  }
}
