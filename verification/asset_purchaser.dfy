/**
 * `AssetPurchaser`: resolves how much of each asset to buy, then, in
 * simulation mode, appends one purchase record per (asset, amount) pair to the
 * portfolio ledger. The ledger file is a sequence of records that only grows.
 */
module AssetPurchaser {
  import opened Wrappers

  /** One ledger row: `asset, price, quantity, expiration`. */
  datatype Record = Record(asset: string, price: real, quantity: real, expiration: string)

  /** The market-data lookup behind `__get_stock_price`: the last close of the
      day's history, or None when the history comes back empty. */
  type PriceLookup = string -> Option<real>

  /** The wall clock and calendar: today plus the given number of days,
      formatted as `YYYY/MM/DD`, or None when that date falls outside the
      calendar's range and the date arithmetic raises `OverflowError`. */
  type ExpirationClock = int -> Option<string>

  /** How a construction ends, with the ledger as it is afterwards: it returns
      normally (the abort message included), or it raises while computing the
      expiration date, before any row is written. */
  datatype Outcome = Returned(ledger: seq<Record>) | Raised(ledger: seq<Record>)

  /** The price written when no price could be retrieved. */
  const PriceSentinel: real := -1.0

  /** `__get_stock_price`: the looked-up price, or the sentinel. */
  function StockPrice(lookup: PriceLookup, ticker: string): real {
    match lookup(ticker)
    case Some(price) => price
    case None => PriceSentinel
  }

  function Min(a: int, b: int): int {
    if a <= b then a else b
  }

  /** What a constructed purchaser holds once construction has not aborted. */
  datatype Purchaser = Purchaser(
    assets: seq<string>,
    amounts: seq<real>,
    simulationMode: bool,
    validPurchaseDays: int)

  /** The amount resolution of `__init__`: per-asset amounts win; otherwise the
      uniform amount is repeated once per asset; with neither, construction
      aborts. */
  function NewPurchaser(
    assets: seq<string>,
    validPurchaseDays: int,
    assetPurchaseAmounts: Option<seq<real>>,
    universalPurchaseAmount: Option<real>,
    simulationMode: bool
  ): (r: Option<Purchaser>)
    ensures r.None? <==> assetPurchaseAmounts.None? && universalPurchaseAmount.None?
    ensures r.Some? ==>
              && r.value.assets == assets
              && r.value.simulationMode == simulationMode
              && r.value.validPurchaseDays == validPurchaseDays
    ensures assetPurchaseAmounts.Some? ==> r.Some? && r.value.amounts == assetPurchaseAmounts.value
    ensures assetPurchaseAmounts.None? && universalPurchaseAmount.Some? ==>
              && r.Some?
              && |r.value.amounts| == |assets|
              && forall i :: 0 <= i < |assets| ==> r.value.amounts[i] == universalPurchaseAmount.value
  {
    match assetPurchaseAmounts
    case Some(amounts) => Some(Purchaser(assets, amounts, simulationMode, validPurchaseDays))
    case None =>
      match universalPurchaseAmount
      case None => None
      case Some(amount) =>
        Some(Purchaser(assets, seq(|assets|, _ => amount), simulationMode, validPurchaseDays))
  }

  /** Python's `zip`: pairs elements position by position and stops at the end
      of the shorter sequence. */
  function Zip<A, B>(xs: seq<A>, ys: seq<B>): (pairs: seq<(A, B)>)
    ensures |pairs| == Min(|xs|, |ys|)
    ensures forall i :: 0 <= i < |pairs| ==> pairs[i] == (xs[i], ys[i])
  {
    if xs == [] || ys == [] then []
    else [(xs[0], ys[0])] + Zip(xs[1..], ys[1..])
  }

  /** `__purchase_asset`: in simulation mode, look up the price (the sentinel
      when the lookup fails) and append one record; otherwise do nothing. */
  function PurchaseAsset(
    ledger: seq<Record>,
    simulationMode: bool,
    lookup: PriceLookup,
    asset: string,
    quantity: real,
    expiration: string
  ): (ledger': seq<Record>)
    ensures ledger <= ledger'
    ensures |ledger'| == |ledger| + (if simulationMode then 1 else 0)
    ensures simulationMode ==>
              && ledger'[|ledger|].asset == asset
              && ledger'[|ledger|].quantity == quantity
              && ledger'[|ledger|].expiration == expiration
    ensures simulationMode && lookup(asset).Some? ==> ledger'[|ledger|].price == lookup(asset).value
    ensures simulationMode && lookup(asset).None? ==> ledger'[|ledger|].price == PriceSentinel
  {
    if simulationMode then ledger + [Record(asset, StockPrice(lookup, asset), quantity, expiration)]
    else ledger
  }

  /** The loop of `__purchase_assets`: one `PurchaseAsset` per order, in order,
      all with the same expiration. */
  function PurchaseAll(
    ledger: seq<Record>,
    simulationMode: bool,
    lookup: PriceLookup,
    orders: seq<(string, real)>,
    expiration: string
  ): (ledger': seq<Record>)
    ensures ledger <= ledger'
    ensures !simulationMode ==> ledger' == ledger
    ensures simulationMode ==> |ledger'| == |ledger| + |orders|
    ensures simulationMode ==> forall i :: 0 <= i < |orders| ==>
              ledger'[|ledger| + i] == Record(orders[i].0, StockPrice(lookup, orders[i].0), orders[i].1, expiration)
    decreases |orders|
  {
    if orders == [] then ledger
    else
      var next := PurchaseAsset(ledger, simulationMode, lookup, orders[0].0, orders[0].1, expiration);
      PurchaseAll(next, simulationMode, lookup, orders[1..], expiration)
  }

  /** `__purchase_assets`: the expiration date is computed once, in every
      mode, then the assets are zipped with their amounts and purchased in
      order; when the date cannot be computed the call raises and nothing is
      written. */
  function PurchaseAssets(ledger: seq<Record>, p: Purchaser, lookup: PriceLookup, clock: ExpirationClock): (r: Outcome)
    ensures r.Raised? <==> clock(p.validPurchaseDays).None?
    ensures ledger <= r.ledger
    ensures r.Raised? || !p.simulationMode ==> r.ledger == ledger
    ensures r.Returned? && p.simulationMode ==>
              && |r.ledger| == |ledger| + Min(|p.assets|, |p.amounts|)
              && forall i :: 0 <= i < Min(|p.assets|, |p.amounts|) ==>
                   r.ledger[|ledger| + i] == Record(p.assets[i], StockPrice(lookup, p.assets[i]), p.amounts[i], clock(p.validPurchaseDays).value)
  {
    match clock(p.validPurchaseDays)
    case None => Raised(ledger)
    case Some(expiration) =>
      Returned(PurchaseAll(ledger, p.simulationMode, lookup, Zip(p.assets, p.amounts), expiration))
  }

  /** `AssetPurchaser(...)`: resolve the amounts, abort when there are none,
      otherwise purchase every asset. */
  function Construct(
    ledger: seq<Record>,
    assets: seq<string>,
    validPurchaseDays: int,
    assetPurchaseAmounts: Option<seq<real>>,
    universalPurchaseAmount: Option<real>,
    simulationMode: bool,
    lookup: PriceLookup,
    clock: ExpirationClock
  ): (r: Outcome)
    ensures r.Raised? <==>
              (assetPurchaseAmounts.Some? || universalPurchaseAmount.Some?) && clock(validPurchaseDays).None?
    ensures ledger <= r.ledger
    ensures r.Raised? ==> r.ledger == ledger
    ensures assetPurchaseAmounts.None? && universalPurchaseAmount.None? ==> r == Returned(ledger)
    ensures !simulationMode ==> r.ledger == ledger
    ensures r.Returned? && simulationMode && assetPurchaseAmounts.Some? ==>
              var amounts := assetPurchaseAmounts.value;
              && |r.ledger| == |ledger| + Min(|assets|, |amounts|)
              && forall i :: 0 <= i < Min(|assets|, |amounts|) ==>
                   r.ledger[|ledger| + i] == Record(assets[i], StockPrice(lookup, assets[i]), amounts[i], clock(validPurchaseDays).value)
    ensures r.Returned? && simulationMode && assetPurchaseAmounts.None? && universalPurchaseAmount.Some? ==>
              && |r.ledger| == |ledger| + |assets|
              && forall i :: 0 <= i < |assets| ==>
                   r.ledger[|ledger| + i] == Record(assets[i], StockPrice(lookup, assets[i]), universalPurchaseAmount.value, clock(validPurchaseDays).value)
  {
    match NewPurchaser(assets, validPurchaseDays, assetPurchaseAmounts, universalPurchaseAmount, simulationMode)
    case None => Returned(ledger)
    case Some(p) => PurchaseAssets(ledger, p, lookup, clock)
  }

  /** What a construction appends does not depend on what the ledger already
      holds: the new ledger is the old one followed by the rows a construction
      on an empty ledger would write. */
  lemma ConstructOnlyAppends(
    ledger: seq<Record>,
    assets: seq<string>,
    validPurchaseDays: int,
    assetPurchaseAmounts: Option<seq<real>>,
    universalPurchaseAmount: Option<real>,
    simulationMode: bool,
    lookup: PriceLookup,
    clock: ExpirationClock
  )
    ensures var empty := Construct([], assets, validPurchaseDays, assetPurchaseAmounts, universalPurchaseAmount, simulationMode, lookup, clock);
            var r := Construct(ledger, assets, validPurchaseDays, assetPurchaseAmounts, universalPurchaseAmount, simulationMode, lookup, clock);
            r.Raised? == empty.Raised? && r.ledger == ledger + empty.ledger
  {
    match NewPurchaser(assets, validPurchaseDays, assetPurchaseAmounts, universalPurchaseAmount, simulationMode)
    case None =>
      assert ledger + [] == ledger;
    case Some(p) =>
      match clock(p.validPurchaseDays) {
        case None =>
          assert ledger + [] == ledger;
        case Some(expiration) =>
          PurchaseAllOnlyAppends(ledger, p.simulationMode, lookup, Zip(p.assets, p.amounts), expiration);
      }
  }

  lemma {:induction false} PurchaseAllOnlyAppends(
    ledger: seq<Record>,
    simulationMode: bool,
    lookup: PriceLookup,
    orders: seq<(string, real)>,
    expiration: string
  )
    ensures PurchaseAll(ledger, simulationMode, lookup, orders, expiration)
         == ledger + PurchaseAll([], simulationMode, lookup, orders, expiration)
    decreases |orders|
  {
    if orders == [] {
      assert ledger + [] == ledger;
    } else {
      var next := PurchaseAsset(ledger, simulationMode, lookup, orders[0].0, orders[0].1, expiration);
      var first := PurchaseAsset([], simulationMode, lookup, orders[0].0, orders[0].1, expiration);
      assert next == ledger + first;
      PurchaseAllOnlyAppends(next, simulationMode, lookup, orders[1..], expiration);
      PurchaseAllOnlyAppends(first, simulationMode, lookup, orders[1..], expiration);
      assert ledger + first + PurchaseAll([], simulationMode, lookup, orders[1..], expiration)
          == ledger + (first + PurchaseAll([], simulationMode, lookup, orders[1..], expiration));
    }
  }

  /** Running a construction again appends its rows again, after the rows of
      the first run: the ledger keeps no memory of earlier purchases and does
      no de-duplication. Each run looks up prices and reads the clock afresh. */
  lemma RerunAppendsAgain(
    ledger: seq<Record>,
    assets: seq<string>,
    validPurchaseDays: int,
    assetPurchaseAmounts: Option<seq<real>>,
    universalPurchaseAmount: Option<real>,
    simulationMode: bool,
    lookup1: PriceLookup,
    clock1: ExpirationClock,
    lookup2: PriceLookup,
    clock2: ExpirationClock
  )
    ensures var first := Construct(ledger, assets, validPurchaseDays, assetPurchaseAmounts, universalPurchaseAmount, simulationMode, lookup1, clock1);
            var second := Construct(first.ledger, assets, validPurchaseDays, assetPurchaseAmounts, universalPurchaseAmount, simulationMode, lookup2, clock2);
            var rows1 := Construct([], assets, validPurchaseDays, assetPurchaseAmounts, universalPurchaseAmount, simulationMode, lookup1, clock1).ledger;
            var rows2 := Construct([], assets, validPurchaseDays, assetPurchaseAmounts, universalPurchaseAmount, simulationMode, lookup2, clock2).ledger;
            second.ledger == ledger + rows1 + rows2
  {
    var first := Construct(ledger, assets, validPurchaseDays, assetPurchaseAmounts, universalPurchaseAmount, simulationMode, lookup1, clock1);
    ConstructOnlyAppends(ledger, assets, validPurchaseDays, assetPurchaseAmounts, universalPurchaseAmount, simulationMode, lookup1, clock1);
    ConstructOnlyAppends(first.ledger, assets, validPurchaseDays, assetPurchaseAmounts, universalPurchaseAmount, simulationMode, lookup2, clock2);
  }

  /** The uniform-amount example: two assets bought at 1000.0 each, the second
      with no price available, append two rows, the second with the sentinel. */
  lemma UniformAmountExample(ledger: seq<Record>, applePrice: real, clock: ExpirationClock, expiration: string)
    requires clock(4) == Some(expiration)
    ensures var lookup := (t: string) => if t == "AAPL" then Some(applePrice) else None;
            Construct(ledger, ["AAPL", "MU"], 4, None, Some(1000.0), true, lookup, clock)
              == Returned(ledger + [Record("AAPL", applePrice, 1000.0, expiration), Record("MU", -1.0, 1000.0, expiration)])
  {
    var lookup := (t: string) => if t == "AAPL" then Some(applePrice) else None;
    var assets := ["AAPL", "MU"];
    var r := Construct(ledger, assets, 4, None, Some(1000.0), true, lookup, clock);
    var after := r.ledger;
    assert r.Returned?;
    assert assets[0] == "AAPL" && assets[1] == "MU";
    assert "MU" != "AAPL";
    assert StockPrice(lookup, "MU") == -1.0;
    assert after[|ledger| + 1] == Record("MU", -1.0, 1000.0, expiration);
    assert after[..|ledger|] == ledger;
    assert after == ledger + [Record("AAPL", applePrice, 1000.0, expiration), Record("MU", -1.0, 1000.0, expiration)];
  }
}
