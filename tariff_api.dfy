/** The request handlers of the tariff API that hold logic: the tariff impact calculation
    (`calculate_tariff`), the product lookup by HS code (`get_product`) and the price history
    lookup (`get_price_history`). The loaded sample data is passed in as a value; HTTP status
    codes become `Option`/`Result` values. */
module TariffApi {
  import opened Wrappers

  /** A catalog product, as the `Product` model declares it. */
  datatype Product = Product(
    hsCode: string,
    name: string,
    category: string,
    demandElasticity: real,
    supplyElasticity: real,
    unit: string,
    countryOfOrigin: string,
    currentTariffRate: real,
    proposedTariffRate: real)

  /** One weekly entry of the price history; the handler reads only `hsCode`. */
  datatype PricePoint = PricePoint(hsCode: string, date: string, price: real)

  /** The loaded sample data: the product list and, when the file has one, the price history. */
  datatype SampleData = SampleData(products: seq<Product>, priceHistory: Option<seq<PricePoint>>)

  /** The request body of the calculation. */
  datatype TariffCalculation = TariffCalculation(
    retailPrice: real,
    retailMarkup: real,
    tariffRate: real,
    passThroughRate: Option<real>,
    inventoryBuffer: int)

  /** The response of the calculation, before rounding. */
  datatype CalculationResult = CalculationResult(
    importCost: real,
    tariffAmount: real,
    tariffPassed: real,
    futurePrice: real,
    tariffTaxPct: real,
    priceIncreasePct: real)

  /** The calculation's only failure: the markup divisor `1 + markup/100` is zero. */
  datatype CalcError = DivisionByZero

  /** The 404 answers of the price history handler. */
  datatype HistoryError = PriceHistoryNotAvailable | PriceHistoryNotFound

  /** Pass-through percentage used when the request gives none. */
  const DefaultPassThroughRate: real := 75.0

  /** The price history handler returns at most this many (weekly) entries. */
  const HistoryWeeks: nat := 52

  /** The pass-through percentage the calculation uses. */
  function EffectivePassThrough(req: TariffCalculation): real {
    if req.passThroughRate.None? then DefaultPassThroughRate else req.passThroughRate.value
  }

  /** `calculate_tariff` in exact arithmetic: fills in the default pass-through, then runs
      the pipeline of `Impact`. */
  function CalculateTariff(req: TariffCalculation): (r: Result<CalculationResult, CalcError>)
    ensures r.Failure? <==> req.retailMarkup == -100.0
    ensures r.Success? ==> r.value.importCost * (1.0 + req.retailMarkup / 100.0) == req.retailPrice
    ensures r.Success? ==> r.value.tariffAmount * 100.0 == r.value.importCost * req.tariffRate
    ensures r.Success? ==> r.value.tariffPassed * 100.0 == r.value.tariffAmount * EffectivePassThrough(req)
    ensures r.Success? ==> r.value.futurePrice == req.retailPrice + r.value.tariffPassed
  {
    var passThrough := EffectivePassThrough(req);
    Impact(req.retailPrice, req.retailMarkup, req.tariffRate, passThrough)
  }

  /** The calculation proper: reconstructs the import cost from the retail price and markup,
      applies the tariff, passes the given share of it on to the consumer and reports the
      resulting price and percentages. Fails only where Python divides by zero. */
  function Impact(retailPrice: real, retailMarkup: real, tariffRate: real, passThrough: real)
    : Result<CalculationResult, CalcError>
  {
    var markupFactor := 1.0 + retailMarkup / 100.0;
    if markupFactor == 0.0 then Failure(DivisionByZero)
    else
      var importCost := retailPrice / markupFactor;
      var tariffAmount := importCost * (tariffRate / 100.0);
      var tariffPassed := tariffAmount * (passThrough / 100.0);
      var futurePrice := retailPrice + tariffPassed;
      var tariffTaxPct := if futurePrice > 0.0 then (tariffAmount / futurePrice) * 100.0 else 0.0;
      var priceIncreasePct := if retailPrice > 0.0 then (tariffPassed / retailPrice) * 100.0 else 0.0;
      Success(CalculationResult(importCost, tariffAmount, tariffPassed, futurePrice, tariffTaxPct, priceIncreasePct))
  }

  /** Leaving the pass-through out is the same as asking for 75 percent. */
  lemma DefaultPassThroughIs75(req: TariffCalculation)
    ensures CalculateTariff(req.(passThroughRate := None))
         == CalculateTariff(req.(passThroughRate := Some(DefaultPassThroughRate)))
  {
  }

  /** The inventory buffer is accepted but plays no part in the result. */
  lemma InventoryBufferIgnored(req: TariffCalculation, buffer: int)
    ensures CalculateTariff(req.(inventoryBuffer := buffer)) == CalculateTariff(req)
  {
  }

  /** Without a tariff nothing changes: no tariff, nothing passed on, the same price. */
  lemma ZeroTariffChangesNothing(req: TariffCalculation)
    requires req.tariffRate == 0.0 && req.retailMarkup != -100.0
    ensures CalculateTariff(req).Success?
    ensures var res := CalculateTariff(req).value;
      && res.tariffAmount == 0.0
      && res.tariffPassed == 0.0
      && res.futurePrice == req.retailPrice
      && res.tariffTaxPct == 0.0
      && res.priceIncreasePct == 0.0
  {
  }

  /** At 100 percent pass-through the consumer bears the whole tariff. */
  lemma FullPassThroughPassesWholeTariff(req: TariffCalculation)
    requires req.passThroughRate == Some(100.0) && req.retailMarkup != -100.0
    ensures CalculateTariff(req).Success?
    ensures CalculateTariff(req).value.tariffPassed == CalculateTariff(req).value.tariffAmount
  {
  }

  /** A pass-through between 0 and 100 percent passes on between none and all of a
      non-negative tariff. */
  lemma PassedWithinTariff(req: TariffCalculation)
    requires req.retailMarkup != -100.0
    requires 0.0 <= EffectivePassThrough(req) <= 100.0
    ensures CalculateTariff(req).Success?
    ensures var res := CalculateTariff(req).value;
      res.tariffAmount >= 0.0 ==> 0.0 <= res.tariffPassed <= res.tariffAmount
  {
    var res := CalculateTariff(req).value;
    var share := EffectivePassThrough(req) / 100.0;
    assert res.tariffPassed == res.tariffAmount * share;
    if res.tariffAmount >= 0.0 {
      assert 0.0 <= share <= 1.0;
      assert res.tariffAmount * share <= res.tariffAmount * 1.0;
    }
  }

  /** `tariff_tax_pct` is the full tariff amount as a percentage of the future price, and 0
      when the future price is not positive. */
  lemma TariffTaxShareOfFuturePrice(req: TariffCalculation)
    requires req.retailMarkup != -100.0
    ensures CalculateTariff(req).Success?
    ensures var res := CalculateTariff(req).value;
      && (res.futurePrice <= 0.0 ==> res.tariffTaxPct == 0.0)
      && (res.futurePrice > 0.0 ==> res.tariffTaxPct * res.futurePrice == res.tariffAmount * 100.0)
  {
  }

  /** `price_increase_pct` is the growth from the retail to the future price, in percent,
      and 0 when the retail price is not positive. */
  lemma PriceIncreaseIsGrowth(req: TariffCalculation)
    requires req.retailMarkup != -100.0
    ensures CalculateTariff(req).Success?
    ensures var res := CalculateTariff(req).value;
      && (req.retailPrice <= 0.0 ==> res.priceIncreasePct == 0.0)
      && (req.retailPrice > 0.0 ==>
            res.futurePrice == req.retailPrice * (1.0 + res.priceIncreasePct / 100.0))
  {
  }

  /** The calculation request of the API's own test, worked out exactly. */
  lemma WorkedExample()
    ensures CalculateTariff(TariffCalculation(100.0, 50.0, 10.0, Some(75.0), 3))
         == Success(CalculationResult(200.0 / 3.0, 20.0 / 3.0, 5.0, 105.0, 400.0 / 63.0, 5.0))
  {
  }

  /** `tariff_tax_pct` divides the whole tariff amount, not the part passed on: at 25 percent
      tariff and 75 percent pass-through it is 400/27 (about 14.81), where the part passed
      on would give 100/9 (about 11.11). */
  lemma TaxPercentUsesWholeTariff()
    ensures var res := CalculateTariff(TariffCalculation(100.0, 50.0, 25.0, None, 3)).value;
      && res.tariffAmount == 50.0 / 3.0
      && res.tariffPassed == 12.5
      && res.futurePrice == 112.5
      && res.tariffTaxPct == 400.0 / 27.0
      && res.tariffTaxPct != res.tariffPassed / res.futurePrice * 100.0
  {
  }

  /** `get_product`: the first product of the sample data with exactly this HS code, or
      none (404). */
  function GetProduct(data: SampleData, hsCode: string): (r: Option<Product>)
    ensures var products := data.products;
      r.None? <==> forall i :: 0 <= i < |products| ==> products[i].hsCode != hsCode
    ensures var products := data.products;
      r.Some? ==> exists i :: (0 <= i < |products| && products[i] == r.value
        && r.value.hsCode == hsCode
        && forall j :: 0 <= j < i ==> products[j].hsCode != hsCode)
    decreases |data.products|
  {
    var products := data.products;
    if products == [] then None
    else if products[0].hsCode == hsCode then Some(products[0])
    else
      var r := GetProduct(data.(products := products[1..]), hsCode);
      assert r.Some? ==> exists i :: (1 <= i < |products| && products[i] == r.value
        && forall j :: 1 <= j < i ==> products[j].hsCode != hsCode);
      r
  }

  /** The list comprehension of `get_price_history`: the entries with this HS code, in order. */
  function MatchingHistory(history: seq<PricePoint>, hsCode: string): (r: seq<PricePoint>)
    ensures |r| <= |history|
    ensures forall i :: 0 <= i < |r| ==> r[i].hsCode == hsCode
    ensures forall p :: multiset(r)[p] == if p.hsCode == hsCode then multiset(history)[p] else 0
  {
    if history == [] then []
    else
      var rest := MatchingHistory(history[1..], hsCode);
      assert history == [history[0]] + history[1..];
      if history[0].hsCode == hsCode then [history[0]] + rest else rest
  }

  /** Filtering keeps the order of the history: filtering two stretches of it one after the
      other gives the filter of the whole. */
  lemma {:induction false} MatchingHistoryAppend(a: seq<PricePoint>, b: seq<PricePoint>, hsCode: string)
    ensures MatchingHistory(a + b, hsCode) == MatchingHistory(a, hsCode) + MatchingHistory(b, hsCode)
  {
    if a == [] {
      assert a + b == b;
    } else {
      assert (a + b)[0] == a[0] && (a + b)[1..] == a[1..] + b;
      MatchingHistoryAppend(a[1..], b, hsCode);
    }
  }

  /** The filter is empty exactly when no entry has the HS code. */
  lemma {:induction false} MatchingHistoryEmpty(history: seq<PricePoint>, hsCode: string)
    ensures MatchingHistory(history, hsCode) == [] <==> forall p :: p in history ==> p.hsCode != hsCode
  {
    if history != [] {
      MatchingHistoryEmpty(history[1..], hsCode);
      assert forall p :: p in history <==> p == history[0] || p in history[1..];
    }
  }

  /** A single entry is kept exactly when it has the HS code. */
  lemma MatchingHistoryOne(p: PricePoint, hsCode: string)
    ensures MatchingHistory([p], hsCode) == if p.hsCode == hsCode then [p] else []
  {
    assert [p][1..] == [];
  }

  /** `get_price_history`: the last 52 entries with this HS code, or the 404 cases. */
  function GetPriceHistory(data: SampleData, hsCode: string): (r: Result<seq<PricePoint>, HistoryError>)
    ensures r == Failure(PriceHistoryNotAvailable) <==> data.priceHistory.None?
    ensures r == Failure(PriceHistoryNotFound) <==>
      data.priceHistory.Some? && forall p :: p in data.priceHistory.value ==> p.hsCode != hsCode
    ensures r.Success? ==>
      var matching := MatchingHistory(data.priceHistory.value, hsCode);
      && 0 < |r.value| <= HistoryWeeks
      && |r.value| == (if |matching| < HistoryWeeks then |matching| else HistoryWeeks)
      && r.value == matching[|matching| - |r.value|..]
  {
    if data.priceHistory.None? then Failure(PriceHistoryNotAvailable)
    else
      var history := MatchingHistory(data.priceHistory.value, hsCode);
      MatchingHistoryEmpty(data.priceHistory.value, hsCode);
      if history == [] then Failure(PriceHistoryNotFound)
      else
        if |history| <= HistoryWeeks then Success(history)
      else Success(history[|history| - HistoryWeeks..])
  }
}
