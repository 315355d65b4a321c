/** The tariff update service: looking up the current rate of an HS code in a fetched copy
    of the USITC Harmonized Tariff Schedule (`find_tariff_rate_by_hs_code`), and the loop of
    `update_sample_data_tariffs` that writes the rates found into the product list. The
    fetched document is a parameter; fetching, reading and writing files are not modelled. */
module TariffService {
  import opened Wrappers
  import opened PyText

  /** A JSON scalar as a field of an HTS record holds it. */
  datatype JsonScalar = Number(x: real) | Text(s: string) | Null

  /** One record of the HTS `data` list. Every field may be absent (`None`); only the fields
      the lookup consults are kept. */
  datatype HtsItem = HtsItem(
    htsNumber: Option<string>,
    hsCode: Option<string>,
    productCode: Option<string>,
    dutyRate: Option<JsonScalar>,
    tariffRate: Option<JsonScalar>,
    rate: Option<JsonScalar>)

  /** The fetched HTS document: its `data` list, if it has that key, and whether it has any
      other key (an empty document is falsy in Python). */
  datatype HtsDocument = HtsDocument(data: Option<seq<HtsItem>>, hasOtherKeys: bool)

  /** What Python's `str` makes of a JSON `null`. */
  const NullText: string := "None"

  /** Rate strings that mean "no duty", after upper-casing and trimming. */
  const FreeRates: seq<string> := ["FREE", "DUTY FREE", "0"]

  /** The number of leading characters of the query that must match. */
  const HsPrefixLength: nat := 6

  /** `not hts_data` is false: the fetch succeeded and the document is not empty. */
  predicate IsTruthy(fetched: Option<HtsDocument>) {
    fetched.Some? && (fetched.value.data.Some? || fetched.value.hasOtherKeys)
  }

  /** The first present value of a sequence, in order. It models both the nested
      `d.get(k1, d.get(k2, ...))` fallback chains and the early `return` of the search loop. */
  function FirstSome<T>(s: seq<Option<T>>): (r: Option<T>)
    ensures r.None? <==> forall i :: 0 <= i < |s| ==> s[i].None?
    ensures r.Some? ==> exists i :: (0 <= i < |s| && s[i] == r
      && forall j :: 0 <= j < i ==> s[j].None?)
  {
    if s == [] then None
    else if s[0].Some? then s[0]
    else
      var r := FirstSome(s[1..]);
      assert r.Some? ==> exists i :: (1 <= i < |s| && s[i] == r
        && forall j :: 1 <= j < i ==> s[j].None?);
      r
  }

  /** A chain of three lookups takes the first field present. */
  lemma FirstSomeOfThree<T>(a: Option<T>, b: Option<T>, c: Option<T>)
    ensures FirstSome([a, b, c]) == if a.Some? then a else if b.Some? then b else c
  {
    var abc, bc, justC := [a, b, c], [b, c], [c];
    assert abc[1..] == bc && bc[1..] == justC && justC[1..] == [];
    assert FirstSome(justC) == c;
    assert FirstSome(bc) == if b.Some? then b else c;
  }

  /** The HS code of an item: `hts_number`, else `hs_code`, else `product_code`, else `''`. */
  function ItemHsCode(item: HtsItem): (s: string)
    ensures item.htsNumber.Some? ==> s == item.htsNumber.value
    ensures item.htsNumber.None? && item.hsCode.Some? ==> s == item.hsCode.value
    ensures item.htsNumber.None? && item.hsCode.None? && item.productCode.Some? ==> s == item.productCode.value
    ensures item.htsNumber.None? && item.hsCode.None? && item.productCode.None? ==> s == ""
  {
    FirstSomeOfThree(item.htsNumber, item.hsCode, item.productCode);
    FirstSome([item.htsNumber, item.hsCode, item.productCode]).GetOr("")
  }

  /** The rate of an item: `duty_rate`, else `tariff_rate`, else `rate`, else `'0'`. */
  function ItemRate(item: HtsItem): (v: JsonScalar)
    ensures item.dutyRate.Some? ==> v == item.dutyRate.value
    ensures item.dutyRate.None? && item.tariffRate.Some? ==> v == item.tariffRate.value
    ensures item.dutyRate.None? && item.tariffRate.None? && item.rate.Some? ==> v == item.rate.value
    ensures item.dutyRate.None? && item.tariffRate.None? && item.rate.None? ==> v == Text("0")
  {
    FirstSomeOfThree(item.dutyRate, item.tariffRate, item.rate);
    FirstSome([item.dutyRate, item.tariffRate, item.rate]).GetOr(Text("0"))
  }

  /** The `try` block of the lookup: a number is taken as it is; anything else is rendered
      with `str`, upper-cased and trimmed, read as 0 when it says the good is free, and
      otherwise parsed with `float` after dropping every `%`. `None` stands for the
      `ValueError` that makes the loop skip the item. */
  function ParseRate(v: JsonScalar): (r: Option<real>)
    ensures v.Number? ==> r == Some(v.x)
    ensures v.Null? ==> r.None?
    ensures v.Text? ==> r == ParseRateText(v.s)
  {
    match v
    case Number(x) => Some(x)
    case Text(s) => ParseRateText(s)
    case Null => NullRateSkipped(); ParseRateText(NullText)
  }

  function ParseRateText(s: string): Option<real> {
    var t := Strip(Upper(s));
    if t in FreeRates then Some(0.0)
    else
      var digits := if '%' in t then Strip(RemoveAll(t, '%')) else t;
      ParseFloat(digits)
  }

  /** A text rate is read exactly when, upper-cased and trimmed, it is a free marker or,
      with its `%` signs dropped and trimmed, an optionally signed decimal literal. */
  lemma RateTextAccepts(s: string)
    ensures var t := Strip(Upper(s));
      var literal := if '%' in t then Strip(RemoveAll(t, '%')) else t;
      ParseRateText(s).Some? <==> t in FreeRates || IsFloatLiteral(Strip(literal))
  {
    var t := Strip(Upper(s));
    ParseFloatAccepts(if '%' in t then Strip(RemoveAll(t, '%')) else t);
  }

  /** The item's HS code starts with the query's leading characters. */
  predicate Matches(item: HtsItem, prefix: string) {
    StartsWith(ItemHsCode(item), prefix)
  }

  /** One pass of the search loop: the item's rate when it matches and its rate parses (the
      loop returns it), none when it does not match or its rate fails to parse (the loop
      goes on). */
  function Candidate(item: HtsItem, prefix: string): (c: Option<real>)
    ensures c.Some? <==> Matches(item, prefix) && ParseRate(ItemRate(item)).Some?
    ensures c.Some? ==> c == ParseRate(ItemRate(item))
  {
    if Matches(item, prefix) then ParseRate(ItemRate(item)) else None
  }

  function Candidates(items: seq<HtsItem>, prefix: string): (cs: seq<Option<real>>)
    ensures |cs| == |items|
    ensures forall i :: 0 <= i < |items| ==> cs[i] == Candidate(items[i], prefix)
  {
    seq(|items|, i requires 0 <= i < |items| => Candidate(items[i], prefix))
  }

  /** `find_tariff_rate_by_hs_code`: none without a `data` list; otherwise the rate of the
      first item whose HS code starts with the first six characters of the query and whose
      rate parses, and none when there is no such item. */
  function FindTariffRateByHsCode(doc: HtsDocument, hsCode: string): (r: Option<real>)
    ensures doc.data.None? ==> r.None?
    ensures doc.data.Some? ==> var items, prefix := doc.data.value, Take(hsCode, HsPrefixLength);
      && (r.None? <==> forall i :: 0 <= i < |items| ==> Candidate(items[i], prefix).None?)
      && (r.Some? ==> exists i :: (0 <= i < |items| && Candidate(items[i], prefix) == r
            && forall j :: 0 <= j < i ==> Candidate(items[j], prefix).None?))
  {
    if doc.data.None? then None
    else FirstSome(Candidates(doc.data.value, Take(hsCode, HsPrefixLength)))
  }

  /** Only the first six characters of the query take part in the lookup. */
  lemma QueryBeyondPrefixIgnored(doc: HtsDocument, hsCode: string, suffix: string)
    requires |hsCode| >= HsPrefixLength
    ensures FindTariffRateByHsCode(doc, hsCode + suffix) == FindTariffRateByHsCode(doc, hsCode)
  {
    assert (hsCode + suffix)[..HsPrefixLength] == hsCode[..HsPrefixLength];
  }

  /** An item with none of the three rate fields has the default rate `'0'`, read as 0. */
  lemma MissingRateIsZero(item: HtsItem)
    requires item.dutyRate.None? && item.tariffRate.None? && item.rate.None?
    ensures ParseRate(ItemRate(item)) == Some(0.0)
  {
    assert ItemRate(item) == Text("0");
    DefaultRateIsFree();
    FreeRateIsZero("0");
  }

  lemma DefaultRateIsFree()
    ensures Strip(Upper("0")) in FreeRates
  {
    assert Upper("0") == "0";
    StripUnpadded("0");
  }

  /** A number is returned unchanged. */
  lemma NumericRateUnchanged(x: real)
    ensures ParseRate(Number(x)) == Some(x)
  {
  }

  /** `FREE`, `DUTY FREE` and `0`, in any letter case and with surrounding whitespace, are 0. */
  lemma FreeRateIsZero(s: string)
    requires Strip(Upper(s)) in FreeRates
    ensures ParseRate(Text(s)) == Some(0.0)
  {
  }

  /** A character of a numeric rate string: a digit, a decimal point or a percent sign. */
  predicate IsNumericChar(c: char) {
    IsDigit(c) || c == '.' || c == '%'
  }

  /** Upper-casing and trimming leave a non-empty string of digits, points and `%` signs
      as it is. */
  lemma NumericTextNormalised(s: string)
    requires s != [] && forall i :: 0 <= i < |s| ==> IsNumericChar(s[i])
    ensures Strip(Upper(s)) == s
  {
    UpperKeepsNonLetters(s);
    NumericUnpadded(s);
  }

  /** No free marker contains a decimal point. */
  lemma PointNotFree(t: string)
    requires '.' in t
    ensures t !in FreeRates
  {
    assert forall r :: r in FreeRates ==> '.' !in r;
  }

  /** Dropping the `%` of `t%` and trimming gives `t` back, for a non-empty `t` of digits
      and points. */
  lemma PercentDropped(t: string)
    requires t != [] && forall i :: 0 <= i < |t| ==> IsNumericChar(t[i]) && t[i] != '%'
    ensures Strip(RemoveAll(t + "%", '%')) == t
  {
    assert '%' !in t;
    RemoveAllAppend(t, "%", '%');
    RemoveAllAbsent(t, '%');
    assert RemoveAll("%", '%') == [];
    assert RemoveAll(t + "%", '%') == t;
    NumericUnpadded(t);
  }

  /** A non-empty string of digits, points and `%` signs is its own `strip()`. */
  lemma NumericUnpadded(t: string)
    requires t != [] && forall i :: 0 <= i < |t| ==> IsNumericChar(t[i])
    ensures Strip(t) == t
  {
    var first, last := t[0], t[|t| - 1];
    NumericNotSpace(first);
    NumericNotSpace(last);
    StripUnpadded(t);
  }

  lemma NumericNotSpace(c: char)
    requires IsNumericChar(c)
    ensures !IsSpace(c)
  {
  }

  /** A whole number followed by `%` reads as that number: `"5%"` gives 5. */
  lemma PercentRateParses(n: nat)
    ensures ParseRate(Text(NatToDecimal(n) + "%")) == Some(n as real)
  {
    var digits := NatToDecimal(n);
    var s := digits + "%";
    assert forall i :: 0 <= i < |s| ==> IsNumericChar(s[i]);
    NumericTextNormalised(s);
    assert s !in FreeRates && '%' in s by {
      assert s[|s| - 1] == '%';
    }
    assert forall i :: 0 <= i < |digits| ==> IsNumericChar(digits[i]) && digits[i] != '%';
    PercentDropped(digits);
    FloatOfDecimal(n);
  }

  /** A plain string of digits reads as the number it spells: `"5"` gives 5, `"0"` gives 0. */
  lemma WholeRateParses(digits: string)
    requires digits != [] && AllDigits(digits)
    ensures ParseRate(Text(digits)) == Some(DigitsValue(digits) as real)
  {
    assert forall i :: 0 <= i < |digits| ==> IsNumericChar(digits[i]);
    NumericTextNormalised(digits);
    assert '%' !in digits by {
      assert forall i :: 0 <= i < |digits| ==> digits[i] != '%';
    }
    if digits !in FreeRates {
      WholeLiteralParses(digits);
    } else {
      assert digits == "0" by {
        assert IsDigit(digits[0]);
      }
      assert DigitsValue(digits) == DigitsValue([]) * 10 + 0;
    }
  }

  /** A decimal rate reads as its value: `"2.5"` gives 2.5. */
  lemma DecimalRateParses(w: string, f: string)
    requires AllDigits(w) && AllDigits(f) && |w| + |f| > 0
    ensures ParseRate(Text(w + "." + f)) == Some(DecimalValue(w, f))
  {
    var s := w + "." + f;
    assert forall i :: 0 <= i < |s| ==> IsNumericChar(s[i]) && s[i] != '%';
    NumericTextNormalised(s);
    assert s[|w|] == '.';
    PointNotFree(s);
    DecimalLiteralParses(w, f);
  }

  /** A decimal percentage reads as its value: `"2.5%"` gives 2.5. */
  lemma DecimalPercentRateParses(w: string, f: string)
    requires AllDigits(w) && AllDigits(f) && |w| + |f| > 0
    ensures ParseRate(Text(w + "." + f + "%")) == Some(DecimalValue(w, f))
  {
    var literal := w + "." + f;
    var s := literal + "%";
    assert forall i :: 0 <= i < |literal| ==> IsNumericChar(literal[i]) && literal[i] != '%';
    NumericTextNormalised(s);
    assert s[|w|] == '.' && s[|s| - 1] == '%';
    PointNotFree(s);
    PercentDropped(literal);
    DecimalLiteralParses(w, f);
  }

  /** A rate that reads as a word (not a free marker, no `%`) does not parse. */
  lemma WordRateSkipped(s: string)
    requires var t := Strip(Upper(s));
      t != [] && t !in FreeRates && '%' !in t && 'A' <= t[0] <= 'Z' && !IsSpace(t[|t| - 1])
    ensures ParseRateText(s) == None
  {
    ParseFloatRejectsWord(Strip(Upper(s)));
  }

  lemma NullTextReadsAsWord()
    ensures Strip(Upper(NullText)) == "NONE"
  {
    assert Upper(NullText) == "NONE";
    StripUnpadded("NONE");
  }

  /** A JSON `null` renders as `None`, which does not parse, so the item is skipped. */
  lemma NullRateSkipped()
    ensures ParseRateText(NullText) == None
  {
    NullTextReadsAsWord();
    assert !IsSpace('E');
    WordRateSkipped(NullText);
  }

  /** A rate holding, once upper-cased and trimmed, any character other than a digit, a
      point or a sign, and no `%`, does not parse: a compound rate such as `2.4¢/KG` is
      skipped. */
  lemma ForeignCharRateSkipped(s: string, i: nat)
    requires var t := Strip(Upper(s));
      && t !in FreeRates && '%' !in t
      && i < |t| && !IsDigit(t[i]) && t[i] != '.' && t[i] != '+' && t[i] != '-'
    ensures ParseRateText(s) == None
  {
    var t := Strip(Upper(s));
    StripIdempotent(Upper(s));
    RateTextAccepts(s);
    assert !IsFloatLiteral(t) by {
      if t[0] == '+' || t[0] == '-' {
        assert t[1..][i - 1] == t[i];
      }
    }
  }

  /** A product record of the sample data as the update loop sees it: the fields it reads
      or writes (each possibly absent, `name` and `current_tariff_rate` possibly `null`)
      and every other field, which it never touches. `hsCode` is `None` both when the key
      is absent and when it is `null`: the loop treats the two alike. `otherFields` holds
      the remaining keys only, never `hs_code`, `name` or `current_tariff_rate`. */
  datatype ProductEntry = ProductEntry(
    hsCode: Option<string>,
    name: Option<JsonScalar>,
    currentTariffRate: Option<JsonScalar>,
    otherFields: map<string, JsonScalar>)

  /** An entry of `updated_products`. */
  datatype UpdatedEntry = UpdatedEntry(name: Option<JsonScalar>, hsCode: string, oldRate: JsonScalar, newRate: real)

  datatype FailReason = MissingHsCode | RateNotFound

  /** An entry of `failed_products`; a product without an HS code has no `hs_code` here. */
  datatype FailedEntry = FailedEntry(name: JsonScalar, hsCode: Option<string>, reason: FailReason)

  /** The result dictionary of `update_sample_data_tariffs`. */
  datatype UpdateResult = UpdateResult(
    updatedProducts: seq<UpdatedEntry>,
    failedProducts: seq<FailedEntry>,
    totalProcessed: nat,
    success: bool,
    error: Option<string>)

  /** What happened to one product: its entry in one of the two result lists. */
  datatype Outcome = Updated(updated: UpdatedEntry) | Failed(failed: FailedEntry)

  const FetchFailedMessage: string := "Failed to fetch tariff data from USITC"
  const UnknownName: string := "Unknown"

  /** `not hs_code` is false: the key is present and not empty. */
  predicate HasHsCode(p: ProductEntry) {
    p.hsCode.Some? && p.hsCode.value != ""
  }

  /** The body of the update loop for one product, as the entry it reports. */
  function ProcessProduct(p: ProductEntry, doc: HtsDocument): (o: Outcome)
    ensures o.Updated? <==> HasHsCode(p) && FindTariffRateByHsCode(doc, p.hsCode.value).Some?
    ensures o.Updated? ==>
      && o.updated.hsCode == p.hsCode.value
      && o.updated.name == p.name
      && o.updated.oldRate == (if p.currentTariffRate.Some? then p.currentTariffRate.value else Number(0.0))
      && Some(o.updated.newRate) == FindTariffRateByHsCode(doc, p.hsCode.value)
    ensures o.Failed? && HasHsCode(p) ==> o.failed.hsCode == p.hsCode
    ensures o.Failed? ==>
      && o.failed.name == (if p.name.Some? then p.name.value else Text(UnknownName))
      && (o.failed.reason == MissingHsCode <==> !HasHsCode(p))
      && (o.failed.hsCode.None? <==> !HasHsCode(p))
  {
    if !HasHsCode(p) then
      Failed(FailedEntry(p.name.GetOr(Text(UnknownName)), None, MissingHsCode))
    else
      match FindTariffRateByHsCode(doc, p.hsCode.value)
      case Some(rate) => Updated(UpdatedEntry(p.name, p.hsCode.value, p.currentTariffRate.GetOr(Number(0.0)), rate))
      case None => Failed(FailedEntry(p.name.GetOr(Text(UnknownName)), p.hsCode, RateNotFound))
  }

  /** The product as the loop leaves it: only `current_tariff_rate` may change, and only to
      the rate found for its HS code. */
  function UpdatedProduct(p: ProductEntry, doc: HtsDocument): (q: ProductEntry)
    ensures q.hsCode == p.hsCode && q.name == p.name && q.otherFields == p.otherFields
    ensures q.currentTariffRate ==
      if HasHsCode(p) && FindTariffRateByHsCode(doc, p.hsCode.value).Some?
      then Some(Number(FindTariffRateByHsCode(doc, p.hsCode.value).value))
      else p.currentTariffRate
  {
    match ProcessProduct(p, doc)
    case Updated(e) => p.(currentTariffRate := Some(Number(e.newRate)))
    case Failed(_) => p
  }

  function UpdatedProducts(ps: seq<ProductEntry>, doc: HtsDocument): (qs: seq<ProductEntry>)
    ensures |qs| == |ps|
  {
    seq(|ps|, i requires 0 <= i < |ps| => UpdatedProduct(ps[i], doc))
  }

  /** `updated_products` after the loop has seen `ps`. */
  function UpdatedEntries(ps: seq<ProductEntry>, doc: HtsDocument): seq<UpdatedEntry> {
    if ps == [] then []
    else
      var last := ProcessProduct(ps[|ps| - 1], doc);
      UpdatedEntries(ps[..|ps| - 1], doc) + if last.Updated? then [last.updated] else []
  }

  /** `failed_products` after the loop has seen `ps`. */
  function FailedEntries(ps: seq<ProductEntry>, doc: HtsDocument): seq<FailedEntry> {
    if ps == [] then []
    else
      var last := ProcessProduct(ps[|ps| - 1], doc);
      FailedEntries(ps[..|ps| - 1], doc) + if last.Failed? then [last.failed] else []
  }

  /** Every product lands in exactly one of the two lists. */
  lemma {:induction false} EntriesPartition(ps: seq<ProductEntry>, doc: HtsDocument)
    ensures |UpdatedEntries(ps, doc)| + |FailedEntries(ps, doc)| == |ps|
  {
    if ps != [] {
      EntriesPartition(ps[..|ps| - 1], doc);
    }
  }

  /** Each updated entry records a non-empty HS code and the rate the lookup finds for it. */
  lemma {:induction false} UpdatedEntriesAreFound(ps: seq<ProductEntry>, doc: HtsDocument)
    ensures forall e :: e in UpdatedEntries(ps, doc) ==>
      e.hsCode != "" && FindTariffRateByHsCode(doc, e.hsCode) == Some(e.newRate)
  {
    if ps != [] {
      UpdatedEntriesAreFound(ps[..|ps| - 1], doc);
    }
  }

  /** A failed entry without an HS code is a product that had none; one with an HS code is
      a product whose rate the lookup does not find. */
  lemma {:induction false} FailedEntriesExplained(ps: seq<ProductEntry>, doc: HtsDocument)
    ensures forall e :: e in FailedEntries(ps, doc) ==>
      && (e.reason == MissingHsCode <==> e.hsCode.None?)
      && (e.hsCode.Some? ==> e.hsCode.value != "" && FindTariffRateByHsCode(doc, e.hsCode.value).None?)
  {
    if ps != [] {
      FailedEntriesExplained(ps[..|ps| - 1], doc);
    }
  }

  /** The result when the HTS fetch gives nothing. */
  function FetchFailedResult(): UpdateResult {
    UpdateResult([], [], 0, false, Some(FetchFailedMessage))
  }

  /** The loop of `update_sample_data_tariffs` over the product list, updating the products
      in place; `fetched` is what `fetch_current_tariff_rates` returned. */
  method UpdateSampleDataTariffs(products: array<ProductEntry>, fetched: Option<HtsDocument>)
    returns (result: UpdateResult)
    modifies products
    ensures !IsTruthy(fetched) ==> result == FetchFailedResult() && products[..] == old(products[..])
    ensures IsTruthy(fetched) ==>
      && products[..] == UpdatedProducts(old(products[..]), fetched.value)
      && result.updatedProducts == UpdatedEntries(old(products[..]), fetched.value)
      && result.failedProducts == FailedEntries(old(products[..]), fetched.value)
      && result.totalProcessed == products.Length
      && result.success
      && result.error.None?
    ensures |result.updatedProducts| + |result.failedProducts| == result.totalProcessed
  {
    result := UpdateResult([], [], 0, false, None);
    if !IsTruthy(fetched) {
      result := result.(error := Some(FetchFailedMessage));
      return;
    }
    var doc := fetched.value;
    ghost var original := products[..];
    var i := 0;
    while i < products.Length
      invariant 0 <= i <= products.Length
      invariant products[..i] == UpdatedProducts(original[..i], doc)
      invariant products[i..] == original[i..]
      invariant result.updatedProducts == UpdatedEntries(original[..i], doc)
      invariant result.failedProducts == FailedEntries(original[..i], doc)
      invariant result.totalProcessed == i && !result.success && result.error.None?
    {
      var product := products[i];
      assert product == original[i];
      assert original[..i + 1][..i] == original[..i];
      result := result.(totalProcessed := result.totalProcessed + 1);
      if !HasHsCode(product) {
        result := result.(failedProducts := result.failedProducts
          + [FailedEntry(product.name.GetOr(Text(UnknownName)), None, MissingHsCode)]);
      } else {
        var hsCode := product.hsCode.value;
        var currentRate := FindTariffRateByHsCode(doc, hsCode);
        if currentRate.Some? {
          var oldRate := product.currentTariffRate.GetOr(Number(0.0));
          products[i] := product.(currentTariffRate := Some(Number(currentRate.value)));
          result := result.(updatedProducts := result.updatedProducts
            + [UpdatedEntry(product.name, hsCode, oldRate, currentRate.value)]);
        } else {
          result := result.(failedProducts := result.failedProducts
            + [FailedEntry(product.name.GetOr(Text(UnknownName)), Some(hsCode), RateNotFound)]);
        }
      }
      assert products[..i + 1] == products[..i] + [UpdatedProduct(original[i], doc)];
      i := i + 1;
    }
    result := result.(success := true);
    EntriesPartition(original, doc);
    assert original[..i] == original;
  }
}
