/**
 * The two sides together: the query pairs the product page writes into its
 * URL, read by the framework as the parameters of `get_products`. This is
 * where the page's dropping of falsy prices meets the endpoint's reading of
 * the price list by position. (The page's own products request is built by a
 * generated client from the state, not from these pairs.)
 */
module QueryRoundTrip {
  import opened Wrappers
  import Decimal
  import opened ProductPage
  import opened ProductsApi

  // ---------------------------------------------------------------------------
  // Reading a query string.
  // ---------------------------------------------------------------------------

  /** The values sent under `key`, in the order they were appended. */
  function Values(pairs: seq<Pair>, key: string): (r: seq<string>)
    ensures |r| <= |pairs|
    decreases |pairs|
  {
    if pairs == [] then []
    else
      var init := pairs[..|pairs| - 1];
      var last := pairs[|pairs| - 1];
      Values(init, key) + (if last.0 == key then [last.1] else [])
  }

  lemma {:induction false} ValuesConcat(a: seq<Pair>, b: seq<Pair>, key: string)
    ensures Values(a + b, key) == Values(a, key) + Values(b, key)
    decreases |b|
  {
    if b == [] {
      assert a + b == a;
    } else {
      var init := b[..|b| - 1];
      assert (a + b)[..|a + b| - 1] == a + init;
      assert (a + b)[|a + b| - 1] == b[|b| - 1];
      ValuesConcat(a, init, key);
    }
  }

  /** A list of pairs all under `k` yields its values under `k` and nothing under any other key. */
  lemma {:induction false} ValuesTagged(k: string, vs: seq<string>, key: string)
    ensures Values(Tagged(k, vs), key) == if k == key then vs else []
    decreases |vs|
  {
    if vs != [] {
      var init := vs[..|vs| - 1];
      assert Tagged(k, vs)[..|vs| - 1] == Tagged(k, init);
      ValuesTagged(k, init, key);
    }
  }

  lemma ValuesOptional(k: string, v: string, key: string)
    ensures Values(OptionalPair(k, v), key) == if k == key && |v| > 0 then [v] else []
  {
    if |v| > 0 {
      assert [(k, v)][..0] == [];
    }
  }

  lemma ValuesSingle(x: Pair, key: string)
    ensures Values([x], key) == if x.0 == key then [x.1] else []
  {
    assert [x][..0] == [];
  }

  lemma ValuesHeader(p: TypeParams, key: string)
    ensures Values(Header(p), key)
         == (if key == "page" then [Decimal.IntToString(p.page)] else [])
          + (if key == "page_size" then [Decimal.IntToString(p.pageSize)] else [])
          + (if key == "sort_by" then [p.sortBy] else [])
  {
    var x, y, z := ("page", Decimal.IntToString(p.page)), ("page_size", Decimal.IntToString(p.pageSize)), ("sort_by", p.sortBy);
    assert Header(p) == [x] + [y] + [z];
    ValuesConcat([x] + [y], [z], key);
    ValuesConcat([x], [y], key);
    ValuesSingle(x, key);
    ValuesSingle(y, key);
    ValuesSingle(z, key);
  }

  /** The values under one key of a query the page writes, part by part. */
  lemma ValuesQueryWith(p: TypeParams, texts: seq<string>, key: string)
    ensures Values(QueryWith(p, texts), key)
         == Values(Header(p), key)
          + Values(Tagged("category", p.category), key)
          + Values(Tagged("price", texts), key)
          + Values(OptionalPair("condition", p.condition), key)
          + Values(OptionalPair("product_name", p.productName), key)
  {
    var h := Header(p);
    var c := Tagged("category", p.category);
    var t := Tagged("price", texts);
    var o1 := OptionalPair("condition", p.condition);
    var o2 := OptionalPair("product_name", p.productName);
    assert QueryWith(p, texts) == h + c + t + o1 + o2;
    ValuesConcat(h + c + t + o1, o2, key);
    ValuesConcat(h + c + t, o1, key);
    ValuesConcat(h + c, t, key);
    ValuesConcat(h, c, key);
  }

  /** `page`, `page_size` and `sort_by` are each sent once, with the state's values. */
  lemma HeaderValues(p: TypeParams, texts: seq<string>)
    ensures Values(QueryWith(p, texts), "page") == [Decimal.IntToString(p.page)]
    ensures Values(QueryWith(p, texts), "page_size") == [Decimal.IntToString(p.pageSize)]
    ensures Values(QueryWith(p, texts), "sort_by") == [p.sortBy]
  {
    HeaderKey(p, texts, "page");
    ValuesHeader(p, "page");
    HeaderKey(p, texts, "page_size");
    ValuesHeader(p, "page_size");
    HeaderKey(p, texts, "sort_by");
    ValuesHeader(p, "sort_by");
  }

  /** A key no later part uses is found in the header only. */
  lemma HeaderKey(p: TypeParams, texts: seq<string>, key: string)
    requires key != "category" && key != "price" && key != "condition" && key != "product_name"
    ensures Values(QueryWith(p, texts), key) == Values(Header(p), key)
  {
    ValuesQueryWith(p, texts, key);
    assert Values(Tagged("category", p.category), key) == [] by { ValuesTagged("category", p.category, key); }
    assert Values(Tagged("price", texts), key) == [] by { ValuesTagged("price", texts, key); }
    assert Values(OptionalPair("condition", p.condition), key) == [] by { ValuesOptional("condition", p.condition, key); }
    assert Values(OptionalPair("product_name", p.productName), key) == [] by {
      ValuesOptional("product_name", p.productName, key);
    }
  }

  lemma NotInHeader(p: TypeParams, key: string)
    requires key != "page" && key != "page_size" && key != "sort_by"
    ensures Values(Header(p), key) == []
  {
    ValuesHeader(p, key);
  }

  /** The `category` values are the list, in order. */
  lemma CategoryValues(p: TypeParams, texts: seq<string>)
    ensures Values(QueryWith(p, texts), "category") == p.category
  {
    var key := "category";
    ValuesQueryWith(p, texts, key);
    assert Values(Header(p), key) == [] by { NotInHeader(p, key); }
    assert Values(Tagged("category", p.category), key) == p.category by { ValuesTagged("category", p.category, key); }
    assert Values(Tagged("price", texts), key) == [] by { ValuesTagged("price", texts, key); }
    assert Values(OptionalPair("condition", p.condition), key) == [] by { ValuesOptional("condition", p.condition, key); }
    assert Values(OptionalPair("product_name", p.productName), key) == [] by {
      ValuesOptional("product_name", p.productName, key);
    }
  }

  /** The `price` values are the written texts, in order. */
  lemma PriceValues(p: TypeParams, texts: seq<string>)
    ensures Values(QueryWith(p, texts), "price") == texts
  {
    var key := "price";
    ValuesQueryWith(p, texts, key);
    assert Values(Header(p), key) == [] by { NotInHeader(p, key); }
    assert Values(Tagged("category", p.category), key) == [] by { ValuesTagged("category", p.category, key); }
    assert Values(Tagged("price", texts), key) == texts by { ValuesTagged("price", texts, key); }
    assert Values(OptionalPair("condition", p.condition), key) == [] by { ValuesOptional("condition", p.condition, key); }
    assert Values(OptionalPair("product_name", p.productName), key) == [] by {
      ValuesOptional("product_name", p.productName, key);
    }
  }

  /** `condition` and `product_name` are sent once when non-empty, and not at all otherwise. */
  lemma OptionalValues(p: TypeParams, texts: seq<string>)
    ensures Values(QueryWith(p, texts), "condition") == if |p.condition| > 0 then [p.condition] else []
    ensures Values(QueryWith(p, texts), "product_name") == if |p.productName| > 0 then [p.productName] else []
  {
    ConditionValues(p, texts);
    ProductNameValues(p, texts);
  }

  lemma ConditionValues(p: TypeParams, texts: seq<string>)
    ensures Values(QueryWith(p, texts), "condition") == if |p.condition| > 0 then [p.condition] else []
  {
    var key := "condition";
    ValuesQueryWith(p, texts, key);
    assert Values(Header(p), key) == [] by { NotInHeader(p, key); }
    assert Values(Tagged("category", p.category), key) == [] by { ValuesTagged("category", p.category, key); }
    assert Values(Tagged("price", texts), key) == [] by { ValuesTagged("price", texts, key); }
    assert Values(OptionalPair("condition", p.condition), key) == (if |p.condition| > 0 then [p.condition] else []) by {
      ValuesOptional("condition", p.condition, key);
    }
    assert Values(OptionalPair("product_name", p.productName), key) == [] by {
      ValuesOptional("product_name", p.productName, key);
    }
  }

  lemma ProductNameValues(p: TypeParams, texts: seq<string>)
    ensures Values(QueryWith(p, texts), "product_name") == if |p.productName| > 0 then [p.productName] else []
  {
    var key := "product_name";
    ValuesQueryWith(p, texts, key);
    assert Values(Header(p), key) == [] by { NotInHeader(p, key); }
    assert Values(Tagged("category", p.category), key) == [] by { ValuesTagged("category", p.category, key); }
    assert Values(Tagged("price", texts), key) == [] by { ValuesTagged("price", texts, key); }
    assert Values(OptionalPair("condition", p.condition), key) == [] by { ValuesOptional("condition", p.condition, key); }
    assert Values(OptionalPair("product_name", p.productName), key)
        == (if |p.productName| > 0 then [p.productName] else []) by {
      ValuesOptional("product_name", p.productName, key);
    }
  }

  /** The value lists the endpoint finds in a URL the page writes. */
  lemma DecodeQueryWithValues(p: TypeParams, texts: seq<string>)
    ensures Decode(QueryWith(p, texts))
         == FromValues(
              p.category, [Decimal.IntToString(p.page)], [Decimal.IntToString(p.pageSize)], [p.sortBy], texts,
              if |p.condition| > 0 then [p.condition] else [],
              if |p.productName| > 0 then [p.productName] else [])
  {
    HeaderValues(p, texts);
    CategoryValues(p, texts);
    PriceValues(p, texts);
    OptionalValues(p, texts);
  }

  /** A single-valued parameter: the last value sent, or the default when none was. */
  function Scalar(values: seq<string>, default: string): (r: string)
    ensures values == [] ==> r == default
    ensures values != [] ==> r == values[|values| - 1]
  {
    if values == [] then default else values[|values| - 1]
  }

  /** An integer parameter: `None` when the value sent is not an integer. */
  function ScalarInt(values: seq<string>, default: int): (r: Option<int>)
    ensures values == [] ==> r == Some(default)
    ensures values != [] ==> r == Decimal.ParseInt(values[|values| - 1])
  {
    if values == [] then Some(default) else Decimal.ParseInt(values[|values| - 1])
  }

  /** A list-of-integers parameter: every value must parse. */
  function ParseInts(texts: seq<string>): (r: Option<seq<int>>)
    ensures r.Some? ==> |r.value| == |texts|
    ensures r.Some? ==> forall i :: 0 <= i < |texts| ==> Decimal.ParseInt(texts[i]) == Some(r.value[i])
    ensures r.None? <==> exists i :: 0 <= i < |texts| && Decimal.ParseInt(texts[i]).None?
    decreases |texts|
  {
    if texts == [] then Some([])
    else
      var rest := ParseInts(texts[1..]);
      assert forall i :: 1 <= i < |texts| ==> texts[i] == texts[1..][i - 1];
      match Decimal.ParseInt(texts[0])
      case None => None
      case Some(v) =>
        if rest.None? then None
        else
          var r := [v] + rest.value;
          assert forall i :: 1 <= i < |texts| ==> r[i] == rest.value[i - 1];
          Some(r)
  }

  /** The request built from the values sent under each key. */
  function FromValues(
    category: seq<string>, page: seq<string>, pageSize: seq<string>, sortBy: seq<string>,
    price: seq<string>, condition: seq<string>, productName: seq<string>): Option<Request>
  {
    var defaults := DefaultRequest();
    var pageValue := ScalarInt(page, defaults.page);
    var pageSizeValue := ScalarInt(pageSize, defaults.pageSize);
    var prices := ParseInts(price);
    if pageValue.None? || pageSizeValue.None? || prices.None? then None
    else
      Some(Request(
        category,
        pageValue.value,
        pageSizeValue.value,
        Scalar(sortBy, defaults.sortBy),
        prices.value,
        Scalar(condition, defaults.condition),
        Scalar(productName, defaults.productName)))
  }

  /**
   * How the framework fills the handler's parameters from the query pairs:
   * lists collect every value, the other parameters take the last value sent
   * or their default, and a value that is not an integer is rejected.
   */
  function Decode(pairs: seq<Pair>): Option<Request> {
    FromValues(
      Values(pairs, "category"), Values(pairs, "page"), Values(pairs, "page_size"), Values(pairs, "sort_by"),
      Values(pairs, "price"), Values(pairs, "condition"), Values(pairs, "product_name"))
  }

  /** An empty query string gives every parameter its declared default. */
  lemma DecodeDefaults()
    ensures Decode([]) == Some(Request([], 1, 20, "Title a_z", [], "", ""))
    ensures ValidRequest(DefaultRequest())
    ensures ParseSort(DefaultRequest().sortBy) == Some(Ordering("title", Asc))
  {
    SortOptionsParse(DefaultRequest().sortBy);
  }

  /** Prices written with `toString()` are read back as the same integers. */
  lemma {:induction false} ParsePriceTexts(prices: seq<int>)
    ensures ParseInts(PriceTexts(prices)) == Some(prices)
    decreases |prices|
  {
    if prices != [] {
      assert PriceTexts(prices)[1..] == PriceTexts(prices[1..]);
      ParsePriceTexts(prices[1..]);
      Decimal.ParseIntToString(prices[0]);
      assert prices == [prices[0]] + prices[1..];
    }
  }

  /** The value lists of a written query parse back to the state's own fields. */
  lemma FromWrittenValues(p: TypeParams, prices: seq<int>)
    ensures FromValues(
              p.category, [Decimal.IntToString(p.page)], [Decimal.IntToString(p.pageSize)], [p.sortBy], PriceTexts(prices),
              if |p.condition| > 0 then [p.condition] else [],
              if |p.productName| > 0 then [p.productName] else [])
         == Some(Request(p.category, p.page, p.pageSize, p.sortBy, prices, p.condition, p.productName))
  {
    Decimal.ParseIntToString(p.page);
    Decimal.ParseIntToString(p.pageSize);
    ParsePriceTexts(prices);
  }

  /**
   * Whatever price list the page writes into the URL, the endpoint reads
   * exactly that list back, and every other field of the state unchanged.
   */
  lemma DecodeQueryWith(p: TypeParams, prices: seq<int>)
    ensures Decode(QueryWith(p, PriceTexts(prices)))
         == Some(Request(p.category, p.page, p.pageSize, p.sortBy, prices, p.condition, p.productName))
  {
    DecodeQueryWithValues(p, PriceTexts(prices));
    FromWrittenValues(p, prices);
  }

  /** The request the endpoint reads from the URL the page writes for a state. */
  lemma UrlReadsTruthyPrices(p: TypeParams)
    ensures Decode(QueryPairs(p))
         == Some(Request(p.category, p.page, p.pageSize, p.sortBy, TruthyPrices(p.price), p.condition, p.productName))
  {
    DecodeQueryWith(p, TruthyPrices(p.price));
  }

  // ---------------------------------------------------------------------------
  // The price positions.
  // ---------------------------------------------------------------------------

  /** A request read from a reachable state's URL is accepted whenever its prices are non-negative. */
  lemma ReachableRequestValid(p: TypeParams, prices: seq<int>)
    requires Reachable(p)
    requires forall i :: 0 <= i < |prices| ==> prices[i] >= 0
    ensures ValidRequest(Request(p.category, p.page, p.pageSize, p.sortBy, prices, p.condition, p.productName))
  {
  }

  /**
   * Entering only a maximum `m` (the minimum left empty or 0): the page's
   * state is `[0, m]`, the `0` is falsy and left out of the URL, and the
   * endpoint, reading that URL, accepts it and takes `m` as the minimum,
   * with no maximum.
   */
  lemma MaxOnlyPriceReadAsMinimum(prev: TypeParams, m: int)
    requires Reachable(prev) && !Truthy(SlotAt(prev.price, 0)) && m > 0
    ensures var p := OnMaxPriceBlur(prev, Some(m));
            var r := Decode(QueryPairs(p));
            && p.price == [Some(0), Some(m)]
            && r.Some? && r.value.price == [m]
            && ValidRequest(r.value)
            && MinPrice in ActiveFilters(r.value) && MaxPrice !in ActiveFilters(r.value)
            && Bind(r.value).minPrice == m && Bind(r.value).maxPrice == 0
  {
    var p := OnMaxPriceBlur(prev, Some(m));
    assert p.price == [Some(0), Some(m)];
    TwoSlotPrices(Some(0), Some(m));
    assert TruthyPrices(p.price) == [m];
    UrlReadsTruthyPrices(p);
    var r := Request(p.category, p.page, p.pageSize, p.sortBy, [m], p.condition, p.productName);
    assert Decode(QueryPairs(p)) == Some(r);
    ReachableRequestValid(p, [m]);
    PriceClauses(r);
  }

  /** The defined price slots, in order; `0` is kept. */
  function DefinedPrices(price: seq<PriceSlot>): (r: seq<int>)
    ensures |r| <= |price|
    ensures forall x :: x in r <==> Some(x) in price
    decreases |price|
  {
    if price == [] then []
    else
      var init := price[..|price| - 1];
      var last := price[|price| - 1];
      assert price == init + [last];
      DefinedPrices(init) + (if last.Some? then [last.value] else [])
  }

  /** The serialiser with the price guard testing for a defined slot instead of truthiness. */
  function CorrectedQueryPairs(p: TypeParams): seq<Pair> {
    QueryWith(p, PriceTexts(DefinedPrices(p.price)))
  }

  lemma DefinedTwoSlots(low: int, high: PriceSlot)
    ensures DefinedPrices([Some(low), high]) == [low] + (if high.Some? then [high.value] else [])
  {
    assert [Some(low), high][..1] == [Some(low)];
    assert [Some(low)][..0] == [];
  }

  /**
   * On the price arrays the blur handlers build, the defined prices keep
   * their positions: entry i of the result is slot i, for each defined slot.
   */
  lemma DefinedSlotPositions(price: seq<PriceSlot>)
    requires price == [] || (|price| == 2 && price[0].Some?)
    ensures var d := DefinedPrices(price);
            && (|d| >= 1 <==> SlotAt(price, 0).Some?)
            && (|d| >= 2 <==> SlotAt(price, 1).Some?)
            && (|d| >= 1 ==> d[0] == SlotAt(price, 0).value)
            && (|d| >= 2 ==> d[1] == SlotAt(price, 1).value)
  {
    if price != [] {
      assert price == [Some(price[0].value), price[1]];
      DefinedTwoSlots(price[0].value, price[1]);
    }
  }

  /**
   * With the corrected serialiser, in every state the panel can reach the
   * endpoint reading the URL filters on the minimum slot as minimum and the
   * maximum slot as maximum: each is on exactly when its slot is defined,
   * and binds that slot's value.
   */
  lemma CorrectedPricesKeepSlots(p: TypeParams)
    requires Reachable(p)
    ensures var r := Decode(CorrectedQueryPairs(p));
            && r.Some?
            && (MinPrice in ActiveFilters(r.value) <==> SlotAt(p.price, 0).Some?)
            && (MaxPrice in ActiveFilters(r.value) <==> SlotAt(p.price, 1).Some?)
            && (SlotAt(p.price, 0).Some? ==> Bind(r.value).minPrice == SlotAt(p.price, 0).value)
            && (SlotAt(p.price, 1).Some? ==> Bind(r.value).maxPrice == SlotAt(p.price, 1).value)
  {
    var prices := DefinedPrices(p.price);
    DecodeQueryWith(p, prices);
    var r := Request(p.category, p.page, p.pageSize, p.sortBy, prices, p.condition, p.productName);
    assert Decode(CorrectedQueryPairs(p)) == Some(r);
    PriceClauses(r);
    DefinedSlotPositions(p.price);
  }

  /** The same state as in the finding, serialised by the corrected page. */
  lemma MaxOnlyPriceCorrected(prev: TypeParams, m: int)
    requires Reachable(prev) && !Truthy(SlotAt(prev.price, 0)) && m > 0
    ensures var r := Decode(CorrectedQueryPairs(OnMaxPriceBlur(prev, Some(m))));
            && r.Some? && r.value.price == [0, m]
            && ValidRequest(r.value)
            && MinPrice in ActiveFilters(r.value) && MaxPrice in ActiveFilters(r.value)
            && Bind(r.value).minPrice == 0 && Bind(r.value).maxPrice == m
  {
    var p := OnMaxPriceBlur(prev, Some(m));
    assert p.price == [Some(0), Some(m)];
    DefinedTwoSlots(0, Some(m));
    assert DefinedPrices(p.price) == [0, m];
    DecodeQueryWith(p, [0, m]);
    var r := Request(p.category, p.page, p.pageSize, p.sortBy, [0, m], p.condition, p.productName);
    assert Decode(CorrectedQueryPairs(p)) == Some(r);
    ReachableRequestValid(p, [0, m]);
    PriceClauses(r);
  }

  /** No slot holds a negative price. */
  predicate NonNegativePrices(price: seq<PriceSlot>) {
    forall i :: 0 <= i < |price| && price[i].Some? ==> price[i].value >= 0
  }

  /**
   * Every state the panel can reach, with non-negative prices, writes a URL
   * that the endpoint accepts and can order, with the serialiser as written
   * and with the corrected one.
   */
  lemma ReachableStatesAccepted(p: TypeParams)
    requires Reachable(p) && NonNegativePrices(p.price)
    ensures var r := Decode(QueryPairs(p));
            && r.Some? && ValidRequest(r.value) && ParseSort(r.value.sortBy).Some?
    ensures var r := Decode(CorrectedQueryPairs(p));
            && r.Some? && ValidRequest(r.value) && ParseSort(r.value.sortBy).Some?
  {
    AsWrittenAccepted(p);
    CorrectedAccepted(p);
  }

  lemma AsWrittenAccepted(p: TypeParams)
    requires Reachable(p) && NonNegativePrices(p.price)
    ensures var r := Decode(QueryPairs(p));
            && r.Some? && ValidRequest(r.value) && ParseSort(r.value.sortBy).Some?
  {
    var prices := TruthyPrices(p.price);
    UrlReadsTruthyPrices(p);
    var r := Decode(QueryPairs(p)).value;
    forall i | 0 <= i < |prices| ensures prices[i] >= 0 {
      assert prices[i] in prices;
      TruthyPricesMembers(p.price, prices[i]);
      var j :| 0 <= j < |p.price| && p.price[j] == Some(prices[i]);
    }
    SortOptionsParse(r.sortBy);
  }

  lemma CorrectedAccepted(p: TypeParams)
    requires Reachable(p) && NonNegativePrices(p.price)
    ensures var r := Decode(CorrectedQueryPairs(p));
            && r.Some? && ValidRequest(r.value) && ParseSort(r.value.sortBy).Some?
  {
    var prices := DefinedPrices(p.price);
    DecodeQueryWith(p, prices);
    var r := Decode(CorrectedQueryPairs(p)).value;
    forall i | 0 <= i < |prices| ensures prices[i] >= 0 {
      assert prices[i] in prices;
      var j :| 0 <= j < |p.price| && p.price[j] == Some(prices[i]);
    }
    SortOptionsParse(r.sortBy);
  }
}
