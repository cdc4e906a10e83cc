/**
 * The filter state of the product listing page (`SortMenu` in
 * frontend/src/pages/Product.tsx): its defaults, the event handlers that
 * rebuild it, and the effect that serialises it into URL query pairs.
 */
module ProductPage {
  import opened Wrappers
  import opened Seqs
  import Decimal

  /** One slot of the `price` array; `None` is JavaScript's `undefined`. */
  type PriceSlot = Option<int>

  /** A URL query pair (key, value), as appended to `URLSearchParams`. */
  type Pair = (string, string)

  /** The `TypeParams` record. Numbers are integers supplied by the caller. */
  datatype TypeParams = TypeParams(
    category: seq<string>,
    page: int,
    pageSize: int,
    sortBy: string,
    price: seq<PriceSlot>,
    condition: string,
    productName: string)

  /** The state `useState` starts from. */
  function InitialParams(): TypeParams {
    TypeParams([], 1, 20, "Title a_z", [], "", "")
  }

  /** JavaScript truthiness of a price slot: `undefined` and `0` are falsy. */
  predicate Truthy(x: PriceSlot) {
    x.Some? && x.value != 0
  }

  /** `price[i]`; reading past the end of a JavaScript array gives `undefined`. */
  function SlotAt(price: seq<PriceSlot>, i: nat): PriceSlot {
    if i < |price| then price[i] else None
  }

  // ---------------------------------------------------------------------------
  // Event handlers: each rebuilds the record with `...prev` and one new field.
  // ---------------------------------------------------------------------------

  /** `s.filter(item => item !== v)`: every occurrence of `v` goes, the rest keep their order. */
  function Without(s: seq<string>, v: string): (r: seq<string>)
    ensures v !in r
    ensures forall x :: x != v ==> multiset(r)[x] == multiset(s)[x]
    ensures IsSubsequence(r, s)
    decreases |s|
  {
    if s == [] then []
    else
      var rest := Without(s[1..], v);
      assert s == [s[0]] + s[1..];
      if s[0] == v then rest
      else
        assert ([s[0]] + rest)[1..] == rest;
        [s[0]] + rest
  }

  /** The category checkbox's `onChange`: append on check, remove every occurrence on uncheck. */
  function OnCategoryChange(prev: TypeParams, checked: bool, value: string): (r: TypeParams)
    ensures r.(category := prev.category) == prev
    ensures value in r.category <==> checked
    ensures forall x :: x != value ==> multiset(r.category)[x] == multiset(prev.category)[x]
    ensures checked ==> |r.category| == |prev.category| + 1 && r.category[..|prev.category|] == prev.category
    ensures checked ==> multiset(r.category)[value] == multiset(prev.category)[value] + 1
    ensures !checked ==> IsSubsequence(r.category, prev.category)
  {
    if checked then
      var c := prev.category + [value];
      assert c[..|prev.category|] == prev.category;
      prev.(category := c)
    else
      prev.(category := Without(prev.category, value))
  }

  /**
   * The minimum-price input's `onBlur`. `input` is `None` for an empty field
   * (the `if (value)` guard) and otherwise the number the field holds.
   */
  function OnMinPriceBlur(prev: TypeParams, input: Option<int>): (r: TypeParams)
    ensures r.(price := prev.price) == prev
    ensures input.None? ==> r == prev
    ensures input.Some? ==> |r.price| == 2 && SlotAt(r.price, 0) == input
    ensures SlotAt(r.price, 1) == SlotAt(prev.price, 1)
  {
    match input
    case None => prev
    case Some(_) => prev.(price := [input, SlotAt(prev.price, 1)])
  }

  /** The maximum-price input's `onBlur`: the minimum becomes `prev.price[0] || 0`. */
  function OnMaxPriceBlur(prev: TypeParams, input: Option<int>): (r: TypeParams)
    ensures r.(price := prev.price) == prev
    ensures input.None? ==> r == prev
    ensures input.Some? ==> |r.price| == 2 && SlotAt(r.price, 1) == input
    ensures input.Some? && Truthy(SlotAt(prev.price, 0)) ==> SlotAt(r.price, 0) == SlotAt(prev.price, 0)
    ensures input.Some? && !Truthy(SlotAt(prev.price, 0)) ==> SlotAt(r.price, 0) == Some(0)
  {
    match input
    case None => prev
    case Some(_) =>
      var low := SlotAt(prev.price, 0);
      prev.(price := [if Truthy(low) then low else Some(0), input])
  }

  /** The condition radio's `onChange`: only a checked radio writes its value. */
  function OnConditionChange(prev: TypeParams, checked: bool, value: string): (r: TypeParams)
    ensures r.(condition := prev.condition) == prev
    ensures !checked ==> r == prev
    ensures checked ==> r.condition == value
  {
    if checked then prev.(condition := value) else prev
  }

  /** Unchecking removes what checking an absent id added. */
  lemma {:induction false} WithoutAppended(s: seq<string>, v: string)
    requires v !in s
    ensures Without(s + [v], v) == s
    decreases |s|
  {
    if s == [] {
      assert [] + [v] == [v];
    } else {
      assert (s + [v])[1..] == s[1..] + [v];
      WithoutAppended(s[1..], v);
      assert s == [s[0]] + s[1..];
    }
  }

  lemma CheckThenUncheckRestores(p: TypeParams, v: string)
    requires v !in p.category
    ensures OnCategoryChange(OnCategoryChange(p, true, v), false, v) == p
  {
    WithoutAppended(p.category, v);
  }

  /** Checking an id that is already selected adds a second copy of it. */
  lemma RecheckDuplicates(p: TypeParams, v: string)
    requires v in p.category
    ensures multiset(OnCategoryChange(p, true, v).category)[v] >= 2
  {
  }

  /** Entering a minimum and a maximum gives the same state in either order. */
  lemma PriceBlursCommute(p: TypeParams, low: int, high: int)
    ensures OnMaxPriceBlur(OnMinPriceBlur(p, Some(low)), Some(high))
         == OnMinPriceBlur(OnMaxPriceBlur(p, Some(high)), Some(low))
    ensures OnMinPriceBlur(OnMaxPriceBlur(p, Some(high)), Some(low)).price == [Some(low), Some(high)]
  {
  }

  /** Neither blur handler enforces minimum <= maximum: an inverted range is stored as entered. */
  lemma PriceOrderNotChecked(p: TypeParams, low: int, high: int)
    requires low > high
    ensures var r := OnMaxPriceBlur(OnMinPriceBlur(p, Some(low)), Some(high));
            && r.price == [Some(low), Some(high)]
            && r.price[0].value > r.price[1].value
  {
  }

  // ---------------------------------------------------------------------------
  // The handlers as one reducer, and the states the page can reach.
  // ---------------------------------------------------------------------------

  /** A user input event on the filter panel. */
  datatype Event =
    | CategoryChange(checked: bool, id: string)
    | MinPriceBlur(input: Option<int>)
    | MaxPriceBlur(input: Option<int>)
    | ConditionChange(checked: bool, value: string)

  /** The values of the condition radios (`conditions`). */
  const Conditions: seq<string> := ["new", "used"]

  function Apply(p: TypeParams, e: Event): TypeParams {
    match e
    case CategoryChange(checked, id) => OnCategoryChange(p, checked, id)
    case MinPriceBlur(input) => OnMinPriceBlur(p, input)
    case MaxPriceBlur(input) => OnMaxPriceBlur(p, input)
    case ConditionChange(checked, value) => OnConditionChange(p, checked, value)
  }

  /** The state after the events, applied in order to the initial state. */
  function Replay(events: seq<Event>): TypeParams
    decreases |events|
  {
    if events == [] then InitialParams()
    else Apply(Replay(events[..|events| - 1]), events[|events| - 1])
  }

  /** An event the rendered panel can emit: condition values come from the radios. */
  predicate FromPanel(e: Event) {
    e.ConditionChange? ==> e.value in Conditions
  }

  /** What holds of every state the panel can reach. */
  predicate Reachable(p: TypeParams) {
    && p.page == 1 && p.pageSize == 20 && p.sortBy == "Title a_z" && p.productName == ""
    && p.condition in {"", "new", "used"}
    && (p.price == [] || (|p.price| == 2 && p.price[0].Some?))
  }

  lemma {:induction false} ReplayReachable(events: seq<Event>)
    requires forall i :: 0 <= i < |events| ==> FromPanel(events[i])
    ensures Reachable(Replay(events))
    decreases |events|
  {
    if events != [] {
      var init := events[..|events| - 1];
      ReplayReachable(init);
      var p := Replay(init);
      var e := events[|events| - 1];
      assert FromPanel(e);
      match e
      case CategoryChange(_, _) =>
      case MinPriceBlur(input) =>
      case MaxPriceBlur(input) =>
      case ConditionChange(checked, value) =>
    }
  }

  /** The `checked` flag of the last checkbox event for `id`, if there is one. */
  function LastToggle(events: seq<Event>, id: string): Option<bool>
    decreases |events|
  {
    if events == [] then None
    else
      var e := events[|events| - 1];
      if e.CategoryChange? && e.id == id then Some(e.checked)
      else LastToggle(events[..|events| - 1], id)
  }

  /** After any events, an id is selected exactly when its last checkbox event checked it. */
  lemma {:induction false} SelectedIffLastChecked(events: seq<Event>, id: string)
    ensures id in Replay(events).category <==> LastToggle(events, id) == Some(true)
    decreases |events|
  {
    if events != [] {
      var init := events[..|events| - 1];
      SelectedIffLastChecked(init, id);
      var p := Replay(init);
      match events[|events| - 1]
      case CategoryChange(checked, v) =>
        if v != id {
          assert multiset(OnCategoryChange(p, checked, v).category)[id] == multiset(p.category)[id];
        }
      case MinPriceBlur(_) =>
      case MaxPriceBlur(_) =>
      case ConditionChange(_, _) =>
    }
  }

  // ---------------------------------------------------------------------------
  // The effect that serialises the state into query pairs.
  // ---------------------------------------------------------------------------

  /** One pair per value, all under the same key, in order. */
  function Tagged(key: string, values: seq<string>): (r: seq<Pair>)
    ensures |r| == |values|
    ensures forall i :: 0 <= i < |values| ==> r[i] == (key, values[i])
  {
    seq(|values|, i requires 0 <= i < |values| => (key, values[i]))
  }

  /** The price entries `if (single_price)` lets through, in order. */
  function TruthyPrices(price: seq<PriceSlot>): (r: seq<int>)
    ensures |r| <= |price|
    ensures forall i :: 0 <= i < |r| ==> r[i] != 0
    decreases |price|
  {
    if price == [] then []
    else
      var last := price[|price| - 1];
      TruthyPrices(price[..|price| - 1]) + (if Truthy(last) then [last.value] else [])
  }

  function PriceTexts(prices: seq<int>): (r: seq<string>)
    ensures |r| == |prices|
  {
    seq(|prices|, i requires 0 <= i < |prices| => Decimal.IntToString(prices[i]))
  }

  /** The three pairs that are always written, in this order. */
  function Header(p: TypeParams): seq<Pair> {
    [("page", Decimal.IntToString(p.page)),
     ("page_size", Decimal.IntToString(p.pageSize)),
     ("sort_by", p.sortBy)]
  }

  /** A pair written only when its value is non-empty. */
  function OptionalPair(key: string, value: string): seq<Pair> {
    if |value| > 0 then [(key, value)] else []
  }

  /** The query assembled around the given price texts. */
  function QueryWith(p: TypeParams, priceTexts: seq<string>): seq<Pair> {
    Header(p) + Tagged("category", p.category) + Tagged("price", priceTexts)
    + OptionalPair("condition", p.condition) + OptionalPair("product_name", p.productName)
  }

  /** The query pairs the page writes to the URL for state `p`. */
  function QueryPairs(p: TypeParams): seq<Pair> {
    QueryWith(p, PriceTexts(TruthyPrices(p.price)))
  }

  lemma TaggedSnoc(key: string, values: seq<string>, v: string)
    ensures Tagged(key, values + [v]) == Tagged(key, values) + [(key, v)]
  {
  }

  /** One more price slot adds one `price` pair exactly when the slot is truthy. */
  lemma PriceStep(price: seq<PriceSlot>, j: nat)
    requires j < |price|
    ensures Tagged("price", PriceTexts(TruthyPrices(price[..j + 1])))
         == Tagged("price", PriceTexts(TruthyPrices(price[..j])))
          + (if Truthy(price[j]) then [("price", Decimal.IntToString(price[j].value))] else [])
  {
    assert price[..j + 1][..j] == price[..j];
    var done := TruthyPrices(price[..j]);
    if Truthy(price[j]) {
      var text := Decimal.IntToString(price[j].value);
      assert PriceTexts(done + [price[j].value]) == PriceTexts(done) + [text];
      TaggedSnoc("price", PriceTexts(done), text);
    }
  }

  /** The effect body: successive `append` calls on an empty `URLSearchParams`. */
  method SerializeParams(p: TypeParams) returns (pairs: seq<Pair>)
    ensures pairs == QueryPairs(p)
  {
    pairs := [];
    pairs := pairs + [("page", Decimal.IntToString(p.page))];
    pairs := pairs + [("page_size", Decimal.IntToString(p.pageSize))];
    pairs := pairs + [("sort_by", p.sortBy)];
    var i := 0;
    while i < |p.category|
      invariant 0 <= i <= |p.category|
      invariant pairs == Header(p) + Tagged("category", p.category[..i])
    {
      assert p.category[..i + 1] == p.category[..i] + [p.category[i]];
      TaggedSnoc("category", p.category[..i], p.category[i]);
      pairs := pairs + [("category", p.category[i])];
      i := i + 1;
    }
    assert p.category[..i] == p.category;
    ghost var before := pairs;
    var j := 0;
    while j < |p.price|
      invariant 0 <= j <= |p.price|
      invariant pairs == before + Tagged("price", PriceTexts(TruthyPrices(p.price[..j])))
    {
      PriceStep(p.price, j);
      if Truthy(p.price[j]) {
        pairs := pairs + [("price", Decimal.IntToString(p.price[j].value))];
      }
      j := j + 1;
    }
    assert p.price[..j] == p.price;
    if |p.condition| > 0 {
      pairs := pairs + [("condition", p.condition)];
    }
    if |p.productName| > 0 {
      pairs := pairs + [("product_name", p.productName)];
    }
  }

  /**
   * Layout of the serialised query, first part: `page`, `page_size`,
   * `sort_by`, then one `category` pair per entry.
   */
  lemma QueryLayout(p: TypeParams)
    ensures var q := QueryPairs(p);
            && |q| >= 3 + |p.category|
            && q[0] == ("page", Decimal.IntToString(p.page))
            && q[1] == ("page_size", Decimal.IntToString(p.pageSize))
            && q[2] == ("sort_by", p.sortBy)
            && (forall i :: 0 <= i < |p.category| ==> q[3 + i] == ("category", p.category[i]))
  {
    var q := QueryPairs(p);
    var h := Header(p);
    var cats := Tagged("category", p.category);
    var hc := h + cats;
    var rest := Tagged("price", PriceTexts(TruthyPrices(p.price)))
              + OptionalPair("condition", p.condition) + OptionalPair("product_name", p.productName);
    assert q == hc + rest;
    forall i | 0 <= i < |p.category| ensures q[3 + i] == ("category", p.category[i]) {
      assert q[3 + i] == hc[3 + i] == cats[i];
    }
  }

  /**
   * Layout of the serialised query, second part: after the categories, one
   * `price` pair per truthy entry, then the optional `condition` and
   * `product_name`.
   */
  lemma QueryPriceLayout(p: TypeParams)
    ensures var q := QueryPairs(p);
            var n := |p.category|;
            var t := TruthyPrices(p.price);
            && |q| >= 3 + n + |t|
            && (forall i :: 0 <= i < |t| ==> q[3 + n + i] == ("price", Decimal.IntToString(t[i])))
            && q[3 + n + |t|..] == OptionalPair("condition", p.condition) + OptionalPair("product_name", p.productName)
  {
    var q := QueryPairs(p);
    var n := |p.category|;
    var t := TruthyPrices(p.price);
    var hc := Header(p) + Tagged("category", p.category);
    var prices := Tagged("price", PriceTexts(t));
    var tail := OptionalPair("condition", p.condition) + OptionalPair("product_name", p.productName);
    assert q == hc + prices + tail;
    assert |hc| == 3 + n;
    forall i | 0 <= i < |t| ensures q[3 + n + i] == ("price", Decimal.IntToString(t[i])) {
      assert q[3 + n + i] == (hc + prices)[3 + n + i] == prices[i];
    }
    assert q[3 + n + |t|..] == tail;
  }

  /** A price slot reaches the query exactly when it is defined and non-zero. */
  lemma {:induction false} TruthyPricesMembers(price: seq<PriceSlot>, x: int)
    ensures x in TruthyPrices(price) <==> x != 0 && Some(x) in price
    decreases |price|
  {
    if price != [] {
      var init := price[..|price| - 1];
      TruthyPricesMembers(init, x);
      assert price == init + [price[|price| - 1]];
    }
  }

  /** For the two-slot array the blur handlers build: minimum first, each only when truthy. */
  lemma TwoSlotPrices(low: PriceSlot, high: PriceSlot)
    ensures TruthyPrices([low, high])
         == (if Truthy(low) then [low.value] else []) + (if Truthy(high) then [high.value] else [])
  {
    assert [low, high][..1] == [low];
    assert [low][..0] == [];
  }

  /** The initial state writes only the three header pairs. */
  lemma InitialQuery()
    ensures QueryPairs(InitialParams()) == [("page", "1"), ("page_size", "20"), ("sort_by", "Title a_z")]
  {
    DigitTexts();
  }

  lemma DigitTexts()
    ensures Decimal.IntToString(1) == "1" && Decimal.IntToString(10) == "10" && Decimal.IntToString(20) == "20"
  {
    assert Decimal.DigitChar(0) == '0' && Decimal.DigitChar(1) == '1' && Decimal.DigitChar(2) == '2';
    assert Decimal.NatToString(20) == Decimal.NatToString(2) + "0";
    assert Decimal.NatToString(10) == Decimal.NatToString(1) + "0";
  }

  /** Worked example: two categories, a minimum of 10 with no maximum, condition "new". */
  lemma SerializeExample()
    ensures QueryPairs(TypeParams(["c1", "c2"], 1, 20, "Title a_z", [Some(10), None], "new", ""))
         == [("page", "1"), ("page_size", "20"), ("sort_by", "Title a_z"),
             ("category", "c1"), ("category", "c2"), ("price", "10"), ("condition", "new")]
  {
    DigitTexts();
    TwoSlotPrices(Some(10), None);
    var cats := Tagged("category", ["c1", "c2"]);
    assert cats == [("category", "c1"), ("category", "c2")];
    assert PriceTexts([10]) == ["10"];
  }
}
