/** The admin product list (admin/src/component/mainComponents/productListPage.jsx): the
    price summary and stock total shown for each product, and the search filter. The box
    list (BoxesList.jsx) repeats the summary and the stock total word for word. */
module ProductListPage {
  import opened Wrappers
  import opened Seqs
  import opened Text
  import opened VariantModel

  /** What `getVariantSummary` shows; the prices are rendered with `toFixed(2)`. */
  datatype Summary =
    | NoVariants                                        // 'No variants'
    | CountOnly(count: nat)                             // 'n variant(s)'
    | SinglePrice(count: nat, price: real)              // 'n variant(s) - $p'
    | PriceRange(count: nat, low: real, high: real)     // 'n variant(s) - $lo - $hi'

  /** `variants.map((v) => v.price).filter((p) => p > 0)`: a missing price fails the test. */
  function PositivePrices(vs: seq<Variant>): (r: seq<real>)
    ensures |r| <= |vs|
    ensures forall i :: 0 <= i < |r| ==> r[i] > 0.0
  {
    if vs == [] then []
    else
      var rest := PositivePrices(vs[1..]);
      if vs[0].price.Some? && vs[0].price.value > 0.0 then [vs[0].price.value] + rest else rest
  }

  /** The positive prices are exactly the prices above zero that some variant has. */
  lemma {:induction false} PositivePricesSpec(vs: seq<Variant>, p: real)
    ensures p in PositivePrices(vs) <==> p > 0.0 && exists j :: 0 <= j < |vs| && vs[j].price == Some(p)
  {
    if vs != [] {
      var tail := vs[1..];
      PositivePricesSpec(tail, p);
      if exists j :: 0 <= j < |vs| && vs[j].price == Some(p) {
        var j :| 0 <= j < |vs| && vs[j].price == Some(p);
        if j > 0 && vs[0].price != Some(p) {
          assert tail[j - 1] == vs[j];
        }
      }
      if exists j :: 0 <= j < |tail| && tail[j].price == Some(p) {
        var j :| 0 <= j < |tail| && tail[j].price == Some(p);
        assert vs[j + 1] == tail[j];
      }
    }
  }

  /** `Math.min(...xs)` on a non-empty list. */
  function Min(xs: seq<real>): (m: real)
    requires xs != []
    ensures m in xs && forall i :: 0 <= i < |xs| ==> m <= xs[i]
  {
    if |xs| == 1 then xs[0]
    else
      var rest := Min(xs[1..]);
      assert forall i :: 1 <= i < |xs| ==> xs[i] == xs[1..][i - 1];
      if xs[0] <= rest then xs[0] else rest
  }

  /** `Math.max(...xs)` on a non-empty list. */
  function Max(xs: seq<real>): (m: real)
    requires xs != []
    ensures m in xs && forall i :: 0 <= i < |xs| ==> xs[i] <= m
  {
    if |xs| == 1 then xs[0]
    else
      var rest := Max(xs[1..]);
      assert forall i :: 1 <= i < |xs| ==> xs[i] == xs[1..][i - 1];
      if xs[0] >= rest then xs[0] else rest
  }

  /** `getVariantSummary`. */
  function VariantSummary(variants: Option<seq<Variant>>): (r: Summary)
    ensures r == NoVariants <==> variants.None? || variants.value == []
    ensures r.CountOnly? <==> variants.Some? && variants.value != [] && PositivePrices(variants.value) == []
    ensures !r.NoVariants? ==> r.count == |variants.value|
    ensures r.SinglePrice? ==>
              forall i :: 0 <= i < |PositivePrices(variants.value)| ==> PositivePrices(variants.value)[i] == r.price
    ensures r.SinglePrice? ==> r.price in PositivePrices(variants.value)
    ensures r.PriceRange? ==> r.low < r.high && r.low in PositivePrices(variants.value)
                              && r.high in PositivePrices(variants.value)
    ensures r.PriceRange? ==>
              forall i :: 0 <= i < |PositivePrices(variants.value)| ==>
                r.low <= PositivePrices(variants.value)[i] <= r.high
  {
    if variants.None? || variants.value == [] then NoVariants
    else
      var prices := PositivePrices(variants.value);
      if prices == [] then CountOnly(|variants.value|)
      else
        var lo := Min(prices);
        var hi := Max(prices);
        if lo == hi then SinglePrice(|variants.value|, lo)
        else PriceRange(|variants.value|, lo, hi)
  }

  /** Every shown price is a positive price of one of the variants. */
  lemma SummaryPricesComeFromVariants(variants: seq<Variant>)
    ensures VariantSummary(Some(variants)).SinglePrice? ==>
              var p := VariantSummary(Some(variants)).price;
              p > 0.0 && exists j :: 0 <= j < |variants| && variants[j].price == Some(p)
    ensures VariantSummary(Some(variants)).PriceRange? ==>
              var r := VariantSummary(Some(variants));
              r.low > 0.0
              && (exists j :: 0 <= j < |variants| && variants[j].price == Some(r.low))
              && (exists j :: 0 <= j < |variants| && variants[j].price == Some(r.high))
  {
    var r := VariantSummary(Some(variants));
    if r.SinglePrice? {
      PositivePricesSpec(variants, r.price);
    } else if r.PriceRange? {
      PositivePricesSpec(variants, r.low);
      PositivePricesSpec(variants, r.high);
    }
  }

  /** A variant without a positive price never changes the summary's prices: free and
      unpriced variants are left out of the range. */
  lemma UnpricedVariantsIgnored(variants: seq<Variant>, v: Variant)
    requires v.price.None? || v.price.value <= 0.0
    ensures PositivePrices(variants + [v]) == PositivePrices(variants)
  {
    PositivePricesAppend(variants, [v]);
  }

  lemma {:induction false} PositivePricesAppend(a: seq<Variant>, b: seq<Variant>)
    ensures PositivePrices(a + b) == PositivePrices(a) + PositivePrices(b)
  {
    if a != [] {
      assert (a + b)[1..] == a[1..] + b;
      PositivePricesAppend(a[1..], b);
    } else {
      assert a + b == b;
    }
  }

  /** `variant.stock_count || 0`: unset counts as 0. */
  function StockOf(v: Variant): real { v.stockCount.GetOr(0.0) }

  /** The `reduce` of `getTotalStock`, from the left. */
  function SumStock(vs: seq<Variant>): real {
    if vs == [] then 0.0 else SumStock(vs[..|vs| - 1]) + StockOf(vs[|vs| - 1])
  }

  /** `getTotalStock`: no variants and an empty list both give 0, which is also the sum
      of an empty list. */
  function TotalStock(variants: Option<seq<Variant>>): (r: real)
    ensures r == SumStock(variants.GetOr([]))
  {
    if variants.None? || variants.value == [] then 0.0 else SumStock(variants.value)
  }

  /** The total is additive over the variant list. */
  lemma {:induction false} SumStockAppend(a: seq<Variant>, b: seq<Variant>)
    ensures SumStock(a + b) == SumStock(a) + SumStock(b)
    decreases |b|
  {
    if b == [] {
      assert a + b == a;
    } else {
      var c := b[..|b| - 1];
      assert (a + b)[..|a + b| - 1] == a + c;
      SumStockAppend(a, c);
    }
  }

  /** A variant without a stock count adds nothing to the total. */
  lemma MissingStockCountsAsZero(vs: seq<Variant>, v: Variant)
    requires v.stockCount.None?
    ensures TotalStock(Some(vs + [v])) == TotalStock(Some(vs))
  {
    SumStockAppend(vs, [v]);
    assert [v][..0] == [];
  }

  /** For variants the schema accepts, the total is never negative. */
  lemma {:induction false} TotalStockNonNegative(vs: seq<Variant>)
    requires forall i :: 0 <= i < |vs| ==> Valid(vs[i])
    ensures TotalStock(Some(vs)) >= 0.0
  {
    if vs != [] {
      var init := vs[..|vs| - 1];
      TotalStockNonNegative(init);
      assert Valid(vs[|vs| - 1]);
    }
  }

  /** What the search reads of a listed product. `keyWords` is taken as the list of strings
      the list page expects. */
  datatype Listing = Listing(name: string, description: Option<string>, keyWords: Option<seq<string>>)

  /** `s?.toLowerCase().includes(term.toLowerCase())`, false for a missing `s`. */
  predicate MentionsIn(s: Option<string>, term: string) {
    s.Some? && Contains(Lower(s.value), Lower(term))
  }

  predicate ProductMatches(term: string, p: Listing) {
    || MentionsIn(Some(p.name), term)
    || MentionsIn(p.description, term)
    || (p.keyWords.Some? && exists k :: k in p.keyWords.value && MentionsIn(Some(k), term))
  }

  /** The search effect: the products the list shows for a search term. */
  function SearchProducts(products: seq<Listing>, term: string): (r: seq<Listing>)
    ensures IsSubsequence(r, products)
    ensures forall p :: p in r <==> p in products && ProductMatches(term, p)
    ensures forall p :: multiset(r)[p] == if ProductMatches(term, p) then multiset(products)[p] else 0
  {
    FilterIsSubsequence(products, p => ProductMatches(term, p));
    FilterMultiset(products, p => ProductMatches(term, p));
    Filter(products, p => ProductMatches(term, p))
  }

  /** An empty search shows every product, in the order fetched. */
  lemma EmptySearchKeepsAll(products: seq<Listing>)
    ensures SearchProducts(products, "") == products
  {
    forall i | 0 <= i < |products| ensures ProductMatches("", products[i]) {
      ContainsEmpty(Lower(products[i].name));
    }
    FilterAll(products, p => ProductMatches("", p));
  }

  /** Searching again with the same term changes nothing. */
  lemma SearchIdempotent(products: seq<Listing>, term: string)
    ensures SearchProducts(SearchProducts(products, term), term) == SearchProducts(products, term)
  {
    var r := SearchProducts(products, term);
    forall i | 0 <= i < |r| ensures ProductMatches(term, r[i]) {
      assert r[i] in r;
    }
    FilterAll(r, p => ProductMatches(term, p));
  }
}
