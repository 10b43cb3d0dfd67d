/** The price the backend charges for one unit of a variant (backend/utils/price.js):
    discount, clamp at zero, tax when it is not included, round to cents. */
module BackendPrice {
  import opened Wrappers
  import opened VariantModel

  /** The `discount_type` comparisons: any value other than the three names, including
      `''`, `null` and a missing field, applies no discount. */
  datatype DiscountKind = Percent | Fixed | Sale | NoDiscount

  function KindOf(dt: Option<string>): (k: DiscountKind)
    ensures k == Percent <==> dt == Some("percent")
    ensures k == Fixed <==> dt == Some("fixed")
    ensures k == Sale <==> dt == Some("sale")
  {
    if dt == Some("percent") then Percent
    else if dt == Some("fixed") then Fixed
    else if dt == Some("sale") then Sale
    else NoDiscount
  }

  /** A whole number of cents. */
  predicate IsCents(x: real) {
    (x * 100.0).Floor as real == x * 100.0
  }

  /** `Math.round(x * 100) / 100`, where `Math.round(y)` is `floor(y + 1/2)`. */
  function Round2(x: real): (r: real)
    ensures IsCents(r)
    ensures x - 0.005 < r <= x + 0.005
  {
    var n := (x * 100.0 + 0.5).Floor;
    assert (n as real / 100.0) * 100.0 == n as real;
    n as real / 100.0
  }

  /** Re-rounding a rounded amount changes nothing. */
  lemma {:induction false} Round2Idempotent(x: real)
    ensures Round2(Round2(x)) == Round2(x)
  {
    var r := Round2(x);
    var n := (r * 100.0).Floor;
    assert n as real == r * 100.0;
    assert (r * 100.0 + 0.5).Floor == n;
  }

  lemma {:induction false} Round2Monotone(x: real, y: real)
    requires x <= y
    ensures Round2(x) <= Round2(y)
  {
    var a := (x * 100.0 + 0.5).Floor;
    var b := (y * 100.0 + 0.5).Floor;
    assert a as real <= x * 100.0 + 0.5 <= y * 100.0 + 0.5 < b as real + 1.0;
    assert a <= b;
  }

  lemma Round2Zero()
    ensures Round2(0.0) == 0.0
  {
    assert (0.0 * 100.0 + 0.5).Floor == 0;
  }

  /** `Number(variant.price || 0)` */
  function BasePrice(v: Variant): real { v.price.GetOr(0.0) }
  /** `Number(variant.discount_value || 0)` */
  function DiscountValue(v: Variant): real { v.discountValue.GetOr(0.0) }
  /** `Number(variant.taxPercent || 0)` */
  function TaxPercent(v: Variant): real { v.taxPercent.GetOr(0.0) }
  /** `!variant.taxIncluded`: unset and `false` both add tax. */
  predicate AddsTax(v: Variant) { v.taxIncluded != Some(true) }

  /** The price after the discount branch and before the clamp. */
  function Discounted(v: Variant): real {
    match KindOf(v.discountType)
    case Percent => BasePrice(v) * (1.0 - DiscountValue(v) / 100.0)
    case Fixed => BasePrice(v) - DiscountValue(v)
    case Sale => DiscountValue(v)
    case NoDiscount => BasePrice(v)
  }

  /** `if (price < 0) price = 0`. */
  function Clamped(v: Variant): (p: real)
    ensures p >= 0.0
  {
    if Discounted(v) < 0.0 then 0.0 else Discounted(v)
  }

  function Taxed(v: Variant): real {
    if AddsTax(v) then Clamped(v) + Clamped(v) * (TaxPercent(v) / 100.0) else Clamped(v)
  }

  /** calculateFinalPriceForVariant. */
  function FinalPrice(v: Variant): (r: real)
    ensures IsCents(r)
  {
    Round2(Taxed(v))
  }

  /** The price is never negative while the tax rate is at least -100%, in particular for
      every tax rate the schema admits: the clamp runs before tax is added. */
  lemma FinalPriceNonNegative(v: Variant)
    requires TaxPercent(v) >= -100.0
    ensures FinalPrice(v) >= 0.0
  {
    var t := Taxed(v);
    assert t >= 0.0 by {
      if AddsTax(v) {
        assert t == Clamped(v) * (1.0 + TaxPercent(v) / 100.0);
      }
    }
    Round2Monotone(0.0, t);
    Round2Zero();
  }

  /** The result is already in cents: rounding it again changes nothing. */
  lemma FinalPriceIsRounded(v: Variant)
    ensures Round2(FinalPrice(v)) == FinalPrice(v)
  {
    Round2Idempotent(Taxed(v));
  }

  /** Tax is applied exactly when `taxIncluded` is not `true`, as a factor `1 + taxPercent/100`
      on the clamped, discounted price. */
  lemma TaxRule(v: Variant)
    ensures AddsTax(v) ==> FinalPrice(v) == Round2(Clamped(v) * (1.0 + TaxPercent(v) / 100.0))
    ensures !AddsTax(v) ==> FinalPrice(v) == Round2(Clamped(v))
  {
    if AddsTax(v) {
      assert Taxed(v) == Clamped(v) * (1.0 + TaxPercent(v) / 100.0);
    }
  }

  /** A percent discount with tax included gives the rounded discounted price. */
  lemma PercentTaxIncluded(v: Variant)
    requires KindOf(v.discountType) == Percent && v.taxIncluded == Some(true)
    requires 0.0 <= BasePrice(v) && DiscountValue(v) <= 100.0
    ensures FinalPrice(v) == Round2(BasePrice(v) * (1.0 - DiscountValue(v) / 100.0))
  {
    var x := BasePrice(v) * (1.0 - DiscountValue(v) / 100.0);
    ScaleMonotone(BasePrice(v), 0.0, 1.0 - DiscountValue(v) / 100.0);
    assert Discounted(v) == x;
    assert Taxed(v) == Clamped(v) == x;
  }

  /** A larger percent discount never gives a higher price, on a non-negative price and
      tax rate. */
  lemma PercentMonotone(v: Variant, d1: real, d2: real)
    requires KindOf(v.discountType) == Percent
    requires BasePrice(v) >= 0.0 && TaxPercent(v) >= 0.0
    requires d1 <= d2
    ensures FinalPrice(v.(discountValue := Some(d2))) <= FinalPrice(v.(discountValue := Some(d1)))
  {
    var v1 := v.(discountValue := Some(d1));
    var v2 := v.(discountValue := Some(d2));
    var p := BasePrice(v);
    ScaleMonotone(p, 1.0 - d2 / 100.0, 1.0 - d1 / 100.0);
    assert Discounted(v2) <= Discounted(v1);
    assert Clamped(v2) <= Clamped(v1) by {
      if Discounted(v2) >= 0.0 { assert Clamped(v2) == Discounted(v2); }
    }
    if AddsTax(v) {
      var f := 1.0 + TaxPercent(v) / 100.0;
      assert Taxed(v2) == Clamped(v2) * f;
      assert Taxed(v1) == Clamped(v1) * f;
      ScaleMonotone(f, Clamped(v2), Clamped(v1));
    }
    Round2Monotone(Taxed(v2), Taxed(v1));
  }

  lemma ScaleMonotone(k: real, a: real, b: real)
    requires k >= 0.0 && a <= b
    ensures k * a <= k * b && a * k <= b * k
  {
    assert k * b - k * a == k * (b - a);
  }

  /** A percent discount of 100 or more, or a fixed discount above the price, gives 0. */
  lemma FullDiscountIsFree(v: Variant)
    requires BasePrice(v) >= 0.0
    requires (KindOf(v.discountType) == Percent && DiscountValue(v) >= 100.0)
          || (KindOf(v.discountType) == Fixed && DiscountValue(v) > BasePrice(v))
    ensures FinalPrice(v) == 0.0
  {
    if KindOf(v.discountType) == Percent {
      var p := BasePrice(v);
      assert p * (1.0 - DiscountValue(v) / 100.0) <= 0.0 by {
        assert 1.0 - DiscountValue(v) / 100.0 <= 0.0;
      }
    }
    assert Clamped(v) == 0.0;
    assert Taxed(v) == 0.0;
    Round2Zero();
  }

  /** A fixed discount subtracts the discount value from the price. */
  lemma FixedSubtracts(v: Variant)
    requires KindOf(v.discountType) == Fixed && v.taxIncluded == Some(true)
    requires DiscountValue(v) <= BasePrice(v)
    ensures FinalPrice(v) == Round2(BasePrice(v) - DiscountValue(v))
  {
  }

  /** A sale sets the price to the discount value: the base price plays no part. */
  lemma SaleIgnoresPrice(v: Variant, p: Option<real>)
    requires KindOf(v.discountType) == Sale
    ensures FinalPrice(v.(price := p)) == FinalPrice(v)
  {
    var w := v.(price := p);
    assert Discounted(w) == DiscountValue(v) == Discounted(v);
    assert Clamped(w) == Clamped(v);
    assert Taxed(w) == Taxed(v);
  }

  /** Every unrecognised discount type behaves like no discount type at all. */
  lemma UnknownTypeIsNoDiscount(v: Variant)
    requires KindOf(v.discountType) == NoDiscount
    ensures FinalPrice(v) == FinalPrice(v.(discountType := None))
    ensures FinalPrice(v) == FinalPrice(v.(discountType := Some("")))
    ensures Discounted(v) == BasePrice(v)
  {
    var a := v.(discountType := None);
    var b := v.(discountType := Some(""));
    assert KindOf(Some("")) == NoDiscount;
    assert Discounted(a) == Discounted(b) == Discounted(v);
    assert Taxed(a) == Taxed(v) && Taxed(b) == Taxed(v);
  }

  /** Unset price, discount value and tax percent count as 0. */
  lemma MissingCountsAsZero(v: Variant)
    ensures FinalPrice(v.(price := None)) == FinalPrice(v.(price := Some(0.0)))
    ensures FinalPrice(v.(discountValue := None)) == FinalPrice(v.(discountValue := Some(0.0)))
    ensures FinalPrice(v.(taxPercent := None)) == FinalPrice(v.(taxPercent := Some(0.0)))
  {
    MissingPriceIsZero(v);
    MissingDiscountIsZero(v);
    MissingTaxIsZero(v);
  }

  lemma MissingPriceIsZero(v: Variant)
    ensures Taxed(v.(price := None)) == Taxed(v.(price := Some(0.0)))
  {
    var a, b := v.(price := None), v.(price := Some(0.0));
    assert BasePrice(a) == BasePrice(b);
    assert Discounted(a) == Discounted(b);
  }

  lemma MissingDiscountIsZero(v: Variant)
    ensures Taxed(v.(discountValue := None)) == Taxed(v.(discountValue := Some(0.0)))
  {
    var a, b := v.(discountValue := None), v.(discountValue := Some(0.0));
    assert DiscountValue(a) == DiscountValue(b);
    assert Discounted(a) == Discounted(b);
  }

  lemma MissingTaxIsZero(v: Variant)
    ensures Taxed(v.(taxPercent := None)) == Taxed(v.(taxPercent := Some(0.0)))
  {
    var a, b := v.(taxPercent := None), v.(taxPercent := Some(0.0));
    assert Clamped(a) == Clamped(b) && TaxPercent(a) == TaxPercent(b);
  }

  /** A valid variant always has a non-negative price. */
  lemma ValidVariantPriceNonNegative(v: Variant)
    requires Valid(v)
    ensures FinalPrice(v) >= 0.0
  {
    FinalPriceNonNegative(v);
  }
}
