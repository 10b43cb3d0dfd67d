/** The storefront's own price and badge helpers (frontend/src/utils/priceUtils.js):
    percent and fixed discounts only, no tax, no rounding. */
module StorefrontPrice {
  import opened Wrappers
  import opened VariantModel
  import BackendPrice

  /** calculatePrice. `None` is NaN: arithmetic on an unset price or discount value,
      which `Math.max(_, 0)` passes through. */
  function CalculatePrice(v: Variant): (r: Option<real>)
    ensures r.Some? ==> r.value >= 0.0
    ensures r.Some? <==> v.price.Some? && (v.discountType in {Some("percent"), Some("fixed")} ==> v.discountValue.Some?)
  {
    var finalPrice: Option<real> :=
      if v.discountType == Some("percent") then
        (if v.price.Some? && v.discountValue.Some?
         then Some(v.price.value - (v.price.value * v.discountValue.value) / 100.0) else None)
      else if v.discountType == Some("fixed") then
        (if v.price.Some? && v.discountValue.Some? then Some(v.price.value - v.discountValue.value) else None)
      else v.price;
    match finalPrice
    case None => None
    case Some(p) => Some(if p > 0.0 then p else 0.0)
  }

  function Max0(x: real): real { if x > 0.0 then x else 0.0 }

  /** Percent takes `price * value / 100` off the price and fixed takes `value` off; the
      result is floored at 0. */
  lemma DiscountArithmetic(v: Variant, p: real, d: real)
    requires v.price == Some(p) && v.discountValue == Some(d)
    ensures v.discountType == Some("percent") ==> CalculatePrice(v) == Some(Max0(p - p * d / 100.0))
    ensures v.discountType == Some("fixed") ==> CalculatePrice(v) == Some(Max0(p - d))
  {
    if v.discountType == Some("percent") {
      var x := p - (p * d) / 100.0;
      assert v.price.value == p && v.discountValue.value == d;
      assert CalculatePrice(v).Some?;
      assert CalculatePrice(v).value == Max0(x);
    }
  }

  /** `sale`, `''`, an unset type and every other value leave the base price as it is:
      the discount value is ignored, unlike on the backend. */
  lemma OtherTypesKeepBasePrice(v: Variant, d: Option<real>)
    requires v.discountType !in {Some("percent"), Some("fixed")}
    ensures CalculatePrice(v) == (if v.price.Some? then Some(Max0(v.price.value)) else None)
    ensures CalculatePrice(v.(discountValue := d)) == CalculatePrice(v)
  {
  }

  /** With tax included and a percent, fixed or no discount, the backend charges exactly the
      storefront price rounded to cents. */
  lemma AgreesWithBackendWhenTaxIncluded(v: Variant)
    requires v.taxIncluded == Some(true)
    requires v.price.Some? && v.discountValue.Some?
    requires BackendPrice.KindOf(v.discountType) != BackendPrice.Sale
    ensures CalculatePrice(v).Some?
    ensures BackendPrice.FinalPrice(v) == BackendPrice.Round2(CalculatePrice(v).value)
  {
    var p, d := v.price.value, v.discountValue.value;
    if v.discountType == Some("percent") {
      assert BackendPrice.Discounted(v) == p * (1.0 - d / 100.0);
      assert p * (1.0 - d / 100.0) == p - p * d / 100.0;
    }
    assert BackendPrice.Taxed(v) == CalculatePrice(v).value;
  }

  /** The two prices disagree on a sale and whenever tax is added. */
  lemma DisagreesWithBackend()
    ensures var sale := Variant("v1", [], "Gift", Some(200.0), Some(1.0), None, Some("sale"), None, None,
                                Some(149.99), Some(true), Some(0.0), None, [], None);
            BackendPrice.FinalPrice(sale) == 149.99 && CalculatePrice(sale) == Some(200.0)
    ensures var taxed := Variant("v2", [], "Gift", Some(100.0), Some(1.0), None, Some(""), None, None,
                                 Some(0.0), Some(false), Some(18.0), None, [], None);
            BackendPrice.FinalPrice(taxed) == 118.0 && CalculatePrice(taxed) == Some(100.0)
  {
    var sale := Variant("v1", [], "Gift", Some(200.0), Some(1.0), None, Some("sale"), None, None,
                        Some(149.99), Some(true), Some(0.0), None, [], None);
    assert BackendPrice.Taxed(sale) == 149.99;
    assert (149.99 * 100.0 + 0.5).Floor == 14999;
    var taxed := Variant("v2", [], "Gift", Some(100.0), Some(1.0), None, Some(""), None, None,
                         Some(0.0), Some(false), Some(18.0), None, [], None);
    assert BackendPrice.KindOf(Some("")) == BackendPrice.NoDiscount;
    assert BackendPrice.Taxed(taxed) == 118.0;
    assert (118.0 * 100.0 + 0.5).Floor == 11800;
  }

  /** The literal suffix of the fixed-amount badge: the UTF-8 bytes of the rupee sign
      read back as Windows-1252 text, as the source file has it. */
  const RupeeSuffix: string := ['\U{00E2}', '\U{201A}', '\U{00B9}']

  /** `${value}` for the discount value: JavaScript's number-to-text conversion is a
      parameter; an unset value prints as "undefined". */
  function ValueText(d: Option<real>, show: real -> string): string {
    if d.Some? then show(d.value) else "undefined"
  }

  /** getDiscountLabel; `None` is `null`. */
  function GetDiscountLabel(v: Variant, show: real -> string): (r: Option<string>)
    ensures r.Some? <==> v.discountType in {Some("percent"), Some("fixed")}
  {
    if v.discountType == Some("percent") then Some(ValueText(v.discountValue, show) + "%")
    else if v.discountType == Some("fixed") then Some(ValueText(v.discountValue, show) + RupeeSuffix)
    else None
  }

  datatype Badge = PercentBadge(text: string) | FixedBadge(text: string)

  /** Reads a badge back: the kind from its suffix and the printed value before it. */
  function ParseLabel(s: string): Option<Badge> {
    if |s| >= 1 && s[|s| - 1] == '%' then Some(PercentBadge(s[..|s| - 1]))
    else if |s| >= 3 && s[|s| - 3..] == RupeeSuffix then Some(FixedBadge(s[..|s| - 3]))
    else None
  }

  /** The badge is the printed discount value followed by `%` for percent and by the rupee
      suffix for fixed; the two never collide, so the badge tells the kind and the value. */
  lemma LabelRoundTrip(v: Variant, show: real -> string)
    requires v.discountType in {Some("percent"), Some("fixed")}
    ensures ParseLabel(GetDiscountLabel(v, show).value) ==
            Some(if v.discountType == Some("percent") then PercentBadge(ValueText(v.discountValue, show))
                 else FixedBadge(ValueText(v.discountValue, show)))
  {
    var t := ValueText(v.discountValue, show);
    if v.discountType == Some("percent") {
      assert (t + "%")[..|t|] == t;
    } else {
      var s := t + RupeeSuffix;
      assert s[|s| - 1] == '\U{00B9}';
      assert s[|s| - 3..] == RupeeSuffix;
      assert s[..|s| - 3] == t;
    }
  }

  /** No badge means no storefront discount: the shown price is the base price floored at 0. */
  lemma NoBadgeShowsBasePrice(v: Variant, show: real -> string)
    requires GetDiscountLabel(v, show).None? && v.price.Some?
    ensures CalculatePrice(v) == Some(Max0(v.price.value))
  {
  }
}
