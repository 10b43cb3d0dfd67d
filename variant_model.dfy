/** The variant sub-document of a product (backend/models/Variant.js): its fields,
    the defaults the schema fills in, and the constraints a save checks. */
module VariantModel {
  import opened Wrappers

  type Id = string

  datatype Dimensions = Dimensions(height: Option<real>, width: Option<real>, depth: Option<real>)

  datatype BoxDetails = BoxDetails(dimensions: Option<Dimensions>, maxCapacity: Option<real>)

  /** A variant as stored or as received; `None` is a field that is not set. */
  datatype Variant = Variant(
    id: Id,
    color: seq<string>,
    name: string,
    price: Option<real>,
    stockCount: Option<real>,
    stockUnit: Option<string>,
    discountType: Option<string>,
    tags: Option<string>,
    lowStockThreshold: Option<real>,
    discountValue: Option<real>,
    taxIncluded: Option<bool>,
    taxPercent: Option<real>,
    sku: Option<string>,
    images: seq<string>,
    boxDetails: Option<BoxDetails>)

  const DiscountTypes: set<string> := {"percent", "fixed", "sale", ""}
  const Tags: set<string> := {"New", "Hot", "Sale", "Bestseller", ""}
  const DefaultLowStockThreshold: real := 10.0

  /** Mongoose fills in every unset field that has a default when a document is created. */
  function WithDefaults(v: Variant): (d: Variant)
    ensures d.discountType == Some(v.discountType.GetOr(""))
    ensures d.tags == Some(v.tags.GetOr(""))
    ensures d.lowStockThreshold == Some(v.lowStockThreshold.GetOr(DefaultLowStockThreshold))
    ensures d.discountValue == Some(v.discountValue.GetOr(0.0))
    ensures d.taxIncluded == Some(v.taxIncluded.GetOr(true))
    ensures d.taxPercent == Some(v.taxPercent.GetOr(0.0))
    ensures d.(discountType := v.discountType, tags := v.tags, lowStockThreshold := v.lowStockThreshold,
               discountValue := v.discountValue, taxIncluded := v.taxIncluded, taxPercent := v.taxPercent) == v
  {
    v.(discountType := Some(v.discountType.GetOr("")),
       tags := Some(v.tags.GetOr("")),
       lowStockThreshold := Some(v.lowStockThreshold.GetOr(DefaultLowStockThreshold)),
       discountValue := Some(v.discountValue.GetOr(0.0)),
       taxIncluded := Some(v.taxIncluded.GetOr(true)),
       taxPercent := Some(v.taxPercent.GetOr(0.0)))
  }

  /** Defaults fill only unset fields, so applying them twice is applying them once. */
  lemma DefaultsIdempotent(v: Variant)
    ensures WithDefaults(WithDefaults(v)) == WithDefaults(v)
  {
  }

  predicate AtLeastZero(x: Option<real>) {
    x.None? || x.value >= 0.0
  }

  /** The schema's validators: required name, price and stock count; minimum 0 for price,
      stock count, discount value and tax percent; the two enumerations. Mongoose's
      `required` rejects the empty string. */
  predicate Valid(v: Variant) {
    && v.name != ""
    && v.price.Some? && v.price.value >= 0.0
    && v.stockCount.Some? && v.stockCount.value >= 0.0
    && (v.discountType.None? || v.discountType.value in DiscountTypes)
    && (v.tags.None? || v.tags.value in Tags)
    && AtLeastZero(v.discountValue)
    && AtLeastZero(v.taxPercent)
  }

  /** Defaults never make a document invalid, and a valid document with its defaults
      filled in has a discount type, a discount value, a tax flag and a tax percent. */
  lemma DefaultsKeepValid(v: Variant)
    requires Valid(v)
    ensures Valid(WithDefaults(v))
    ensures WithDefaults(v).discountType.value in DiscountTypes
    ensures WithDefaults(v).taxIncluded.Some? && WithDefaults(v).taxPercent.value >= 0.0
    ensures WithDefaults(v).discountValue.value >= 0.0
  {
  }

  /** Only name, price and stock count are required: every other field may be unset. */
  lemma RequiredFieldsSuffice(id: Id, name: string, price: real, stock: real)
    requires name != "" && price >= 0.0 && stock >= 0.0
    ensures Valid(Variant(id, [], name, Some(price), Some(stock), None, None, None, None, None, None, None, None, [], None))
    ensures !Valid(Variant(id, [], name, None, Some(stock), None, None, None, None, None, None, None, None, [], None))
    ensures !Valid(Variant(id, [], name, Some(price), Some(stock), None, Some("bogo"), None, None, None, None, None, None, [], None))
  {
  }
}
