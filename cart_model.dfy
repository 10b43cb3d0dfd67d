/** The cart document (backend/models/Cart.js): line items that copy the variant's
    priced fields by value, and the cart with its totals and owner. */
module CartModel {
  import opened Wrappers
  import opened VariantModel

  /** The variant fields a cart line copies when it is added. */
  datatype VariantSnapshot = VariantSnapshot(
    id: Id,
    name: string,
    price: Option<real>,
    discountType: Option<string>,
    discountValue: Option<real>,
    taxIncluded: Option<bool>,
    taxPercent: Option<real>,
    images: seq<string>)

  /** A copy of the variant taken when the line is added; later catalogue edits do not reach it. */
  function Snapshot(v: Variant): (s: VariantSnapshot)
    ensures s.id == v.id && s.name == v.name && s.price == v.price && s.images == v.images
    ensures s.discountType == v.discountType && s.discountValue == v.discountValue
    ensures s.taxIncluded == v.taxIncluded && s.taxPercent == v.taxPercent
  {
    VariantSnapshot(v.id, v.name, v.price, v.discountType, v.discountValue, v.taxIncluded, v.taxPercent, v.images)
  }

  /** A cart line. `itemId` is the line's `_id`: the schema declares lines with
      `{ _id: false }`, so a stored line has none. */
  datatype CartItem = CartItem(
    itemId: Option<Id>,
    product: Id,
    variant: VariantSnapshot,
    productName: string,
    productDescription: Option<string>,
    quantity: real,
    unitPrice: real,
    lineTotal: real)

  const DefaultQuantity: real := 1.0
  const DefaultShipping: real := 250.0

  /** The line validator a save runs: `quantity` has minimum 1. `unitPrice` and `lineTotal`
      are required, which the type already guarantees. */
  predicate ItemValid(i: CartItem) {
    i.quantity >= 1.0
  }

  predicate AllItemsValid(items: seq<CartItem>) {
    forall i :: 0 <= i < |items| ==> ItemValid(items[i])
  }

  /** What a line looks like once saved under the schema as declared: without `_id`. */
  function Stored(i: CartItem): (s: CartItem)
    ensures s.itemId.None? && s.(itemId := i.itemId) == i
  {
    i.(itemId := None)
  }

  /** Which cart a request addresses: the signed-in user, else the guest cookie. */
  datatype OwnerQuery = ByUser(user: Id) | ByGuest(guestId: Option<string>)

  class Cart {
    var user: Option<Id>
    var guestId: Option<string>
    var items: seq<CartItem>
    var shipping: real
    var discount: real
    var subTotal: real
    var grandTotal: real

    /** `new Cart({ ...query, items: [] })`: the schema defaults fill in shipping 250 and
        zero discount and totals; the owner comes from the query, so at most one of user
        and guest id is set. */
    constructor (query: OwnerQuery)
      ensures user == (if query.ByUser? then Some(query.user) else None)
      ensures guestId == (if query.ByGuest? then query.guestId else None)
      ensures user.None? || guestId.None?
      ensures items == [] && shipping == DefaultShipping && discount == 0.0
      ensures subTotal == 0.0 && grandTotal == 0.0
    {
      user := if query.ByUser? then Some(query.user) else None;
      guestId := if query.ByGuest? then query.guestId else None;
      items := [];
      shipping := DefaultShipping;
      discount := 0.0;
      subTotal := 0.0;
      grandTotal := 0.0;
    }
  }
}
