/** The cart request handlers (backend/controllers/cartController.js). The cart that
    `Cart.findOne` would load is passed in (`null` when there is none), the product that
    `Product.findById` would load likewise, and a handler's result is the cart it would
    save and send back, or the error it would throw. */
module CartController {
  import opened Wrappers
  import opened VariantModel
  import opened CartModel
  import opened Seqs
  import BackendPrice
  import ProductModel

  datatype CartError = ProductNotFound | VariantNotFound | CartNotFound | ItemNotFound
                     | ValidationFailed  // `save()` rejected a line (quantity below 1)
                     | TypeError         // a property read on `undefined`

  /** The lookup key: the signed-in user's id whenever there is a user, else the guest cookie. */
  function OwnerQueryOf(user: Option<Id>, guestCookie: Option<string>): (q: OwnerQuery)
    ensures q.ByUser? <==> user.Some?
    ensures user.Some? ==> q == ByUser(user.value)
    ensures user.None? ==> q == ByGuest(guestCookie)
  {
    if user.Some? then ByUser(user.value) else ByGuest(guestCookie)
  }

  /** `items.reduce((sum, i) => sum + i.lineTotal, 0)`, folding from the left. */
  function SumLineTotals(items: seq<CartItem>): real {
    if items == [] then 0.0 else SumLineTotals(items[..|items| - 1]) + items[|items| - 1].lineTotal
  }

  /** A line's total is its unit price times its quantity. */
  predicate LineConsistent(i: CartItem) {
    i.lineTotal == i.unitPrice * i.quantity
  }

  predicate LinesConsistent(items: seq<CartItem>) {
    forall i :: 0 <= i < |items| ==> LineConsistent(items[i])
  }

  /** The totals `recalc` derives. */
  predicate TotalsConsistent(c: Cart)
    reads c
  {
    c.subTotal == SumLineTotals(c.items) && c.grandTotal == c.subTotal + c.shipping - c.discount
  }

  /** recalc: subtotal is the sum of the line totals, grand total adds shipping and takes
      off the cart discount, with no clamp. */
  method Recalc(cart: Cart)
    modifies cart`subTotal, cart`grandTotal
    ensures TotalsConsistent(cart)
  {
    var sum := 0.0;
    var i := 0;
    while i < |cart.items|
      invariant 0 <= i <= |cart.items|
      invariant sum == SumLineTotals(cart.items[..i])
    {
      assert cart.items[..i + 1][..i] == cart.items[..i];
      sum := sum + cart.items[i].lineTotal;
      i := i + 1;
    }
    assert cart.items[..i] == cart.items;
    cart.subTotal := sum;
    cart.grandTotal := cart.subTotal + cart.shipping - cart.discount;
  }

  lemma {:induction false} SumAppend(a: seq<CartItem>, b: seq<CartItem>)
    ensures SumLineTotals(a + b) == SumLineTotals(a) + SumLineTotals(b)
    decreases |b|
  {
    if b != [] {
      assert (a + b)[..|a + b| - 1] == a + b[..|b| - 1];
      SumAppend(a, b[..|b| - 1]);
    } else {
      assert a + b == a;
    }
  }

  /** Replacing one line changes the subtotal by the difference of the two line totals. */
  lemma {:induction false} SumReplace(items: seq<CartItem>, k: nat, x: CartItem)
    requires k < |items|
    ensures SumLineTotals(items[k := x]) == SumLineTotals(items) - items[k].lineTotal + x.lineTotal
  {
    assert items == items[..k] + [items[k]] + items[k + 1..];
    assert items[k := x] == items[..k] + [x] + items[k + 1..];
    SumAppend(items[..k] + [items[k]], items[k + 1..]);
    SumAppend(items[..k] + [x], items[k + 1..]);
    SumAppend(items[..k], [items[k]]);
    SumAppend(items[..k], [x]);
    assert SumLineTotals([x]) == x.lineTotal by { assert [x][..0] == []; }
    assert SumLineTotals([items[k]]) == items[k].lineTotal by { assert [items[k]][..0] == []; }
  }

  predicate SamePair(productId: Id, variantId: Id, i: CartItem) {
    i.product == productId && i.variant.id == variantId
  }

  /** The line `findIndex` looks for: same product and same variant id. */
  function FindLine(items: seq<CartItem>, productId: Id, variantId: Id): int {
    IndexOf(items, (i: CartItem) => SamePair(productId, variantId, i))
  }

  /** The line pushed for a pair not yet in the cart: a priced snapshot. */
  function NewLine(product: ProductModel.ProductDoc, v: Variant, quantity: real, itemId: Id): (line: CartItem)
    reads product
    ensures line.unitPrice == BackendPrice.FinalPrice(v)
    ensures line.lineTotal == line.unitPrice * quantity && line.quantity == quantity
    ensures line.product == product.id && line.variant == Snapshot(v)
    ensures line.itemId == Some(itemId)
    ensures line.productName == product.name && line.productDescription == product.description
  {
    var price := BackendPrice.FinalPrice(v);
    CartItem(Some(itemId), product.id, Snapshot(v), product.name, product.description, quantity, price, price * quantity)
  }

  /** The quantity increase of an existing line: its unit price stays the one it was added at. */
  function Increased(i: CartItem, quantity: real): CartItem {
    i.(quantity := i.quantity + quantity, lineTotal := (i.quantity + quantity) * i.unitPrice)
  }

  /** The items after `addItem`: merge into the line for the same pair, else append. */
  function AddLine(items: seq<CartItem>, line: CartItem, quantity: real): seq<CartItem> {
    var k := FindLine(items, line.product, line.variant.id);
    if k >= 0 then items[k := Increased(items[k], quantity)] else items + [line]
  }

  /** Adding a pair that is already in the cart raises that line's quantity by the amount
      asked for, keeps its unit price, recomputes its total, and touches nothing else. */
  lemma AddExistingPairMerges(items: seq<CartItem>, line: CartItem, quantity: real)
    requires FindLine(items, line.product, line.variant.id) >= 0
    ensures var k := FindLine(items, line.product, line.variant.id);
            var r := AddLine(items, line, quantity);
            && |r| == |items|
            && r[k].quantity == items[k].quantity + quantity
            && r[k].unitPrice == items[k].unitPrice
            && r[k].lineTotal == r[k].quantity * r[k].unitPrice
            && forall j :: 0 <= j < |r| && j != k ==> r[j] == items[j]
  {
  }

  /** Adding a new pair appends exactly the new line after the unchanged old ones. */
  lemma AddNewPairAppends(items: seq<CartItem>, line: CartItem, quantity: real)
    requires forall i :: 0 <= i < |items| ==> !SamePair(line.product, line.variant.id, items[i])
    ensures AddLine(items, line, quantity) == items + [line]
  {
  }

  /** Adding keeps every line total equal to unit price times quantity, and the subtotal
      grows by exactly the added quantity at the line's unit price. */
  lemma AddLineKeepsTotals(items: seq<CartItem>, line: CartItem, quantity: real)
    requires LinesConsistent(items)
    requires LineConsistent(line)
    ensures LinesConsistent(AddLine(items, line, quantity))
    ensures var k := FindLine(items, line.product, line.variant.id);
            SumLineTotals(AddLine(items, line, quantity)) ==
              SumLineTotals(items) + (if k >= 0 then quantity * items[k].unitPrice else line.lineTotal)
  {
    var k := FindLine(items, line.product, line.variant.id);
    if k >= 0 {
      var x := Increased(items[k], quantity);
      IncreaseAddsUnitPrice(items[k], quantity);
      ReplaceKeepsConsistent(items, k, x);
      SumReplace(items, k, x);
    } else {
      AppendKeepsConsistent(items, line);
      SumAppend(items, [line]);
      assert SumLineTotals([line]) == line.lineTotal by { assert [line][..0] == []; }
    }
  }

  /** Raising a consistent line's quantity by `q` raises its total by `q` unit prices. */
  lemma IncreaseAddsUnitPrice(i: CartItem, q: real)
    requires LineConsistent(i)
    ensures LineConsistent(Increased(i, q))
    ensures Increased(i, q).lineTotal == i.lineTotal + q * i.unitPrice
  {
    assert (i.quantity + q) * i.unitPrice == i.unitPrice * i.quantity + q * i.unitPrice;
  }

  lemma AppendKeepsConsistent(items: seq<CartItem>, x: CartItem)
    requires LinesConsistent(items) && LineConsistent(x)
    ensures LinesConsistent(items + [x])
  {
  }

  /** The line `cart.items.id(itemId)` finds: the first whose `_id` is `itemId`. */
  function FindById(items: seq<CartItem>, itemId: Id): int {
    IndexOf(items, (i: CartItem) => i.itemId == Some(itemId))
  }

  /** The items after `updateItem` sets line `k`'s quantity; the value is not checked. */
  function SetQuantity(items: seq<CartItem>, k: nat, quantity: real): seq<CartItem>
    requires k < |items|
  {
    items[k := items[k].(quantity := quantity, lineTotal := items[k].unitPrice * quantity)]
  }

  /** Setting a quantity keeps every line total equal to unit price times quantity, and the
      subtotal trades the line's old total for its unit price times the new quantity. */
  lemma SetQuantityKeepsTotals(items: seq<CartItem>, k: nat, quantity: real)
    requires k < |items| && LinesConsistent(items)
    ensures LinesConsistent(SetQuantity(items, k, quantity))
    ensures SumLineTotals(SetQuantity(items, k, quantity)) ==
            SumLineTotals(items) - items[k].lineTotal + items[k].unitPrice * quantity
  {
    ReplaceKeepsConsistent(items, k, SetQuantity(items, k, quantity)[k]);
    SumReplace(items, k, SetQuantity(items, k, quantity)[k]);
  }

  lemma ReplaceKeepsConsistent(items: seq<CartItem>, k: nat, x: CartItem)
    requires k < |items| && LinesConsistent(items) && LineConsistent(x)
    ensures LinesConsistent(items[k := x])
  {
  }

  predicate KeepsLine(itemId: Id, i: CartItem) {
    i.itemId != Some(itemId)
  }

  /** `cart.items.filter((i) => i._id.toString() !== itemId)`, for lines that have an id. */
  function RemoveById(items: seq<CartItem>, itemId: Id): seq<CartItem> {
    Filter(items, (i: CartItem) => KeepsLine(itemId, i))
  }

  /** Every copy of a line without the id is kept; no line with it is. */
  lemma RemoveCounts(items: seq<CartItem>, itemId: Id)
    ensures forall x :: multiset(RemoveById(items, itemId))[x] == if KeepsLine(itemId, x) then multiset(items)[x] else 0
  {
    FilterMultiset(items, (i: CartItem) => KeepsLine(itemId, i));
  }

  /** Removing drops every line with that id and keeps the others in order; an unknown id
      changes nothing, so removing twice is removing once. */
  lemma {:induction false} RemoveProperties(items: seq<CartItem>, itemId: Id)
    ensures forall i :: 0 <= i < |RemoveById(items, itemId)| ==> RemoveById(items, itemId)[i].itemId != Some(itemId)
    ensures IsSubsequence(RemoveById(items, itemId), items)
    ensures RemoveById(RemoveById(items, itemId), itemId) == RemoveById(items, itemId)
    ensures (forall i :: 0 <= i < |items| ==> items[i].itemId != Some(itemId)) ==> RemoveById(items, itemId) == items
    ensures LinesConsistent(items) ==> LinesConsistent(RemoveById(items, itemId))
    ensures forall x :: multiset(RemoveById(items, itemId))[x] == if KeepsLine(itemId, x) then multiset(items)[x] else 0
  {
    var p := (i: CartItem) => KeepsLine(itemId, i);
    var r := RemoveById(items, itemId);
    assert IsSubsequence(r, items) by {
      FilterIsSubsequence(items, p);
    }
    assert RemoveById(r, itemId) == r by {
      FilterAll(r, p);
    }
    assert (forall i :: 0 <= i < |items| ==> items[i].itemId != Some(itemId)) ==> r == items by {
      if forall i :: 0 <= i < |items| ==> items[i].itemId != Some(itemId) {
        FilterAll(items, p);
      }
    }
    assert LinesConsistent(items) ==> LinesConsistent(r) by {
      if LinesConsistent(items) {
        forall j | 0 <= j < |r| ensures LineConsistent(r[j]) {
          var i :| 0 <= i < |items| && items[i] == r[j];
        }
      }
    }
    RemoveCounts(items, itemId);
  }

  /** addItem. */
  method AddItem(stored: Cart?, query: OwnerQuery, product: ProductModel.ProductDoc?,
                 variantId: Id, quantity: Option<real>, newItemId: Id)
    returns (r: Result<Cart, CartError>)
    modifies stored
    ensures product == null ==> r == Failure(ProductNotFound)
    ensures product != null && ProductModel.FindVariant(product.variants, variantId).None? ==>
              r == Failure(VariantNotFound)
    ensures r.Failure? && r.error != ValidationFailed ==> stored == null || unchanged(stored)
    ensures product != null && ProductModel.FindVariant(product.variants, variantId).Some? ==>
              var v := ProductModel.FindVariant(product.variants, variantId).value;
              var q := quantity.GetOr(DefaultQuantity);
              var before := if stored != null then old(stored.items) else [];
              var after := AddLine(before, NewLine(product, v, q, newItemId), q);
              && (r.Success? <==> AllItemsValid(after))
              && (r.Failure? ==> r.error == ValidationFailed)
              && (r.Success? ==> r.value.items == after && TotalsConsistent(r.value))
              && (r.Success? && stored != null ==>
                    r.value == stored && r.value.shipping == old(stored.shipping) && r.value.discount == old(stored.discount))
              && (r.Success? && stored == null ==>
                    fresh(r.value) && r.value.shipping == DefaultShipping && r.value.discount == 0.0
                    && r.value.user == (if query.ByUser? then Some(query.user) else None)
                    && r.value.guestId == (if query.ByGuest? then query.guestId else None))
    ensures stored != null ==> stored.user == old(stored.user) && stored.guestId == old(stored.guestId)
  {
    if product == null {
      return Failure(ProductNotFound);
    }
    var found := ProductModel.FindVariant(product.variants, variantId);
    if found.None? {
      return Failure(VariantNotFound);
    }
    var v := found.value;
    var q := quantity.GetOr(DefaultQuantity);
    var cart: Cart;
    if stored == null {
      cart := new Cart(query);
    } else {
      cart := stored;
    }
    cart.items := AddLine(cart.items, NewLine(product, v, q, newItemId), q);
    Recalc(cart);
    if AllItemsValid(cart.items) {
      r := Success(cart);
    } else {
      r := Failure(ValidationFailed);
    }
  }

  /** updateItem. */
  method UpdateItem(stored: Cart?, itemId: Id, quantity: real) returns (r: Result<Cart, CartError>)
    modifies stored
    ensures stored != null ==> stored.user == old(stored.user) && stored.guestId == old(stored.guestId)
    ensures stored == null ==> r == Failure(CartNotFound)
    ensures stored != null && FindById(old(stored.items), itemId) < 0 ==>
              r == Failure(ItemNotFound) && unchanged(stored)
    ensures stored != null && FindById(old(stored.items), itemId) >= 0 ==>
              && stored.items == SetQuantity(old(stored.items), FindById(old(stored.items), itemId), quantity)
              && TotalsConsistent(stored)
              && stored.shipping == old(stored.shipping) && stored.discount == old(stored.discount)
              && (r == Success(stored) <==> AllItemsValid(stored.items))
              && (r.Failure? ==> r.error == ValidationFailed)
  {
    if stored == null {
      return Failure(CartNotFound);
    }
    var k := FindById(stored.items, itemId);
    if k < 0 {
      return Failure(ItemNotFound);
    }
    stored.items := SetQuantity(stored.items, k, quantity);
    Recalc(stored);
    r := if AllItemsValid(stored.items) then Success(stored) else Failure(ValidationFailed);
  }

  /** removeItem. */
  method RemoveItem(stored: Cart?, itemId: Id) returns (r: Result<Cart, CartError>)
    modifies stored
    ensures stored != null ==> stored.user == old(stored.user) && stored.guestId == old(stored.guestId)
    ensures stored == null ==> r == Failure(CartNotFound)
    ensures stored != null ==>
              && stored.items == RemoveById(old(stored.items), itemId)
              && TotalsConsistent(stored)
              && stored.shipping == old(stored.shipping) && stored.discount == old(stored.discount)
              && (r == Success(stored) <==> AllItemsValid(stored.items))
              && (r.Failure? ==> r.error == ValidationFailed)
  {
    if stored == null {
      return Failure(CartNotFound);
    }
    stored.items := RemoveById(stored.items, itemId);
    Recalc(stored);
    r := if AllItemsValid(stored.items) then Success(stored) else Failure(ValidationFailed);
  }

  /** What `clearCart` sends: the emptied cart, or `{}` when there is none. */
  datatype ClearResponse = Cleared(cart: Cart) | EmptyObject

  /** clearCart: with a cart, the items go and the totals become 0 and shipping minus
      discount; without one, nothing changes. */
  method ClearCart(stored: Cart?) returns (r: ClearResponse)
    modifies stored
    ensures stored != null ==> stored.user == old(stored.user) && stored.guestId == old(stored.guestId)
    ensures stored == null ==> r == EmptyObject
    ensures stored != null ==>
              && r == Cleared(stored)
              && stored.items == [] && stored.subTotal == 0.0
              && stored.grandTotal == stored.shipping - stored.discount
              && stored.shipping == old(stored.shipping) && stored.discount == old(stored.discount)
  {
    if stored == null {
      return EmptyObject;
    }
    stored.items := [];
    Recalc(stored);
    r := Cleared(stored);
  }

  /** The cart JSON `getCart` answers with. */
  datatype CartView = CartView(items: seq<CartItem>, subTotal: real, shipping: real, discount: real, grandTotal: real)

  /** The literal `getCart` sends when no cart is stored. */
  const DefaultView: CartView := CartView([], 0.0, 250.0, 0.0, 0.0)

  function GetCart(stored: Cart?): (r: CartView)
    reads stored
    ensures stored == null ==> r == DefaultView
    ensures stored != null ==>
              && r.items == stored.items && r.subTotal == stored.subTotal && r.shipping == stored.shipping
              && r.discount == stored.discount && r.grandTotal == stored.grandTotal
    ensures stored != null && TotalsConsistent(stored) ==>
              r.subTotal == SumLineTotals(r.items) && r.grandTotal == r.subTotal + r.shipping - r.discount
  {
    if stored == null then DefaultView
    else CartView(stored.items, stored.subTotal, stored.shipping, stored.discount, stored.grandTotal)
  }

  /** The no-cart answer breaks the recalc equation: its grand total is 0, where subtotal plus
      shipping minus discount is 250. */
  lemma DefaultViewNotRecalculated()
    ensures DefaultView.subTotal == SumLineTotals(DefaultView.items)
    ensures DefaultView.grandTotal != DefaultView.subTotal + DefaultView.shipping - DefaultView.discount
    ensures DefaultView.subTotal + DefaultView.shipping - DefaultView.discount == DefaultShipping
  {
  }

  /** A unit price is fixed when its line is first added: raising the quantity later uses it,
      whatever the catalogue price is by then. Two of a 50.00 item, then one more after the
      catalogue moved to 80.00, is three at 50.00, 150.00 in all. */
  lemma RepriceDoesNotReachCart(line: CartItem, later: CartItem)
    requires line.unitPrice == 50.0 && line.quantity == 2.0 && line.lineTotal == 100.0
    requires later.product == line.product && later.variant.id == line.variant.id && later.unitPrice == 80.0
    ensures var r := AddLine([line], later, 1.0);
            |r| == 1 && r[0].unitPrice == 50.0 && r[0].quantity == 3.0 && r[0].lineTotal == 150.0
  {
    assert FindLine([line], later.product, later.variant.id) == 0;
  }

  // ---- As written: lines are stored without `_id` ----

  /** As written, a stored cart's lines carry no id, so `cart.items.id(itemId)` never finds
      one and every `updateItem` on an existing cart ends in "Item not found". */
  lemma UpdateNeverFindsStoredLine(items: seq<CartItem>, itemId: Id)
    requires forall i :: 0 <= i < |items| ==> items[i] == Stored(items[i])
    ensures FindById(items, itemId) == -1
  {
  }

  /** `removeItem`'s filter as written: `i._id.toString()` throws on a line without `_id`. */
  function RemoveAsWritten(items: seq<CartItem>, itemId: Id): (r: Result<seq<CartItem>, CartError>)
    ensures r.Failure? ==> r.error == TypeError
  {
    if items == [] then Success([])
    else if items[0].itemId.None? then Failure(TypeError)
    else
      match RemoveAsWritten(items[1..], itemId)
      case Failure(e) => Failure(e)
      case Success(rest) => Success(if KeepsLine(itemId, items[0]) then [items[0]] + rest else rest)
  }

  /** The filter as written throws exactly when some line has no id, and otherwise gives
      what the filter over lines with ids gives. */
  lemma {:induction false} RemoveAsWrittenSpec(items: seq<CartItem>, itemId: Id)
    ensures RemoveAsWritten(items, itemId).Success? ==> RemoveAsWritten(items, itemId).value == RemoveById(items, itemId)
    ensures RemoveAsWritten(items, itemId).Failure? <==> exists i :: 0 <= i < |items| && items[i].itemId.None?
  {
    if items != [] && items[0].itemId.Some? {
      var tail := items[1..];
      RemoveAsWrittenSpec(tail, itemId);
      if exists i :: 0 <= i < |items| && items[i].itemId.None? {
        var i :| 0 <= i < |items| && items[i].itemId.None?;
        assert tail[i - 1] == items[i];
      }
      if exists i :: 0 <= i < |tail| && tail[i].itemId.None? {
        var i :| 0 <= i < |tail| && tail[i].itemId.None?;
        assert items[i + 1] == tail[i];
      }
    }
  }

  /** As written, removing from any non-empty stored cart throws. */
  lemma RemoveThrowsOnStoredLines(items: seq<CartItem>, itemId: Id)
    requires items != [] && forall i :: 0 <= i < |items| ==> items[i] == Stored(items[i])
    ensures RemoveAsWritten(items, itemId) == Failure(TypeError)
  {
  }

  // ---- Corrected: lines keep the `_id` given when they are added ----

  /** With lines that keep their ids, a line added under a fresh id can then be found by
      `updateItem` and taken out again by `removeItem`, leaving the cart as it was. */
  lemma AddedLineIsAddressable(items: seq<CartItem>, line: CartItem, quantity: real, newId: Id)
    requires line.itemId == Some(newId)
    requires forall i :: 0 <= i < |items| ==> items[i].itemId.Some? && items[i].itemId != Some(newId)
    requires FindLine(items, line.product, line.variant.id) == -1
    ensures FindById(AddLine(items, line, quantity), newId) == |items|
    ensures RemoveAsWritten(AddLine(items, line, quantity), newId) == Success(items)
  {
    assert AddLine(items, line, quantity) == items + [line];
    AppendedLineFound(items, line, newId);
    AppendedLineRemoved(items, line, newId);
  }

  lemma AppendedLineFound(items: seq<CartItem>, line: CartItem, newId: Id)
    requires line.itemId == Some(newId)
    requires forall i :: 0 <= i < |items| ==> items[i].itemId != Some(newId)
    ensures FindById(items + [line], newId) == |items|
  {
    var r := items + [line];
    assert r[|items|] == line;
    assert forall i :: 0 <= i < |items| ==> r[i] == items[i];
  }

  lemma AppendedLineRemoved(items: seq<CartItem>, line: CartItem, newId: Id)
    requires line.itemId == Some(newId)
    requires forall i :: 0 <= i < |items| ==> items[i].itemId.Some? && items[i].itemId != Some(newId)
    ensures RemoveAsWritten(items + [line], newId) == Success(items)
  {
    var r := items + [line];
    forall i | 0 <= i < |r| ensures r[i].itemId.Some? {
      if i < |items| { assert r[i] == items[i]; }
    }
    RemoveAsWrittenSpec(r, newId);
    FilterOutAppended(items, line, newId);
  }

  lemma FilterOutAppended(items: seq<CartItem>, line: CartItem, newId: Id)
    requires line.itemId == Some(newId)
    requires forall i :: 0 <= i < |items| ==> items[i].itemId != Some(newId)
    ensures RemoveById(items + [line], newId) == items
  {
    var p := (i: CartItem) => KeepsLine(newId, i);
    FilterAppend(items, [line], p);
    FilterAll(items, p);
    assert Filter([line], p) == [];
  }

}
