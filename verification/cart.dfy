/** The anonymous-session cart. The cart table holds one row per
    (session, product) pair -- the table's unique constraint -- with a
    quantity; rows keep their insertion order. `LineFor` reads the table as
    the map from (session, product) to quantity that the routes work with. */
module Cart {
  import opened Wrappers
  import Catalog
  import Delivery

  datatype CartKey = CartKey(session: string, productId: string)

  datatype CartLine = CartLine(session: string, productId: string, quantity: int) {
    function Key(): CartKey {
      CartKey(session, productId)
    }
  }

  type CartTable = seq<CartLine>

  /** The quantity stored under `key`, read from the first row with that key
      (`query(...).first()`). */
  function LineFor(cart: CartTable, key: CartKey): Option<int> {
    if |cart| == 0 then None
    else if cart[0].Key() == key then Some(cart[0].quantity)
    else LineFor(cart[1..], key)
  }

  /** The quantity already in the cart under `key`, zero when there is no row. */
  function QuantityOf(cart: CartTable, key: CartKey): int {
    match LineFor(cart, key)
    case Some(q) => q
    case None => 0
  }

  lemma {:induction false} StoredQuantityPositive(cart: CartTable, key: CartKey)
    ensures QuantitiesPositive(cart) && LineFor(cart, key).Some? ==> LineFor(cart, key).value > 0
  {
    if |cart| > 0 && cart[0].Key() != key {
      StoredQuantityPositive(cart[1..], key);
      if QuantitiesPositive(cart) {
        assert QuantitiesPositive(cart[1..]) by {
          forall i | 0 <= i < |cart| - 1 ensures cart[1..][i].quantity > 0 {
            assert cart[1..][i] == cart[i + 1];
          }
        }
      }
    }
  }

  /** The unique constraint on (session_id, product_id). */
  predicate KeysUnique(cart: CartTable) {
    |cart| == 0 || (LineFor(cart[1..], cart[0].Key()).None? && KeysUnique(cart[1..]))
  }

  predicate QuantitiesPositive(cart: CartTable) {
    forall i :: 0 <= i < |cart| ==> cart[i].quantity > 0
  }

  /** What every cart the routes write satisfies. */
  predicate Valid(cart: CartTable) {
    KeysUnique(cart) && QuantitiesPositive(cart)
  }

  // ---------------------------------------------------------------------------
  // Row-level edits

  /** Assigns a new quantity to the first row with `key`, in place. */
  function SetQuantity(cart: CartTable, key: CartKey, q: int): (r: CartTable)
    ensures |r| == |cart|
  {
    if |cart| == 0 then []
    else if cart[0].Key() == key then [cart[0].(quantity := q)] + cart[1..]
    else [cart[0]] + SetQuantity(cart[1..], key, q)
  }

  /** Deletes the first row with `key` (`db.delete(item)`). */
  function DeleteFirst(cart: CartTable, key: CartKey): (r: CartTable)
    ensures |r| <= |cart|
  {
    if |cart| == 0 then []
    else if cart[0].Key() == key then cart[1..]
    else [cart[0]] + DeleteFirst(cart[1..], key)
  }

  /** A bulk `query(...).filter(...).delete()`: keeps the rows whose key
      satisfies `keep`. */
  function KeepWhere(cart: CartTable, keep: CartKey -> bool): (r: CartTable)
    ensures |r| <= |cart|
  {
    if |cart| == 0 then []
    else if keep(cart[0].Key()) then [cart[0]] + KeepWhere(cart[1..], keep)
    else KeepWhere(cart[1..], keep)
  }

  function DeleteKey(cart: CartTable, key: CartKey): CartTable {
    KeepWhere(cart, k => k != key)
  }

  /** Deletes every row of one session, as a successful checkout does. */
  function ClearSession(cart: CartTable, session: string): CartTable {
    KeepWhere(cart, (k: CartKey) => k.session != session)
  }

  lemma {:induction false} LineForSetQuantity(cart: CartTable, key: CartKey, q: int, k: CartKey)
    ensures LineFor(SetQuantity(cart, key, q), k) ==
      if k == key && LineFor(cart, key).Some? then Some(q) else LineFor(cart, k)
  {
    if |cart| > 0 && cart[0].Key() != key {
      var r := SetQuantity(cart, key, q);
      assert r[1..] == SetQuantity(cart[1..], key, q);
      LineForSetQuantity(cart[1..], key, q, k);
    } else if |cart| > 0 {
      var r := SetQuantity(cart, key, q);
      assert r[1..] == cart[1..];
    }
  }

  lemma {:induction false} LineForAppend(cart: CartTable, line: CartLine, k: CartKey)
    ensures LineFor(cart + [line], k) ==
      if LineFor(cart, k).Some? then LineFor(cart, k)
      else if line.Key() == k then Some(line.quantity)
      else None
  {
    if |cart| == 0 {
      assert cart + [line] == [line];
    } else {
      assert (cart + [line])[1..] == cart[1..] + [line];
      LineForAppend(cart[1..], line, k);
    }
  }

  lemma {:induction false} LineForDeleteFirst(cart: CartTable, key: CartKey, k: CartKey)
    requires KeysUnique(cart)
    ensures LineFor(DeleteFirst(cart, key), k) == if k == key then None else LineFor(cart, k)
  {
    if |cart| > 0 {
      if cart[0].Key() == key {
        if k == key {
          assert LineFor(cart[1..], cart[0].Key()).None?;
        }
      } else {
        var r := DeleteFirst(cart, key);
        assert r[1..] == DeleteFirst(cart[1..], key);
        LineForDeleteFirst(cart[1..], key, k);
      }
    }
  }

  lemma {:induction false} LineForKeepWhere(cart: CartTable, keep: CartKey -> bool, k: CartKey)
    ensures LineFor(KeepWhere(cart, keep), k) == if keep(k) then LineFor(cart, k) else None
  {
    if |cart| > 0 {
      LineForKeepWhere(cart[1..], keep, k);
      if keep(cart[0].Key()) {
        var r := KeepWhere(cart, keep);
        assert r[1..] == KeepWhere(cart[1..], keep);
      }
    }
  }

  lemma {:induction false} KeysUniqueSetQuantity(cart: CartTable, key: CartKey, q: int)
    requires KeysUnique(cart)
    ensures KeysUnique(SetQuantity(cart, key, q))
  {
    if |cart| > 0 {
      var r := SetQuantity(cart, key, q);
      if cart[0].Key() == key {
        assert r[1..] == cart[1..];
      } else {
        assert r[1..] == SetQuantity(cart[1..], key, q);
        KeysUniqueSetQuantity(cart[1..], key, q);
        LineForSetQuantity(cart[1..], key, q, cart[0].Key());
      }
    }
  }

  lemma {:induction false} KeysUniqueAppend(cart: CartTable, line: CartLine)
    requires KeysUnique(cart) && LineFor(cart, line.Key()).None?
    ensures KeysUnique(cart + [line])
  {
    if |cart| == 0 {
      assert cart + [line] == [line];
    } else {
      assert (cart + [line])[1..] == cart[1..] + [line];
      KeysUniqueAppend(cart[1..], line);
      LineForAppend(cart[1..], line, cart[0].Key());
    }
  }

  lemma {:induction false} KeysUniqueDeleteFirst(cart: CartTable, key: CartKey)
    requires KeysUnique(cart)
    ensures KeysUnique(DeleteFirst(cart, key))
  {
    if |cart| > 0 && cart[0].Key() != key {
      var r := DeleteFirst(cart, key);
      assert r[1..] == DeleteFirst(cart[1..], key);
      KeysUniqueDeleteFirst(cart[1..], key);
      LineForDeleteFirst(cart[1..], key, cart[0].Key());
    }
  }

  lemma {:induction false} KeysUniqueKeepWhere(cart: CartTable, keep: CartKey -> bool)
    requires KeysUnique(cart)
    ensures KeysUnique(KeepWhere(cart, keep))
  {
    if |cart| > 0 {
      KeysUniqueKeepWhere(cart[1..], keep);
      if keep(cart[0].Key()) {
        var r := KeepWhere(cart, keep);
        assert r[1..] == KeepWhere(cart[1..], keep);
        LineForKeepWhere(cart[1..], keep, cart[0].Key());
      }
    }
  }

  lemma {:induction false} PositiveKeepWhere(cart: CartTable, keep: CartKey -> bool)
    requires QuantitiesPositive(cart)
    ensures QuantitiesPositive(KeepWhere(cart, keep))
  {
    if |cart| > 0 {
      PositiveKeepWhere(cart[1..], keep);
    }
  }

  lemma {:induction false} PositiveDeleteFirst(cart: CartTable, key: CartKey)
    requires QuantitiesPositive(cart)
    ensures QuantitiesPositive(DeleteFirst(cart, key))
  {
    if |cart| > 0 && cart[0].Key() != key {
      PositiveDeleteFirst(cart[1..], key);
    }
  }

  lemma {:induction false} PositiveSetQuantity(cart: CartTable, key: CartKey, q: int)
    requires QuantitiesPositive(cart) && q > 0
    ensures QuantitiesPositive(SetQuantity(cart, key, q))
  {
    if |cart| > 0 && cart[0].Key() != key {
      PositiveSetQuantity(cart[1..], key, q);
    }
  }

  /** Bulk deletion changes exactly the keys it filters out. */
  lemma KeepWhereLines(cart: CartTable, keep: CartKey -> bool)
    ensures forall k :: LineFor(KeepWhere(cart, keep), k) == if keep(k) then LineFor(cart, k) else None
    ensures Valid(cart) ==> Valid(KeepWhere(cart, keep))
  {
    forall k {
      LineForKeepWhere(cart, keep, k);
    }
    if Valid(cart) {
      KeysUniqueKeepWhere(cart, keep);
      PositiveKeepWhere(cart, keep);
    }
  }

  // ---------------------------------------------------------------------------
  // Routes

  datatype CartError =
    | InvalidQuantity
    | ProductUnavailable
    | MinimumOrderQtyNotMet
    | StockExceeded
    | NotInCart

  /** The cart after a request and whether the request succeeded. */
  datatype CartStep = CartStep(cart: CartTable, outcome: Outcome<CartError>)

  /** A product the storefront sells: present and active. */
  predicate Orderable(products: Catalog.ProductTable, productId: string) {
    productId in products && products[productId].isActive
  }

  /** `add_to_cart`. Checks run in order: quantity, product, minimum order
      quantity (against the quantity added, not the new total), then stock
      (against the new total). Success adds `qty` to an existing row in place
      or appends a new row. */
  function AddToCart(cart: CartTable, products: Catalog.ProductTable, session: string, productId: string,
                     qty: int): (r: CartStep)
    ensures r.outcome.Fail? ==> r.cart == cart
    ensures r.outcome == Fail(InvalidQuantity) <==> qty <= 0
    ensures r.outcome == Fail(ProductUnavailable) <==> qty > 0 && !Orderable(products, productId)
    ensures r.outcome == Fail(MinimumOrderQtyNotMet) <==>
      qty > 0 && Orderable(products, productId) && qty < products[productId].minOrderQty
    ensures r.outcome == Fail(StockExceeded) <==>
      && qty > 0 && Orderable(products, productId) && qty >= products[productId].minOrderQty
      && QuantityOf(cart, CartKey(session, productId)) + qty > products[productId].stock
    ensures r.outcome.Pass? <==>
      && qty > 0 && Orderable(products, productId) && qty >= products[productId].minOrderQty
      && QuantityOf(cart, CartKey(session, productId)) + qty <= products[productId].stock
    ensures r.outcome.Pass? ==>
      var q := QuantityOf(cart, CartKey(session, productId)) + qty;
      LineFor(r.cart, CartKey(session, productId)) == Some(q) && q <= products[productId].stock
    ensures forall k :: k != CartKey(session, productId) ==> LineFor(r.cart, k) == LineFor(cart, k)
    ensures Valid(cart) ==> Valid(r.cart)
  {
    var key := CartKey(session, productId);
    if qty <= 0 then CartStep(cart, Fail(InvalidQuantity))
    else if !Orderable(products, productId) then CartStep(cart, Fail(ProductUnavailable))
    else
      var product := products[productId];
      if qty < product.minOrderQty then CartStep(cart, Fail(MinimumOrderQtyNotMet))
      else match LineFor(cart, key)
        case Some(existing) =>
          if existing + qty > product.stock then CartStep(cart, Fail(StockExceeded))
          else
            StoredQuantityPositive(cart, key);
            SetQuantityLines(cart, key, existing + qty);
            CartStep(SetQuantity(cart, key, existing + qty), Pass)
        case None =>
          if qty > product.stock then CartStep(cart, Fail(StockExceeded))
          else
            AppendLines(cart, CartLine(session, productId, qty));
            CartStep(cart + [CartLine(session, productId, qty)], Pass)
  }

  lemma SetQuantityLines(cart: CartTable, key: CartKey, q: int)
    requires LineFor(cart, key).Some?
    ensures LineFor(SetQuantity(cart, key, q), key) == Some(q)
    ensures forall k :: k != key ==> LineFor(SetQuantity(cart, key, q), k) == LineFor(cart, k)
    ensures Valid(cart) && q > 0 ==> Valid(SetQuantity(cart, key, q))
  {
    forall k {
      LineForSetQuantity(cart, key, q, k);
    }
    if Valid(cart) && q > 0 {
      KeysUniqueSetQuantity(cart, key, q);
      PositiveSetQuantity(cart, key, q);
    }
  }

  lemma AppendLines(cart: CartTable, line: CartLine)
    requires LineFor(cart, line.Key()).None? && line.quantity > 0
    ensures LineFor(cart + [line], line.Key()) == Some(line.quantity)
    ensures forall k :: k != line.Key() ==> LineFor(cart + [line], k) == LineFor(cart, k)
    ensures Valid(cart) ==> Valid(cart + [line])
  {
    forall k {
      LineForAppend(cart, line, k);
    }
    if Valid(cart) {
      KeysUniqueAppend(cart, line);
    }
  }

  /** `decrease_cart_item`: lowers the quantity by one and deletes the row
      when that leaves nothing. */
  function DecreaseCartItem(cart: CartTable, session: string, productId: string): (r: CartStep)
    ensures r.outcome.Fail? ==> r.cart == cart
    ensures r.outcome == Fail(NotInCart) <==> LineFor(cart, CartKey(session, productId)).None?
    ensures r.outcome.Pass? <==> LineFor(cart, CartKey(session, productId)).Some?
    ensures r.outcome.Pass? && KeysUnique(cart) ==>
      var q := QuantityOf(cart, CartKey(session, productId));
      LineFor(r.cart, CartKey(session, productId)) == if q - 1 > 0 then Some(q - 1) else None
    ensures KeysUnique(cart) ==>
      forall k :: k != CartKey(session, productId) ==> LineFor(r.cart, k) == LineFor(cart, k)
    ensures Valid(cart) ==> Valid(r.cart)
  {
    var key := CartKey(session, productId);
    match LineFor(cart, key)
    case None => CartStep(cart, Fail(NotInCart))
    case Some(q) =>
      if q - 1 <= 0 then
        DeleteFirstLines(cart, key);
        CartStep(DeleteFirst(cart, key), Pass)
      else
        SetQuantityLines(cart, key, q - 1);
        CartStep(SetQuantity(cart, key, q - 1), Pass)
  }

  lemma DeleteFirstLines(cart: CartTable, key: CartKey)
    ensures KeysUnique(cart) ==>
      forall k :: LineFor(DeleteFirst(cart, key), k) == if k == key then None else LineFor(cart, k)
    ensures Valid(cart) ==> Valid(DeleteFirst(cart, key))
  {
    if KeysUnique(cart) {
      forall k {
        LineForDeleteFirst(cart, key, k);
      }
      KeysUniqueDeleteFirst(cart, key);
    }
    if Valid(cart) {
      PositiveDeleteFirst(cart, key);
    }
  }

  /** `remove_cart_item`: deletes the row if there is one; never fails. */
  function RemoveCartItem(cart: CartTable, session: string, productId: string): (r: CartTable)
    ensures LineFor(r, CartKey(session, productId)).None?
    ensures forall k :: k != CartKey(session, productId) ==> LineFor(r, k) == LineFor(cart, k)
    ensures Valid(cart) ==> Valid(r)
  {
    KeepWhereLines(cart, k => k != CartKey(session, productId));
    DeleteKey(cart, CartKey(session, productId))
  }

  /** Removing twice is removing once. */
  lemma RemoveIdempotent(cart: CartTable, session: string, productId: string)
    ensures RemoveCartItem(RemoveCartItem(cart, session, productId), session, productId)
         == RemoveCartItem(cart, session, productId)
  {
    KeepWhereIdempotent(cart, k => k != CartKey(session, productId));
  }

  lemma {:induction false} KeepWhereIdempotent(cart: CartTable, keep: CartKey -> bool)
    ensures KeepWhere(KeepWhere(cart, keep), keep) == KeepWhere(cart, keep)
  {
    if |cart| > 0 {
      KeepWhereIdempotent(cart[1..], keep);
      if keep(cart[0].Key()) {
        var r := KeepWhere(cart, keep);
        assert r[0] == cart[0];
        assert r[1..] == KeepWhere(cart[1..], keep);
      }
    }
  }

  /** A successful checkout empties the session's cart and nothing else. */
  lemma ClearSessionLines(cart: CartTable, session: string)
    ensures forall k :: LineFor(ClearSession(cart, session), k) ==
                          if k.session == session then None else LineFor(cart, k)
    ensures Valid(cart) ==> Valid(ClearSession(cart, session))
  {
    KeepWhereLines(cart, (k: CartKey) => k.session != session);
  }

  // ---------------------------------------------------------------------------
  // The cart joined with the product table

  /** A cart row together with the product row it joins to. */
  datatype CartItem = CartItem(line: CartLine, product: Catalog.Product)

  /** The inner join of the session's rows with the product table, in row
      order. A row whose product is missing drops out; an inactive product
      does not. */
  function SessionItems(cart: CartTable, products: Catalog.ProductTable, session: string): (items: seq<CartItem>)
    ensures |items| <= |cart|
    ensures forall i :: 0 <= i < |items| ==>
      && items[i].line.session == session
      && items[i].line.productId in products
      && items[i].product == products[items[i].line.productId]
  {
    if |cart| == 0 then []
    else if cart[0].session == session && cart[0].productId in products then
      [CartItem(cart[0], products[cart[0].productId])] + SessionItems(cart[1..], products, session)
    else SessionItems(cart[1..], products, session)
  }

  function LineTotal(item: CartItem): int {
    item.product.price * item.line.quantity
  }

  /** Sum of price times quantity over the items. */
  function Subtotal(items: seq<CartItem>): int {
    if |items| == 0 then 0 else Subtotal(items[..|items| - 1]) + LineTotal(items[|items| - 1])
  }

  /** Total quantity the items hold of one product. */
  function QuantityIn(items: seq<CartItem>, productId: string): int {
    if |items| == 0 then 0
    else
      var here := if items[0].line.productId == productId then items[0].line.quantity else 0;
      here + QuantityIn(items[1..], productId)
  }

  predicate DistinctProducts(items: seq<CartItem>) {
    forall i, j :: 0 <= i < j < |items| ==> items[i].line.productId != items[j].line.productId
  }

  /** Every joined item is the session's stored row for its product. */
  predicate ItemsStored(cart: CartTable, session: string, items: seq<CartItem>) {
    forall i :: 0 <= i < |items| ==>
      LineFor(cart, CartKey(session, items[i].line.productId)) == Some(items[i].line.quantity)
  }

  lemma {:induction false} SessionItemsSound(cart: CartTable, products: Catalog.ProductTable, session: string)
    requires KeysUnique(cart)
    ensures ItemsStored(cart, session, SessionItems(cart, products, session))
  {
    if |cart| > 0 {
      var items := SessionItems(cart, products, session);
      var rest := SessionItems(cart[1..], products, session);
      SessionItemsSound(cart[1..], products, session);
      assert ItemsStored(cart[1..], session, rest);
      assert ItemsStored(cart, session, rest) by {
        forall i | 0 <= i < |rest|
          ensures LineFor(cart, CartKey(session, rest[i].line.productId)) == Some(rest[i].line.quantity)
        {
          var k := CartKey(session, rest[i].line.productId);
          assert LineFor(cart[1..], k) == Some(rest[i].line.quantity);
          assert k != cart[0].Key();
        }
      }
      if cart[0].session == session && cart[0].productId in products {
        assert items == [CartItem(cart[0], products[cart[0].productId])] + rest;
        forall i | 0 <= i < |items|
          ensures LineFor(cart, CartKey(session, items[i].line.productId)) == Some(items[i].line.quantity)
        {
          if i > 0 {
            assert items[i] == rest[i - 1];
          }
        }
      }
    }
  }

  predicate HasProduct(items: seq<CartItem>, productId: string) {
    exists i :: 0 <= i < |items| && items[i].line.productId == productId
  }

  /** Every stored row of the session whose product exists is joined. */
  lemma {:induction false} SessionItemsComplete(cart: CartTable, products: Catalog.ProductTable, session: string,
                                                productId: string)
    requires productId in products && LineFor(cart, CartKey(session, productId)).Some?
    ensures HasProduct(SessionItems(cart, products, session), productId)
  {
    var items := SessionItems(cart, products, session);
    if cart[0].Key() == CartKey(session, productId) {
      assert items == [CartItem(cart[0], products[productId])] + SessionItems(cart[1..], products, session);
      assert items[0].line.productId == productId;
      assert HasProduct(items, productId);
    } else {
      SessionItemsComplete(cart[1..], products, session, productId);
      var rest := SessionItems(cart[1..], products, session);
      var i :| 0 <= i < |rest| && rest[i].line.productId == productId;
      if cart[0].session == session && cart[0].productId in products {
        assert items[i + 1] == rest[i];
      } else {
        assert items[i] == rest[i];
      }
      assert HasProduct(items, productId);
    }
  }

  /** Under the unique constraint a product is joined at most once. */
  lemma {:induction false} SessionItemsDistinct(cart: CartTable, products: Catalog.ProductTable, session: string)
    requires KeysUnique(cart)
    ensures DistinctProducts(SessionItems(cart, products, session))
  {
    if |cart| > 0 {
      var items := SessionItems(cart, products, session);
      var rest := SessionItems(cart[1..], products, session);
      SessionItemsDistinct(cart[1..], products, session);
      if cart[0].session == session && cart[0].productId in products {
        SessionItemsSound(cart[1..], products, session);
        assert ItemsStored(cart[1..], session, rest);
        forall j | 0 <= j < |rest| ensures rest[j].line.productId != cart[0].productId {
          assert LineFor(cart[1..], CartKey(session, rest[j].line.productId)).Some?;
        }
        forall i, j | 0 <= i < j < |items|
          ensures items[i].line.productId != items[j].line.productId
        {
          assert items[j] == rest[j - 1];
          if i > 0 {
            assert items[i] == rest[i - 1];
          }
        }
      }
    }
  }

  /** The join holds, for each product, exactly the session's stored quantity. */
  lemma {:induction false} QuantityInSessionItems(cart: CartTable, products: Catalog.ProductTable, session: string,
                                                  productId: string)
    requires KeysUnique(cart) && productId in products
    ensures QuantityIn(SessionItems(cart, products, session), productId) == QuantityOf(cart, CartKey(session, productId))
  {
    if |cart| > 0 {
      var items := SessionItems(cart, products, session);
      var rest := SessionItems(cart[1..], products, session);
      QuantityInSessionItems(cart[1..], products, session, productId);
      if cart[0].session == session && cart[0].productId in products {
        assert items[1..] == rest;
        if cart[0].productId == productId {
          assert LineFor(cart[1..], cart[0].Key()).None?;
        }
      }
    }
  }

  /** What `view_cart` returns for one line. */
  datatype ViewLine = ViewLine(productId: string, name: string, quantity: int, price: int, totalPrice: int)

  datatype CartView = CartView(items: seq<ViewLine>, subtotal: int, delivery: int, grandTotal: int)

  function ToViewLine(item: CartItem): ViewLine {
    ViewLine(item.line.productId, item.product.name, item.line.quantity, item.product.price, LineTotal(item))
  }

  /** `view_cart`: totals the session's rows at the products' current prices
      and shows the flat delivery fee, not the tiered one. Reads only. */
  method ViewCart(cart: CartTable, products: Catalog.ProductTable, session: string) returns (view: CartView)
    ensures var items := SessionItems(cart, products, session);
      && |view.items| == |items|
      && (forall i :: 0 <= i < |items| ==>
            && view.items[i].productId == items[i].line.productId
            && view.items[i].quantity == items[i].line.quantity
            && view.items[i].price == products[items[i].line.productId].price
            && view.items[i].totalPrice == view.items[i].price * view.items[i].quantity)
      && view.subtotal == Subtotal(items)
    ensures view.delivery == Delivery.CartViewDelivery(view.subtotal)
    ensures view.grandTotal == view.subtotal + view.delivery
  {
    var items := SessionItems(cart, products, session);
    var lines: seq<ViewLine> := [];
    var subtotal := 0;
    var i := 0;
    while i < |items|
      invariant 0 <= i <= |items|
      invariant |lines| == i
      invariant forall j :: 0 <= j < i ==> lines[j] == ToViewLine(items[j])
      invariant subtotal == Subtotal(items[..i])
    {
      var total := items[i].product.price * items[i].line.quantity;
      subtotal := subtotal + total;
      lines := lines + [ToViewLine(items[i])];
      assert items[..i + 1][..i] == items[..i];
      i := i + 1;
    }
    assert items[..i] == items;
    var delivery := Delivery.CartViewDelivery(subtotal);
    view := CartView(lines, subtotal, delivery, subtotal + delivery);
  }
}
