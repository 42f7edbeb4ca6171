/** Checkout: turning a session's cart into an enquiry. The session's rows are
    joined with the product table; an empty join or a grand total under the
    minimum is refused before anything is written. Then, in one transaction,
    stock is taken line by line from the live product rows, a snapshot of
    each line is recorded, and the session's cart is emptied; a line whose
    stock falls short rolls the whole transaction back. */
module Checkout {
  import opened Wrappers
  import Catalog
  import Delivery
  import opened Cart

  datatype Contact = Contact(customerName: string, email: string, phone: string, address: string)

  /** A snapshot of one ordered line, at the price charged. */
  datatype EnquiryItem = EnquiryItem(productId: string, quantity: int, price: int)

  const NewStatus: string := "NEW"

  datatype Enquiry = Enquiry(
    id: nat,
    contact: Contact,
    status: string,
    subtotal: int,
    delivery: int,
    grandTotal: int,
    items: seq<EnquiryItem>)

  /** One notification attempt. `sent` records only that the send helper
      returned without raising; the route ignores the value it returns. */
  datatype EmailLog = EmailLog(enquiryId: nat, emailTo: string, sent: bool)

  datatype CheckoutError =
    | EmptyCart
    | BelowMinimumOrder
    | OutOfStock(productName: string)

  /** The tables checkout reads and writes. */
  datatype Store = Store(cart: CartTable, products: Catalog.ProductTable)

  datatype Receipt = Receipt(enquiry: Enquiry, emails: seq<EmailLog>)

  datatype CheckoutStep = CheckoutStep(store: Store, outcome: Result<Receipt, CheckoutError>)

  /** Sum of price times quantity over the recorded lines. */
  function ItemsTotal(lines: seq<EnquiryItem>): int {
    if |lines| == 0 then 0
    else ItemsTotal(lines[..|lines| - 1]) + lines[|lines| - 1].price * lines[|lines| - 1].quantity
  }

  /** The product table once every item's quantity has been taken from its
      product's stock; nothing but stock changes. */
  function AfterReservation(products: Catalog.ProductTable, items: seq<CartItem>): Catalog.ProductTable {
    map pid | pid in products :: products[pid].(stock := products[pid].stock - QuantityIn(items, pid))
  }

  predicate ItemsInCatalog(products: Catalog.ProductTable, items: seq<CartItem>) {
    forall i :: 0 <= i < |items| ==> items[i].line.productId in products
  }

  /** Line `i` is the first whose product has less stock than it asks for. */
  predicate FirstShort(products: Catalog.ProductTable, items: seq<CartItem>, i: int)
    requires ItemsInCatalog(products, items)
  {
    && 0 <= i < |items|
    && products[items[i].line.productId].stock < items[i].line.quantity
    && forall j :: 0 <= j < i ==> products[items[j].line.productId].stock >= items[j].line.quantity
  }

  predicate AllStocked(products: Catalog.ProductTable, items: seq<CartItem>)
    requires ItemsInCatalog(products, items)
  {
    forall i :: 0 <= i < |items| ==> products[items[i].line.productId].stock >= items[i].line.quantity
  }

  /** The product table after one line's quantity is taken from its product. */
  function Take(products: Catalog.ProductTable, item: CartItem): Catalog.ProductTable
    requires item.line.productId in products
  {
    var p := products[item.line.productId];
    products[item.line.productId := p.(stock := p.stock - item.line.quantity)]
  }

  /** The stock loop of `submit_enquiry`: each line is checked against, and
      taken from, the product row as earlier lines have left it. On a
      shortfall the name of that product is reported. */
  function ReserveStock(products: Catalog.ProductTable, items: seq<CartItem>)
    : (r: Result<(Catalog.ProductTable, seq<EnquiryItem>), string>)
    requires ItemsInCatalog(products, items)
    ensures r.Success? ==> r.value.0 == AfterReservation(products, items)
    ensures r.Success? ==>
      && |r.value.1| == |items|
      && forall i :: 0 <= i < |items| ==>
           r.value.1[i] == EnquiryItem(items[i].line.productId, items[i].line.quantity,
                                       products[items[i].line.productId].price)
    decreases |items|
  {
    if |items| == 0 then
      assert AfterReservation(products, items) == products;
      Success((products, []))
    else
      var p := products[items[0].line.productId];
      if p.stock < items[0].line.quantity then Failure(p.name)
      else
        assert ItemsInCatalog(Take(products, items[0]), items[1..]);
        match ReserveStock(Take(products, items[0]), items[1..])
        case Failure(name) => Failure(name)
        case Success((after, lines)) =>
          AfterReservationStep(products, items);
          Success((after, [EnquiryItem(items[0].line.productId, items[0].line.quantity, p.price)] + lines))
  }

  /** Taking the first line's quantity and then reserving the rest is
      reserving everything. */
  lemma AfterReservationStep(products: Catalog.ProductTable, items: seq<CartItem>)
    requires |items| > 0 && items[0].line.productId in products
    ensures AfterReservation(Take(products, items[0]), items[1..]) == AfterReservation(products, items)
  {
  }

  /** The name reported on a shortfall is the name of a product in the cart. */
  lemma {:induction false} ReserveStockReportsCartProduct(products: Catalog.ProductTable, items: seq<CartItem>)
    requires ItemsInCatalog(products, items)
    ensures ReserveStock(products, items).Failure? ==>
      exists i :: 0 <= i < |items| && ReserveStock(products, items).error == products[items[i].line.productId].name
    decreases |items|
  {
    if |items| > 0 && products[items[0].line.productId].stock >= items[0].line.quantity {
      var taken := Take(products, items[0]);
      assert ItemsInCatalog(taken, items[1..]);
      ReserveStockReportsCartProduct(taken, items[1..]);
      var r := ReserveStock(products, items);
      if r.Failure? {
        var rest := items[1..];
        var i :| 0 <= i < |rest| && r.error == taken[rest[i].line.productId].name;
        assert items[i + 1] == rest[i];
      }
    }
  }

  /** With each product on at most one line, the loop succeeds exactly when
      every line is covered by its product's stock, and otherwise reports the
      first line that is not. */
  lemma {:induction false} ReserveStockDistinct(products: Catalog.ProductTable, items: seq<CartItem>)
    requires ItemsInCatalog(products, items) && DistinctProducts(items)
    ensures ReserveStock(products, items).Success? <==> AllStocked(products, items)
    ensures ReserveStock(products, items).Failure? ==>
      exists i :: FirstShort(products, items, i) && ReserveStock(products, items).error == products[items[i].line.productId].name
    decreases |items|
  {
    if |items| > 0 {
      var p := products[items[0].line.productId];
      if p.stock < items[0].line.quantity {
        assert FirstShort(products, items, 0);
      } else {
        var taken := Take(products, items[0]);
        var rest := items[1..];
        assert ItemsInCatalog(taken, rest);
        assert DistinctProducts(rest);
        ReserveStockDistinct(taken, rest);
        forall i | 0 <= i < |rest|
          ensures taken[rest[i].line.productId] == products[rest[i].line.productId]
        {
          assert rest[i] == items[i + 1];
        }
        assert AllStocked(taken, rest) <==> AllStocked(products, items) by {
          if AllStocked(taken, rest) {
            forall i | 0 <= i < |items|
              ensures products[items[i].line.productId].stock >= items[i].line.quantity
            {
              if i > 0 { assert items[i] == rest[i - 1]; }
            }
          }
          if AllStocked(products, items) {
            forall i | 0 <= i < |rest|
              ensures taken[rest[i].line.productId].stock >= rest[i].line.quantity
            {
              assert rest[i] == items[i + 1];
            }
          }
        }
        var r := ReserveStock(products, items);
        if r.Failure? {
          var j :| FirstShort(taken, rest, j) && r.error == taken[rest[j].line.productId].name;
          assert items[j + 1] == rest[j];
          forall m | 0 <= m < j + 1
            ensures products[items[m].line.productId].stock >= items[m].line.quantity
          {
            if m > 0 { assert items[m] == rest[m - 1]; }
          }
          assert FirstShort(products, items, j + 1);
        }
      }
    }
  }

  /** `submit_enquiry` with the amounts recorded on the enquiry as the route
      intends. `enquiryId` is the id the database assigns; `adminSent` and
      `userSent` say whether each send call returned without raising, and do
      not affect the outcome. */
  function SubmitEnquiry(store: Store, session: string, contact: Contact, enquiryId: nat,
                         adminEmail: string, adminSent: bool, userSent: bool): (r: CheckoutStep)
    ensures r.outcome.Failure? ==> r.store == store
    ensures r.outcome == Failure(EmptyCart) <==> |SessionItems(store.cart, store.products, session)| == 0
    ensures r.outcome == Failure(BelowMinimumOrder) <==>
      var items := SessionItems(store.cart, store.products, session);
      |items| > 0 && Subtotal(items) < Delivery.MinimumOrder - Delivery.StandardFee
    ensures r.outcome.Success? ==>
      var e := r.outcome.value.enquiry;
      && e.id == enquiryId && e.contact == contact && e.status == NewStatus
      && |e.items| > 0
      && e.subtotal == ItemsTotal(e.items)
      && e.delivery == Delivery.CalculateDelivery(e.subtotal)
      && e.grandTotal == e.subtotal + e.delivery
      && e.grandTotal >= Delivery.MinimumOrder
    ensures r.outcome.Success? ==>
      r.outcome.value.emails == [EmailLog(enquiryId, adminEmail, adminSent), EmailLog(enquiryId, contact.email, userSent)]
    ensures r.outcome.Success? ==>
      forall k :: LineFor(r.store.cart, k) == if k.session == session then None else LineFor(store.cart, k)
  {
    var items := SessionItems(store.cart, store.products, session);
    if |items| == 0 then CheckoutStep(store, Failure(EmptyCart))
    else
      var subtotal := Subtotal(items);
      var delivery := Delivery.CalculateDelivery(subtotal);
      Delivery.MinimumOrderOnSubtotal(subtotal);
      if subtotal + delivery < Delivery.MinimumOrder then CheckoutStep(store, Failure(BelowMinimumOrder))
      else match ReserveStock(store.products, items)
        case Failure(name) => CheckoutStep(store, Failure(OutOfStock(name)))
        case Success((products, lines)) =>
          TotalsAgree(items, lines);
          ClearSessionLines(store.cart, session);
          var enquiry := Enquiry(enquiryId, contact, NewStatus, subtotal, delivery, subtotal + delivery, lines);
          var emails := [EmailLog(enquiryId, adminEmail, adminSent), EmailLog(enquiryId, contact.email, userSent)];
          CheckoutStep(Store(ClearSession(store.cart, session), products), Success(Receipt(enquiry, emails)))
  }

  /** The recorded lines total what the joined items total. */
  lemma {:induction false} TotalsAgree(items: seq<CartItem>, lines: seq<EnquiryItem>)
    requires |items| == |lines|
    requires forall i :: 0 <= i < |items| ==>
      lines[i].price == items[i].product.price && lines[i].quantity == items[i].line.quantity
    ensures ItemsTotal(lines) == Subtotal(items)
  {
    if |items| > 0 {
      TotalsAgree(items[..|items| - 1], lines[..|lines| - 1]);
    }
  }

  /** The cart counts as empty exactly when none of the session's rows names a
      product in the table; inactive products still count. */
  lemma CheckoutEmptyCart(store: Store, session: string, contact: Contact, enquiryId: nat,
                          adminEmail: string, adminSent: bool, userSent: bool)
    requires KeysUnique(store.cart)
    ensures SubmitEnquiry(store, session, contact, enquiryId, adminEmail, adminSent, userSent).outcome == Failure(EmptyCart)
        <==> forall pid :: pid in store.products ==> LineFor(store.cart, CartKey(session, pid)).None?
  {
    var items := SessionItems(store.cart, store.products, session);
    if |items| > 0 {
      SessionItemsSound(store.cart, store.products, session);
      assert ItemsStored(store.cart, session, items);
      assert LineFor(store.cart, CartKey(session, items[0].line.productId)).Some?;
    } else {
      forall pid | pid in store.products
        ensures LineFor(store.cart, CartKey(session, pid)).None?
      {
        if LineFor(store.cart, CartKey(session, pid)).Some? {
          SessionItemsComplete(store.cart, store.products, session, pid);
        }
      }
    }
  }

  /** Stock the session's cart asks for, per product. */
  function Wanted(store: Store, session: string, pid: string): int {
    QuantityOf(store.cart, CartKey(session, pid))
  }

  /** How the outcome of checkout follows from the outcome of the stock loop. */
  lemma SubmitEnquiryStages(store: Store, session: string, contact: Contact, enquiryId: nat,
                            adminEmail: string, adminSent: bool, userSent: bool)
    ensures var items := SessionItems(store.cart, store.products, session);
      var r := SubmitEnquiry(store, session, contact, enquiryId, adminEmail, adminSent, userSent);
      && ItemsInCatalog(store.products, items)
      && (r.outcome.Success? ==>
            && ReserveStock(store.products, items).Success?
            && r.store.products == ReserveStock(store.products, items).value.0
            && r.outcome.value.enquiry.items == ReserveStock(store.products, items).value.1)
      && ((r.outcome.Failure? && r.outcome.error.OutOfStock?) <==>
            && |items| > 0
            && Subtotal(items) >= Delivery.MinimumOrder - Delivery.StandardFee
            && ReserveStock(store.products, items).Failure?)
  {
    var items := SessionItems(store.cart, store.products, session);
    if |items| > 0 {
      Delivery.MinimumOrderOnSubtotal(Subtotal(items));
    }
  }

  /** Some product in the session's cart has less stock than the cart holds. */
  predicate ShortProduct(store: Store, session: string) {
    exists pid :: pid in store.products && LineFor(store.cart, CartKey(session, pid)).Some?
      && store.products[pid].stock < Wanted(store, session, pid)
  }

  /** Checkout fails for stock exactly when, past the two early checks, some
      product in the cart has less stock than the cart asks for. */
  lemma CheckoutOutOfStock(store: Store, session: string, contact: Contact, enquiryId: nat,
                           adminEmail: string, adminSent: bool, userSent: bool)
    requires KeysUnique(store.cart)
    ensures (var r := SubmitEnquiry(store, session, contact, enquiryId, adminEmail, adminSent, userSent);
             r.outcome.Failure? && r.outcome.error.OutOfStock?)
      <==>
      var items := SessionItems(store.cart, store.products, session);
      && |items| > 0
      && Subtotal(items) >= Delivery.MinimumOrder - Delivery.StandardFee
      && ShortProduct(store, session)
  {
    var items := SessionItems(store.cart, store.products, session);
    SubmitEnquiryStages(store, session, contact, enquiryId, adminEmail, adminSent, userSent);
    SessionItemsDistinct(store.cart, store.products, session);
    SessionItemsSound(store.cart, store.products, session);
    assert ItemsStored(store.cart, session, items);
    if |items| > 0 && Subtotal(items) >= Delivery.MinimumOrder - Delivery.StandardFee {
      ReserveStockDistinct(store.products, items);
      var short := ShortProduct(store, session);
      if !AllStocked(store.products, items) {
        var i :| 0 <= i < |items| && store.products[items[i].line.productId].stock < items[i].line.quantity;
        var pid := items[i].line.productId;
        assert LineFor(store.cart, CartKey(session, pid)) == Some(items[i].line.quantity);
        assert short;
      }
      if short {
        var pid :| pid in store.products && LineFor(store.cart, CartKey(session, pid)).Some?
          && store.products[pid].stock < Wanted(store, session, pid);
        SessionItemsComplete(store.cart, store.products, session, pid);
        var i :| 0 <= i < |items| && items[i].line.productId == pid;
        assert !AllStocked(store.products, items);
      }
    }
  }

  /** Checkout succeeds exactly when the cart joins to at least one product,
      the subtotal clears the minimum and no product falls short. */
  lemma CheckoutSucceeds(store: Store, session: string, contact: Contact, enquiryId: nat,
                         adminEmail: string, adminSent: bool, userSent: bool)
    requires KeysUnique(store.cart)
    ensures SubmitEnquiry(store, session, contact, enquiryId, adminEmail, adminSent, userSent).outcome.Success?
      <==>
      var items := SessionItems(store.cart, store.products, session);
      && |items| > 0
      && Subtotal(items) >= Delivery.MinimumOrder - Delivery.StandardFee
      && !ShortProduct(store, session)
  {
    CheckoutOutOfStock(store, session, contact, enquiryId, adminEmail, adminSent, userSent);
  }

  /** A successful checkout takes from each product's stock exactly the
      quantity the session's cart held of it, leaves every other field and
      every other product alone, and never drives stock below zero for the
      products it touched. */
  lemma CheckoutTakesStock(store: Store, session: string, contact: Contact, enquiryId: nat,
                           adminEmail: string, adminSent: bool, userSent: bool, pid: string)
    requires KeysUnique(store.cart)
    requires SubmitEnquiry(store, session, contact, enquiryId, adminEmail, adminSent, userSent).outcome.Success?
    ensures var after := SubmitEnquiry(store, session, contact, enquiryId, adminEmail, adminSent, userSent).store.products;
      && (pid in after <==> pid in store.products)
      && (pid in store.products ==>
            && after[pid] == store.products[pid].(stock := store.products[pid].stock - Wanted(store, session, pid))
            && (LineFor(store.cart, CartKey(session, pid)).Some? ==> after[pid].stock >= 0))
  {
    var items := SessionItems(store.cart, store.products, session);
    SubmitEnquiryStages(store, session, contact, enquiryId, adminEmail, adminSent, userSent);
    if pid in store.products {
      QuantityInSessionItems(store.cart, store.products, session, pid);
      if LineFor(store.cart, CartKey(session, pid)).Some? {
        SessionItemsDistinct(store.cart, store.products, session);
        SessionItemsComplete(store.cart, store.products, session, pid);
        SessionItemsSound(store.cart, store.products, session);
        CartedStockCovered(store, session, items, pid);
      }
    }
  }

  /** When the stock loop succeeds, a carted product's stock covers the
      quantity the cart holds of it. */
  lemma CartedStockCovered(store: Store, session: string, items: seq<CartItem>, pid: string)
    requires ItemsInCatalog(store.products, items) && DistinctProducts(items)
    requires ReserveStock(store.products, items).Success?
    requires ItemsStored(store.cart, session, items) && HasProduct(items, pid)
    ensures pid in store.products && store.products[pid].stock >= Wanted(store, session, pid)
  {
    ReserveStockDistinct(store.products, items);
    var i :| 0 <= i < |items| && items[i].line.productId == pid;
    assert store.products[pid].stock >= items[i].line.quantity;
  }

  /** The recorded lines are the session's cart: one per product in the cart
      and in the table, each with the stored quantity and the product's price,
      and no product twice. */
  lemma CheckoutRecordsCart(store: Store, session: string, contact: Contact, enquiryId: nat,
                            adminEmail: string, adminSent: bool, userSent: bool)
    requires KeysUnique(store.cart)
    requires SubmitEnquiry(store, session, contact, enquiryId, adminEmail, adminSent, userSent).outcome.Success?
    ensures var lines := SubmitEnquiry(store, session, contact, enquiryId, adminEmail, adminSent, userSent)
                           .outcome.value.enquiry.items;
      && (forall i :: 0 <= i < |lines| ==>
            && lines[i].productId in store.products
            && LineFor(store.cart, CartKey(session, lines[i].productId)) == Some(lines[i].quantity)
            && lines[i].price == store.products[lines[i].productId].price)
      && (forall i, j :: 0 <= i < j < |lines| ==> lines[i].productId != lines[j].productId)
      && (forall pid :: pid in store.products && LineFor(store.cart, CartKey(session, pid)).Some? ==>
            exists i :: 0 <= i < |lines| && lines[i].productId == pid)
  {
    var items := SessionItems(store.cart, store.products, session);
    var lines := SubmitEnquiry(store, session, contact, enquiryId, adminEmail, adminSent, userSent).outcome.value.enquiry.items;
    SubmitEnquiryStages(store, session, contact, enquiryId, adminEmail, adminSent, userSent);
    SessionItemsDistinct(store.cart, store.products, session);
    SessionItemsSound(store.cart, store.products, session);
    assert ItemsStored(store.cart, session, items);
    assert |lines| == |items|;
    forall i | 0 <= i < |lines|
      ensures lines[i].productId == items[i].line.productId && lines[i].quantity == items[i].line.quantity
      ensures lines[i].price == store.products[lines[i].productId].price
    {
    }
    forall i | 0 <= i < |lines|
      ensures lines[i].productId in store.products
      ensures LineFor(store.cart, CartKey(session, lines[i].productId)) == Some(lines[i].quantity)
    {
    }
    forall pid | pid in store.products && LineFor(store.cart, CartKey(session, pid)).Some?
      ensures exists i :: 0 <= i < |lines| && lines[i].productId == pid
    {
      SessionItemsComplete(store.cart, store.products, session, pid);
      var i :| 0 <= i < |items| && items[i].line.productId == pid;
      assert lines[i].productId == pid;
    }
  }

  /** Checkout keeps the tables' invariants: every product row stays well
      formed and the cart keeps unique keys and positive quantities. */
  lemma CheckoutPreservesInvariants(store: Store, session: string, contact: Contact, enquiryId: nat,
                                    adminEmail: string, adminSent: bool, userSent: bool)
    requires Valid(store.cart) && Catalog.AllWellFormed(store.products)
    ensures var after := SubmitEnquiry(store, session, contact, enquiryId, adminEmail, adminSent, userSent).store;
      Valid(after.cart) && Catalog.AllWellFormed(after.products)
  {
    var r := SubmitEnquiry(store, session, contact, enquiryId, adminEmail, adminSent, userSent);
    if r.outcome.Success? {
      ClearSessionLines(store.cart, session);
      forall pid | pid in r.store.products
        ensures Catalog.WellFormed(r.store.products[pid])
      {
        CheckoutTakesStock(store, session, contact, enquiryId, adminEmail, adminSent, userSent, pid);
        if LineFor(store.cart, CartKey(session, pid)).None? {
          assert Wanted(store, session, pid) == 0;
        }
      }
    }
  }
}
