/** The product table and the admin operations that write it: creating a
    product and updating its fields, each guarded by field rules that keep
    price <= mrp, min_order_qty >= 1 and stock >= 0. */
module Catalog {
  import opened Wrappers
  import PublicIds
  import Uploads

  /** The columns of a product row the storefront logic reads. Money is in
      integer paise. */
  datatype Product = Product(
    name: string,
    categoryId: string,
    brandId: string,
    price: int,
    mrp: int,
    minOrderQty: int,
    stock: int,
    isActive: bool)

  /** Product rows keyed by their public id (`PRD000042`). */
  type ProductTable = map<string, Product>

  predicate WellFormed(p: Product) {
    p.price <= p.mrp && p.minOrderQty >= 1 && p.stock >= 0
  }

  predicate AllWellFormed(products: ProductTable) {
    forall id :: id in products ==> WellFormed(products[id])
  }

  /** The table's unique constraint on `name`, seen from one row. */
  predicate NameUsedByOther(products: ProductTable, name: string, self: string) {
    exists id :: id in products && id != self && products[id].name == name
  }

  predicate NameUsed(products: ProductTable, name: string) {
    exists id :: id in products && products[id].name == name
  }

  datatype CatalogError =
    | InvalidCategory
    | InvalidImageFormat
    | InvalidBrand
    | PriceExceedsMrp
    | InvalidMinOrderQty
    | NegativeStock
    | ProductNotFound
    | IntegrityViolation
  {
    /** Refusals raised by the per-field rules of an update. */
    predicate FieldRule?() {
      PriceExceedsMrp? || InvalidMinOrderQty? || NegativeStock? || InvalidCategory? || InvalidBrand?
    }
  }

  /** The product table after an admin operation, and either the public id of
      the row written or the reason the operation was rejected. */
  datatype CatalogStep = CatalogStep(products: ProductTable, outcome: Result<string, CatalogError>)

  /** Form fields of `create_product`. `mrp`, `price`, `pack_size` and `uom`
      may be omitted; `min_order_qty` and `stock` default to 1 and 0 before
      they get here. */
  datatype NewProduct = NewProduct(
    categoryId: string,
    brandId: string,
    name: string,
    imageName: string,
    mrp: Option<int>,
    price: Option<int>,
    packSize: Option<string>,
    uom: Option<string>,
    minOrderQty: int,
    stock: int)

  /** The route's own price check: it compares only when both are given. */
  predicate PriceAboveMrp(req: NewProduct) {
    req.price.Some? && req.mrp.Some? && req.price.value > req.mrp.value
  }

  /** The checks `create_product` makes itself, before it writes anything. */
  predicate CreateRulesHold(activeCategories: set<string>, activeBrands: set<string>, req: NewProduct) {
    && req.categoryId in activeCategories
    && Uploads.ImageExtensionValid(req.imageName)
    && req.brandId in activeBrands
    && !PriceAboveMrp(req)
    && req.minOrderQty >= 1
    && req.stock >= 0
  }

  /** What the table itself refuses on insert: an omitted NOT NULL column
      (mrp, price, pack_size, uom), a name already used, or a public id
      already taken. */
  predicate InsertRefused(products: ProductTable, req: NewProduct, rowId: nat) {
    || req.mrp.None? || req.price.None? || req.packSize.None? || req.uom.None?
    || NameUsed(products, req.name)
    || PublicIds.ProductId(rowId) in products
  }

  /** Everything `create_product` demands of a request before it commits. */
  predicate CreateAccepted(products: ProductTable, activeCategories: set<string>, activeBrands: set<string>,
                           req: NewProduct, rowId: nat)
  {
    CreateRulesHold(activeCategories, activeBrands, req) && !InsertRefused(products, req, rowId)
  }

  /** The first rule of `create_product` a request breaks, in the route's
      order; a request that passes the route's own checks can still be
      refused by the NOT NULL and unique constraints on insert. */
  function CreateRejection(products: ProductTable, activeCategories: set<string>, activeBrands: set<string>,
                           req: NewProduct, rowId: nat): (r: Option<CatalogError>)
    ensures r.None? <==> CreateAccepted(products, activeCategories, activeBrands, req, rowId)
    ensures r == Some(InvalidCategory) <==> req.categoryId !in activeCategories
    ensures r == Some(InvalidImageFormat) <==>
      req.categoryId in activeCategories && !Uploads.ImageExtensionValid(req.imageName)
    ensures r == Some(InvalidBrand) <==>
      && req.categoryId in activeCategories && Uploads.ImageExtensionValid(req.imageName)
      && req.brandId !in activeBrands
    ensures r == Some(PriceExceedsMrp) <==>
      && req.categoryId in activeCategories && Uploads.ImageExtensionValid(req.imageName)
      && req.brandId in activeBrands
      && req.price.Some? && req.mrp.Some? && req.price.value > req.mrp.value
    ensures r == Some(InvalidMinOrderQty) <==>
      && req.categoryId in activeCategories && Uploads.ImageExtensionValid(req.imageName)
      && req.brandId in activeBrands && !PriceAboveMrp(req)
      && req.minOrderQty <= 0
    ensures r == Some(NegativeStock) <==>
      && req.categoryId in activeCategories && Uploads.ImageExtensionValid(req.imageName)
      && req.brandId in activeBrands && !PriceAboveMrp(req)
      && req.minOrderQty >= 1 && req.stock < 0
    ensures r == Some(IntegrityViolation) <==>
      CreateRulesHold(activeCategories, activeBrands, req) && InsertRefused(products, req, rowId)
  {
    if req.categoryId !in activeCategories then Some(InvalidCategory)
    else if !Uploads.ImageExtensionValid(req.imageName) then Some(InvalidImageFormat)
    else if req.brandId !in activeBrands then Some(InvalidBrand)
    else if PriceAboveMrp(req) then Some(PriceExceedsMrp)
    else if req.minOrderQty <= 0 then Some(InvalidMinOrderQty)
    else if req.stock < 0 then Some(NegativeStock)
    else if InsertRefused(products, req, rowId) then Some(IntegrityViolation)
    else None
  }

  /** `create_product`: either the table is unchanged and the first broken
      rule is reported, or one active, well-formed row is added under the
      public id of `rowId`, the primary key the insert receives. */
  function CreateProduct(products: ProductTable, activeCategories: set<string>, activeBrands: set<string>,
                         req: NewProduct, rowId: nat): (r: CatalogStep)
    ensures r.outcome.Failure? ==> r.products == products
    ensures r.outcome.Failure? ==>
      Some(r.outcome.error) == CreateRejection(products, activeCategories, activeBrands, req, rowId)
    ensures r.outcome.Success? <==> CreateAccepted(products, activeCategories, activeBrands, req, rowId)
    ensures r.outcome.Success? ==>
      var id := r.outcome.value;
      && id == PublicIds.ProductId(rowId)
      && id !in products
      && id in r.products
      && r.products == products[id := r.products[id]]
      && WellFormed(r.products[id])
      && r.products[id].isActive
      && r.products[id].name == req.name
      && r.products[id].categoryId == req.categoryId
      && r.products[id].brandId == req.brandId
      && r.products[id].price == req.price.value
      && r.products[id].mrp == req.mrp.value
      && r.products[id].stock == req.stock
      && r.products[id].minOrderQty == req.minOrderQty
    ensures AllWellFormed(products) ==> AllWellFormed(r.products)
  {
    match CreateRejection(products, activeCategories, activeBrands, req, rowId)
    case Some(e) => CatalogStep(products, Failure(e))
    case None =>
      var id := PublicIds.ProductId(rowId);
      var p := Product(req.name, req.categoryId, req.brandId, req.price.value, req.mrp.value,
                       req.minOrderQty, req.stock, true);
      CatalogStep(products[id := p], Success(id))
  }

  /** Form fields of `update_product`; an absent field leaves the column as
      it is. */
  datatype ProductUpdate = ProductUpdate(
    name: Option<string>,
    mrp: Option<int>,
    price: Option<int>,
    minOrderQty: Option<int>,
    stock: Option<int>,
    categoryId: Option<string>,
    brandId: Option<string>,
    imageName: Option<string>)

  /** A new mrp is applied only when positive, and refused below the
      current price. */
  function ApplyMrp(p: Product, mrp: Option<int>): (r: Result<Product, CatalogError>)
    ensures r.Success? ==> r.value == p.(mrp := r.value.mrp)
    ensures r.Failure? ==> r.error == PriceExceedsMrp
  {
    if mrp.Some? && mrp.value > 0 then
      if p.price > mrp.value then Failure(PriceExceedsMrp) else Success(p.(mrp := mrp.value))
    else Success(p)
  }

  /** A new price is applied only when positive, and refused above the mrp
      the product has at that point (possibly just updated). */
  function ApplyPrice(p: Product, price: Option<int>): (r: Result<Product, CatalogError>)
    ensures r.Success? ==> r.value == p.(price := r.value.price)
    ensures r.Failure? ==> r.error == PriceExceedsMrp
  {
    if price.Some? && price.value > 0 then
      if price.value > p.mrp then Failure(PriceExceedsMrp) else Success(p.(price := price.value))
    else Success(p)
  }

  function ApplyMinOrderQty(p: Product, minOrderQty: Option<int>): (r: Result<Product, CatalogError>)
    ensures r.Success? ==> r.value == p.(minOrderQty := r.value.minOrderQty)
    ensures r.Failure? ==> r.error == InvalidMinOrderQty
  {
    match minOrderQty
    case None => Success(p)
    case Some(q) => if q <= 0 then Failure(InvalidMinOrderQty) else Success(p.(minOrderQty := q))
  }

  function ApplyStock(p: Product, stock: Option<int>): (r: Result<Product, CatalogError>)
    ensures r.Success? ==> r.value == p.(stock := r.value.stock)
    ensures r.Failure? ==> r.error == NegativeStock
  {
    match stock
    case None => Success(p)
    case Some(s) => if s < 0 then Failure(NegativeStock) else Success(p.(stock := s))
  }

  function ApplyCategory(p: Product, categoryId: Option<string>, activeCategories: set<string>)
    : (r: Result<Product, CatalogError>)
    ensures r.Success? ==> r.value == p.(categoryId := r.value.categoryId)
    ensures r.Failure? ==> r.error == InvalidCategory
  {
    match categoryId
    case None => Success(p)
    case Some(c) => if c !in activeCategories then Failure(InvalidCategory) else Success(p.(categoryId := c))
  }

  function ApplyBrand(p: Product, brandId: Option<string>, activeBrands: set<string>)
    : (r: Result<Product, CatalogError>)
    ensures r.Success? ==> r.value == p.(brandId := r.value.brandId)
    ensures r.Failure? ==> r.error == InvalidBrand
  {
    match brandId
    case None => Success(p)
    case Some(b) => if b !in activeBrands then Failure(InvalidBrand) else Success(p.(brandId := b))
  }

  /** The field assignments of `update_product`, in the route's order; the
      first refusal abandons the whole update. */
  function ApplyUpdate(p: Product, req: ProductUpdate, activeCategories: set<string>, activeBrands: set<string>)
    : (r: Result<Product, CatalogError>)
    ensures r.Failure? ==> r.error.FieldRule?()
    ensures r.Success? <==> FieldRulesHold(p, req, activeCategories, activeBrands)
    ensures r.Success? ==> r.value == Updated(p, req)
  {
    PricingSpec(p, req);
    var priced :- ApplyPricing(p, req);
    QuantitiesAndLinksSpec(priced, req, activeCategories, activeBrands);
    ApplyQuantitiesAndLinks(priced, req, activeCategories, activeBrands)
  }

  /** Name, then mrp, then price. */
  function ApplyPricing(p: Product, req: ProductUpdate): (r: Result<Product, CatalogError>)
    ensures r.Failure? ==> r.error == PriceExceedsMrp
  {
    var named := if req.name.Some? then p.(name := req.name.value) else p;
    var withMrp :- ApplyMrp(named, req.mrp);
    ApplyPrice(withMrp, req.price)
  }

  /** Minimum order quantity, stock, category, then brand. */
  function ApplyQuantitiesAndLinks(p: Product, req: ProductUpdate, activeCategories: set<string>,
                                   activeBrands: set<string>): (r: Result<Product, CatalogError>)
    ensures r.Failure? ==> r.error.FieldRule?() && !r.error.PriceExceedsMrp?
  {
    var withQty :- ApplyMinOrderQty(p, req.minOrderQty);
    var withStock :- ApplyStock(withQty, req.stock);
    var withCategory :- ApplyCategory(withStock, req.categoryId, activeCategories);
    ApplyBrand(withCategory, req.brandId, activeBrands)
  }

  /** The pricing steps accept exactly when a positive new mrp is not below
      the current price and a positive new price is not above the mrp then in
      force. */
  lemma PricingSpec(p: Product, req: ProductUpdate)
    ensures var r := ApplyPricing(p, req);
      var newMrp := EffectivePositive(req.mrp, p.mrp);
      && (r.Success? <==>
          && (req.mrp.Some? && req.mrp.value > 0 ==> p.price <= req.mrp.value)
          && (req.price.Some? && req.price.value > 0 ==> req.price.value <= newMrp))
      && (r.Success? ==> r.value == p.(name := Effective(req.name, p.name), mrp := newMrp,
                                       price := EffectivePositive(req.price, p.price)))
  {
    var named := if req.name.Some? then p.(name := req.name.value) else p;
    var m := ApplyMrp(named, req.mrp);
  }

  lemma QuantitiesAndLinksSpec(p: Product, req: ProductUpdate, activeCategories: set<string>,
                               activeBrands: set<string>)
    ensures var r := ApplyQuantitiesAndLinks(p, req, activeCategories, activeBrands);
      && (r.Success? <==>
          && (req.minOrderQty.Some? ==> req.minOrderQty.value > 0)
          && (req.stock.Some? ==> req.stock.value >= 0)
          && (req.categoryId.Some? ==> req.categoryId.value in activeCategories)
          && (req.brandId.Some? ==> req.brandId.value in activeBrands))
      && (r.Success? ==> r.value == p.(minOrderQty := Effective(req.minOrderQty, p.minOrderQty),
                                       stock := Effective(req.stock, p.stock),
                                       categoryId := Effective(req.categoryId, p.categoryId),
                                       brandId := Effective(req.brandId, p.brandId)))
  {
    var q := ApplyMinOrderQty(p, req.minOrderQty);
    if q.Success? {
      var s := ApplyStock(q.value, req.stock);
      if s.Success? {
        var c := ApplyCategory(s.value, req.categoryId, activeCategories);
      }
    }
  }

  /** Helpers naming the value a field takes after an accepted update. */
  function Effective<T>(given: Option<T>, current: T): T {
    if given.Some? then given.value else current
  }

  function EffectivePositive(given: Option<int>, current: int): int {
    if given.Some? && given.value > 0 then given.value else current
  }

  /** An update may omit the image; a given one must pass the upload filter. */
  predicate ImageAcceptable(req: ProductUpdate) {
    req.imageName.None? || Uploads.ImageExtensionValid(req.imageName.value)
  }

  /** The per-field rules of `update_product`, stated on the row as it was
      before the request. */
  predicate FieldRulesHold(p: Product, req: ProductUpdate, activeCategories: set<string>, activeBrands: set<string>) {
    && (req.mrp.Some? && req.mrp.value > 0 ==> p.price <= req.mrp.value)
    && (req.price.Some? && req.price.value > 0 ==> req.price.value <= EffectivePositive(req.mrp, p.mrp))
    && (req.minOrderQty.Some? ==> req.minOrderQty.value > 0)
    && (req.stock.Some? ==> req.stock.value >= 0)
    && (req.categoryId.Some? ==> req.categoryId.value in activeCategories)
    && (req.brandId.Some? ==> req.brandId.value in activeBrands)
  }

  /** The row an accepted update produces: given text fields and ids as
      given, mrp and price only when positive, everything else kept. */
  function Updated(p: Product, req: ProductUpdate): Product {
    Product(
      Effective(req.name, p.name),
      Effective(req.categoryId, p.categoryId),
      Effective(req.brandId, p.brandId),
      EffectivePositive(req.price, p.price),
      EffectivePositive(req.mrp, p.mrp),
      Effective(req.minOrderQty, p.minOrderQty),
      Effective(req.stock, p.stock),
      p.isActive)
  }

  /** Everything `update_product` demands of a request. */
  predicate UpdateAccepted(products: ProductTable, activeCategories: set<string>, activeBrands: set<string>,
                           id: string, req: ProductUpdate)
  {
    && ImageAcceptable(req)
    && id in products
    && FieldRulesHold(products[id], req, activeCategories, activeBrands)
    && !NameUsedByOther(products, Effective(req.name, products[id].name), id)
  }

  /** `update_product`. The image name is checked before the row is looked
      up; any later refusal rolls the row back. */
  function UpdateProduct(products: ProductTable, activeCategories: set<string>, activeBrands: set<string>,
                         id: string, req: ProductUpdate): (r: CatalogStep)
    ensures r.outcome.Failure? ==> r.products == products
    ensures r.outcome.Success? ==> r.outcome.value == id && id in products
    ensures r.outcome == Failure(InvalidImageFormat) <==> !ImageAcceptable(req)
    ensures r.outcome == Failure(ProductNotFound) <==> ImageAcceptable(req) && id !in products
    ensures r.outcome.Success? ==> id in r.products && r.products == products[id := r.products[id]]
  {
    if !ImageAcceptable(req) then CatalogStep(products, Failure(InvalidImageFormat))
    else if id !in products then CatalogStep(products, Failure(ProductNotFound))
    else
      match ApplyUpdate(products[id], req, activeCategories, activeBrands)
      case Failure(e) => CatalogStep(products, Failure(e))
      case Success(p) =>
        if NameUsedByOther(products, p.name, id) then CatalogStep(products, Failure(IntegrityViolation))
        else CatalogStep(products[id := p], Success(id))
  }

  /** An update succeeds exactly when its image name passes, the row exists,
      every field rule holds and the resulting name is not another row's. */
  lemma UpdateProductAccepts(products: ProductTable, activeCategories: set<string>, activeBrands: set<string>,
                             id: string, req: ProductUpdate)
    ensures UpdateProduct(products, activeCategories, activeBrands, id, req).outcome.Success?
        <==> UpdateAccepted(products, activeCategories, activeBrands, id, req)
  {
  }

  /** An accepted update sets exactly the requested columns of its row. */
  lemma UpdateProductResult(products: ProductTable, activeCategories: set<string>, activeBrands: set<string>,
                            id: string, req: ProductUpdate)
    requires UpdateProduct(products, activeCategories, activeBrands, id, req).outcome.Success?
    ensures UpdateProduct(products, activeCategories, activeBrands, id, req).products[id] == Updated(products[id], req)
  {
  }

  /** Updates keep every row well formed: price <= mrp because a new mrp is
      checked against the price and a new price against the mrp, and the
      quantity rules refuse what would break the other two bounds. */
  lemma UpdatePreservesWellFormed(products: ProductTable, activeCategories: set<string>,
                                  activeBrands: set<string>, id: string, req: ProductUpdate)
    requires AllWellFormed(products)
    ensures AllWellFormed(UpdateProduct(products, activeCategories, activeBrands, id, req).products)
  {
    var r := UpdateProduct(products, activeCategories, activeBrands, id, req);
    if r.outcome.Success? {
      UpdateProductAccepts(products, activeCategories, activeBrands, id, req);
      UpdateProductResult(products, activeCategories, activeBrands, id, req);
      assert WellFormed(products[id]);
      assert WellFormed(r.products[id]);
    }
  }

  /** A positive mrp below the current price is refused even when a lower
      price arrives in the same request, because mrp is checked first. */
  lemma MrpCheckedBeforePrice(p: Product, activeCategories: set<string>, activeBrands: set<string>)
    requires WellFormed(p) && p.price > 1
    ensures var req := ProductUpdate(None, Some(p.price - 1), Some(1), None, None, None, None, None);
      ApplyUpdate(p, req, activeCategories, activeBrands) == Failure(PriceExceedsMrp)
  {
  }
}
