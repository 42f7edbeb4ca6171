# Wholesale storefront: cart, checkout and catalog rules

A Dafny model of the part of the wholesale-backend service that has behaviour
worth stating. That part has two halves.

The first half is the anonymous-session **cart and enquiry checkout** of the
public API:
- adding, decreasing and removing cart lines;
- the cart view and its totals;
- the tiered delivery fee;
- the checkout transaction. It reserves stock, records one snapshot per line
  and empties the session's cart, or rolls everything back.

The second half is the **catalog-side helpers and rules** of the admin API:
- the image-extension whitelist;
- the zero-padded public ids (`CAT0007`, `PRD000042`);
- the client address taken from `X-Forwarded-For`;
- the audit snapshot of a row;
- the field rules of product creation and update, which keep every product
  at `price <= mrp`, `min_order_qty >= 1` and `stock >= 0`.

State is immutable:
- The cart table is a sequence of rows. `Cart.LineFor` reads it as the map
  from (session, product) to quantity.
- The product table is a map from public id to row.

Each route that can fail is a function from the old state to a pair: the new
state, and either an error or a result. On every error path the state is
unchanged. That is how the model shows the transaction rollbacks. The cart
removal cannot fail and returns the new table alone; the cart view is a
method that only reads.

The join of the session's cart rows with the product table has no ORDER BY
in the route, so the database chooses its row order. The model fixes it to
the cart table's row order. That choice decides which product an
out-of-stock failure names (the first short line) and the order of the
enquiry's recorded lines; which lines are recorded, and whether checkout
succeeds, do not depend on it.

Money is integer paise (1 rupee = 100 paise), because prices are stored with
two decimals. The checkout thresholds are therefore 150000 and 120000 paise.
The fees are 3000 and 6000 paise, and the minimum order is 120000 paise.

Files, one module each:
- `wrappers.dfy`: `Option`, `Result`, `Outcome`.
- `delivery.dfy`: the fee schedules and the minimum order.
- `public_ids.dfy`: decimal digits, Python's `zfill`, and the public-id schemes.
- `uploads.dfy`: the image-extension whitelist.
- `client_address.dfy`: `split(',')[0].strip()` on the forwarded-for header.
- `snapshots.dfy`: audit snapshots.
- `catalog.dfy`: products, `create_product` and `update_product`.
- `cart.dfy`: the cart table, its routes and the cart/product join.
- `checkout.dfy`: `submit_enquiry`.

## Model

| member | source | states |
|---|---|---|
| Delivery.CalculateDelivery | app/routes/user_routes.py:90-95 | the fee is always 0, 30 or 60 rupees. It is 0 exactly when the subtotal is at least 1500, 30 exactly when 1200 <= subtotal < 1500, and 60 exactly below 1200 |
| Delivery.DeliveryMonotone | app/routes/user_routes.py:90-95 | a larger subtotal never pays a larger fee |
| Delivery.CartViewDelivery | app/routes/user_routes.py:419 | the cart view shows 50 rupees exactly when the subtotal is positive, and 0 otherwise |
| Delivery.MinimumOrderOnSubtotal | app/routes/user_routes.py:453-458 | the grand total reaches the 1200-rupee minimum exactly when the subtotal is at least 1140 |
| Cart.AddToCart | app/routes/user_routes.py:306-336 | the checks run in order (quantity <= 0; product missing or inactive; quantity below min_order_qty, compared with the amount added; new total above stock). Each error holds exactly when its condition holds and the earlier ones do not, and leaves the cart unchanged. Success holds exactly when all four checks pass, and the line then holds old quantity + qty, which is at most the stock. No other (session, product) entry changes, and unique keys and positive quantities are kept |
| Cart.DecreaseCartItem | app/routes/user_routes.py:352-362 | it fails with "not in cart" exactly when the line is absent, and then the cart is unchanged; it succeeds exactly when the line is present. With unique keys the line then drops by exactly one, and is deleted when that leaves zero or less. Other lines are untouched, and stored quantities stay positive |
| Cart.RemoveCartItem | app/routes/user_routes.py:378-383 | afterwards the (session, product) line is absent, whether or not it was there. Every other line is untouched |
| Cart.RemoveIdempotent | app/routes/user_routes.py:378-383 | removing twice gives the same table as removing once |
| Cart.SessionItems | app/routes/user_routes.py:396-401 | the inner join: every joined item is one of the session's rows, its product exists, and it carries that product's current row. There are never more items than cart rows |
| Cart.SessionItemsSound | app/routes/user_routes.py:443-448 | with unique keys, each joined item carries the session's stored quantity for its product |
| Cart.SessionItemsComplete | app/routes/user_routes.py:443-448 | every stored line of the session whose product exists is in the join, whether the product is active or not |
| Cart.SessionItemsDistinct | app/models/cart.py:40 | under the (session, product) unique constraint, no product is joined twice |
| Cart.QuantityInSessionItems | app/routes/user_routes.py:443-448 | for each product, the join holds exactly the quantity the session's cart stores |
| Cart.ClearSessionLines | app/routes/user_routes.py:501-503 | deleting a session's rows removes every key of that session and leaves every other key as it was |
| Cart.ViewCart | app/routes/user_routes.py:396-425 | one view line per joined row, carrying the product's current price and total = price x qty. The subtotal is the sum of price x qty over the session's joined rows. Delivery is the flat cart-view fee, grand total = subtotal + delivery, and the cart is only read |
| Checkout.ReserveStock | app/routes/user_routes.py:485-499 | on success the product table equals the reference table, in which each product's stock is lowered by the quantity the items hold of it and nothing else changes. One snapshot is recorded per item, carrying its product id, quantity and price |
| Checkout.ReserveStockReportsCartProduct | app/routes/user_routes.py:485-490 | the product named by an out-of-stock failure is one of the cart's products |
| Checkout.ReserveStockDistinct | app/routes/user_routes.py:485-491 | with each product on one line, the loop succeeds exactly when every line's stock covers its quantity. Otherwise it names the first line that is short |
| Checkout.SubmitEnquiry | app/routes/user_routes.py:441-567 | on any failure the store is unchanged. The empty-cart error holds exactly when the join is empty. The minimum-order error holds exactly when the subtotal is below 1140. On success: the enquiry is NEW with the given id and contact; its subtotal is the sum over its recorded lines; the delivery is the tiered fee; grand total = subtotal + delivery >= 1200. Two email logs are written, admin first, then customer. This session's cart lines are gone and all other lines are unchanged |
| Checkout.TotalsAgree | app/routes/user_routes.py:453 | the recorded lines total exactly the subtotal computed from the join |
| Checkout.CheckoutEmptyCart | app/routes/user_routes.py:443-451 | checkout reports an empty cart exactly when none of the session's lines names a product in the table |
| Checkout.CheckoutOutOfStock | app/routes/user_routes.py:485-509 | checkout fails for stock exactly when the cart is non-empty, the minimum is met, and some carted product has less stock than the cart holds. The store is then unchanged, as the rollback promises |
| Checkout.CheckoutSucceeds | app/routes/user_routes.py:450-509 | checkout succeeds exactly when the join is non-empty, the subtotal is at least 1140, and no carted product is short |
| Checkout.CheckoutTakesStock | app/routes/user_routes.py:485-494 | after success, each product's stock is lowered by exactly the session's cart quantity of it, which is zero for uncarted products. Every other column is kept, no product is added or dropped, and carted products end with stock >= 0 |
| Checkout.CheckoutRecordsCart | app/routes/user_routes.py:493-498 | the recorded lines are exactly the session's carted products in the table: one line each, no product twice, with the stored quantity and the product's price |
| Checkout.CheckoutPreservesInvariants | app/routes/user_routes.py:485-503 | checkout keeps every product at price <= mrp, min_order_qty >= 1 and stock >= 0, and keeps the cart's unique keys and positive quantities |
| PublicIds.ZFill | app/routes/admin_routes.py:946 | Python's zfill. The length is max(width, len). For a digit string, the original is a suffix and the numeric value is kept. Padding is zeros, after any leading sign |
| PublicIds.PublicId | app/routes/admin_routes.py:946 | the id is the prefix followed by digits whose value is the row id, and its length is prefix + max(width, number of digits), so it is never truncated |
| PublicIds.DecimalRoundTrip | app/routes/admin_routes.py:946 | reading back the decimal text of n gives n |
| PublicIds.PublicIdRoundTrip | app/routes/admin_routes.py:946 | parsing a public id with its prefix recovers the row id |
| PublicIds.PublicIdInjective | app/routes/admin_routes.py:424 | different row ids get different public ids under one prefix and width |
| PublicIds.StripPaddingRecoversDecimal | app/routes/admin_routes.py:676 | stripping the prefix and the leading zeros of a positive id's public id leaves exactly its decimal text |
| PublicIds.SchemeLengths | app/routes/admin_routes.py:195 | CAT, BRD and ADM ids are 3 + max(4, digits) long, and PRD ids are 3 + max(6, digits) |
| Uploads.ImageExtensionValid | app/routes/admin_routes.py:69-70 | a name passes exactly when it is an allowed extension on its own, or ends in '.' followed by one. The comparison is case-sensitive |
| ClientAddress.GetClientIp | app/routes/admin_routes.py:29-33 | an absent or empty header falls back to the peer address (possibly none). Otherwise the result has no comma, does not start or end with whitespace, and is no longer than the header |
| ClientAddress.FirstHopRecovered | app/routes/admin_routes.py:29-33 | whatever whitespace pads the first hop and whatever follows the first comma, the result is exactly that hop |
| ClientAddress.BlankFirstHop | app/routes/admin_routes.py:29-33 | a non-empty header whose first element is blank (`" "`, `", 10.0.0.1"`) records the empty string, not the peer address |
| Snapshots.Snapshot | app/routes/admin_routes.py:66-67 | the snapshot exists exactly when every listed field is a column of the row. Its keys are exactly the listed fields, and each is bound to the row's value |
| Catalog.CreateRejection | app/routes/admin_routes.py:898-919 | the first broken rule, in the route's order. The category error holds exactly when the category is not active. The image error holds exactly when the category is fine and the extension is not allowed. The brand, price-above-mrp (when both are given), min_order_qty <= 0 and stock < 0 errors each hold exactly when their rule is broken and every earlier rule holds. The insert refusal holds exactly when all the route's rules hold but an omitted mrp, price, pack_size or uom, a used name or a taken public id makes the table refuse the row. No rule is broken exactly when the request is acceptable |
| Catalog.CreateProduct | app/routes/admin_routes.py:929-981 | on failure the table is unchanged and the first broken rule is reported. Success holds exactly when the request is acceptable. The new row then sits under PRD + zero-padded row id, that id was free, the row is active and well formed and carries the requested name, category, brand, price, mrp, min_order_qty and stock, and no other row changes |
| Catalog.ApplyMrp | app/routes/admin_routes.py:1051-1054 | only mrp can change. A refusal is always "price exceeds mrp" |
| Catalog.ApplyPrice | app/routes/admin_routes.py:1055-1058 | only price can change. A refusal is always "price exceeds mrp" |
| Catalog.ApplyMinOrderQty | app/routes/admin_routes.py:1059-1063 | only min_order_qty can change. A refusal is always the minimum-order-quantity error |
| Catalog.ApplyStock | app/routes/admin_routes.py:1066-1070 | only stock can change. A refusal is always the negative-stock error |
| Catalog.ApplyCategory | app/routes/admin_routes.py:1071-1077 | only the category can change. A refusal is always the invalid-category error |
| Catalog.ApplyBrand | app/routes/admin_routes.py:1078-1085 | only the brand can change. A refusal is always the invalid-brand error |
| Catalog.ApplyUpdate | app/routes/admin_routes.py:1049-1085 | a refusal is always a per-field rule error. The chained field rules accept exactly when the following all hold on the original row: a positive new mrp is not below the current price; a positive new price is not above the mrp in force after the mrp step; a given min_order_qty is positive; a given stock is non-negative; a given category or brand is active. An accepted chain yields the reference row `Updated`: given name, category, brand, min_order_qty and stock as given, mrp and price only when positive, everything else kept |
| Catalog.UpdateProduct | app/routes/admin_routes.py:1036-1129 | the image error holds exactly when a given image name fails the whitelist, and it is checked before the lookup. Not-found holds exactly when the image is fine and the id is missing. Any failure leaves the table unchanged, and success changes only the updated row |
| Catalog.UpdateProductAccepts | app/routes/admin_routes.py:1036-1085 | an update succeeds exactly when the image name passes, the row exists, every field rule holds on the original row, and the resulting name is not another row's |
| Catalog.UpdateProductResult | app/routes/admin_routes.py:1049-1085 | after an accepted update the row is exactly the reference row `Updated` for the request |
| Catalog.UpdatePreservesWellFormed | app/routes/admin_routes.py:1051-1070 | every update keeps every product at price <= mrp, min_order_qty >= 1 and stock >= 0 |
| Catalog.MrpCheckedBeforePrice | app/routes/admin_routes.py:1051-1058 | an mrp below the current price is refused even when the same request lowers the price, because mrp is checked first |

## Left out

- Database mechanics. Sessions, flush and commit are abstracted as "the new state or the old state". Primary keys are parameters: `rowId` for products and `enquiryId` for enquiries.
- Enquiry and EnquiryItem mappings. The route passes subtotal, delivery and grand-total values that the enquiry mapping (app/models/enquiries.py) does not declare. It never sets the required `session_id`, or the item's `product_name` and `total_price` (app/models/enquiry_items.py:28,35). The model follows the route's evident intent, records those amounts, and does not model the resulting ORM errors.
- Email dispatch. The mail helper is a foreign call. Each send result is a boolean parameter that says whether the call returned without raising, and only the two email-log entries are modelled. The HTML bodies are not modelled.
- Module loading. app/routes/user_routes.py:28 imports `send_email` from app/core/send_mail.py, which defines only `send_mail`, and app/main.py:5 imports that routes module. As written the application fails at import, so no cart or checkout route is reachable. The model describes the routes as they would behave once that import resolves.
- Floating-point money and `round(..., 2)`. Amounts are exact integer paise.
- HTTP status codes and messages. Errors are datatype values. `create_product` re-wraps an insert failure as a 400 response. In `update_product` the error handlers read the image path, which is assigned only when an image is given (app/routes/admin_routes.py:1092), so a rule or name failure without an image ends in an unhandled 500 after the rollback rather than the rule's message. The model keeps only which rule was broken and that nothing was written.
- File writes, image paths and file deletion. Only the file name's extension is modelled.
- Session-cookie creation, JWT, bcrypt, admin authentication, visit and activity logging, listing, search and dashboard queries.
- Product columns the rules never read (description, sku, image) are not part of the row. The `sku` unique constraint is therefore not modelled. `pack_size` and `uom` are modelled only as present or omitted on create.
- Catalog.CreateProduct: does not model the database refusing a `pack_size` text that it cannot convert to the integer column, because the conversion rules belong to the database driver.
- Concurrent checkouts racing on stock. Concurrency is left to the database.
- Unicode whitespace is Python's `str.isspace` set. No normalisation or case folding is modelled.
- The NOT NULL and unique-constraint refusals of `create_product` share one `IntegrityViolation` value, because the database reports them only as a failed insert.
- Cart.DecreaseCartItem: states the exact new quantity only for a cart with unique keys. Without the unique constraint the route would edit the first matching row.
- Checkout.SubmitEnquiry: takes the send results as given. The route sets `sent_status` from whether the call raised, not from the helper's return value, and the helper reports a provider failure by returning False (app/core/send_mail.py:32-34), so a logged `sent` of true does not mean the provider accepted the mail.
