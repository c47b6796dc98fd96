// backend/src/controllers/shoppingCartItemController.ts: addItemsToCart, the
// guard chain in front of the cart transaction.
module ShoppingCartItemController {
  import opened Common
  import opened ShoppingCartService
  import opened ShoppingCartItemService

  /** ShoppingCartItemInput: the request body. */
  datatype ItemInput = ItemInput(productId: ProductId, quantity: real)

  const InternalError := "Internal server error"

  /** The checks made before the service is called, in the order the handler
      makes them; on success, the id of the caller's cart. The product lookup
      has no catch of its own, so a failed read is a plain error. */
  function CartGuard(
    stock: map<ProductId, real>, carts: seq<ShoppingCart>, userId: UserId, input: ItemInput,
    productReadFails: bool, cartReadFails: bool)
    : (r: Result<CartId>)
    ensures productReadFails ==> r == Err(Fault)
    ensures !productReadFails && input.productId !in stock ==> r == Err(AppError(404, "Product not found"))
    ensures !productReadFails && input.productId in stock && stock[input.productId] - input.quantity < 0.0
      ==> r == Err(AppError(400, "Not enough stock available"))
    ensures !productReadFails && input.productId in stock && stock[input.productId] - input.quantity >= 0.0
      && input.quantity > 100.0
      ==> r == Err(AppError(400, "Quantity exceeds maximum allowed"))
    ensures r.Ok? <==>
      && !productReadFails
      && input.productId in stock
      && input.quantity <= stock[input.productId]
      && input.quantity <= 100.0
      && GetShoppingCartByUserId(carts, userId, cartReadFails).Ok?
    ensures r.Ok? ==> exists c :: c in carts && OwnedBy(c, userId) && c.id == r.value
    // a missing cart, once the product checks pass, is reported as 500
    ensures r.Err? && !productReadFails && input.productId in stock && input.quantity <= stock[input.productId]
      && input.quantity <= 100.0
      ==> r == Err(AppError(500, "Failed to get shopping cart"))
  {
    if productReadFails then Err(Fault)
    else if input.productId !in stock then Err(AppError(404, "Product not found"))
    else if stock[input.productId] - input.quantity < 0.0 then Err(AppError(400, "Not enough stock available"))
    else if input.quantity > 100.0 then Err(AppError(400, "Quantity exceeds maximum allowed"))
    else
      match GetShoppingCartByUserId(carts, userId, cartReadFails)
      case Err(e) => Err(e)
      case Ok(cart) => Ok(cart.id)
  }

  /** The item handed to the service: the request fields and one date as both
      timestamps; the handler puts no cart_id in it. */
  function NewItem(input: ItemInput, date: string): (d: ItemData)
    ensures d.cartId.None? && d.createdAt == d.updatedAt == date
    ensures d.productId == input.productId && d.quantity == input.quantity
  {
    ItemData(None, input.productId, input.quantity, date, date)
  }

  /** addItemsToCart. `date` is the handler's getCurrentDate(), `now` the
      service's; `productReadFails`, `cartReadFails` and `faults` are store
      failures. */
  method AddItemsToCart(
    store: CartStore, userId: UserId, input: ItemInput, date: string,
    newId: ItemId, now: string, productReadFails: bool, cartReadFails: bool, faults: Faults)
    returns (resp: Response<CartItem>)
    requires store.Valid()
    modifies store
    ensures store.Valid()
    ensures store.carts == old(store.carts)
    ensures var guard := CartGuard(old(store.stock), old(store.carts), userId, input, productReadFails, cartReadFails);
      && (guard.Err? ==>
            && resp == ErrorResponse(guard.error, InternalError)
            && store.Snapshot() == old(store.Snapshot()))
      && (guard.Ok? ==>
            var (r, t) := AddItem(old(store.Snapshot()), guard.value, NewItem(input, date), newId, now, faults);
            && store.Snapshot() == t
            && resp == Respond(r, 201, InternalError))
    // a 201 carries exactly the row the service returned, and the stock went down
    ensures resp.status == 201 ==>
      && resp.body.Success?
      && input.productId in old(store.stock)
      && store.stock == old(store.stock)[input.productId := old(store.stock)[input.productId] - input.quantity]
  {
    var guard := CartGuard(store.stock, store.carts, userId, input, productReadFails, cartReadFails);
    if guard.Err? {
      resp := ErrorResponse(guard.error, InternalError);
      return;
    }
    var r := store.AddItemToCart(guard.value, NewItem(input, date), newId, now, faults);
    resp := Respond(r, 201, InternalError);
  }

  /** The quantity cap sits behind the stock check: with too little stock the
      request gets the stock error whatever its quantity. */
  lemma StockCheckPrecedesCap(
    stock: map<ProductId, real>, carts: seq<ShoppingCart>, userId: UserId, input: ItemInput, cartReadFails: bool)
    requires input.productId in stock && input.quantity > 100.0 && stock[input.productId] < input.quantity
    ensures CartGuard(stock, carts, userId, input, false, cartReadFails) == Err(AppError(400, "Not enough stock available"))
  {
  }

  /** A product missing from the table is reported before the cart is looked up. */
  lemma UnknownProductPrecedesCart(stock: map<ProductId, real>, carts: seq<ShoppingCart>, userId: UserId, input: ItemInput)
    requires input.productId !in stock
    ensures forall readFails: bool :: CartGuard(stock, carts, userId, input, false, readFails) == Err(AppError(404, "Product not found"))
  {
  }

  /** A failed product read answers 500 "Internal server error" before any
      other check, even for a product that does not exist. */
  lemma ProductReadFailureIs500(
    stock: map<ProductId, real>, carts: seq<ShoppingCart>, userId: UserId, input: ItemInput, cartReadFails: bool)
    ensures ErrorResponse<CartItem>(CartGuard(stock, carts, userId, input, true, cartReadFails).error, InternalError)
      == Response(500, Failed(InternalError))
  {
  }

  /** The handler's own `if (!shoppingCart)` 404 is unreachable: the service
      either returns a cart or throws. */
  lemma CartNotFound404IsUnreachable(
    stock: map<ProductId, real>, carts: seq<ShoppingCart>, userId: UserId, input: ItemInput,
    productReadFails: bool, cartReadFails: bool)
    ensures CartGuard(stock, carts, userId, input, productReadFails, cartReadFails) != Err(AppError(404, "Shopping cart not found"))
  {
  }
}
