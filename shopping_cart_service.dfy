// backend/src/services/shoppingCartService.ts: the cart of a user, looked up
// by user id in the Shopping_Carts table.
module ShoppingCartService {
  import opened Common
  import opened Rows

  type CartId = string
  type UserId = string

  datatype ShoppingCart = ShoppingCart(id: CartId, userId: UserId, createdAt: string, updatedAt: string)

  predicate OwnedBy(cart: ShoppingCart, userId: UserId)
  {
    cart.userId == userId
  }

  /** The body of the `try` block: the first cart of the user, a 404 when there
      is none, or the store's own exception when the read fails. */
  function LookupCart(carts: seq<ShoppingCart>, userId: UserId, readFails: bool): (r: Result<ShoppingCart>)
    ensures r.Ok? ==> r.value in carts && OwnedBy(r.value, userId)
    ensures !readFails && r.Err? ==> r.error == AppError(404, "Shopping cart not found")
  {
    if readFails then Err(Fault)
    else
      match FirstIndex(carts, c => OwnedBy(c, userId))
      case None => Err(AppError(404, "Shopping cart not found"))
      case Some(k) => Ok(carts[k])
  }

  /** getShoppingCartByUserId: the `catch` turns every failure, the 404 of the
      lookup included, into a 500. */
  function GetShoppingCartByUserId(carts: seq<ShoppingCart>, userId: UserId, readFails: bool): (r: Result<ShoppingCart>)
    ensures r.Ok? <==> !readFails && exists c :: c in carts && OwnedBy(c, userId)
    ensures r.Ok? ==> r.value in carts && OwnedBy(r.value, userId)
    ensures r.Err? ==> r.error == AppError(500, "Failed to get shopping cart")
  {
    match LookupCart(carts, userId, readFails)
    case Ok(cart) => Ok(cart)
    case Err(_) => Err(AppError(500, "Failed to get shopping cart"))
  }

  /** A user without a cart makes the inner lookup throw 404, and the caller
      sees 500 instead. */
  lemma MissingCartIsReportedAs500(carts: seq<ShoppingCart>, userId: UserId)
    requires forall c :: c in carts ==> !OwnedBy(c, userId)
    ensures LookupCart(carts, userId, false) == Err(AppError(404, "Shopping cart not found"))
    ensures GetShoppingCartByUserId(carts, userId, false) == Err(AppError(500, "Failed to get shopping cart"))
  {
  }
}
