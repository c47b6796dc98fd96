// backend/src/services/shoppingCartItemService.ts: addItemToCart, one store
// transaction over the products table (its stock column) and the
// shopping_cart_items table. Quantities and stock are JavaScript numbers: the
// request schema admits fractions, so they are reals here.
module ShoppingCartItemService {
  import opened Common
  import opened Rows
  import opened ShoppingCartService

  type ProductId = string
  type ItemId = string

  /** A row of shopping_cart_items; `cartId` is a nullable column. */
  datatype CartItem = CartItem(
    id: ItemId,
    cartId: Option<CartId>,
    productId: ProductId,
    quantity: real,
    createdAt: string,
    updatedAt: string)

  /** ShoppingCartItemWithoutId: the row the caller hands over, without its key. */
  datatype ItemData = ItemData(
    cartId: Option<CartId>,
    productId: ProductId,
    quantity: real,
    createdAt: string,
    updatedAt: string)

  /** The part of the store the transaction reads and writes: the stock of
      every product, and the cart-item rows. */
  datatype Tables = Tables(stock: map<ProductId, real>, items: seq<CartItem>)

  /** The store failures the transaction can meet, in the order it meets
      them: the product read, the cart-item read, and the writes. */
  datatype Faults = Faults(productRead: bool, itemRead: bool, write: bool)

  const NoFaults := Faults(false, false, false)

  const AddError := "Failed to add item to cart"

  /** The condition `cart_id = cartId AND product_id = productId`; a row whose
      cart_id is NULL satisfies it for no cart. */
  predicate InCart(item: CartItem, cartId: CartId, productId: ProductId)
  {
    item.cartId == Some(cartId) && item.productId == productId
  }

  function ItemKey(item: CartItem): ItemId
  {
    item.id
  }

  ghost predicate StockNonNegative(stock: map<ProductId, real>)
  {
    forall p :: p in stock ==> stock[p] >= 0.0
  }

  /** The `existingItem` query. */
  function Existing(items: seq<CartItem>, cartId: CartId, productId: ProductId): Option<nat>
  {
    FirstIndex(items, (it: CartItem) => InCart(it, cartId, productId))
  }

  /** Whether the primary key `id` is already used. */
  function IdTaken(items: seq<CartItem>, id: ItemId): bool
  {
    FirstIndex(items, (it: CartItem) => it.id == id).Some?
  }

  /** The inserted row `{ cart_item_id: uuid(), ...dataItem }`. */
  function Inserted(data: ItemData, id: ItemId): CartItem
  {
    CartItem(id, data.cartId, data.productId, data.quantity, data.createdAt, data.updatedAt)
  }

  /** The existing row after the merge `quantity: existingItem.quantity + dataItem.quantity`. */
  function Merged(item: CartItem, data: ItemData, now: string): CartItem
  {
    item.(quantity := item.quantity + data.quantity, updatedAt := now)
  }

  /** The transaction body: what it returns or throws, and the tables it
      leaves. A thrown exception aborts the transaction, so every failing
      outcome leaves the tables it was given. A failed read or write is a
      plain error; an insert under a key already in use is refused as well. */
  function Transaction(t: Tables, cartId: CartId, data: ItemData, newId: ItemId, now: string, faults: Faults)
    : (o: (Result<CartItem>, Tables))
    ensures o.0.Err? ==> o.1 == t
    ensures faults.productRead ==> o.0 == Err(Fault)
    ensures !faults.productRead && data.productId !in t.stock ==> o.0 == Err(AppError(404, "Product not found"))
    ensures o.0.Err? && o.0.error.AppError? ==> o.0.error.status in {400, 404}
  {
    if faults.productRead then (Err(Fault), t)
    else if data.productId !in t.stock then (Err(AppError(404, "Product not found")), t)
    else if faults.itemRead then (Err(Fault), t)
    else
      var existing := Existing(t.items, cartId, data.productId);
      // The `if (existingItem)` branch assigns the value quantityToAdd already has.
      var quantityToAdd := data.quantity;
      if t.stock[data.productId] < quantityToAdd then (Err(AppError(400, "Not enough stock available")), t)
      else if faults.write then (Err(Fault), t)
      else
        var stock := t.stock[data.productId := t.stock[data.productId] - quantityToAdd];
        match existing
        case Some(k) =>
          var row := Merged(t.items[k], data, now);
          (Ok(row), Tables(stock, t.items[k := row]))
        case None =>
          if IdTaken(t.items, newId) then (Err(Fault), t)
          else
            var row := Inserted(data, newId);
            (Ok(row), Tables(stock, t.items + [row]))
  }

  /** The outer `catch`: an AppError is rethrown as it is, anything else
      becomes a 500 with the given message. */
  function Rethrow(f: Failure, message: string): (g: Failure)
    ensures g.AppError?
    ensures f.AppError? ==> g == f
    ensures f.Fault? ==> g == AppError(500, message)
  {
    match f
    case AppError(_, _) => f
    case Fault => AppError(500, message)
  }

  /** addItemToCart as a function of the tables before the call. */
  function AddItem(t: Tables, cartId: CartId, data: ItemData, newId: ItemId, now: string, faults: Faults)
    : (o: (Result<CartItem>, Tables))
    // all or nothing
    ensures o.0.Err? ==> o.1 == t
    // the checks, in order
    ensures faults.productRead ==> o.0 == Err(AppError(500, AddError))
    ensures !faults.productRead && data.productId !in t.stock ==> o.0 == Err(AppError(404, "Product not found"))
    ensures !faults.productRead && data.productId in t.stock && faults.itemRead ==> o.0 == Err(AppError(500, AddError))
    ensures !faults.productRead && !faults.itemRead && data.productId in t.stock && t.stock[data.productId] < data.quantity
      ==> o.0 == Err(AppError(400, "Not enough stock available"))
    ensures o.0.Err? ==> o.0.error.AppError? && o.0.error.status in {400, 404, 500}
    ensures o.0.Ok? <==>
      && !faults.productRead && !faults.itemRead && !faults.write
      && data.productId in t.stock
      && data.quantity <= t.stock[data.productId]
      && (Existing(t.items, cartId, data.productId).Some? || !IdTaken(t.items, newId))
    // stock goes down by exactly the requested quantity, in both branches
    ensures o.0.Ok? ==> o.1.stock == t.stock[data.productId := t.stock[data.productId] - data.quantity]
    ensures StockNonNegative(t.stock) ==> StockNonNegative(o.1.stock)
  {
    var (r, t') := Transaction(t, cartId, data, newId, now, faults);
    match r
    case Ok(item) => (Ok(item), t')
    case Err(f) => (Err(Rethrow(f, AddError)), t)
  }

  /** When a row for (cartId, product) exists, that row and only that row gets
      the old quantity plus the requested one, and it is what is returned. */
  lemma MergeBranch(t: Tables, cartId: CartId, data: ItemData, newId: ItemId, now: string, faults: Faults, k: nat)
    requires Existing(t.items, cartId, data.productId) == Some(k)
    requires AddItem(t, cartId, data, newId, now, faults).0.Ok?
    ensures var (r, t') := AddItem(t, cartId, data, newId, now, faults);
      && k < |t.items|
      && |t'.items| == |t.items|
      && r.value == t'.items[k]
      && t'.items[k].quantity == t.items[k].quantity + data.quantity
      && t'.items[k] == t.items[k].(quantity := t'.items[k].quantity, updatedAt := now)
      && (forall i :: 0 <= i < |t.items| && i != k ==> t'.items[i] == t.items[i])
  {
  }

  /** When no row for (cartId, product) exists, exactly one row is appended,
      made of the fresh key and the fields of `data`: its cart_id is
      `data.cartId`, whatever `cartId` is. */
  lemma InsertBranch(t: Tables, cartId: CartId, data: ItemData, newId: ItemId, now: string, faults: Faults)
    requires Existing(t.items, cartId, data.productId).None?
    requires AddItem(t, cartId, data, newId, now, faults).0.Ok?
    ensures var (r, t') := AddItem(t, cartId, data, newId, now, faults);
      && t'.items == t.items + [r.value]
      && r.value == CartItem(newId, data.cartId, data.productId, data.quantity, data.createdAt, data.updatedAt)
      && forall it :: it in t.items ==> it.id != newId
  {
    var p := (it: CartItem) => it.id == newId;
    forall it | it in t.items ensures it.id != newId {
      var j :| 0 <= j < |t.items| && t.items[j] == it;
      assert !p(t.items[j]);
    }
  }

  /** The primary key of shopping_cart_items survives every call. */
  lemma {:induction false} AddItemKeepsKeysUnique(t: Tables, cartId: CartId, data: ItemData, newId: ItemId, now: string, faults: Faults)
    requires KeysUnique(t.items, ItemKey)
    ensures KeysUnique(AddItem(t, cartId, data, newId, now, faults).1.items, ItemKey)
  {
    var (r, t') := AddItem(t, cartId, data, newId, now, faults);
    if r.Ok? {
      match Existing(t.items, cartId, data.productId)
      case Some(k) =>
        MergeBranch(t, cartId, data, newId, now, faults, k);
        forall i, j | 0 <= i < |t'.items| && 0 <= j < |t'.items| && i != j
          ensures ItemKey(t'.items[i]) != ItemKey(t'.items[j])
        {
          assert ItemKey(t'.items[i]) == ItemKey(t.items[i]);
          assert ItemKey(t'.items[j]) == ItemKey(t.items[j]);
        }
      case None =>
        InsertBranch(t, cartId, data, newId, now, faults);
        forall i, j | 0 <= i < |t'.items| && 0 <= j < |t'.items| && i != j
          ensures ItemKey(t'.items[i]) != ItemKey(t'.items[j])
        {
          if i == |t.items| {
            assert t.items[j] in t.items;
          } else if j == |t.items| {
            assert t.items[i] in t.items;
          } else {
            assert t'.items[i] == t.items[i] && t'.items[j] == t.items[j];
          }
        }
    }
  }

  /** A row that reaches 100 still grows: the merge has no upper bound. */
  lemma MergeIsUncapped(t: Tables, cartId: CartId, data: ItemData, newId: ItemId, now: string, k: nat)
    requires Existing(t.items, cartId, data.productId) == Some(k)
    requires t.items[k].quantity == 100.0 && data.quantity == 1.0
    requires data.productId in t.stock && t.stock[data.productId] >= 1.0
    ensures AddItem(t, cartId, data, newId, now, NoFaults).0 == Ok(t.items[k].(quantity := 101.0, updatedAt := now))
  {
  }

  /** A row inserted with a NULL cart_id is not found by the next call for the
      same cart and product, so that call inserts a second row instead of
      merging. */
  lemma {:induction false} NullCartRowsAreNeverMerged(
    t: Tables, cartId: CartId, data: ItemData, id1: ItemId, id2: ItemId, now1: string, now2: string)
    requires data.cartId.None?
    requires Existing(t.items, cartId, data.productId).None?
    requires data.productId in t.stock && 0.0 <= data.quantity && 2.0 * data.quantity <= t.stock[data.productId]
    requires !IdTaken(t.items, id1) && !IdTaken(t.items, id2) && id1 != id2
    ensures var (r1, t1) := AddItem(t, cartId, data, id1, now1, NoFaults);
      var (r2, t2) := AddItem(t1, cartId, data, id2, now2, NoFaults);
      && r1.Ok? && r2.Ok?
      && t2.items == t.items + [Inserted(data, id1), Inserted(data, id2)]
      && t2.stock[data.productId] == t.stock[data.productId] - 2.0 * data.quantity
      && Existing(t2.items, cartId, data.productId).None?
  {
    var (r1, t1) := AddItem(t, cartId, data, id1, now1, NoFaults);
    InsertBranch(t, cartId, data, id1, now1, NoFaults);
    var row1 := Inserted(data, id1);
    var inCart := (it: CartItem) => InCart(it, cartId, data.productId);
    assert Existing(t1.items, cartId, data.productId).None? by {
      forall j | 0 <= j < |t1.items| ensures !inCart(t1.items[j]) {
        if j < |t.items| { assert t1.items[j] == t.items[j]; }
      }
    }
    assert !IdTaken(t1.items, id2) by {
      var p := (it: CartItem) => it.id == id2;
      forall j | 0 <= j < |t1.items| ensures !p(t1.items[j]) {
        if j < |t.items| { assert t1.items[j] == t.items[j]; }
      }
    }
    var (r2, t2) := AddItem(t1, cartId, data, id2, now2, NoFaults);
    InsertBranch(t1, cartId, data, id2, now2, NoFaults);
    assert Existing(t2.items, cartId, data.productId).None? by {
      forall j | 0 <= j < |t2.items| ensures !inCart(t2.items[j]) {
        if j < |t1.items| { assert t2.items[j] == t1.items[j]; }
      }
    }
  }

  /** Two successful adds of one product to one cart, the second merging into
      the row the first created: one row holding q1 + q2, and the stock down
      by q1 + q2. */
  lemma {:induction false} RepeatedAddsMerge(
    t: Tables, cartId: CartId, d1: ItemData, d2: ItemData, id1: ItemId, id2: ItemId, now1: string, now2: string)
    requires d1.cartId == Some(cartId) && d2.productId == d1.productId
    requires Existing(t.items, cartId, d1.productId).None?
    requires d1.productId in t.stock && d1.quantity <= t.stock[d1.productId]
    requires d2.quantity <= t.stock[d1.productId] - d1.quantity
    requires !IdTaken(t.items, id1)
    ensures var (r1, t1) := AddItem(t, cartId, d1, id1, now1, NoFaults);
      var (r2, t2) := AddItem(t1, cartId, d2, id2, now2, NoFaults);
      && r1.Ok? && r2.Ok?
      && |t2.items| == |t.items| + 1
      && r2.value == t2.items[|t.items|]
      && r2.value.quantity == d1.quantity + d2.quantity
      && t2.stock[d1.productId] == t.stock[d1.productId] - (d1.quantity + d2.quantity)
  {
    var (r1, t1) := AddItem(t, cartId, d1, id1, now1, NoFaults);
    InsertBranch(t, cartId, d1, id1, now1, NoFaults);
    var k := |t.items|;
    var inCart := (it: CartItem) => InCart(it, cartId, d1.productId);
    assert Existing(t1.items, cartId, d1.productId) == Some(k) by {
      assert inCart(t1.items[k]);
      forall j | 0 <= j < k ensures !inCart(t1.items[j]) {
        assert t1.items[j] == t.items[j];
      }
    }
    MergeBranch(t1, cartId, d2, id2, now2, NoFaults, k);
  }

  /** A request for more than the remaining stock changes nothing, so a failed
      third add keeps both the stock and the merged row. */
  lemma OversizedAddChangesNothing(t: Tables, cartId: CartId, data: ItemData, newId: ItemId, now: string, faults: Faults)
    requires !faults.productRead && !faults.itemRead
    requires data.productId in t.stock && t.stock[data.productId] < data.quantity
    ensures AddItem(t, cartId, data, newId, now, faults) == (Err(AppError(400, "Not enough stock available")), t)
  {
  }

  /** Nothing rounds a fractional quantity: adding 1.5 of a product with 2 in
      stock succeeds and leaves 0.5. */
  lemma FractionalAddLeavesFractionalStock(t: Tables, cartId: CartId, data: ItemData, newId: ItemId, now: string)
    requires data.productId in t.stock && t.stock[data.productId] == 2.0 && data.quantity == 1.5
    requires !IdTaken(t.items, newId)
    ensures var (r, t') := AddItem(t, cartId, data, newId, now, NoFaults);
      r.Ok? && t'.stock[data.productId] == 0.5
  {
    match Existing(t.items, cartId, data.productId)
    case Some(k) =>
      MergeBranch(t, cartId, data, newId, now, NoFaults, k);
    case None =>
  }

  /** The store the cart operations run against. */
  class CartStore {
    var stock: map<ProductId, real>
    var items: seq<CartItem>
    var carts: seq<ShoppingCart>

    /** The primary key of shopping_cart_items. */
    ghost predicate Valid()
      reads this
    {
      KeysUnique(items, ItemKey)
    }

    function Snapshot(): Tables
      reads this
    {
      Tables(stock, items)
    }

    constructor (stock0: map<ProductId, real>, items0: seq<CartItem>, carts0: seq<ShoppingCart>)
      requires KeysUnique(items0, ItemKey)
      ensures Valid()
      ensures stock == stock0 && items == items0 && carts == carts0
    {
      stock, items, carts := stock0, items0, carts0;
    }

    /** addItemToCart: the writes of the transaction are undone when it throws. */
    method AddItemToCart(cartId: CartId, dataItem: ItemData, newId: ItemId, now: string, faults: Faults)
      returns (r: Result<CartItem>)
      requires Valid()
      modifies this
      ensures Valid()
      ensures carts == old(carts)
      ensures (r, Snapshot()) == AddItem(old(Snapshot()), cartId, dataItem, newId, now, faults)
    {
      ghost var before := Snapshot();
      var savedStock, savedItems := stock, items;
      var outcome: Result<CartItem>;
      if faults.productRead {
        outcome := Err(Fault);
      } else if dataItem.productId !in stock {
        outcome := Err(AppError(404, "Product not found"));
      } else if faults.itemRead {
        outcome := Err(Fault);
      } else {
        var product := stock[dataItem.productId];
        var existing := Existing(items, cartId, dataItem.productId);
        var quantityToAdd := dataItem.quantity;
        if existing.Some? {
          quantityToAdd := dataItem.quantity;
        }
        if product < quantityToAdd {
          outcome := Err(AppError(400, "Not enough stock available"));
        } else if faults.write {
          outcome := Err(Fault);
        } else {
          stock := stock[dataItem.productId := product - quantityToAdd];
          match existing
          case Some(k) =>
            var updated := Merged(items[k], dataItem, now);
            items := items[k := updated];
            outcome := Ok(updated);
          case None =>
            if IdTaken(items, newId) {
              outcome := Err(Fault);
            } else {
              var item := Inserted(dataItem, newId);
              items := items + [item];
              outcome := Ok(item);
            }
        }
      }
      if outcome.Err? {
        stock, items := savedStock, savedItems;
        r := Err(Rethrow(outcome.error, AddError));
      } else {
        r := outcome;
      }
      AddItemKeepsKeysUnique(before, cartId, dataItem, newId, now, faults);
    }
  }
}
