// backend/src/schemas/shoppingCartItemsSchema.ts
module ShoppingCartItemsSchema {
  import opened Valibot

  /** `minValue(1)`, `maxValue(100)`: both bounds inclusive, and no integer check. */
  predicate QuantityRule(n: real)
  {
    1.0 <= n && n <= 100.0
  }

  predicate Quantity(j: Json)
  {
    NumberWhere(j, QuantityRule)
  }

  /** `pipe(string(), custom(isUUID))`; isUUID is not part of this model and is a parameter. */
  predicate UuidString(j: Json, isUuid: string -> bool)
  {
    StringWhere(j, isUuid)
  }

  predicate ShoppingCartItemIdSchema(body: RequestBody, isUuid: string -> bool)
  {
    RequiredField(body, "cart_item_id", j => UuidString(j, isUuid))
  }

  predicate ShoppingCartItemsSchema(body: RequestBody, isUuid: string -> bool)
  {
    && RequiredField(body, "product_id", j => UuidString(j, isUuid))
    && RequiredField(body, "quantity", Quantity)
  }

  predicate ShoppingCartItemsUpdateSchema(body: RequestBody)
  {
    OptionalField(body, "quantity", Quantity)
  }

  /** The accepted quantities are exactly the numbers from 1 to 100, ends included. */
  lemma QuantityBounds(j: Json)
    ensures Quantity(j) <==> j.JNum? && 1.0 <= j.n <= 100.0
    ensures Quantity(JNum(1.0)) && Quantity(JNum(100.0))
    ensures !Quantity(JNum(0.0)) && !Quantity(JNum(101.0)) && !Quantity(JStr("5"))
  {
  }

  /** A fractional quantity inside the bounds is accepted. */
  lemma FractionalQuantityAccepted()
    ensures Quantity(JNum(1.5))
  {
  }

  /** The update schema accepts every body the create schema accepts, and also
      a body without a quantity; a quantity that is present obeys the create
      bounds. */
  lemma UpdateSchemaRelaxesCreate(body: RequestBody, isUuid: string -> bool)
    ensures ShoppingCartItemsSchema(body, isUuid) ==> ShoppingCartItemsUpdateSchema(body)
    ensures "quantity" !in body ==> ShoppingCartItemsUpdateSchema(body) && !ShoppingCartItemsSchema(body, isUuid)
    ensures "quantity" in body ==> (ShoppingCartItemsUpdateSchema(body) <==> Quantity(body["quantity"]))
  {
  }

  /** The create schema needs both keys: an id string that isUUID accepts and
      an accepted quantity; the id schema needs only its id string. */
  lemma ItemSchemasCharacterised(body: RequestBody, isUuid: string -> bool)
    ensures ShoppingCartItemsSchema(body, isUuid) <==>
      && "product_id" in body && body["product_id"].JStr? && isUuid(body["product_id"].s)
      && "quantity" in body && Quantity(body["quantity"])
    ensures ShoppingCartItemIdSchema(body, isUuid) <==>
      "cart_item_id" in body && body["cart_item_id"].JStr? && isUuid(body["cart_item_id"].s)
  {
  }
}
