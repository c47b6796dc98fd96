// backend/src/schemas/productSchema.ts
module ProductSchema {
  import opened Valibot

  predicate ProductName(j: Json)
  {
    StringWhere(j, s => MinLength(s, 3))
  }

  predicate ProductDescription(j: Json)
  {
    StringWhere(j, s => MinLength(s, 10))
  }

  predicate Price(j: Json)
  {
    NumberWhere(j, n => n >= 0.0)
  }

  predicate Stock(j: Json)
  {
    NumberWhere(j, n => 0.0 <= n && n <= 10000.0)
  }

  predicate Picture(j: Json)
  {
    StringWhere(j, AnyString)
  }

  predicate ProductSchema(body: RequestBody)
  {
    && RequiredField(body, "name", ProductName)
    && RequiredField(body, "description", ProductDescription)
    && RequiredField(body, "price", Price)
    && RequiredField(body, "stock", Stock)
    && OptionalField(body, "picture", Picture)
    && RequiredField(body, "featured", IsBoolean)
    && RequiredField(body, "active", IsBoolean)
  }

  predicate ProductUpdateSchema(body: RequestBody)
  {
    && OptionalField(body, "name", ProductName)
    && OptionalField(body, "description", ProductDescription)
    && OptionalField(body, "price", Price)
    && OptionalField(body, "stock", Stock)
    && OptionalField(body, "picture", Picture)
    && OptionalField(body, "featured", IsBoolean)
    && OptionalField(body, "active", IsBoolean)
  }

  /** The bounds of each field, ends included. */
  lemma FieldBounds(s: string, n: real)
    ensures ProductName(JStr(s)) <==> |s| >= 3
    ensures ProductDescription(JStr(s)) <==> |s| >= 10
    ensures Price(JNum(n)) <==> n >= 0.0
    ensures Stock(JNum(n)) <==> 0.0 <= n <= 10000.0
    ensures Stock(JNum(10000.0)) && !Stock(JNum(10001.0)) && !Price(JNum(-1.0))
  {
  }

  /** Create requires the flags and allows the picture to be missing; update
      accepts every create body, and the empty body too. */
  lemma UpdateSchemaRelaxesCreate(body: RequestBody)
    ensures ProductSchema(body) ==> ProductUpdateSchema(body)
    ensures ProductSchema(body) ==> body["featured"].JBool? && body["active"].JBool?
    ensures ProductUpdateSchema(map[]) && !ProductSchema(map[])
  {
  }
}
