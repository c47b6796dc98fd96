// backend/src/schemas/categorySchema.ts
module CategorySchema {
  import opened Valibot

  predicate CategoryName(j: Json)
  {
    StringWhere(j, s => MinLength(s, 3))
  }

  predicate CategoryDescription(j: Json)
  {
    StringWhere(j, s => MinLength(s, 10))
  }

  predicate CategorySchema(body: RequestBody)
  {
    RequiredField(body, "name", CategoryName) && RequiredField(body, "description", CategoryDescription)
  }

  predicate CategoryUpdateSchema(body: RequestBody)
  {
    OptionalField(body, "name", CategoryName) && OptionalField(body, "description", CategoryDescription)
  }

  /** Create needs both fields with their minimum lengths; update checks only
      the fields that are present, with the same bounds. */
  lemma SchemasCharacterised(body: RequestBody)
    ensures CategorySchema(body) <==>
      && "name" in body && body["name"].JStr? && |body["name"].s| >= 3
      && "description" in body && body["description"].JStr? && |body["description"].s| >= 10
    ensures CategorySchema(body) ==> CategoryUpdateSchema(body)
    ensures CategoryUpdateSchema(map[]) && !CategorySchema(map[])
    ensures CategoryUpdateSchema(map["name" := JStr("abc")]) && !CategoryUpdateSchema(map["name" := JStr("ab")])
  {
  }
}
