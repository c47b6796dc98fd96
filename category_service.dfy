// backend/src/services/categoryService.ts, over the categories table and the
// products.category_id column that references it (ON DELETE SET NULL).
module CategoryService {
  import opened Common
  import opened Rows

  type CategoryId = string
  type ProductId = string

  /** A row of categories: the table has only these three columns. */
  datatype Category = Category(categoryId: CategoryId, name: string, description: string)

  /** What the controller hands to postCategory. The table has no timestamp
      columns, so the insert keeps only name and description. */
  datatype CategoryRecord = CategoryRecord(name: string, description: string, createdAt: string, updatedAt: string)

  /** What the controller hands to putCategory; `updated_at` has no column either. */
  datatype CategoryPatch = CategoryPatch(name: string, description: string, updatedAt: string)

  /** The categories table, and each product's category_id. */
  datatype Tables = Tables(categories: seq<Category>, productCategory: map<ProductId, Option<CategoryId>>)

  const ReadAllError := "Error getting all categories!"
  const CreateError := "Error creating category!"
  const UpdateError := "Error updating category!"

  function ReadByIdError(categoryId: CategoryId): string
  {
    "Error getting category by id " + categoryId
  }

  function CategoryKey(c: Category): CategoryId
  {
    c.categoryId
  }

  function HasId(categoryId: CategoryId): Category -> bool
  {
    (c: Category) => c.categoryId == categoryId
  }

  function NotId(categoryId: CategoryId): Category -> bool
  {
    (c: Category) => c.categoryId != categoryId
  }

  /** category_id is the primary key. */
  ghost predicate KeyHolds(t: Tables)
  {
    KeysUnique(t.categories, CategoryKey)
  }

  /** getAllCategories: every row, or 404 when the read fails. */
  function GetAllCategories(t: Tables, readFails: bool): (r: Result<seq<Category>>)
    ensures r.Ok? <==> !readFails
    ensures r.Ok? ==> r.value == t.categories
    ensures r.Err? ==> r.error == AppError(404, ReadAllError)
  {
    if readFails then Err(AppError(404, ReadAllError)) else Ok(t.categories)
  }

  /** getCategoryById: the row with the id, or none; 404 when the read fails. */
  function GetCategoryById(t: Tables, categoryId: CategoryId, readFails: bool): (r: Result<Option<Category>>)
    ensures r.Err? <==> readFails
    ensures r.Err? ==> r.error == AppError(404, ReadByIdError(categoryId))
    ensures r.Ok? && r.value.Some? ==> r.value.value in t.categories && r.value.value.categoryId == categoryId
    ensures r.Ok? ==> (r.value.None? <==> forall c :: c in t.categories ==> c.categoryId != categoryId)
  {
    if readFails then Err(AppError(404, ReadByIdError(categoryId)))
    else
      match FirstIndex(t.categories, HasId(categoryId))
      case None => Ok(None)
      case Some(i) => Ok(Some(t.categories[i]))
  }

  /** The insert of postCategory: a fresh id spread with the given fields.
      An id already in the table violates the primary key and fails like any
      other write. */
  function InsertCategory(t: Tables, data: CategoryRecord, newId: CategoryId, writeFails: bool)
    : (o: (Result<Category>, Tables))
    ensures o.0.Err? ==> o.0.error == AppError(400, CreateError) && o.1 == t
    ensures o.0.Ok? <==> !writeFails && forall c :: c in t.categories ==> c.categoryId != newId
    ensures o.0.Ok? ==> o.1.categories == t.categories + [o.0.value] && o.1.productCategory == t.productCategory
  {
    if writeFails || exists c :: c in t.categories && c.categoryId == newId then
      (Err(AppError(400, CreateError)), t)
    else
      var row := Category(newId, data.name, data.description);
      (Ok(row), t.(categories := t.categories + [row]))
  }

  /** The new values of the columns `set` names. */
  function Patched(c: Category, patch: CategoryPatch): Category
  {
    c.(name := patch.name, description := patch.description)
  }

  /** The update of putCategory, and the first updated row `.get()` returns
      (none when no row has the id). */
  function UpdateCategory(t: Tables, patch: CategoryPatch, categoryId: CategoryId, writeFails: bool)
    : (o: (Result<Option<Category>>, Tables))
    ensures o.0.Err? <==> writeFails
    ensures o.0.Err? ==> o.0.error == AppError(400, UpdateError) && o.1 == t
    ensures o.0.Ok? ==> |o.1.categories| == |t.categories| && o.1.productCategory == t.productCategory
    ensures o.0.Ok? && o.0.value.Some? ==> o.0.value.value in o.1.categories && o.0.value.value.categoryId == categoryId
  {
    if writeFails then (Err(AppError(400, UpdateError)), t)
    else
      var rows := UpdateWhere(t.categories, HasId(categoryId), c => Patched(c, patch));
      var updated := match FirstIndex(rows, HasId(categoryId))
        case None => None
        case Some(i) => Some(rows[i]);
      (Ok(updated), t.(categories := rows))
  }

  /** ON DELETE SET NULL on products.category_id. */
  function SetNull(products: map<ProductId, Option<CategoryId>>, categoryId: CategoryId)
    : (m: map<ProductId, Option<CategoryId>>)
    ensures m.Keys == products.Keys
    ensures forall p :: p in m ==> (m[p].None? <==> products[p].None? || products[p] == Some(categoryId))
    ensures forall p :: p in m && m[p].Some? ==> m[p] == products[p]
  {
    map p | p in products :: if products[p] == Some(categoryId) then None else products[p]
  }

  /** The delete of deleteCategory; a failure is rethrown as a 400 whose
      message is the store's error. */
  function RemoveCategory(t: Tables, categoryId: CategoryId, writeError: Option<string>): (o: (Result<()>, Tables))
    ensures o.0.Err? <==> writeError.Some?
    ensures o.0.Err? ==> o.0.error == AppError(400, writeError.value) && o.1 == t
    ensures o.0.Ok? ==> |o.1.categories| <= |t.categories| && o.1.productCategory.Keys == t.productCategory.Keys
  {
    if writeError.Some? then (Err(AppError(400, writeError.value)), t)
    else (Ok(()), Tables(Filter(t.categories, NotId(categoryId)), SetNull(t.productCategory, categoryId)))
  }

  /** A successful post adds exactly one row, which a lookup by the new id then
      finds; a failed one is a 400 and changes nothing. The primary key holds
      after it. */
  lemma {:induction false} InsertThenGet(t: Tables, data: CategoryRecord, newId: CategoryId, writeFails: bool)
    requires KeyHolds(t)
    ensures var (r, after) := InsertCategory(t, data, newId, writeFails);
      && KeyHolds(after)
      && (r.Err? ==> r.error == AppError(400, CreateError) && after == t)
      && (r.Ok? ==>
            && r.value == Category(newId, data.name, data.description)
            && after.categories == t.categories + [r.value]
            && after.productCategory == t.productCategory
            && GetCategoryById(after, newId, false) == Ok(Some(r.value)))
  {
    var (r, after) := InsertCategory(t, data, newId, writeFails);
    if r.Ok? {
      var rows := after.categories;
      assert forall i :: 0 <= i < |t.categories| ==> rows[i] == t.categories[i];
      assert forall i :: 0 <= i < |t.categories| ==> rows[i].categoryId != newId by {
        forall i | 0 <= i < |t.categories| ensures rows[i].categoryId != newId {
          assert t.categories[i] in t.categories;
        }
      }
      assert rows[|t.categories|] == r.value;
      assert FirstIndex(rows, HasId(newId)) == Some(|t.categories|);
      assert KeysUnique(rows, CategoryKey);
    }
  }

  /** An update never moves a row, never changes an id and leaves the rows
      with other ids as they were; the row with the id gets exactly the new
      name and description. */
  lemma UpdateFrame(t: Tables, patch: CategoryPatch, categoryId: CategoryId)
    ensures var after := UpdateCategory(t, patch, categoryId, false).1;
      && |after.categories| == |t.categories|
      && after.productCategory == t.productCategory
      && forall i :: 0 <= i < |t.categories| ==>
           && after.categories[i].categoryId == t.categories[i].categoryId
           && (t.categories[i].categoryId != categoryId ==> after.categories[i] == t.categories[i])
           && (t.categories[i].categoryId == categoryId ==>
                 after.categories[i] == Category(categoryId, patch.name, patch.description))
  {
  }

  /** The row putCategory returns is the stored row with the new fields; it
      is none exactly when the id is not in the table. */
  lemma {:induction false} UpdateReturnsPatchedRow(t: Tables, patch: CategoryPatch, categoryId: CategoryId)
    ensures var (r, _) := UpdateCategory(t, patch, categoryId, false);
      && r.Ok?
      && match GetCategoryById(t, categoryId, false).value
         case None => r.value.None?
         case Some(c) => r.value == Some(Patched(c, patch))
  {
    var rows := UpdateWhere(t.categories, HasId(categoryId), c => Patched(c, patch));
    assert forall i :: 0 <= i < |rows| ==> (HasId(categoryId)(rows[i]) <==> HasId(categoryId)(t.categories[i]));
    var before := FirstIndex(t.categories, HasId(categoryId));
    var now := FirstIndex(rows, HasId(categoryId));
    if before.None? {
      assert now.None?;
    } else {
      assert now == before;
    }
  }

  /** After a delete the rows left are exactly the rows with another id,
      every product stays, the products that referenced the category have no
      category, and every other product keeps its own. The primary key holds
      after it. */
  lemma RemoveSetsNull(t: Tables, categoryId: CategoryId)
    requires KeyHolds(t)
    ensures var (r, after) := RemoveCategory(t, categoryId, None);
      && r.Ok?
      && KeyHolds(after)
      && GetCategoryById(after, categoryId, false) == Ok(None)
      && (forall c :: c in after.categories <==> c in t.categories && c.categoryId != categoryId)
      && after.productCategory.Keys == t.productCategory.Keys
      && (forall p :: p in after.productCategory ==> after.productCategory[p] != Some(categoryId))
      && (forall p :: p in t.productCategory && t.productCategory[p] == Some(categoryId) ==>
            after.productCategory[p] == None)
      && (forall p :: p in t.productCategory && t.productCategory[p] != Some(categoryId) ==>
            after.productCategory[p] == t.productCategory[p])
  {
    FilterKeepsKeysUnique(t.categories, NotId(categoryId), CategoryKey);
  }

  /** The store as an object whose mutators change the tables in place. */
  class CategoryStore {
    var categories: seq<Category>
    var productCategory: map<ProductId, Option<CategoryId>>

    ghost predicate Valid()
      reads this
    {
      KeyHolds(Snapshot())
    }

    function Snapshot(): Tables
      reads this
    {
      Tables(categories, productCategory)
    }

    constructor(categories0: seq<Category>, productCategory0: map<ProductId, Option<CategoryId>>)
      ensures Snapshot() == Tables(categories0, productCategory0)
    {
      categories := categories0;
      productCategory := productCategory0;
    }

    /** postCategory */
    method PostCategory(data: CategoryRecord, newId: CategoryId, writeFails: bool) returns (r: Result<Category>)
      requires Valid()
      modifies this
      ensures Valid()
      ensures (r, Snapshot()) == InsertCategory(old(Snapshot()), data, newId, writeFails)
    {
      InsertThenGet(Snapshot(), data, newId, writeFails);
      var taken := exists c :: c in categories && c.categoryId == newId;
      if writeFails || taken {
        r := Err(AppError(400, CreateError));
        return;
      }
      var row := Category(newId, data.name, data.description);
      categories := categories + [row];
      r := Ok(row);
    }

    /** putCategory */
    method PutCategory(patch: CategoryPatch, categoryId: CategoryId, writeFails: bool) returns (r: Result<Option<Category>>)
      requires Valid()
      modifies this
      ensures Valid()
      ensures (r, Snapshot()) == UpdateCategory(old(Snapshot()), patch, categoryId, writeFails)
    {
      if writeFails {
        r := Err(AppError(400, UpdateError));
        return;
      }
      UpdateFrame(Snapshot(), patch, categoryId);
      categories := UpdateWhere(categories, HasId(categoryId), c => Patched(c, patch));
      var i := FirstIndex(categories, HasId(categoryId));
      r := Ok(if i.Some? then Some(categories[i.value]) else None);
      assert KeysUnique(categories, CategoryKey);
    }

    /** deleteCategory, with the set-null effect on products. */
    method DeleteCategory(categoryId: CategoryId, writeError: Option<string>) returns (r: Result<()>)
      requires Valid()
      modifies this
      ensures Valid()
      ensures (r, Snapshot()) == RemoveCategory(old(Snapshot()), categoryId, writeError)
    {
      if writeError.Some? {
        r := Err(AppError(400, writeError.value));
        return;
      }
      RemoveSetsNull(Snapshot(), categoryId);
      categories := Filter(categories, NotId(categoryId));
      productCategory := SetNull(productCategory, categoryId);
      r := Ok(());
    }
  }
}
