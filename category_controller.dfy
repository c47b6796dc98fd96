// backend/src/controllers/categoryController.ts: the guards in front of the
// category store and the records handed to it.
module CategoryController {
  import opened Common
  import opened CategoryService

  const InternalError := "Internal Server Error"
  const IdRequired := "Category id is required!"
  const NotFound := "Category not found!"
  const FieldsRequired := "All fields are required!"
  const Deleted := "Category successfully deleted"

  /** The fields the handlers read from req.body; absent when missing. */
  datatype CategoryBody = CategoryBody(name: Option<string>, description: Option<string>)

  /** `!name || !description` is false. */
  predicate FieldsPresent(body: CategoryBody)
  {
    Truthy(body.name) && Truthy(body.description)
  }

  /** getAllCategories */
  function GetAllCategoriesResponse(t: Tables, readFails: bool): (resp: Response<seq<Category>>)
    ensures !readFails ==> resp == Response(200, Success(t.categories))
    ensures readFails ==> resp == Response(404, Failed(ReadAllError))
  {
    Respond(GetAllCategories(t, readFails), 200, InternalError)
  }

  /** The checks getCategoryById, putCategory and deleteCategory share: the
      id param, then the lookup; on success, the stored row. */
  function Existing(t: Tables, categoryId: CategoryId, readFails: bool): (r: Result<Category>)
    ensures categoryId == "" ==> r == Err(AppError(400, IdRequired))
    ensures categoryId != "" && readFails ==> r == Err(AppError(404, ReadByIdError(categoryId)))
    ensures r.Ok? <==> categoryId != "" && !readFails && exists c :: c in t.categories && c.categoryId == categoryId
    ensures r.Ok? ==> r.value in t.categories && r.value.categoryId == categoryId
    ensures r.Err? && categoryId != "" && !readFails ==> r == Err(AppError(404, NotFound))
  {
    if categoryId == "" then Err(AppError(400, IdRequired))
    else
      match GetCategoryById(t, categoryId, readFails)
      case Err(e) => Err(e)
      case Ok(None) => Err(AppError(404, NotFound))
      case Ok(Some(c)) => Ok(c)
  }

  /** getCategoryById */
  function GetCategoryByIdResponse(t: Tables, categoryId: CategoryId, readFails: bool): (resp: Response<Category>)
    ensures resp.status == 200 <==> Existing(t, categoryId, readFails).Ok?
    ensures resp.status == 200 ==> resp.body.Success? && resp.body.data in t.categories && resp.body.data.categoryId == categoryId
    ensures resp.status != 200 ==> resp.status in {400, 404} && resp.body.Failed?
  {
    match Existing(t, categoryId, readFails)
    case Err(e) => ErrorResponse(e, InternalError)
    case Ok(c) => Response(200, Success(c))
  }

  /** The record postCategory builds: the two fields and one date twice. */
  function NewCategory(body: CategoryBody, date: string): (rec: CategoryRecord)
    requires FieldsPresent(body)
    ensures rec.createdAt == rec.updatedAt == date
    ensures rec.name == body.name.value && rec.description == body.description.value
  {
    CategoryRecord(body.name.value, body.description.value, date, date)
  }

  /** postCategory: the response and the tables after it. */
  function PostCategoryOutcome(t: Tables, body: CategoryBody, date: string, newId: CategoryId, writeFails: bool)
    : (o: (Response<Category>, Tables))
    ensures o.0.status in {201, 400}
    ensures o.0.status != 201 ==> o.0.body.Failed? && o.1 == t
  {
    if !FieldsPresent(body) then (Response(400, Failed(FieldsRequired)), t)
    else
      var (r, after) := InsertCategory(t, NewCategory(body, date), newId, writeFails);
      (Respond(r, 201, InternalError), after)
  }

  /** putCategory: the response and the tables after it. */
  function PutCategoryOutcome(
    t: Tables, categoryId: CategoryId, body: CategoryBody, date: string, readFails: bool, writeFails: bool)
    : (o: (Response<Option<Category>>, Tables))
    ensures o.0.status in {201, 400, 404}
    ensures o.0.status != 201 ==> o.0.body.Failed? && o.1 == t
    ensures o.0.status == 201 ==> FieldsPresent(body) && Existing(t, categoryId, readFails).Ok?
  {
    match Existing(t, categoryId, readFails)
    case Err(e) => (ErrorResponse(e, InternalError), t)
    case Ok(_) =>
      if !FieldsPresent(body) then (Response(400, Failed(FieldsRequired)), t)
      else
        var patch := CategoryPatch(body.name.value, body.description.value, date);
        var (r, after) := UpdateCategory(t, patch, categoryId, writeFails);
        (Respond(r, 201, InternalError), after)
  }

  /** deleteCategory: the response and the tables after it. */
  function DeleteCategoryOutcome(t: Tables, categoryId: CategoryId, readFails: bool, writeError: Option<string>)
    : (o: (Response<string>, Tables))
    ensures o.0.status in {201, 400, 404}
    ensures o.0.status != 201 ==> o.0.body.Failed? && o.1 == t
  {
    match Existing(t, categoryId, readFails)
    case Err(e) => (ErrorResponse(e, InternalError), t)
    case Ok(_) =>
      var (r, after) := RemoveCategory(t, categoryId, writeError);
      (if r.Ok? then Response(201, Success(Deleted)) else ErrorResponse(r.error, InternalError), after)
  }

  /** postCategory writes only when both fields are truthy; the row it creates
      holds them under the new id and the new id then resolves to it. */
  lemma PostNeedsBothFields(t: Tables, body: CategoryBody, date: string, newId: CategoryId, writeFails: bool)
    requires KeyHolds(t)
    ensures var (resp, after) := PostCategoryOutcome(t, body, date, newId, writeFails);
      && (!FieldsPresent(body) ==> resp == Response(400, Failed(FieldsRequired)) && after == t)
      && (resp.status == 201 <==>
            FieldsPresent(body) && !writeFails && forall c :: c in t.categories ==> c.categoryId != newId)
      && (resp.status == 201 ==>
            && resp.body == Success(Category(newId, body.name.value, body.description.value))
            && after.categories == t.categories + [resp.body.data]
            && GetCategoryByIdResponse(after, newId, false).status == (if newId == "" then 400 else 200))
      && (resp.status != 201 ==> after == t)
  {
    if FieldsPresent(body) {
      InsertThenGet(t, NewCategory(body, date), newId, writeFails);
    }
  }

  /** The dates reach no column: the outcome of postCategory does not depend
      on the date. */
  lemma PostIgnoresDate(t: Tables, body: CategoryBody, date1: string, date2: string, newId: CategoryId, writeFails: bool)
    ensures PostCategoryOutcome(t, body, date1, newId, writeFails) == PostCategoryOutcome(t, body, date2, newId, writeFails)
  {
  }

  /** putCategory answers 400 or 404, and writes nothing, unless the id names a
      stored row; it also needs both fields, though the route is a PATCH, and
      then answers 201 with the stored row renamed, every other row as it was. */
  lemma PutGuardsAndFrame(
    t: Tables, categoryId: CategoryId, body: CategoryBody, date: string, readFails: bool, writeFails: bool)
    ensures var (resp, after) := PutCategoryOutcome(t, categoryId, body, date, readFails, writeFails);
      && (Existing(t, categoryId, readFails).Err? ==> resp.status in {400, 404} && after == t)
      && (Existing(t, categoryId, readFails).Ok? && !FieldsPresent(body) ==>
            resp == Response(400, Failed(FieldsRequired)) && after == t)
      && (resp.status == 201 ==>
            && resp.body == Success(Some(Patched(Existing(t, categoryId, readFails).value,
                                                 CategoryPatch(body.name.value, body.description.value, date))))
            && |after.categories| == |t.categories|
            && forall i :: 0 <= i < |t.categories| && t.categories[i].categoryId != categoryId ==>
                 after.categories[i] == t.categories[i])
  {
    if Existing(t, categoryId, readFails).Ok? && FieldsPresent(body) {
      var patch := CategoryPatch(body.name.value, body.description.value, date);
      UpdateFrame(t, patch, categoryId);
      UpdateReturnsPatchedRow(t, patch, categoryId);
    }
  }

  /** A body that carries only one of the two fields is refused even for a
      stored category. */
  lemma PartialUpdateRefused(t: Tables, categoryId: CategoryId, name: string, date: string)
    requires Existing(t, categoryId, false).Ok?
    ensures PutCategoryOutcome(t, categoryId, CategoryBody(Some(name), None), date, false, false).0
      == Response(400, Failed(FieldsRequired))
  {
  }

  /** deleteCategory deletes only a stored category; then no row has the id,
      and the products that pointed at it have no category. */
  lemma DeleteOnlyAfterCheck(t: Tables, categoryId: CategoryId, readFails: bool, writeError: Option<string>)
    requires KeyHolds(t)
    ensures var (resp, after) := DeleteCategoryOutcome(t, categoryId, readFails, writeError);
      && (Existing(t, categoryId, readFails).Err? ==> resp.status in {400, 404} && after == t)
      && (resp.status == 201 <==> Existing(t, categoryId, readFails).Ok? && writeError.None?)
      && (resp.status == 201 ==>
            && resp.body == Success(Deleted)
            && (forall c :: c in after.categories ==> c.categoryId != categoryId)
            && after.productCategory.Keys == t.productCategory.Keys
            && (forall p :: p in after.productCategory ==> after.productCategory[p] != Some(categoryId)))
  {
    if Existing(t, categoryId, readFails).Ok? && writeError.None? {
      RemoveSetsNull(t, categoryId);
    }
  }

  /** postCategory on the store. */
  method PostCategory(store: CategoryStore, body: CategoryBody, date: string, newId: CategoryId, writeFails: bool)
    returns (resp: Response<Category>)
    requires store.Valid()
    modifies store
    ensures store.Valid()
    ensures (resp, store.Snapshot()) == PostCategoryOutcome(old(store.Snapshot()), body, date, newId, writeFails)
  {
    if !FieldsPresent(body) {
      resp := Response(400, Failed(FieldsRequired));
      return;
    }
    var r := store.PostCategory(NewCategory(body, date), newId, writeFails);
    resp := Respond(r, 201, InternalError);
  }

  /** putCategory on the store. */
  method PutCategory(
    store: CategoryStore, categoryId: CategoryId, body: CategoryBody, date: string, readFails: bool, writeFails: bool)
    returns (resp: Response<Option<Category>>)
    requires store.Valid()
    modifies store
    ensures store.Valid()
    ensures (resp, store.Snapshot()) == PutCategoryOutcome(old(store.Snapshot()), categoryId, body, date, readFails, writeFails)
  {
    var found := Existing(store.Snapshot(), categoryId, readFails);
    if found.Err? {
      resp := ErrorResponse(found.error, InternalError);
      return;
    }
    if !FieldsPresent(body) {
      resp := Response(400, Failed(FieldsRequired));
      return;
    }
    var r := store.PutCategory(CategoryPatch(body.name.value, body.description.value, date), categoryId, writeFails);
    resp := Respond(r, 201, InternalError);
  }

  /** deleteCategory on the store. */
  method DeleteCategory(store: CategoryStore, categoryId: CategoryId, readFails: bool, writeError: Option<string>)
    returns (resp: Response<string>)
    requires store.Valid()
    modifies store
    ensures store.Valid()
    ensures (resp, store.Snapshot()) == DeleteCategoryOutcome(old(store.Snapshot()), categoryId, readFails, writeError)
  {
    var found := Existing(store.Snapshot(), categoryId, readFails);
    if found.Err? {
      resp := ErrorResponse(found.error, InternalError);
      return;
    }
    var r := store.DeleteCategory(categoryId, writeError);
    if r.Ok? {
      resp := Response(201, Success(Deleted));
    } else {
      resp := ErrorResponse(r.error, InternalError);
    }
  }
}
