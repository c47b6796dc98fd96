// backend/src/services/productCategoriesService.ts: the relation between
// products and categories, a table of (product_id, category_id) rows.
module ProductCategoriesService {
  import opened Common
  import opened Rows

  type ProductId = string
  type CategoryId = string

  /** A row of product_categories. No key on the pair is assumed: the file
      declaring the table is not part of this model. */
  datatype Link = Link(productId: ProductId, categoryId: CategoryId)

  const ReadError := "Internal Server Error"
  const AssignError := "The category could not be assigned to the product"
  const UnassignError := "The category could not be unassigned from the product"

  function InCategory(categoryId: CategoryId): Link -> bool
  {
    (l: Link) => l.categoryId == categoryId
  }

  function OfProduct(productId: ProductId): Link -> bool
  {
    (l: Link) => l.productId == productId
  }

  /** The `where` of the delete: the rows that are not the pair survive. */
  function OtherThan(productId: ProductId, categoryId: CategoryId): Link -> bool
  {
    (l: Link) => l != Link(productId, categoryId)
  }

  /** getProductsByCategory: the rows of the category, or 500 when the read fails. */
  function GetProductsByCategory(links: seq<Link>, categoryId: CategoryId, readFails: bool): (r: Result<seq<Link>>)
    ensures r.Err? <==> readFails
    ensures r.Err? ==> r.error == AppError(500, ReadError)
    ensures r.Ok? ==> forall l :: l in r.value <==> l in links && l.categoryId == categoryId
  {
    if readFails then Err(AppError(500, ReadError)) else Ok(Filter(links, InCategory(categoryId)))
  }

  /** getCategoriesByProduct: the rows of the product, or 500 when the read fails. */
  function GetCategoriesByProduct(links: seq<Link>, productId: ProductId, readFails: bool): (r: Result<seq<Link>>)
    ensures r.Err? <==> readFails
    ensures r.Err? ==> r.error == AppError(500, ReadError)
    ensures r.Ok? ==> forall l :: l in r.value <==> l in links && l.productId == productId
  {
    if readFails then Err(AppError(500, ReadError)) else Ok(Filter(links, OfProduct(productId)))
  }

  /** The insert of assignCategoryToProduct: the relation after it, and its outcome. */
  function AfterAssign(links: seq<Link>, productId: ProductId, categoryId: CategoryId, writeFails: bool)
    : (o: (Result<()>, seq<Link>))
    ensures o.0.Err? <==> writeFails
    ensures o.0.Err? ==> o.0.error == AppError(400, AssignError) && o.1 == links
    ensures o.0.Ok? ==>
      && |o.1| == |links| + 1
      && Link(productId, categoryId) in o.1
      && forall l :: l in links ==> l in o.1
  {
    if writeFails then (Err(AppError(400, AssignError)), links)
    else (Ok(()), links + [Link(productId, categoryId)])
  }

  /** The delete of unassignCategoryFromProduct. */
  function AfterUnassign(links: seq<Link>, productId: ProductId, categoryId: CategoryId, writeFails: bool)
    : (o: (Result<()>, seq<Link>))
    ensures o.0.Err? <==> writeFails
    ensures o.0.Err? ==> o.0.error == AppError(400, UnassignError) && o.1 == links
    ensures o.0.Ok? ==> forall l :: l in o.1 <==> l in links && l != Link(productId, categoryId)
  {
    if writeFails then (Err(AppError(400, UnassignError)), links)
    else (Ok(()), Filter(links, OtherThan(productId, categoryId)))
  }

  /** A failed write is a 400 and leaves the relation as it was; a successful
      assign adds exactly the one row, with ids the code never checks. */
  lemma AssignOutcome(links: seq<Link>, productId: ProductId, categoryId: CategoryId, writeFails: bool)
    ensures var (r, after) := AfterAssign(links, productId, categoryId, writeFails);
      && (r.Err? <==> writeFails)
      && (r.Err? ==> r.error.AppError? && r.error.status == 400 && after == links)
      && (r.Ok? ==> after[..|links|] == links && |after| == |links| + 1 && after[|links|] == Link(productId, categoryId))
  {
  }

  /** After a successful assign, each getter lists the new row. */
  lemma AssignedRowIsListed(links: seq<Link>, productId: ProductId, categoryId: CategoryId)
    ensures var after := AfterAssign(links, productId, categoryId, false).1;
      && Link(productId, categoryId) in GetProductsByCategory(after, categoryId, false).value
      && Link(productId, categoryId) in GetCategoriesByProduct(after, productId, false).value
  {
    var after := AfterAssign(links, productId, categoryId, false).1;
    assert after[|links|] == Link(productId, categoryId);
  }

  /** unassign removes every copy of the pair and no other row. */
  lemma UnassignRemovesExactlyThePair(links: seq<Link>, productId: ProductId, categoryId: CategoryId)
    ensures var (r, after) := AfterUnassign(links, productId, categoryId, false);
      && r.Ok?
      && Link(productId, categoryId) !in after
      && forall l :: l != Link(productId, categoryId) ==> (l in after <==> l in links)
  {
  }

  /** Unassigning a pair that is not there succeeds and changes nothing. */
  lemma {:induction false} UnassignAbsentIsNoop(links: seq<Link>, productId: ProductId, categoryId: CategoryId)
    requires Link(productId, categoryId) !in links
    ensures AfterUnassign(links, productId, categoryId, false) == (Ok(()), links)
  {
    FilterNoneMatch(links, OtherThan(productId, categoryId));
  }

  /** Assigning and then unassigning a pair leaves the relation as unassigning
      alone would: the new row and every older copy are gone, the other rows
      stay in order. */
  lemma {:induction false} UnassignUndoesAssign(links: seq<Link>, productId: ProductId, categoryId: CategoryId)
    ensures var withPair := AfterAssign(links, productId, categoryId, false).1;
      AfterUnassign(withPair, productId, categoryId, false) == AfterUnassign(links, productId, categoryId, false)
  {
    var keep := OtherThan(productId, categoryId);
    FilterAppend(links, Link(productId, categoryId), keep);
    assert !keep(Link(productId, categoryId));
    assert Filter(links, keep) + [] == Filter(links, keep);
  }

  /** The relation as an object whose two mutators change it in place. */
  class ProductCategoryTable {
    var links: seq<Link>

    constructor(links0: seq<Link>)
      ensures links == links0
    {
      links := links0;
    }

    /** assignCategoryToProduct */
    method AssignCategoryToProduct(productId: ProductId, categoryId: CategoryId, writeFails: bool)
      returns (r: Result<()>)
      modifies this
      ensures (r, links) == AfterAssign(old(links), productId, categoryId, writeFails)
    {
      if writeFails {
        r := Err(AppError(400, AssignError));
        return;
      }
      links := links + [Link(productId, categoryId)];
      r := Ok(());
    }

    /** unassignCategoryFromProduct */
    method UnassignCategoryFromProduct(productId: ProductId, categoryId: CategoryId, writeFails: bool)
      returns (r: Result<()>)
      modifies this
      ensures (r, links) == AfterUnassign(old(links), productId, categoryId, writeFails)
    {
      if writeFails {
        r := Err(AppError(400, UnassignError));
        return;
      }
      links := Filter(links, OtherThan(productId, categoryId));
      r := Ok(());
    }
  }
}
