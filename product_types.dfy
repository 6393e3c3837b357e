/** `ProductTypesService`: the kinds of product, with autoincremented integer
    ids. Its lookups throw a plain `Error`, not an HTTP exception, and it
    deletes a type without looking at the products that use it. */
module ProductTypes {

  import opened Exceptions
  import opened Tables
  import opened Store
  import opened Pagination
  import Products

  /** `CreateProductTypeDto` */
  datatype ProductTypeInput = ProductTypeInput(name: string, description: Option<string>, isActive: Option<bool>)

  /** `UpdateProductTypeDto`: every field of the create DTO, each optional. */
  datatype ProductTypePatch = ProductTypePatch(name: Option<string>, description: Option<string>, isActive: Option<bool>)

  const NotFoundError := PlainError("Product type not found")

  function TypeName(r: ProductTypeRow): string { r.data.name }

  predicate IsActive(r: ProductTypeRow) { r.data.isActive }

  function Patched(t: ProductType, patch: ProductTypePatch): ProductType {
    ProductType(
      patch.name.GetOr(t.name),
      if patch.description.Some? then patch.description else t.description,
      patch.isActive.GetOr(t.isActive))
  }

  /** `where: { isActive: true }, orderBy: { name: 'asc' }` before skip/take. */
  function ActiveByName(t: seq<ProductTypeRow>): (r: seq<ProductTypeRow>)
    ensures multiset(r) == multiset(Filter(t, IsActive))
    ensures SortedBy(r, TypeName)
  {
    SortByKey(Filter(t, IsActive), TypeName)
  }

  /** A window on the active rows in name order holds stored active rows
      only, and is still in name order. */
  lemma ActiveWindow(t: seq<ProductTypeRow>, skip: nat, take: nat)
    ensures var w := Window(ActiveByName(t), skip, take);
            && (forall k :: 0 <= k < |w| ==> w[k] in t && w[k].data.isActive)
            && SortedBy(w, TypeName)
  {
    var all := ActiveByName(t);
    var w := Window(all, skip, take);
    forall k | 0 <= k < |w| ensures w[k] in t && w[k].data.isActive {
      SortedFilterIsExact(t, IsActive, TypeName, w[k]);
    }
    forall i, j | 0 <= i < j < |w| ensures StrLe(TypeName(w[i]), TypeName(w[j])) {
      assert w[i] == all[skip + i] && w[j] == all[skip + j];
    }
  }

  /** Sorting keeps every active row: there are as many as the count says. */
  lemma ActiveCount(t: seq<ProductTypeRow>)
    ensures |ActiveByName(t)| == |Filter(t, IsActive)|
  {
    assert |multiset(ActiveByName(t))| == |multiset(Filter(t, IsActive))|;
  }

  class ProductTypesService {
    const db: Database

    constructor (db: Database)
      ensures this.db == db
    {
      this.db := db;
    }

    /** `findAll`: newest first, `skip: page * size`, `take: size`, counting
        every product type. */
    function FindAll(page: nat, size: nat): (r: Paginated<ProductTypeRow>)
      requires size >= 1
      reads db
      ensures |r.content| == PageLength(|db.productTypes|, page, size) && r.page.totalElements == |db.productTypes|
      ensures r.page.number == page && r.page.totalPages == CeilDiv(|db.productTypes|, size)
      ensures forall k :: 0 <= k < |r.content| ==>
                page * size + k < |db.productTypes| &&
                r.content[k] == db.productTypes[|db.productTypes| - 1 - (page * size + k)]
    {
      CreatePaginatedResponse(Window(NewestFirst(db.productTypes), page * size, size), |db.productTypes|, page, size)
    }

    /** `findActive`: active types only, by ascending name, counting only the
        active ones. */
    function FindActive(page: nat, size: nat): (r: Paginated<ProductTypeRow>)
      requires size >= 1
      reads db
      ensures |r.content| == PageLength(|Filter(db.productTypes, IsActive)|, page, size)
      ensures forall k :: 0 <= k < |r.content| ==> r.content[k] == ActiveByName(db.productTypes)[page * size + k]
      ensures r.page.totalElements == |Filter(db.productTypes, IsActive)|
      ensures r.page.totalPages == CeilDiv(|Filter(db.productTypes, IsActive)|, size)
      ensures forall k :: 0 <= k < |r.content| ==> r.content[k] in db.productTypes && r.content[k].data.isActive
      ensures SortedBy(r.content, TypeName)
    {
      ActiveWindow(db.productTypes, page * size, size);
      ActiveCount(db.productTypes);
      CreatePaginatedResponse(Window(ActiveByName(db.productTypes), page * size, size), |Filter(db.productTypes, IsActive)|, page, size)
    }

    /** `findOne`: a missing id throws a plain Error, which the exception
        filter reports as a 500, not a 404. */
    function FindOne(id: int): (r: Result<ProductTypeRow>)
      reads db
      ensures r.Ok? <==> id in Ids(db.productTypes)
      ensures r.Ok? ==> r.value in db.productTypes && r.value.id == id
      ensures r.Err? ==> r.error == NotFoundError && !r.error.Http?
    {
      match Find(db.productTypes, id)
      case None => Err(NotFoundError)
      case Some(t) => Ok(t)
    }

    /** `create`: no pre-check at all; the row gets the next id, and is active
        unless the request says otherwise. */
    method Create(dto: ProductTypeInput) returns (r: ProductTypeRow)
      requires db.Valid()
      modifies db
      ensures db.Valid()
      ensures r == Row(old(db.nextTypeId), ProductType(dto.name, dto.description, dto.isActive.GetOr(true)))
      ensures r.id !in Ids(old(db.productTypes))
      ensures db.State() == old(db.State()).(productTypes := old(db.productTypes) + [r], nextTypeId := old(db.nextTypeId) + 1)
    {
      r := Row(db.nextTypeId, ProductType(dto.name, dto.description, dto.isActive.GetOr(true)));
      assert r.id !in Ids(db.productTypes);
      ghost var after := db.State().(productTypes := db.productTypes + [r], nextTypeId := db.nextTypeId + 1);
      AppendKeepsWellFormed(db.productTypes, r);
      db.productTypes, db.nextTypeId := db.productTypes + [r], db.nextTypeId + 1;
      assert db.State() == after;
    }

    /** `update`: the existence check first, so a missing id throws and
        nothing changes; otherwise the patch is written over that row alone.
        Products that already store a non-empty group keep reporting it, even
        when the type is renamed. */
    method Update(id: int, patch: ProductTypePatch) returns (r: Result<ProductTypeRow>)
      requires db.Valid()
      modifies db
      ensures db.Valid()
      ensures id !in Ids(old(db.productTypes)) ==> r == Err(NotFoundError) && db.State() == old(db.State())
      ensures id in Ids(old(db.productTypes)) ==>
                var i := IndexOf(old(db.productTypes), id).value;
                var t := old(db.productTypes)[i];
                var updated := Row(id, Patched(t.data, patch));
                && r == Ok(updated)
                && db.State() == old(db.State()).(productTypes := old(db.productTypes)[i := updated])
      ensures forall p :: p in db.products && p.data.groupByItem.Some? && p.data.groupByItem.value != "" ==>
                Products.ViewOf(p, db.productTypes).groupByItem == Products.ViewOf(p, old(db.productTypes)).groupByItem
    {
      var existing := FindOne(id);
      if existing.Err? {
        return Err(existing.error);
      }
      var i := IndexOf(db.productTypes, id).value;
      var t := db.productTypes[i];
      var updated := Row(id, Patched(t.data, patch));
      ReplaceKeepsWellFormed(db.productTypes, i, updated.data);
      db.productTypes := db.productTypes[i := updated];
      r := Ok(updated);
    }

    /** `remove`: the existence check only, so a missing id throws and
        nothing changes; otherwise exactly that row goes, and the products
        that used it stay behind without a type. */
    method Remove(id: int) returns (r: Result<ProductTypeRow>)
      requires db.Valid()
      modifies db
      ensures db.Valid()
      ensures id !in Ids(old(db.productTypes)) ==> r == Err(NotFoundError) && db.State() == old(db.State())
      ensures id in Ids(old(db.productTypes)) ==>
                var i := IndexOf(old(db.productTypes), id).value;
                && r == Ok(old(db.productTypes)[i])
                && db.State() == old(db.State()).(productTypes := RemoveAt(old(db.productTypes), i))
                && Ids(db.productTypes) == Ids(old(db.productTypes)) - {id}
                && forall p :: p in db.products && p.data.productTypeId == id ==>
                     Products.ViewOf(p, db.productTypes).product.productType.None?
    {
      var existing := FindOne(id);
      if existing.Err? {
        return Err(existing.error);
      }
      var i := IndexOf(db.productTypes, id).value;
      r := Ok(db.productTypes[i]);
      RemoveKeepsWellFormed(db.productTypes, i);
      RemovedIdIsGone(db.productTypes, i);
      db.productTypes := RemoveAt(db.productTypes, i);
    }
  }

  /** `findActive` lists every active product type: the one at place `i` of
      the name order is entry `i % size` of page `i / size`, a page below the
      page count the envelope reports. */
  lemma ActiveTypeListed(svc: ProductTypesService, size: nat, t: ProductTypeRow)
    requires size >= 1 && t in svc.db.productTypes && t.data.isActive
    ensures exists page: nat :: page < svc.FindActive(page, size).page.totalPages && t in svc.FindActive(page, size).content
  {
    var all := ActiveByName(svc.db.productTypes);
    SortedFilterIsExact(svc.db.productTypes, IsActive, TypeName, t);
    var i :| 0 <= i < |all| && all[i] == t;
    ActiveCount(svc.db.productTypes);
    RowOnPage(all, size, i);
    var page: nat, k := i / size, i % size;
    var r := svc.FindActive(page, size);
    assert k < |r.content| && r.content[k] == all[i];
  }
}
