/** `ProductsService`: products, each of a product type. A product stores a
    copy of its type's name in `groupByItem` when it is created or moved to
    another type; reads report that copy, falling back to the type's current
    name, and the responses of create and update leave it out. */
module Products {

  import opened Exceptions
  import opened Tables
  import opened Store
  import opened Pagination
  import opened RequestDtos

  /** A product as create and update return it: every stored field except
      `groupByItem`, with its product type included. */
  datatype ProductOut = ProductOut(
    id: string, name: string, description: Option<string>, priceCents: int,
    stock: int, productTypeId: int, productType: Option<ProductTypeRow>)

  /** A product as findOne and findAll return it: the stored fields with the
      type included, and `groupByItem` as reported. */
  datatype ProductView = ProductView(product: ProductOut, groupByItem: Option<string>)

  /** `UpdateProductDto`: every field of the create DTO, each optional. */
  datatype ProductPatch = ProductPatch(
    name: Option<string>, description: Option<string>, priceCents: Option<int>,
    stock: Option<int>, productTypeId: Option<int>)

  function NotFoundMessage(id: string): string {
    "Product with ID " + id + " not found"
  }

  function TypeNotFoundMessage(typeId: int): string {
    "ProductType with ID " + IntToString(typeId) + " not found"
  }

  /** `product.groupByItem || product.productType?.name || null`: the first
      of the two that is a non-empty string. */
  function ReportedGroup(stored: Option<string>, productType: Option<ProductTypeRow>): (g: Option<string>)
    ensures g != Some("")
    ensures stored.Some? && stored.value != "" ==> g == stored
    ensures (stored.None? || stored.value == "") ==>
              g == if productType.Some? && productType.value.data.name != "" then Some(productType.value.data.name) else None
  {
    if stored.Some? && stored.value != "" then stored
    else if productType.Some? && productType.value.data.name != "" then Some(productType.value.data.name)
    else None
  }

  function OutOf(p: ProductRow, productTypes: seq<ProductTypeRow>): (o: ProductOut)
    ensures o.id == p.id && o.name == p.data.name && o.productTypeId == p.data.productTypeId
    ensures o.description == p.data.description && o.priceCents == p.data.priceCents && o.stock == p.data.stock
    ensures o.productType == Find(productTypes, p.data.productTypeId)
  {
    ProductOut(p.id, p.data.name, p.data.description, p.data.priceCents, p.data.stock,
               p.data.productTypeId, Find(productTypes, p.data.productTypeId))
  }

  /** The `{ ...product, groupByItem: ... }` a read returns. */
  function ViewOf(p: ProductRow, productTypes: seq<ProductTypeRow>): (v: ProductView)
    ensures v.product == OutOf(p, productTypes)
    ensures v.groupByItem == ReportedGroup(p.data.groupByItem, Find(productTypes, p.data.productTypeId))
  {
    ProductView(OutOf(p, productTypes), ReportedGroup(p.data.groupByItem, Find(productTypes, p.data.productTypeId)))
  }

  /** `if (updateProductDto.productTypeId)`: a type id other than 0 asks for
      the type check. */
  predicate MovesType(patch: ProductPatch) {
    patch.productTypeId.Some? && patch.productTypeId.value != 0
  }

  /** The `groupByItem` an update writes: the new type's name when the patch
      moves the product and that name is non-empty, otherwise nothing. */
  function Restamp(patch: ProductPatch, productTypes: seq<ProductTypeRow>): (g: Option<string>)
    ensures g.Some? <==> MovesType(patch) && patch.productTypeId.value in Ids(productTypes)
                         && Find(productTypes, patch.productTypeId.value).value.data.name != ""
    ensures g.Some? ==> g.value != "" && g == Some(Find(productTypes, patch.productTypeId.value).value.data.name)
  {
    if MovesType(patch) then
      match Find(productTypes, patch.productTypeId.value)
      case Some(t) => if t.data.name != "" then Some(t.data.name) else None
      case None => None
    else None
  }

  /** `{ ...updateProductDto, ...(groupByItem && { groupByItem }) }` written
      over a stored product. */
  function Patched(p: Product, patch: ProductPatch, stamp: Option<string>): Product {
    Product(
      patch.name.GetOr(p.name),
      if patch.description.Some? then patch.description else p.description,
      patch.priceCents.GetOr(p.priceCents),
      patch.stock.GetOr(p.stock),
      patch.productTypeId.GetOr(p.productTypeId),
      if stamp.Some? then stamp else p.groupByItem)
  }

  class ProductsService {
    const db: Database

    constructor (db: Database)
      ensures this.db == db
    {
      this.db := db;
    }

    /** `findAll`: newest first, `skip: page * size`, `take: size`, counting
        every product, each with its type and reported group. */
    function FindAll(page: nat, size: nat): (r: Paginated<ProductView>)
      requires size >= 1
      reads db
      ensures |r.content| == PageLength(|db.products|, page, size) && r.page.totalElements == |db.products|
      ensures r.page.number == page && r.page.totalPages == CeilDiv(|db.products|, size)
      ensures forall k :: 0 <= k < |r.content| ==>
                page * size + k < |db.products| &&
                r.content[k] == ViewOf(db.products[|db.products| - 1 - (page * size + k)], db.productTypes)
      ensures forall k :: 0 <= k < |r.content| ==> r.content[k].groupByItem != Some("")
    {
      var rows := Window(NewestFirst(db.products), page * size, size);
      var productTypes := db.productTypes;
      CreatePaginatedResponse(
        seq(|rows|, k requires 0 <= k < |rows| => ViewOf(rows[k], productTypes)),
        |db.products|, page, size)
    }

    function FindOne(id: string): (r: Result<ProductView>)
      reads db
      ensures r.Ok? <==> id in Ids(db.products)
      ensures r.Ok? ==> r.value.product.id == id && r.value.groupByItem != Some("")
      ensures r.Ok? ==> exists p :: p in db.products && p.id == id && r.value == ViewOf(p, db.productTypes)
      ensures r.Err? ==> r.error == NotFound(NotFoundMessage(id))
    {
      match Find(db.products, id)
      case None => Err(NotFound(NotFoundMessage(id)))
      case Some(p) => Ok(ViewOf(p, db.productTypes))
    }

    /** `create`: a missing product type raises NotFound and nothing is
        written; otherwise one product is added, its stock defaulting to 0
        and its `groupByItem` the type's current name. A read of the new
        product then reports that name whenever it is non-empty. */
    method Create(dto: ProductInput, newId: string) returns (r: Result<ProductOut>)
      requires db.Valid() && newId !in Ids(db.products)
      modifies db
      ensures db.Valid()
      ensures dto.productTypeId !in Ids(old(db.productTypes)) ==>
                r == Err(NotFound(TypeNotFoundMessage(dto.productTypeId))) && db.State() == old(db.State())
      ensures dto.productTypeId in Ids(old(db.productTypes)) ==>
                var t := Find(old(db.productTypes), dto.productTypeId).value;
                var row := Row(newId,
                  Product(dto.name, dto.description, dto.priceCents, dto.stock.GetOr(0), dto.productTypeId, Some(t.data.name)));
                && db.State() == old(db.State()).(products := old(db.products) + [row])
                && r == Ok(OutOf(row, db.productTypes))
                && FindOne(newId) == Ok(ViewOf(row, db.productTypes))
                && (t.data.name != "" ==> FindOne(newId).value.groupByItem == Some(t.data.name))
    {
      var found := Find(db.productTypes, dto.productTypeId);
      if found.None? {
        return Err(NotFound(TypeNotFoundMessage(dto.productTypeId)));
      }
      var t := found.value;
      var row := Row(newId,
        Product(dto.name, dto.description, dto.priceCents, dto.stock.GetOr(0), dto.productTypeId, Some(t.data.name)));
      ghost var after := old(db.State()).(products := db.products + [row]);
      AppendKeepsWellFormed(db.products, row);
      db.products := db.products + [row];
      assert db.State() == after;
      FoundRowIsUnique(db.products, newId, |db.products| - 1);
      assert Find(db.products, newId) == Some(row);
      r := Ok(OutOf(row, db.productTypes));
    }

    /** `update`: a missing product raises NotFound; a patch that moves the
        product to a missing type raises NotFound; either way nothing is
        written. Otherwise the patch is written over that product alone,
        restamping `groupByItem` when it moves the product. */
    method Update(id: string, patch: ProductPatch) returns (r: Result<ProductOut>)
      requires db.Valid()
      modifies db
      ensures db.Valid()
      ensures id !in Ids(old(db.products)) ==>
                r == Err(NotFound(NotFoundMessage(id))) && db.State() == old(db.State())
      ensures id in Ids(old(db.products)) && MovesType(patch) && patch.productTypeId.value !in Ids(old(db.productTypes)) ==>
                r == Err(NotFound(TypeNotFoundMessage(patch.productTypeId.value))) && db.State() == old(db.State())
      ensures id in Ids(old(db.products)) && !(MovesType(patch) && patch.productTypeId.value !in Ids(old(db.productTypes))) ==>
                var i := IndexOf(old(db.products), id).value;
                var p := old(db.products)[i];
                var updated := Row(id, Patched(p.data, patch, Restamp(patch, old(db.productTypes))));
                && db.State() == old(db.State()).(products := old(db.products)[i := updated])
                && r == Ok(OutOf(updated, db.productTypes))
                && (!MovesType(patch) ==> updated.data.groupByItem == p.data.groupByItem)
                && (MovesType(patch) ==>
                      var name := Find(old(db.productTypes), patch.productTypeId.value).value.data.name;
                      updated.data.groupByItem == if name != "" then Some(name) else p.data.groupByItem)
    {
      var existing := FindOne(id);
      if existing.Err? {
        return Err(existing.error);
      }
      var stamp: Option<string> := None;
      if MovesType(patch) {
        var t := Find(db.productTypes, patch.productTypeId.value);
        if t.None? {
          return Err(NotFound(TypeNotFoundMessage(patch.productTypeId.value)));
        }
        if t.value.data.name != "" {
          stamp := Some(t.value.data.name);
        }
      }
      var i := IndexOf(db.products, id).value;
      var p := db.products[i];
      var updated := Row(id, Patched(p.data, patch, stamp));
      ReplaceKeepsWellFormed(db.products, i, updated.data);
      db.products := db.products[i := updated];
      r := Ok(OutOf(updated, db.productTypes));
    }

    /** `remove`: a missing product raises NotFound and nothing is deleted;
        otherwise exactly that row goes, and it is returned. */
    method Remove(id: string) returns (r: Result<ProductRow>)
      requires db.Valid()
      modifies db
      ensures db.Valid()
      ensures id !in Ids(old(db.products)) ==>
                r == Err(NotFound(NotFoundMessage(id))) && db.State() == old(db.State())
      ensures id in Ids(old(db.products)) ==>
                var i := IndexOf(old(db.products), id).value;
                && r == Ok(old(db.products)[i])
                && db.State() == old(db.State()).(products := RemoveAt(old(db.products), i))
                && Ids(db.products) == Ids(old(db.products)) - {id}
    {
      var existing := FindOne(id);
      if existing.Err? {
        return Err(existing.error);
      }
      var i := IndexOf(db.products, id).value;
      r := Ok(db.products[i]);
      RemoveKeepsWellFormed(db.products, i);
      RemovedIdIsGone(db.products, i);
      db.products := RemoveAt(db.products, i);
    }
  }
}
