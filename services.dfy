/** `ServicesService`: the workshop's priced services, with unique names.
    `create` and `update` look the name up before writing, and a write the
    store refuses surfaces as BadRequest. */
module Services {

  import opened Exceptions
  import opened Tables
  import opened Store
  import opened Pagination
  import opened RequestDtos

  /** `UpdateServiceDto`: every field of the create DTO, each optional. */
  datatype ServicePatch = ServicePatch(
    name: Option<string>, price: Option<int>, description: Option<string>, isActive: Option<bool>)

  const NameTakenMessage := "Service with this name already exists"
  const CreateFailedMessage := "Failed to create service"
  const UpdateFailedMessage := "Failed to update service"

  function NotFoundMessage(id: string): string {
    "Service with ID " + id + " not found"
  }

  function ServiceName(r: ServiceRow): string { r.data.name }

  predicate IsActive(r: ServiceRow) { r.data.isActive }

  /** `findUnique({ where: { name } })`: the row holding this name, if any. */
  function WithName(t: seq<ServiceRow>, name: string): (r: Option<nat>)
    ensures r.Some? ==> r.value < |t| && t[r.value].data.name == name
    ensures r.None? <==> forall j :: 0 <= j < |t| ==> t[j].data.name != name
  {
    FirstWhere(t, (row: ServiceRow) => row.data.name == name)
  }

  /** The invariant the name checks keep: two services share a name only if
      that name is empty (an empty name skips the check in `update`). */
  predicate NonEmptyNamesDistinct(t: seq<ServiceRow>) {
    forall i, j :: 0 <= i < j < |t| && t[i].data.name == t[j].data.name ==> t[i].data.name == ""
  }

  /** The test `update` makes: the row found under the new name is another
      service. */
  predicate NameHeldByOther(t: seq<ServiceRow>, id: string, name: string) {
    var found := WithName(t, name);
    found.Some? && t[found.value].id != id
  }

  /** While non-empty names are distinct, the lookup by name decides the
      conflict exactly: a non-empty name conflicts iff some other service
      holds it. */
  lemma NameHeldByOtherIff(t: seq<ServiceRow>, id: string, name: string)
    requires NonEmptyNamesDistinct(t) && name != ""
    ensures NameHeldByOther(t, id, name) <==>
              exists j :: 0 <= j < |t| && t[j].data.name == name && t[j].id != id
  {
    var found := WithName(t, name);
    if j :| 0 <= j < |t| && t[j].data.name == name && t[j].id != id {
      assert found.Some?;
    }
  }

  /** The same lemma fails without the invariant: if two rows hold one name,
      the lookup finds the first, so the second can rename to it unopposed. */
  lemma LookupNeedsDistinctNames(a: ServiceRow, b: ServiceRow)
    requires a.data.name == b.data.name != "" && a.id != b.id
    ensures !NameHeldByOther([a, b], a.id, a.data.name)
    ensures exists j :: 0 <= j < 2 && [a, b][j].data.name == a.data.name && [a, b][j].id != a.id
  {
    assert [a, b][1].id != a.id;
  }

  function Patched(s: Service, patch: ServicePatch): (r: Service)
    ensures r.name == patch.name.GetOr(s.name) && r.price == patch.price.GetOr(s.price)
    ensures r.isActive == patch.isActive.GetOr(s.isActive)
    ensures r.description == if patch.description.Some? then patch.description else s.description
  {
    Service(
      patch.name.GetOr(s.name), patch.price.GetOr(s.price),
      if patch.description.Some? then patch.description else s.description,
      patch.isActive.GetOr(s.isActive))
  }

  /** `where: { isActive: true }, orderBy: { name: 'asc' }` before skip/take. */
  function ActiveByName(t: seq<ServiceRow>): (r: seq<ServiceRow>)
    ensures multiset(r) == multiset(Filter(t, IsActive))
    ensures SortedBy(r, ServiceName)
  {
    SortByKey(Filter(t, IsActive), ServiceName)
  }

  /** A window on the active rows in name order holds stored active rows
      only, and is still in name order. */
  lemma ActiveWindow(t: seq<ServiceRow>, skip: nat, take: nat)
    ensures var w := Window(ActiveByName(t), skip, take);
            && (forall k :: 0 <= k < |w| ==> w[k] in t && w[k].data.isActive)
            && SortedBy(w, ServiceName)
  {
    var all := ActiveByName(t);
    var w := Window(all, skip, take);
    forall k | 0 <= k < |w| ensures w[k] in t && w[k].data.isActive {
      SortedFilterIsExact(t, IsActive, ServiceName, w[k]);
    }
    forall i, j | 0 <= i < j < |w| ensures StrLe(ServiceName(w[i]), ServiceName(w[j])) {
      assert w[i] == all[skip + i] && w[j] == all[skip + j];
    }
  }

  /** Sorting keeps every active row: there are as many as the count says. */
  lemma ActiveCount(t: seq<ServiceRow>)
    ensures |ActiveByName(t)| == |Filter(t, IsActive)|
  {
    assert |multiset(ActiveByName(t))| == |multiset(Filter(t, IsActive))|;
  }

  class ServicesService {
    const db: Database

    constructor (db: Database)
      ensures this.db == db
    {
      this.db := db;
    }

    /** `findAll`: newest first, `skip: page * size`, `take: size`, counting
        every service. */
    function FindAll(page: nat, size: nat): (r: Paginated<ServiceRow>)
      requires size >= 1
      reads db
      ensures |r.content| == PageLength(|db.services|, page, size) && r.page.totalElements == |db.services|
      ensures r.page.totalPages == CeilDiv(|db.services|, size)
      ensures forall k :: 0 <= k < |r.content| ==>
                page * size + k < |db.services| &&
                r.content[k] == db.services[|db.services| - 1 - (page * size + k)]
    {
      CreatePaginatedResponse(Window(NewestFirst(db.services), page * size, size), |db.services|, page, size)
    }

    /** `findActive`: active services only, by ascending name, counting only
        the active ones. */
    function FindActive(page: nat, size: nat): (r: Paginated<ServiceRow>)
      requires size >= 1
      reads db
      ensures |r.content| == PageLength(|Filter(db.services, IsActive)|, page, size)
      ensures forall k :: 0 <= k < |r.content| ==> r.content[k] == ActiveByName(db.services)[page * size + k]
      ensures r.page.totalElements == |Filter(db.services, IsActive)|
      ensures r.page.totalPages == CeilDiv(|Filter(db.services, IsActive)|, size)
      ensures forall k :: 0 <= k < |r.content| ==> r.content[k] in db.services && r.content[k].data.isActive
      ensures SortedBy(r.content, ServiceName)
    {
      ActiveWindow(db.services, page * size, size);
      ActiveCount(db.services);
      CreatePaginatedResponse(Window(ActiveByName(db.services), page * size, size), |Filter(db.services, IsActive)|, page, size)
    }

    function FindOne(id: string): (r: Result<ServiceRow>)
      reads db
      ensures r.Ok? <==> id in Ids(db.services)
      ensures r.Ok? ==> r.value in db.services && r.value.id == id
      ensures r.Err? ==> r.error == NotFound(NotFoundMessage(id))
    {
      match Find(db.services, id)
      case None => Err(NotFound(NotFoundMessage(id)))
      case Some(s) => Ok(s)
    }

    /** `create`: a name already in use raises Conflict; an insert the store
        refuses raises BadRequest; either way nothing is written. Otherwise
        one row is added, active unless the request says otherwise. */
    method Create(dto: ServiceInput, newId: string, storeRejects: bool) returns (r: Result<ServiceRow>)
      requires db.Valid() && newId !in Ids(db.services)
      modifies db
      ensures db.Valid()
      ensures NonEmptyNamesDistinct(old(db.services)) ==> NonEmptyNamesDistinct(db.services)
      ensures WithName(old(db.services), dto.name).Some? ==>
                r == Err(Conflict(NameTakenMessage)) && db.State() == old(db.State())
      ensures WithName(old(db.services), dto.name).None? && storeRejects ==>
                r == Err(BadRequest(CreateFailedMessage)) && db.State() == old(db.State())
      ensures WithName(old(db.services), dto.name).None? && !storeRejects ==>
                var row := Row(newId, Service(dto.name, dto.price, dto.description, dto.isActive.GetOr(true)));
                && r == Ok(row)
                && db.State() == old(db.State()).(services := old(db.services) + [row])
    {
      if WithName(db.services, dto.name).Some? {
        return Err(Conflict(NameTakenMessage));
      }
      if storeRejects {
        return Err(BadRequest(CreateFailedMessage));
      }
      var row := Row(newId, Service(dto.name, dto.price, dto.description, dto.isActive.GetOr(true)));
      AppendKeepsWellFormed(db.services, row);
      ghost var t := db.services + [row];
      assert NonEmptyNamesDistinct(db.services) ==> NonEmptyNamesDistinct(t) by {
        forall i, j | 0 <= i < j < |t| && t[i].data.name == t[j].data.name
          ensures NonEmptyNamesDistinct(db.services) ==> t[i].data.name == ""
        {
          if j < |db.services| { assert t[i] == db.services[i] && t[j] == db.services[j]; }
        }
      }
      db.services := db.services + [row];
      r := Ok(row);
    }

    /** `update`: a missing id raises NotFound; a non-empty new name held by
        another service raises Conflict; an update the store refuses raises
        BadRequest; in each case nothing is written. Otherwise the patch is
        applied to that row alone. */
    method Update(id: string, patch: ServicePatch, storeRejects: bool) returns (r: Result<ServiceRow>)
      requires db.Valid()
      modifies db
      ensures db.Valid()
      ensures NonEmptyNamesDistinct(old(db.services)) ==> NonEmptyNamesDistinct(db.services)
      ensures id !in Ids(old(db.services)) ==>
                r == Err(NotFound(NotFoundMessage(id))) && db.State() == old(db.State())
      ensures id in Ids(old(db.services)) && patch.name.Some? && patch.name.value != ""
              && NameHeldByOther(old(db.services), id, patch.name.value) ==>
                r == Err(Conflict(NameTakenMessage)) && db.State() == old(db.State())
      ensures r.Ok? ==> !storeRejects && id in Ids(old(db.services))
      ensures id in Ids(old(db.services)) && storeRejects
              && !(patch.name.Some? && patch.name.value != "" && NameHeldByOther(old(db.services), id, patch.name.value)) ==>
                r == Err(BadRequest(UpdateFailedMessage)) && db.State() == old(db.State())
      ensures id in Ids(old(db.services)) && !storeRejects
              && !(patch.name.Some? && patch.name.value != "" && NameHeldByOther(old(db.services), id, patch.name.value)) ==>
                var i := IndexOf(old(db.services), id).value;
                var row := old(db.services)[i];
                var updated := Row(id, Patched(row.data, patch));
                && r == Ok(updated)
                && db.State() == old(db.State()).(services := old(db.services)[i := updated])
      ensures r.Err? ==> db.State() == old(db.State())
    {
      var found := IndexOf(db.services, id);
      if found.None? {
        return Err(NotFound(NotFoundMessage(id)));
      }
      if patch.name.Some? && patch.name.value != "" {
        var conflict := WithName(db.services, patch.name.value);
        if conflict.Some? && db.services[conflict.value].id != id {
          return Err(Conflict(NameTakenMessage));
        }
      }
      if storeRejects {
        return Err(BadRequest(UpdateFailedMessage));
      }
      var i := found.value;
      var row := db.services[i];
      var updated := Row(id, Patched(row.data, patch));
      ReplaceKeepsWellFormed(db.services, i, updated.data);
      UpdateKeepsNamesDistinct(db.services, i, patch);
      db.services := db.services[i := updated];
      r := Ok(updated);
    }

    /** `remove`: a missing id raises NotFound and nothing is deleted;
        otherwise exactly that row goes. */
    method Remove(id: string) returns (r: Result<()>)
      requires db.Valid()
      modifies db
      ensures db.Valid()
      ensures id !in Ids(old(db.services)) ==>
                r == Err(NotFound(NotFoundMessage(id))) && db.State() == old(db.State())
      ensures id in Ids(old(db.services)) ==>
                && r == Ok(())
                && db.State() == old(db.State()).(services := RemoveAt(old(db.services), IndexOf(old(db.services), id).value))
                && Ids(db.services) == Ids(old(db.services)) - {id}
    {
      var found := IndexOf(db.services, id);
      if found.None? {
        return Err(NotFound(NotFoundMessage(id)));
      }
      RemoveKeepsWellFormed(db.services, found.value);
      RemovedIdIsGone(db.services, found.value);
      db.services := RemoveAt(db.services, found.value);
      r := Ok(());
    }
  }

  /** `findActive` lists every active service: the one at place `i` of the
      name order is entry `i % size` of page `i / size`, a page below the
      page count the envelope reports. */
  lemma ActiveServiceListed(svc: ServicesService, size: nat, s: ServiceRow)
    requires size >= 1 && s in svc.db.services && s.data.isActive
    ensures exists page: nat :: page < svc.FindActive(page, size).page.totalPages && s in svc.FindActive(page, size).content
  {
    var all := ActiveByName(svc.db.services);
    SortedFilterIsExact(svc.db.services, IsActive, ServiceName, s);
    var i :| 0 <= i < |all| && all[i] == s;
    ActiveCount(svc.db.services);
    RowOnPage(all, size, i);
    var page: nat, k := i / size, i % size;
    var r := svc.FindActive(page, size);
    assert k < |r.content| && r.content[k] == all[i];
  }

  /** An update that passed the name check keeps non-empty names distinct. */
  lemma UpdateKeepsNamesDistinct(t: seq<ServiceRow>, i: nat, patch: ServicePatch)
    requires WellFormed(t) && i < |t|
    requires patch.name.Some? && patch.name.value != "" ==> !NameHeldByOther(t, t[i].id, patch.name.value)
    ensures NonEmptyNamesDistinct(t) ==>
              NonEmptyNamesDistinct(t[i := Row(t[i].id, Patched(t[i].data, patch))])
  {
    var t' := t[i := Row(t[i].id, Patched(t[i].data, patch))];
    if NonEmptyNamesDistinct(t) {
      forall a, b | 0 <= a < b < |t'| && t'[a].data.name == t'[b].data.name
        ensures t'[a].data.name == ""
      {
        if (a == i || b == i) && patch.name.Some? && patch.name.value != "" {
          var other := if a == i then b else a;
          var name := patch.name.value;
          assert t[other].data.name == name && t[other].id != t[i].id;
          NameHeldByOtherIff(t, t[i].id, name);
        }
      }
    }
  }
}
