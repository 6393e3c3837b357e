/** `CustomersService`: customers with their cars. Creating a customer checks
    the requested cars first — duplicate plates within the request, car
    models that must exist, plates already taken — and writes nothing unless
    every check passes. */
module Customers {

  import opened Exceptions
  import opened Tables
  import opened Store
  import opened Pagination
  import opened RequestDtos

  datatype CarView = CarView(car: CarRow, carModel: Option<CarModelRow>)

  /** A customer as the service returns it: `include: { cars: { include:
      { carModel: true } } }`. */
  datatype CustomerView = CustomerView(customer: CustomerRow, cars: seq<CarView>)

  /** `UpdateCustomerDto`: only the two scalar fields are written. */
  datatype CustomerPatch = CustomerPatch(fullName: Option<string>, phone: Option<string>)

  const DuplicatePlatesMessage := "Duplicate plates found in the request. Each car must have a unique plate."

  function NotFoundMessage(id: string): string {
    "Customer with ID " + id + " not found"
  }

  /** The cars a request asks for; an absent list asks for none. */
  function Requested(dto: CustomerInput): seq<CarInput> {
    if dto.cars.Some? then dto.cars.value else []
  }

  /** `new Set(plates)` */
  function PlateSet(cars: seq<CarInput>): set<string> {
    set i | 0 <= i < |cars| :: cars[i].plate
  }

  /** `new Set(plates).size !== plates.length` */
  predicate HasDuplicatePlates(cars: seq<CarInput>) {
    |PlateSet(cars)| != |cars|
  }

  predicate PlateTaken(cars: seq<CarRow>, plate: string) {
    exists i :: 0 <= i < |cars| && cars[i].data.plate == plate
  }

  /** The checks on one requested car, car model first: the exception it
      raises, if any. */
  function CarError(car: CarInput, carModels: seq<CarModelRow>, cars: seq<CarRow>): (e: Option<Exception>)
    ensures e.None? <==> car.carModelId in Ids(carModels) && !PlateTaken(cars, car.plate)
    ensures car.carModelId !in Ids(carModels) ==> e == Some(NotFound("CarModel with ID " + car.carModelId + " not found"))
    ensures car.carModelId in Ids(carModels) && PlateTaken(cars, car.plate) ==>
              e == Some(Conflict("Car with plate \"" + car.plate + "\" already exists and belongs to another customer."))
  {
    if Find(carModels, car.carModelId).None? then
      Some(NotFound("CarModel with ID " + car.carModelId + " not found"))
    else if FirstWhere(cars, (r: CarRow) => r.data.plate == car.plate).Some? then
      Some(Conflict("Car with plate \"" + car.plate + "\" already exists and belongs to another customer."))
    else
      None
  }

  /** The cars checked in request order: the first failing car's exception. */
  function FirstCarError(cs: seq<CarInput>, carModels: seq<CarModelRow>, cars: seq<CarRow>): Option<Exception> {
    if cs == [] then None
    else if CarError(cs[0], carModels, cars).Some? then CarError(cs[0], carModels, cars)
    else FirstCarError(cs[1..], carModels, cars)
  }

  /** Everything `create` checks before it writes: the exception it raises,
      if any. */
  function CreateError(cs: seq<CarInput>, carModels: seq<CarModelRow>, cars: seq<CarRow>): Option<Exception> {
    if |cs| == 0 then None
    else if HasDuplicatePlates(cs) then Some(Conflict(DuplicatePlatesMessage))
    else FirstCarError(cs, carModels, cars)
  }

  /** The Set-size test detects exactly a plate repeated in the request. */
  lemma {:induction false} DuplicatePlatesIffRepeated(cs: seq<CarInput>)
    ensures HasDuplicatePlates(cs) <==> exists i, j :: 0 <= i < j < |cs| && cs[i].plate == cs[j].plate
  {
    if cs != [] {
      var n := |cs| - 1;
      var front := cs[..n];
      DuplicatePlatesIffRepeated(front);
      PlateSetGrows(cs);
      PlateSetAtMost(front);
      if cs[n].plate in PlateSet(front) {
        var k :| 0 <= k < |front| && front[k].plate == cs[n].plate;
        assert cs[k].plate == cs[n].plate;
      } else if exists i, j :: 0 <= i < j < |front| && front[i].plate == front[j].plate {
        var i, j :| 0 <= i < j < |front| && front[i].plate == front[j].plate;
        assert cs[i].plate == cs[j].plate;
      } else {
        forall i, j | 0 <= i < j < |cs| ensures cs[i].plate != cs[j].plate {
          assert front[i] == cs[i];
          if j < n { assert front[j] == cs[j]; }
        }
      }
    }
  }

  /** The plates of a request are those of all but its last car, plus the
      last car's plate. */
  lemma PlateSetGrows(cs: seq<CarInput>)
    requires cs != []
    ensures PlateSet(cs) == PlateSet(cs[..|cs| - 1]) + {cs[|cs| - 1].plate}
  {
    var n := |cs| - 1;
    var front := cs[..n];
    forall x | x in PlateSet(cs) ensures x in PlateSet(front) + {cs[n].plate} {
      var i :| 0 <= i < |cs| && cs[i].plate == x;
      if i < n { assert front[i].plate == x; }
    }
    forall x | x in PlateSet(front) ensures x in PlateSet(cs) {
      var i :| 0 <= i < |front| && front[i].plate == x;
      assert cs[i].plate == x;
    }
  }

  lemma {:induction false} PlateSetAtMost(cs: seq<CarInput>)
    ensures |PlateSet(cs)| <= |cs|
  {
    if cs != [] {
      PlateSetAtMost(cs[..|cs| - 1]);
      PlateSetGrows(cs);
    }
  }

  /** The car that decides the outcome is the first failing one in request
      order: every car before it passes, and its own check is the error. */
  lemma {:induction false} FirstFailingCarDecides(cs: seq<CarInput>, carModels: seq<CarModelRow>, cars: seq<CarRow>, k: nat)
    requires k < |cs| && CarError(cs[k], carModels, cars).Some?
    requires forall j :: 0 <= j < k ==> CarError(cs[j], carModels, cars).None?
    ensures FirstCarError(cs, carModels, cars) == CarError(cs[k], carModels, cars)
  {
    if k > 0 {
      FirstFailingCarDecides(cs[1..], carModels, cars, k - 1);
    }
  }

  /** No car fails exactly when the first-failure search finds nothing. */
  lemma {:induction false} NoCarErrorIffAllPass(cs: seq<CarInput>, carModels: seq<CarModelRow>, cars: seq<CarRow>)
    ensures FirstCarError(cs, carModels, cars).None? <==>
              forall j :: 0 <= j < |cs| ==> cs[j].carModelId in Ids(carModels) && !PlateTaken(cars, cs[j].plate)
  {
    if cs != [] {
      NoCarErrorIffAllPass(cs[1..], carModels, cars);
      assert forall j :: 1 <= j < |cs| ==> cs[1..][j - 1] == cs[j];
    }
  }

  /** `create` raises nothing exactly when no cars are requested, or the
      requested plates are pairwise distinct, every car model exists and no
      plate is taken. */
  lemma CreateSucceedsIff(cs: seq<CarInput>, carModels: seq<CarModelRow>, cars: seq<CarRow>)
    ensures CreateError(cs, carModels, cars).None? <==>
              |cs| == 0 ||
              ((forall i, j :: 0 <= i < j < |cs| ==> cs[i].plate != cs[j].plate)
               && forall j :: 0 <= j < |cs| ==> cs[j].carModelId in Ids(carModels) && !PlateTaken(cars, cs[j].plate))
  {
    DuplicatePlatesIffRepeated(cs);
    NoCarErrorIffAllPass(cs, carModels, cars);
  }

  /** The car rows `create` writes: one per requested car, owned by the new
      customer, with the ids Prisma generates, in request order. */
  function NewCarRows(cs: seq<CarInput>, ids: seq<string>, customerId: string): (r: seq<CarRow>)
    requires |ids| == |cs|
    ensures |r| == |cs|
    ensures forall i :: 0 <= i < |cs| ==>
              r[i] == Row(ids[i], Car(cs[i].title, cs[i].plate, cs[i].carModelId, customerId))
  {
    seq(|cs|, i requires 0 <= i < |cs| => Row(ids[i], Car(cs[i].title, cs[i].plate, cs[i].carModelId, customerId)))
  }

  /** The cars a customer owns, in table order. */
  function CarsOf(cars: seq<CarRow>, customerId: string): seq<CarRow> {
    Filter(cars, (r: CarRow) => r.data.customerId == customerId)
  }

  /** `include: { cars: { include: { carModel: true } } }`: the customer's
      cars in table order, each with its car model. */
  function ViewOf(c: CustomerRow, cars: seq<CarRow>, carModels: seq<CarModelRow>): (v: CustomerView)
    ensures v.customer == c && |v.cars| == |CarsOf(cars, c.id)| <= |cars|
    ensures forall k :: 0 <= k < |v.cars| ==>
              && v.cars[k].car == CarsOf(cars, c.id)[k]
              && v.cars[k].car in cars && v.cars[k].car.data.customerId == c.id
              && v.cars[k].carModel == Find(carModels, v.cars[k].car.data.carModelId)
  {
    var owned := CarsOf(cars, c.id);
    forall k | 0 <= k < |owned| ensures owned[k] in cars {
      assert owned[k] in multiset(owned);
    }
    CustomerView(c, seq(|owned|, k requires 0 <= k < |owned| => CarView(owned[k], Find(carModels, owned[k].data.carModelId))))
  }

  /** The view leaves none of the customer's cars out. */
  lemma ViewListsEveryCar(c: CustomerRow, cars: seq<CarRow>, carModels: seq<CarModelRow>, j: nat)
    requires j < |cars| && cars[j].data.customerId == c.id
    ensures exists k :: 0 <= k < |ViewOf(c, cars, carModels).cars| && ViewOf(c, cars, carModels).cars[k].car == cars[j]
  {
    FilterKeepsAll(cars, (r: CarRow) => r.data.customerId == c.id, j);
    var owned := CarsOf(cars, c.id);
    var k :| 0 <= k < |owned| && owned[k] == cars[j];
    assert ViewOf(c, cars, carModels).cars[k].car == cars[j];
  }

  /** The state `create` leaves behind when every check passes. */
  function AfterCreate(s: Snapshot, customerId: string, dto: CustomerInput, carIds: seq<string>): Snapshot
    requires |carIds| == |Requested(dto)|
  {
    s.(customers := s.customers + [Row(customerId, Customer(dto.fullName, dto.phone))],
       cars := s.cars + NewCarRows(Requested(dto), carIds, customerId))
  }

  /** A create with a fresh customer id and fresh, distinct car ids keeps the
      database consistent. */
  lemma CreateKeepsConsistent(s: Snapshot, customerId: string, dto: CustomerInput, carIds: seq<string>)
    requires Consistent(s) && customerId !in Ids(s.customers)
    requires |carIds| == |Requested(dto)|
    requires forall i, j :: 0 <= i < j < |carIds| ==> carIds[i] != carIds[j]
    requires forall i :: 0 <= i < |carIds| ==> carIds[i] !in Ids(s.cars)
    ensures Consistent(AfterCreate(s, customerId, dto, carIds))
  {
    AppendKeepsWellFormed(s.customers, Row(customerId, Customer(dto.fullName, dto.phone)));
    AppendRowsKeepsWellFormed(s.cars, NewCarRows(Requested(dto), carIds, customerId));
  }

  class CustomersService {
    const db: Database

    constructor (db: Database)
      ensures this.db == db
    {
      this.db := db;
    }

    /** The checks `create` makes before it writes, in its order: duplicate
        plates in the request, then each car's model and plate. */
    method CheckRequest(cs: seq<CarInput>) returns (e: Option<Exception>)
      ensures e == CreateError(cs, db.carModels, db.cars)
    {
      if |cs| == 0 {
        return None;
      }
      if HasDuplicatePlates(cs) {
        return Some(Conflict(DuplicatePlatesMessage));
      }
      e := CheckCars(cs);
    }

    /** Each requested car in turn: its model must exist and its plate must be
        free; the first car that fails decides the exception. */
    method CheckCars(cs: seq<CarInput>) returns (e: Option<Exception>)
      ensures e == FirstCarError(cs, db.carModels, db.cars)
    {
      var i := 0;
      while i < |cs|
        invariant 0 <= i <= |cs|
        invariant FirstCarError(cs, db.carModels, db.cars) == FirstCarError(cs[i..], db.carModels, db.cars)
      {
        var car := cs[i];
        assert cs[i..][0] == car && cs[i..][1..] == cs[i + 1..];
        if Find(db.carModels, car.carModelId).None? {
          return Some(NotFound("CarModel with ID " + car.carModelId + " not found"));
        }
        var existing := FirstWhere(db.cars, (row: CarRow) => row.data.plate == car.plate);
        if existing.Some? {
          return Some(Conflict("Car with plate \"" + car.plate + "\" already exists and belongs to another customer."));
        }
        i := i + 1;
      }
      assert cs[i..] == [];
      e := None;
    }

    method Create(dto: CustomerInput, customerId: string, carIds: seq<string>) returns (r: Result<CustomerView>)
      requires db.Valid()
      requires customerId !in Ids(db.customers)
      requires |carIds| == |Requested(dto)|
      requires forall i, j :: 0 <= i < j < |carIds| ==> carIds[i] != carIds[j]
      requires forall i :: 0 <= i < |carIds| ==> carIds[i] !in Ids(db.cars)
      modifies db
      ensures db.Valid()
      ensures r.Err? <==> CreateError(Requested(dto), old(db.carModels), old(db.cars)).Some?
      ensures r.Err? ==> Some(r.error) == CreateError(Requested(dto), old(db.carModels), old(db.cars))
      ensures r.Err? ==> db.State() == old(db.State())
      ensures r.Ok? ==>
                && db.State() == AfterCreate(old(db.State()), customerId, dto, carIds)
                && r.value == ViewOf(Row(customerId, Customer(dto.fullName, dto.phone)), db.cars, db.carModels)
    {
      var cs := Requested(dto);
      var e := CheckRequest(cs);
      if e.Some? {
        return Err(e.value);
      }
      var row := Row(customerId, Customer(dto.fullName, dto.phone));
      var newCars := NewCarRows(cs, carIds, customerId);
      ghost var after := AfterCreate(db.State(), customerId, dto, carIds);
      CreateKeepsConsistent(db.State(), customerId, dto, carIds);
      db.customers, db.cars := db.customers + [row], db.cars + newCars;
      assert db.State() == after;
      r := Ok(ViewOf(row, db.cars, db.carModels));
    }

    /** `findAll`: `skip: page * size`, `take: size`, newest first, and the
        count of all customers. */
    function FindAll(page: nat, size: nat): (r: Paginated<CustomerView>)
      requires size >= 1
      reads db
      ensures |r.content| == PageLength(|db.customers|, page, size) && r.page.totalElements == |db.customers|
      ensures r.page.number == page && r.page.size == size
      ensures r.page.totalPages == CeilDiv(|db.customers|, size)
      ensures forall k :: 0 <= k < |r.content| ==>
                page * size + k < |db.customers| &&
                r.content[k] == ViewOf(db.customers[|db.customers| - 1 - (page * size + k)], db.cars, db.carModels)
    {
      var rows := Window(NewestFirst(db.customers), page * size, size);
      var cars, carModels := db.cars, db.carModels;
      CreatePaginatedResponse(
        seq(|rows|, k requires 0 <= k < |rows| => ViewOf(rows[k], cars, carModels)),
        |db.customers|, page, size)
    }

    function FindOne(id: string): (r: Result<CustomerView>)
      reads db
      ensures r.Ok? <==> id in Ids(db.customers)
      ensures r.Ok? ==> r.value.customer in db.customers && r.value.customer.id == id
      ensures r.Ok? ==> r.value == ViewOf(r.value.customer, db.cars, db.carModels)
      ensures r.Err? ==> r.error == NotFound(NotFoundMessage(id))
    {
      match Find(db.customers, id)
      case None => Err(NotFound(NotFoundMessage(id)))
      case Some(c) => Ok(ViewOf(c, db.cars, db.carModels))
    }

    /** `update`: a missing id raises NotFound and writes nothing; otherwise
        only that customer's name and phone change, and only where the patch
        gives them. */
    method Update(id: string, patch: CustomerPatch) returns (r: Result<CustomerView>)
      requires db.Valid()
      modifies db
      ensures db.Valid()
      ensures id !in Ids(old(db.customers)) ==>
                r == Err(NotFound(NotFoundMessage(id))) && db.State() == old(db.State())
      ensures id in Ids(old(db.customers)) ==>
                var i := IndexOf(old(db.customers), id).value;
                var c := old(db.customers)[i];
                var updated := Row(id,
                  Customer(patch.fullName.GetOr(c.data.fullName), patch.phone.GetOr(c.data.phone)));
                && db.State() == old(db.State()).(customers := old(db.customers)[i := updated])
                && r == Ok(ViewOf(updated, db.cars, db.carModels))
    {
      var found := IndexOf(db.customers, id);
      if found.None? {
        return Err(NotFound(NotFoundMessage(id)));
      }
      var i := found.value;
      var c := db.customers[i];
      var data := Customer(patch.fullName.GetOr(c.data.fullName), patch.phone.GetOr(c.data.phone));
      ReplaceKeepsWellFormed(db.customers, i, data);
      db.customers := db.customers[i := Row(id, data)];
      r := Ok(ViewOf(db.customers[i], db.cars, db.carModels));
    }

    /** `remove`: a missing id raises NotFound and writes nothing; otherwise
        that customer row, and nothing else, is deleted. */
    method Remove(id: string) returns (r: Result<()>)
      requires db.Valid()
      modifies db
      ensures db.Valid()
      ensures id !in Ids(old(db.customers)) ==>
                r == Err(NotFound(NotFoundMessage(id))) && db.State() == old(db.State())
      ensures id in Ids(old(db.customers)) ==>
                && r == Ok(())
                && db.State() == old(db.State()).(customers := RemoveAt(old(db.customers), IndexOf(old(db.customers), id).value))
                && Ids(db.customers) == Ids(old(db.customers)) - {id}
    {
      var found := IndexOf(db.customers, id);
      if found.None? {
        return Err(NotFound(NotFoundMessage(id)));
      }
      RemoveKeepsWellFormed(db.customers, found.value);
      RemovedIdIsGone(db.customers, found.value);
      db.customers := RemoveAt(db.customers, found.value);
      r := Ok(());
    }
  }
}
