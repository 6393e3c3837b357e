/** The database the services share, standing in for the Prisma client: one
    table per model, each in creation order. Schema-level
    constraints (unique columns, foreign keys, cascades) are not part of it;
    every rule below is one a service checks itself. */
module Store {

  import opened Exceptions
  import opened Tables

  datatype Customer = Customer(fullName: string, phone: string)

  datatype Car = Car(title: Option<string>, plate: string, carModelId: string, customerId: string)

  datatype CarModel = CarModel(name: string, brand: Option<string>)

  datatype Service = Service(name: string, price: int, description: Option<string>, isActive: bool)

  datatype ProductType = ProductType(name: string, description: Option<string>, isActive: bool)

  /** A product; `groupByItem` is the copy of its type's name stamped at
      write time (null in rows that never had one). */
  datatype Product = Product(
    name: string, description: Option<string>, priceCents: int, stock: int,
    productTypeId: int, groupByItem: Option<string>)

  datatype User = User(
    name: string, email: string, password: Option<string>, age: Option<int>, customizer: Option<string>)

  type CustomerRow = Row<string, Customer>
  type CarRow = Row<string, Car>
  type CarModelRow = Row<string, CarModel>
  type ServiceRow = Row<string, Service>
  type ProductTypeRow = Row<int, ProductType>
  type ProductRow = Row<string, Product>
  type UserRow = Row<string, User>

  /** All tables at one moment: what "nothing changed" compares. */
  datatype Snapshot = Snapshot(
    customers: seq<CustomerRow>, cars: seq<CarRow>, carModels: seq<CarModelRow>,
    services: seq<ServiceRow>, productTypes: seq<ProductTypeRow>, products: seq<ProductRow>,
    users: seq<UserRow>, nextTypeId: nat)

  /** Ids are unique in every table, and every product-type id is one the
      autoincrement counter has already handed out. */
  ghost predicate Consistent(s: Snapshot) {
    && WellFormed(s.customers) && WellFormed(s.cars) && WellFormed(s.carModels)
    && WellFormed(s.services) && WellFormed(s.productTypes) && WellFormed(s.products)
    && WellFormed(s.users)
    && (forall i :: 0 <= i < |s.productTypes| ==> s.productTypes[i].id < s.nextTypeId)
  }

  class Database {
    var customers: seq<CustomerRow>
    var cars: seq<CarRow>
    var carModels: seq<CarModelRow>
    var services: seq<ServiceRow>
    var productTypes: seq<ProductTypeRow>
    var products: seq<ProductRow>
    var users: seq<UserRow>
    /** The next product-type id: that table's ids are autoincremented. */
    var nextTypeId: nat

    ghost predicate Valid()
      reads this
    {
      Consistent(State())
    }

    function State(): Snapshot
      reads this
    {
      Snapshot(customers, cars, carModels, services, productTypes, products, users, nextTypeId)
    }

    constructor ()
      ensures Valid()
      ensures State() == Snapshot([], [], [], [], [], [], [], 1)
    {
      customers, cars, carModels := [], [], [];
      services, productTypes, products, users := [], [], [], [];
      nextTypeId := 1;
    }
  }

  /** Appending a row with a fresh id keeps a table well formed. */
  lemma AppendKeepsWellFormed<K, D>(t: seq<Row<K, D>>, row: Row<K, D>)
    requires WellFormed(t) && row.id !in Ids(t)
    ensures WellFormed(t + [row])
  {
    var t' := t + [row];
    forall i, j | 0 <= i < j < |t'| ensures t'[i].id != t'[j].id {
      if j == |t| { assert t'[i].id in Ids(t); }
    }
  }

  /** Appending rows with fresh, distinct ids keeps a table well formed. */
  lemma AppendRowsKeepsWellFormed<K, D>(t: seq<Row<K, D>>, rows: seq<Row<K, D>>)
    requires WellFormed(t)
    requires forall i :: 0 <= i < |rows| ==> rows[i].id !in Ids(t)
    requires forall i, j :: 0 <= i < j < |rows| ==> rows[i].id != rows[j].id
    ensures WellFormed(t + rows)
  {
    var t' := t + rows;
    forall i, j | 0 <= i < j < |t'| ensures t'[i].id != t'[j].id {
      if i < |t| <= j { assert t'[i].id in Ids(t); assert t'[j] == rows[j - |t|]; }
      if |t| <= i { assert t'[i] == rows[i - |t|] && t'[j] == rows[j - |t|]; }
    }
  }

  /** Replacing a row's data in place keeps a table well formed. */
  lemma ReplaceKeepsWellFormed<K, D>(t: seq<Row<K, D>>, i: nat, data: D)
    requires WellFormed(t) && i < |t|
    ensures WellFormed(t[i := Row(t[i].id, data)])
  {
  }

  /** Removing a row keeps a table well formed. */
  lemma RemoveKeepsWellFormed<K, D>(t: seq<Row<K, D>>, i: nat)
    requires WellFormed(t) && i < |t|
    ensures WellFormed(RemoveAt(t, i))
  {
    var r := RemoveAt(t, i);
    forall a, b | 0 <= a < b < |r| ensures r[a].id != r[b].id {
      var a' := if a < i then a else a + 1;
      var b' := if b < i then b else b + 1;
      assert r[a] == t[a'] && r[b] == t[b'];
    }
  }
}
