/** The request bodies of the create endpoints as the global ValidationPipe
    checks them: class-validator's decorators on each DTO, with `whitelist`
    and `forbidNonWhitelisted` on, so a property the DTO does not declare is
    rejected too. A body is a JSON-like `Value`; each validator is a predicate
    on it, and each accepted body converts to the typed input the services
    take. */
module RequestDtos {

  import opened Exceptions
  import opened Numbers
  import opened Patterns

  datatype Value =
    | Null
    | Bool(b: bool)
    | Num(n: Number)
    | Str(s: string)
    | Array(items: seq<Value>)
    | Object(fields: map<string, Value>)

  /** `forbidNonWhitelisted`: no property beyond the declared ones. */
  predicate OnlyDeclared(o: map<string, Value>, declared: set<string>) {
    o.Keys <= declared
  }

  /** A decorated property without `@IsOptional()`: present and valid. */
  predicate Required(o: map<string, Value>, key: string, valid: Value -> bool) {
    key in o && valid(o[key])
  }

  /** `@IsOptional()`: absent or null skips the property's other checks. */
  predicate Optional(o: map<string, Value>, key: string, valid: Value -> bool) {
    key !in o || o[key].Null? || valid(o[key])
  }

  predicate IsString(v: Value) { v.Str? }

  predicate IsBoolean(v: Value) { v.Bool? }

  /** `@IsString() @Matches(plate pattern)` */
  predicate IsPlateString(v: Value) { v.Str? && IsPlate(v.s) }

  /** `@IsUUID()` (it checks that the value is a string first). */
  predicate IsUuidString(v: Value) { v.Str? && IsUuid(v.s) }

  /** `@IsInt() @Min(0)` */
  predicate IsNonNegativeInt(v: Value) { v.Num? && IsInteger(v.n) && AtLeast(v.n, 0) }

  /** `@IsInt()` */
  predicate IsInt(v: Value) { v.Num? && IsInteger(v.n) }

  /** `@IsNumber({ maxDecimalPlaces: 2 }) @Min(0)` */
  predicate IsPrice(v: Value) { v.Num? && IsNumberWithDecimals(v.n, 2) && AtLeast(v.n, 0) }

  // ---------------------------------------------------------------------
  // create-customer.dto.ts

  /** `CreateCarDto` nested in a customer: optional `title`, a plate, and a
      `carModelId` that only has to be a string. */
  predicate IsCustomerCar(v: Value) {
    v.Object?
    && OnlyDeclared(v.fields, {"title", "plate", "carModelId"})
    && Optional(v.fields, "title", IsString)
    && Required(v.fields, "plate", IsPlateString)
    && Required(v.fields, "carModelId", IsString)
  }

  /** `@IsArray() @ValidateNested({ each: true })`: an array whose every
      element is itself a valid car. */
  predicate IsCarList(v: Value) {
    v.Array? && forall i :: 0 <= i < |v.items| ==> IsCustomerCar(v.items[i])
  }

  predicate IsCreateCustomer(v: Value) {
    v.Object?
    && OnlyDeclared(v.fields, {"fullName", "phone", "cars"})
    && Required(v.fields, "fullName", IsString)
    && Required(v.fields, "phone", IsString)
    && Optional(v.fields, "cars", IsCarList)
  }

  datatype CarInput = CarInput(title: Option<string>, plate: string, carModelId: string)

  datatype CustomerInput = CustomerInput(fullName: string, phone: string, cars: Option<seq<CarInput>>)

  function OptionalString(o: map<string, Value>, key: string): (r: Option<string>)
    requires Optional(o, key, IsString)
    ensures r.Some? <==> key in o && o[key].Str?
    ensures r.Some? ==> r.value == o[key].s
  {
    if key in o && o[key].Str? then Some(o[key].s) else None
  }

  function CarInputOf(v: Value): (car: CarInput)
    requires IsCustomerCar(v)
    ensures IsPlate(car.plate) && Str(car.plate) == v.fields["plate"]
    ensures Str(car.carModelId) == v.fields["carModelId"]
    ensures car.title.Some? <==> "title" in v.fields && !v.fields["title"].Null?
    ensures car.title.Some? ==> Str(car.title.value) == v.fields["title"]
  {
    CarInput(OptionalString(v.fields, "title"), v.fields["plate"].s, v.fields["carModelId"].s)
  }

  /** The customer an accepted body describes: its name and phone, and one
      car per array element, in order, each with a well-formed plate. */
  function CustomerInputOf(v: Value): (c: CustomerInput)
    requires IsCreateCustomer(v)
    ensures Str(c.fullName) == v.fields["fullName"] && Str(c.phone) == v.fields["phone"]
    ensures c.cars.None? <==> "cars" !in v.fields || v.fields["cars"].Null?
    ensures c.cars.Some? ==> |c.cars.value| == |v.fields["cars"].items|
    ensures c.cars.Some? ==> forall i :: 0 <= i < |c.cars.value| ==>
              && IsCustomerCar(v.fields["cars"].items[i])
              && c.cars.value[i] == CarInputOf(v.fields["cars"].items[i])
              && IsPlate(c.cars.value[i].plate) && Str(c.cars.value[i].plate) == v.fields["cars"].items[i].fields["plate"]
  {
    var o := v.fields;
    var cars :=
      if "cars" !in o || o["cars"].Null? then None
      else Some(seq(|o["cars"].items|, i requires 0 <= i < |o["cars"].items| => CarInputOf(o["cars"].items[i])));
    CustomerInput(o["fullName"].s, o["phone"].s, cars)
  }

  /** One invalid car rejects the whole customer body. */
  lemma InvalidCarRejectsCustomer(v: Value, i: nat)
    requires v.Object? && "cars" in v.fields && v.fields["cars"].Array?
    requires i < |v.fields["cars"].items| && !IsCustomerCar(v.fields["cars"].items[i])
    ensures !IsCreateCustomer(v)
  {
  }

  /** A body with only a name and a phone is accepted: `cars` is optional. */
  lemma CarsAreOptional(fullName: string, phone: string)
    ensures IsCreateCustomer(Object(map["fullName" := Str(fullName), "phone" := Str(phone)]))
    ensures CustomerInputOf(Object(map["fullName" := Str(fullName), "phone" := Str(phone)])).cars == None
  {
    var o := map["fullName" := Str(fullName), "phone" := Str(phone)];
    assert o.Keys == {"fullName", "phone"};
  }

  // ---------------------------------------------------------------------
  // cars/dto/create-car.dto.ts

  /** The standalone `CreateCarDto`: the same plate rule, and a `carModelId`
      that must be a UUID. */
  predicate IsCreateCar(v: Value) {
    v.Object?
    && OnlyDeclared(v.fields, {"title", "plate", "carModelId"})
    && Optional(v.fields, "title", IsString)
    && Required(v.fields, "plate", IsPlateString)
    && Required(v.fields, "carModelId", IsUuidString)
  }

  /** The standalone car DTO is stricter than the one nested in a customer:
      every body it accepts the nested one accepts, and a `carModelId` that
      is a string but not a UUID is accepted only by the nested one. */
  lemma StandaloneCarIsStricter(v: Value, plate: string)
    requires IsPlate(plate)
    ensures IsCreateCar(v) ==> IsCustomerCar(v)
    ensures var w := Object(map["plate" := Str(plate), "carModelId" := Str("1")]);
            IsCustomerCar(w) && !IsCreateCar(w)
  {
    var o := map["plate" := Str(plate), "carModelId" := Str("1")];
    assert o.Keys == {"plate", "carModelId"};
    if IsUuid("1") {
      MatchWidth(UuidPattern, "1");
    }
  }

  // ---------------------------------------------------------------------
  // services/dto/create-service.dto.ts

  predicate IsCreateService(v: Value) {
    v.Object?
    && OnlyDeclared(v.fields, {"name", "price", "description", "isActive"})
    && Required(v.fields, "name", IsString)
    && Required(v.fields, "price", IsNonNegativeInt)
    && Optional(v.fields, "description", IsString)
    && Optional(v.fields, "isActive", IsBoolean)
  }

  datatype ServiceInput = ServiceInput(name: string, price: int, description: Option<string>, isActive: Option<bool>)

  /** The service an accepted body describes: a whole, non-negative price. */
  function ServiceInputOf(v: Value): (s: ServiceInput)
    requires IsCreateService(v)
    ensures Str(s.name) == v.fields["name"]
    ensures s.price >= 0 && s.price * Pow10(v.fields["price"].n.scale) == v.fields["price"].n.digits
    ensures s.isActive.Some? <==> "isActive" in v.fields && !v.fields["isActive"].Null?
    ensures s.isActive.Some? ==> Bool(s.isActive.value) == v.fields["isActive"]
    ensures s.description.Some? <==> "description" in v.fields && !v.fields["description"].Null?
    ensures s.description.Some? ==> Str(s.description.value) == v.fields["description"]
  {
    var o := v.fields;
    IntegerAtLeast(o["price"].n, 0);
    ServiceInput(
      o["name"].s,
      IntegerValue(o["price"].n),
      OptionalString(o, "description"),
      if "isActive" in o && o["isActive"].Bool? then Some(o["isActive"].b) else None)
  }

  // ---------------------------------------------------------------------
  // products/dto/create-product.dto.ts

  predicate IsCreateProduct(v: Value) {
    v.Object?
    && OnlyDeclared(v.fields, {"name", "description", "price", "stock", "productTypeId"})
    && Required(v.fields, "name", IsString)
    && Optional(v.fields, "description", IsString)
    && Required(v.fields, "price", IsPrice)
    && Optional(v.fields, "stock", IsNonNegativeInt)
    && Required(v.fields, "productTypeId", IsInt)
  }

  /** A product to create, its price in hundredths. */
  datatype ProductInput = ProductInput(
    name: string, description: Option<string>, priceCents: int, stock: Option<int>, productTypeId: int)

  /** The product an accepted body describes: an exact, non-negative price in
      hundredths, a non-negative stock when one is given, a whole type id. */
  function ProductInputOf(v: Value): (p: ProductInput)
    requires IsCreateProduct(v)
    ensures Str(p.name) == v.fields["name"]
    ensures p.priceCents >= 0
    ensures p.priceCents * Pow10(v.fields["price"].n.scale) == v.fields["price"].n.digits * 100
    ensures p.stock.Some? <==> "stock" in v.fields && !v.fields["stock"].Null?
    ensures p.stock.Some? ==> p.stock.value >= 0
    ensures p.stock.Some? ==> p.stock.value * Pow10(v.fields["stock"].n.scale) == v.fields["stock"].n.digits
    ensures p.description.Some? <==> "description" in v.fields && !v.fields["description"].Null?
    ensures p.description.Some? ==> Str(p.description.value) == v.fields["description"]
    ensures p.productTypeId * Pow10(v.fields["productTypeId"].n.scale) == v.fields["productTypeId"].n.digits
  {
    var o := v.fields;
    var stock := if "stock" in o && o["stock"].Num? then Some(StockValue(o["stock"].n)) else None;
    ProductInput(
      o["name"].s,
      OptionalString(o, "description"),
      Hundredths(o["price"].n),
      stock,
      IntegerValue(o["productTypeId"].n))
  }

  function StockValue(n: Number): (stock: int)
    requires IsInteger(n) && AtLeast(n, 0)
    ensures stock >= 0
    ensures stock * Pow10(n.scale) == n.digits
  {
    IntegerAtLeast(n, 0);
    IntegerValue(n)
  }

  /** A price with three significant decimals is rejected, one with two is
      accepted: `maxDecimalPlaces: 2`. */
  lemma PriceDecimalPlaces(digits: nat)
    requires digits % 10 != 0
    ensures IsPrice(Num(Decimal(digits, 2)))
    ensures !IsPrice(Num(Decimal(digits, 3)))
  {
    assert Pow10(1) == 10;
  }

  // ---------------------------------------------------------------------

  /** `forbidNonWhitelisted`: adding an undeclared property to any body makes
      every one of these validators reject it. */
  lemma UndeclaredPropertyRejected(v: Value, key: string, x: Value)
    requires v.Object?
    requires key !in {"title", "plate", "carModelId", "fullName", "phone", "cars",
                      "name", "price", "description", "isActive", "stock", "productTypeId"}
    ensures var w := Object(v.fields[key := x]);
            !IsCustomerCar(w) && !IsCreateCustomer(w) && !IsCreateCar(w)
            && !IsCreateService(w) && !IsCreateProduct(w)
  {
    assert key in v.fields[key := x].Keys;
  }
}
