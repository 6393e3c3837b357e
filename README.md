# Auto-shop backend: a Dafny model of its business rules

The system is a NestJS + Prisma REST backend for a car workshop. It manages
customers and their cars, priced services, products and product types, and
users, with JWT authentication. This project models its core in Dafny:

- **Pagination.** The page envelope every list endpoint returns. Its page
  count is `Math.ceil(totalElements / size)`. The query DTO gives `page` and
  `size` their defaults and bounds. The products listing parses its own
  query instead.
- **Request validation.** The class-validator decorators on the create DTOs
  become predicates over a JSON-like `Value`. This covers the anchored
  Iranian licence-plate pattern, `@IsUUID()`, the integer and decimal-place
  bounds, and the global pipe's `forbidNonWhitelisted`. Numbers are exact
  decimals, so "integer" and "at most two decimal places" are exact.
- **The resource services.** `CustomersService`, `ServicesService`,
  `ProductsService`, `ProductTypesService` and `UsersService` are classes
  over one shared `Database` object. Each Prisma table is a sequence of rows
  in creation order:
  - `orderBy: { createdAt: 'desc' }` reads a table back to front;
  - `findUnique` is a scan;
  - `skip`/`take` is a window on the sequence.

  Every write method states its whole new state. Every error path states
  that the state is unchanged, and every method keeps the database's
  invariant that ids are unique in every table.
- **`AuthService`.** `register` and `login`, with bcrypt's hash and compare
  and the JWT signer passed in as functions.
- **`JwtAuthGuard`.** `canActivate` is modelled as a pure decision: the
  public flag, then the Authorization-header checks, then Passport's verdict.
  `handleRequest` is modelled as the mapping from Passport's error, user and
  info to the exception thrown.
- **`HttpExceptionFilter`.** The classification of anything thrown into the
  status, error and message of the JSON error envelope.

Files, one module each:

| file | module |
|---|---|
| `exceptions.dfy` | `Exceptions`: Option, Result, and the exception values that are thrown |
| `numbers.dfy` | `Numbers`: JavaScript numbers as exact decimals |
| `pagination.dfy` | `Pagination`: `createPaginatedResponse`, plus skip/take |
| `pagination_query.dfy` | `PaginationQuery`: `PaginationQueryDto` |
| `patterns.dfy` | `Patterns`: the plate and UUID regular expressions |
| `request_dtos.dfy` | `RequestDtos`: the create DTOs |
| `tables.dfy` | `Tables`: rows, lookups, deletion, ordering, filtering and sorting |
| `store.dfy` | `Store`: the entities and the `Database` class |
| `customers.dfy`, `services.dfy`, `products.dfy`, `product_types.dfy`, `users.dfy` | one module per service |
| `auth.dfy` | `Auth` |
| `jwt_guard.dfy` | `JwtGuard` |
| `exception_filter.dfy` | `ExceptionFilter` |

Three behaviours of the code worth noting:

- Deleting a product type does not look at the products that use it.
  `ProductTypes.ProductTypesService.Remove` states what this leaves behind:
  those products are then read without a type.
- The product-type and user lookups throw a plain `Error`. The exception
  filter therefore reports them as 500, not 404
  (`ExceptionFilter.PlainLookupErrorsAre500`).
- `UsersService.create` writes only the request's name, email and age, so
  such a user has no password hash. Logging in as that user makes
  `bcrypt.compare` reject with a plain `Error`, which the filter reports as
  500 rather than 401 (`Auth.LoginOn`, `ExceptionFilter.PasswordlessLoginIs500`).

## Model

| member | source | states |
|---|---|---|
| Pagination.CeilDiv | src/common/utils/pagination.util.ts:13 | the page count is the least number of `size`-row pages that hold `totalElements` rows: they hold them all, one page fewer does not, and 0 rows make 0 pages |
| Pagination.CeilDivIsMathCeil | src/common/utils/pagination.util.ts:13 | the whole-number page count equals `Math.ceil` applied to the exact quotient `totalElements / size` |
| Pagination.CreatePaginatedResponse | src/common/utils/pagination.util.ts:1-16 | content, size, page number and total are passed through unchanged; `totalPages * size >= totalElements`, `(totalPages - 1) * size < totalElements` when there are rows, 0 pages for 0 rows, and `totalPages == totalElements` when size is 1 |
| Pagination.Window | src/customers/customers.service.ts:100-117 | `skip`/`take` returns at most `take` rows; entry `i` is row `skip + i`; the result is empty when `skip` is past the end, and otherwise has exactly `min(take, rows left)` entries |
| Pagination.RowOnPage | src/customers/customers.service.ts:99-122 | every row of a listing is entry `i % size` of page `i / size` (and `i` is `(i / size) * size + i % size`), and that page number is below the reported page count |
| Pagination.PagePastEndIsEmpty | src/customers/customers.service.ts:99-122 | a page at or past the reported page count is empty |
| PaginationQuery.SizeValue | src/common/dto/pagination-query.dto.ts:11-16 | an accepted `size` lies in 1..100 |
| PaginationQuery.Validate | src/common/dto/pagination-query.dto.ts:4-17 | a query is accepted iff `page` is absent or an integer ≥ 0, `size` is absent or an integer in 1..100, and no other parameter is present (`forbidNonWhitelisted`); absent values become 0 and 10; present values are kept; a rejection names exactly the failing fields and every undeclared parameter |
| PaginationQuery.UndeclaredParameterRejected | src/common/dto/pagination-query.dto.ts:4-17 | any query parameter other than `page` and `size` rejects the query, and is named in the rejection |
| PaginationQuery.AcceptedQueryPaginates | src/common/dto/pagination-query.dto.ts:14 | every accepted query has size ≥ 1, so the page envelope is defined for it and echoes its page and size |
| Numbers.IntegerAtLeast | src/common/dto/pagination-query.dto.ts:7-8 | an integral number that passes `@Min(lo)` has an integer value ≥ lo |
| Numbers.IntegerAtMost | src/common/dto/pagination-query.dto.ts:15 | an integral number that passes `@Max(hi)` has an integer value ≤ hi |
| Numbers.Hundredths | src/products/dto/create-product.dto.ts:11-13 | a price with at most two decimal places is an exact whole number of hundredths, non-negative when the price passes `@Min(0)` |
| Patterns.MatchWidth | src/customers/dto/create-customer.dto.ts:10 | an anchored pattern of fixed repeat counts matches only strings of its total width |
| Patterns.PlateMatchesShape | src/customers/dto/create-customer.dto.ts:10 | a plate is accepted iff it is two ASCII digits, whitespace, a letter in U+0622..U+06CC, whitespace, three digits, whitespace and two digits |
| Patterns.PlateLength | src/customers/dto/create-customer.dto.ts:10 | every accepted plate has exactly 11 characters |
| Patterns.PlateAnchored | src/customers/dto/create-customer.dto.ts:10 | one extra character before or after an accepted plate makes it rejected |
| Patterns.WrongLengthIsNoPlate | src/customers/dto/create-customer.dto.ts:10 | a string of any length other than 11 is rejected |
| Patterns.PlateExampleAccepted | src/customers/dto/create-customer.dto.ts:11 | the example in the validation message, "12 م 345 67", is accepted |
| Patterns.UuidShape | src/cars/dto/create-car.dto.ts:14 | every accepted UUID has 36 characters, with hyphens at positions 8, 13, 18 and 23 |
| RequestDtos.OptionalString | src/customers/dto/create-customer.dto.ts:5-7 | an optional string field is read as present iff the body carries a string there, and then as that string |
| RequestDtos.CarInputOf | src/customers/dto/create-customer.dto.ts:4-17 | an accepted car gives a well-formed plate and the body's plate and car-model id; its title is present iff the body gives a non-null one, and is then the body's title |
| RequestDtos.CustomerInputOf | src/customers/dto/create-customer.dto.ts:19-31 | an accepted customer gives the body's name and phone, and no car list iff `cars` is absent or null; otherwise one car per array element, in order, each the car that element describes, with its well-formed plate |
| RequestDtos.InvalidCarRejectsCustomer | src/customers/dto/create-customer.dto.ts:26-30 | one invalid element of `cars` rejects the whole customer body |
| RequestDtos.CarsAreOptional | src/customers/dto/create-customer.dto.ts:26-30 | a body with only `fullName` and `phone` is accepted, and asks for no cars |
| RequestDtos.StandaloneCarIsStricter | src/cars/dto/create-car.dto.ts:14-15 | every body the standalone car DTO accepts, the nested one accepts; a string `carModelId` that is not a UUID is accepted only by the nested one |
| RequestDtos.ServiceInputOf | src/services/dto/create-service.dto.ts:3-18 | an accepted service gives the body's name and a whole price ≥ 0 equal to the body's; `description` and `isActive` are present iff given non-null, and are then the body's values |
| RequestDtos.ProductInputOf | src/products/dto/create-product.dto.ts:3-22 | an accepted product gives the body's name and its exact price in hundredths, ≥ 0; a description iff one is given non-null, and then the body's; a stock iff one is given non-null, and then the body's whole number ≥ 0; an integral type id equal to the body's |
| RequestDtos.StockValue | src/products/dto/create-product.dto.ts:15-18 | an accepted stock is a whole number ≥ 0, equal to the number given |
| RequestDtos.PriceDecimalPlaces | src/products/dto/create-product.dto.ts:11-13 | a non-negative price with two significant decimals is accepted, and one with three is rejected |
| RequestDtos.UndeclaredPropertyRejected | src/main.ts:20-23 | adding a property that no DTO declares makes every create validator reject the body |
| Exceptions.IntToString | src/products/products.service.ts:74 | an integer is rendered as a minus sign exactly when it is negative, followed by decimal digits that denote its magnitude, with no leading zero |
| Exceptions.NatToString | src/products/products.service.ts:74 | a whole number is rendered as decimal digits that denote exactly that number, with no leading zero |
| Exceptions.IntToStringInjective | src/products/products.service.ts:74 | two integers with the same rendering are equal, so a "ProductType with ID … not found" message names a single id |
| Tables.IndexOf | src/customers/customers.service.ts:145-147 | `findUnique({ where: { id } })` finds the position of the row with that id, and finds nothing iff no row has it |
| Tables.Find | src/customers/customers.service.ts:124-141 | a lookup by id returns a row of the table with that id, and returns nothing iff the id is absent |
| Tables.FirstWhere | src/customers/customers.service.ts:63-65 | a lookup by another column returns the first row satisfying the condition, and returns nothing iff no row does |
| Tables.FoundRowIsUnique | src/customers/customers.service.ts:125-126 | in a table with unique ids, the lookup by id finds exactly the row that holds that id |
| Tables.RemoveAt | src/customers/customers.service.ts:180-182 | deleting a row leaves every other row, in order |
| Tables.RemovedIdIsGone | src/customers/customers.service.ts:180-182 | after a delete by id, exactly that id is gone from a table with unique ids |
| Tables.NewestFirst | src/customers/customers.service.ts:112-114 | `orderBy: { createdAt: 'desc' }` lists the table back to front: entry `k` is the k-th most recent row |
| Tables.ReversePermutes | src/customers/customers.service.ts:112-114 | newest-first order lists every row exactly once |
| Tables.Filter | src/services/services.service.ts:41-43 | `where` keeps only rows of the table, each at most as often as it occurs there, and only rows that satisfy the condition |
| Tables.FilterKeepsAll | src/services/services.service.ts:41-43 | every row of the table that satisfies the condition is kept by the filter |
| Tables.StrLeTotal | src/services/services.service.ts:44-46 | the name order used for `orderBy: { name: 'asc' }` is total |
| Tables.StrLeTransitive | src/services/services.service.ts:44-46 | that order is transitive |
| Tables.SortByKey | src/services/services.service.ts:44-46 | sorting by a key yields the same rows, as a multiset, in ascending key order |
| Tables.SortedFilterIsExact | src/services/services.service.ts:40-49 | a row is in the name-sorted active listing iff it is in the table and satisfies the filter |
| Customers.CarError | src/customers/customers.service.ts:53-69 | one car raises nothing iff its model exists and its plate is free; otherwise it raises NotFound for a missing model (checked first) or Conflict for a taken plate, each with the service's message |
| Customers.DuplicatePlatesIffRepeated | src/customers/customers.service.ts:46-50 | the `Set` size test fires iff two requested cars share a plate |
| Customers.FirstFailingCarDecides | src/customers/customers.service.ts:53-70 | when cars are checked in request order, the first failing car's exception is the one raised |
| Customers.NoCarErrorIffAllPass | src/customers/customers.service.ts:53-70 | the car checks raise nothing iff every requested car has an existing model and a free plate |
| Customers.CreateSucceedsIff | src/customers/customers.service.ts:44-71 | `create` raises nothing iff no cars are requested, or the plates are pairwise distinct, every model exists and no plate is taken |
| Customers.NewCarRows | src/customers/customers.service.ts:77-84 | one car row per requested car, in order, with its id, title, plate and model, owned by the new customer |
| Customers.ViewOf | src/customers/customers.service.ts:87-93 | a customer is returned with exactly its own cars, in table order (entry `k` is the `k`-th car it owns), each with the car model it names |
| Customers.ViewListsEveryCar | src/customers/customers.service.ts:87-93 | every car whose owner is the customer appears in the customer's view |
| Customers.CreateKeepsConsistent | src/customers/customers.service.ts:73-94 | writing the customer and its cars with fresh, distinct ids keeps ids unique in every table |
| Customers.CustomersService.CheckRequest | src/customers/customers.service.ts:44-70 | the pre-write checks, in order, raise exactly the exception the specification function `CreateError` names |
| Customers.CustomersService.CheckCars | src/customers/customers.service.ts:53-70 | the loop over the requested cars raises exactly the first failing car's exception |
| Customers.CustomersService.Create | src/customers/customers.service.ts:42-97 | it fails iff a check fails, raising that check's exception and changing no table; on success it adds exactly the customer and its cars, and returns the customer with its cars and their models |
| Customers.CustomersService.FindAll | src/customers/customers.service.ts:99-122 | exactly `min(size, customers left)` customers (none past the end), newest first from `page * size` on, each with its cars; the total counts all customers |
| Customers.CustomersService.FindOne | src/customers/customers.service.ts:124-141 | the customer with that id together with all of its cars and their models, or NotFound "Customer with ID … not found" iff there is none |
| Customers.CustomersService.Update | src/customers/customers.service.ts:143-169 | a missing id raises NotFound and nothing changes; otherwise only that customer's name and phone change, where the patch gives them, and the cars are untouched |
| Customers.CustomersService.Remove | src/customers/customers.service.ts:171-183 | a missing id raises NotFound and nothing changes; otherwise exactly that customer row goes, and its id is no longer present |
| Services.WithName | src/services/services.service.ts:71-73 | `findUnique({ where: { name } })` finds a row with that name, and finds nothing iff no row has it |
| Services.NameHeldByOtherIff | src/services/services.service.ts:102-110 | while non-empty names are distinct, the update's name test fires iff another service holds the new name |
| Services.LookupNeedsDistinctNames | src/services/services.service.ts:102-110 | without that invariant the test can miss: if two services share a name, the second can rename to it unopposed |
| Services.Patched | src/services/services.service.ts:113-116 | each field the patch gives is written, and every other field is kept |
| Services.ActiveByName | src/services/services.service.ts:39-49 | the active services, and only they, in ascending name order |
| Services.ServicesService.FindAll | src/services/services.service.ts:17-33 | exactly `min(size, services left)` services (none past the end), newest first from `page * size` on; the total counts all services |
| Services.ServicesService.FindActive | src/services/services.service.ts:35-56 | exactly `min(size, active services left)` services, entry `k` being entry `page * size + k` of the active services in ascending name order; all are stored and active; the total counts only the active ones |
| Services.ActiveServiceListed | src/services/services.service.ts:35-56 | every active service is listed on some page below the reported page count |
| Services.ServicesService.FindOne | src/services/services.service.ts:58-68 | the service with that id, or NotFound iff there is none |
| Services.ServicesService.Create | src/services/services.service.ts:70-91 | a taken name raises Conflict, and a refused insert raises BadRequest "Failed to create service", each with nothing written; otherwise exactly one row is added, active unless the request says otherwise; distinct non-empty names stay distinct |
| Services.ServicesService.Update | src/services/services.service.ts:93-120 | a missing id raises NotFound; a non-empty name held by another service raises Conflict; otherwise an update the store refuses raises BadRequest "Failed to update service"; each changes nothing; otherwise only that row is patched, and distinct non-empty names stay distinct |
| Services.ServicesService.Remove | src/services/services.service.ts:122-134 | a missing id raises NotFound and nothing changes; otherwise exactly that row goes |
| Services.UpdateKeepsNamesDistinct | src/services/services.service.ts:102-116 | an update that passed the name test keeps non-empty names distinct |
| Products.ReportedGroup | src/products/products.service.ts:60 | the reported `groupByItem` is the stored value if non-empty, else the type's name if non-empty, else null, and is never the empty string |
| Products.OutOf | src/products/products.service.ts:89-91 | the create and update response carries the product's id, name, description, price, stock and type id, and its type, without `groupByItem` |
| Products.ViewOf | src/products/products.service.ts:57-61 | a read returns the product with its type, and the reported group |
| Products.Restamp | src/products/products.service.ts:97-117 | an update restamps `groupByItem` iff it moves the product to an existing type with a non-empty name, and then to that name |
| Products.ProductsService.FindAll | src/products/products.service.ts:10-43 | exactly `min(size, products left)` products (none past the end), newest first, each with its type and a reported group that is never empty; the total counts all products and the page count is `ceil(total / size)` |
| Products.ProductsService.FindOne | src/products/products.service.ts:45-64 | the product with that id as a read reports it, or NotFound iff there is none |
| Products.ProductsService.Create | src/products/products.service.ts:66-92 | a missing type raises NotFound and nothing is written; otherwise exactly one product is added, with stock defaulting to 0 and `groupByItem` set to the type's name, and a later read reports that name whenever it is non-empty |
| Products.ProductsService.Update | src/products/products.service.ts:94-127 | a missing product, or a move to a missing type, raises NotFound and nothing changes; otherwise only that product is patched, and its stored group is kept unless the product moves to a type with a non-empty name |
| Products.ProductsService.Remove | src/products/products.service.ts:129-134 | a missing product raises NotFound and nothing changes; otherwise exactly that row goes, and it is returned |
| ProductTypes.ProductTypesService.FindAll | src/product-types/product-types.service.ts:10-34 | exactly `min(size, types left)` types (none past the end), newest first; the total counts all types |
| ProductTypes.ProductTypesService.FindActive | src/product-types/product-types.service.ts:36-67 | exactly `min(size, active types left)` types, entry `k` being entry `page * size + k` of the active types in ascending name order; all are stored and active; the total counts only the active ones |
| ProductTypes.ActiveByName | src/product-types/product-types.service.ts:41-47 | the active types, and only they, in ascending name order |
| ProductTypes.ActiveTypeListed | src/product-types/product-types.service.ts:36-67 | every active product type is listed on some page below the reported page count |
| ProductTypes.ProductTypesService.FindOne | src/product-types/product-types.service.ts:69-79 | the type with that id, or, iff there is none, the plain Error "Product type not found", which is not an HTTP exception |
| ProductTypes.ProductTypesService.Create | src/product-types/product-types.service.ts:81-85 | no check at all: one row is added, with the next id and the request's fields, active unless the request says otherwise |
| ProductTypes.ProductTypesService.Update | src/product-types/product-types.service.ts:87-93 | a missing id raises the plain Error and nothing changes; otherwise only that row is patched, and products that store a non-empty group keep reporting it |
| ProductTypes.ProductTypesService.Remove | src/product-types/product-types.service.ts:95-100 | a missing id raises the plain Error and nothing changes; otherwise exactly that row goes, and the products that used it are left without a type |
| Users.UsersService.FindAll | src/users/users.service.ts:10-34 | exactly `min(size, users left)` users (none past the end), newest first; the total counts all users |
| Users.UsersService.FindOne | src/users/users.service.ts:36-46 | the user with that id, or the plain Error "User not found" iff there is none |
| Users.UsersService.Create | src/users/users.service.ts:48-52 | one row is added with the request's fields, no password and no customizer |
| Users.UsersService.Update | src/users/users.service.ts:54-60 | a missing id raises the plain Error and nothing changes; otherwise only that row is patched, and its password and customizer are kept |
| Users.UsersService.Remove | src/users/users.service.ts:62-67 | a missing id raises the plain Error and nothing changes; otherwise exactly that row goes |
| Auth.PublicOf | src/auth/auth.service.ts:90-96 | the user returned to the client has every stored field (id, name, email, age and customizer) except the password |
| Auth.WithEmail | src/auth/auth.service.ts:71-73 | `findUnique({ where: { email } })` finds the first user with that email, and finds nothing iff no user has it |
| Auth.LoginOn | src/auth/auth.service.ts:67-97 | an unknown email and a password that does not check against the stored hash give Unauthorized "Invalid credentials"; a user with no stored hash gives the plain Error bcrypt rejects with; a match returns the token for `{ sub: id, email }` and the user without its password |
| Auth.LoginFailuresIndistinguishable | src/auth/auth.service.ts:75-84 | an unknown email and a wrong password give the same exception |
| Auth.RegisterThenLogin | src/auth/auth.service.ts:23-97 | after registering, logging in with the same password succeeds, with the same token and public user that `register` returned |
| Auth.AuthService.Register | src/auth/auth.service.ts:23-65 | a known email raises Conflict and no user is created; otherwise exactly one user is added, storing the password's hash and no customizer, and the token for `{ sub: id, email }` is returned with the user without its password |
| Auth.AuthService.Login | src/auth/auth.service.ts:67-97 | login reads the user table and changes nothing, and answers as `LoginOn` does on that table: a success is a stored user whose email and password match |
| JwtGuard.AuthHeader | src/auth/guards/jwt-auth.guard.ts:31-32 | the value of the first of `authorization`, `Authorization` and `AUTHORIZATION` that is present and truthy, in that order of priority, and none iff all of them are absent or falsy |
| JwtGuard.TrimStart | src/auth/guards/jwt-auth.guard.ts:40 | a suffix of the input, with all leading whitespace removed and no more |
| JwtGuard.TrimEnd | src/auth/guards/jwt-auth.guard.ts:40 | a prefix of the input, with all trailing whitespace removed and no more |
| JwtGuard.Trim | src/auth/guards/jwt-auth.guard.ts:35 | the result is a slice of the header with only whitespace cut off before and after it, and neither starts nor ends with whitespace |
| JwtGuard.PassingHeaderCarriesToken | src/auth/guards/jwt-auth.guard.ts:40-43 | a header that passes the checks has at least one character after "bearer " |
| JwtGuard.TrimEndDropsPadding | src/auth/guards/jwt-auth.guard.ts:40 | trailing whitespace is exactly what trimming removes from a string that otherwise ends in a non-space |
| JwtGuard.BareSchemeRejected | src/auth/guards/jwt-auth.guard.ts:40-43 | "Bearer" alone, or followed only by whitespace, fails the prefix check |
| JwtGuard.BearerTokenAccepted | src/auth/guards/jwt-auth.guard.ts:39-43 | "Bearer <token>" passes the checks whatever the case of the scheme, when the token does not start or end with whitespace |
| JwtGuard.AfterDelegation | src/auth/guards/jwt-auth.guard.ts:46-80 | Passport's result allows the request iff it is `true`, or an Observable or Promise yields a truthy value; an Observable's own failure passes through as it is; a rejected Promise keeps its error iff that is an UnauthorizedException; every other denial is 401 "Authentication failed" |
| JwtGuard.CanActivate | src/auth/guards/jwt-auth.guard.ts:14-81 | a public route is allowed; otherwise a header failing the checks is denied with "Authentication token required" before Passport is consulted; and a passing header gets Passport's verdict |
| JwtGuard.ProtectedRouteNeedsBoth | src/auth/guards/jwt-auth.guard.ts:14-81 | a protected route is allowed iff the header passes and Passport approves, and every denial the guard makes itself is a 401 |
| JwtGuard.HandleRequest | src/auth/guards/jwt-auth.guard.ts:83-101 | the user is returned unchanged iff there is no error and a user; an Unauthorized error is rethrown; otherwise an expired token gives "Token has expired", then a malformed one "Invalid token", then a missing one "Authentication token required", each a 401; otherwise the strategy's error, or 401 "Authentication failed" when there is none |
| JwtGuard.MissingUserMessages | src/auth/guards/jwt-auth.guard.ts:89-98 | with no error and no user, the exception is a 401, and each of its four messages is given for its own cause and for no other |
| JwtGuard.ExpiredAndInvalidDiffer | src/auth/guards/jwt-auth.guard.ts:89-94 | unless the strategy threw a 401 itself, an expired token and a malformed one get different messages |
| ExceptionFilter.JoinEmptyIff | src/common/filters/http-exception.filter.ts:36-37 | `join(', ')` is empty iff the array is empty or holds one empty string |
| ExceptionFilter.Classify | src/common/filters/http-exception.filter.ts:16-79 | an HttpException keeps its status; a string response gives its class name and that string; an object response keeps a non-empty string message, falls back to "Internal server error" for a missing or empty one, and keeps a non-empty `error` or else says "Error"; a Prisma validation error is 400 "Bad Request" "Validation error: Invalid data provided"; a plain Error is a 500 with its own message; any other thrown value is a 500 "Internal server error" |
| ExceptionFilter.Respond | src/common/filters/http-exception.filter.ts:81-89 | the status written is the envelope's `statusCode`, and the envelope carries the request path and the classified error and message |
| ExceptionFilter.ArrayMessages | src/common/filters/http-exception.filter.ts:33-40 | an array message is reported joined with ", ", and falls back to the default only when the join is empty |
| ExceptionFilter.ServiceExceptionsKeepStatus | src/common/filters/http-exception.filter.ts:25-42 | NotFound, Conflict, BadRequest and Unauthorized reach the client with their status, reason phrase and non-empty message |
| ExceptionFilter.PlainLookupErrorsAre500 | src/common/filters/http-exception.filter.ts:71-79 | the plain Errors of the product-type and user lookups become 500s carrying their messages |
| ExceptionFilter.PrismaCodes | src/common/filters/http-exception.filter.ts:43-66 | P2002 is 409 "Conflict" "Unique constraint violation", P2025 is 404 "Not Found" "Record not found", P2003 is 400 "Bad Request" "Foreign key constraint violation", every other code 400 "Bad Request" "Database operation failed"; the Prisma message itself is never shown |
| ExceptionFilter.PasswordlessLoginIs500 | src/auth/auth.service.ts:80 | a login against a user stored without a password hash reaches the client as a 500 carrying bcrypt's message, not as a 401 |
| ExceptionFilter.HeaderRejectionIs401 | src/common/filters/http-exception.filter.ts:25-42 | whatever the guard's header checks reject reaches the client as 401 "Authentication token required" |

## Left out

- Clocks: `createdAt` and `updatedAt` are not stored. A table's order is its creation order, so `createdAt desc` is reverse table order. Ties between equal timestamps are not modelled.
- Generated ids: the uuid a create generates is a parameter, with a freshness precondition. The product-type id is taken from an autoincrement counter held in the `Database`.
- bcrypt, `JwtService.sign` and Passport's JWT strategy are parameters: a hash function, a compare function, a signer, and Passport's verdict (a boolean, an Observable or a Promise). Token verification itself is not modelled.
- Services.ServicesService.Create and Services.ServicesService.Update: why Prisma refuses a write inside the try/catch is not modelled. It is a boolean input, `storeRejects`.
- Database schema constraints are not modelled: unique columns, foreign keys, `onDelete` cascades, and column defaults other than those the services set. Prisma errors that would come from them are left out too. Only the checks the services make themselves are modelled.
- ProductTypes.ProductTypesService.Create: the Prisma schema is not part of this model. The `isActive` default for a type is taken to be `true`, like the services' explicit default.
- The update DTOs are not part of this model. Each is taken to be its create DTO with every field optional. An explicit `null` in a patch is treated like an absent field.
- Products.ProductsService.Update: a patch with `productTypeId` 0 skips the type check, and 0 is written unchecked, as in the code. The foreign-key failure that would follow is not modelled.
- Concurrency: the `Promise.all` of a listing's page and count, and interleaved requests, are not modelled. Each operation runs against one snapshot.
- Floating point: prices are exact decimals, held as hundredths. NaN and the infinities are modelled only as far as the validators reject them.
- Products.ProductsService.FindAll: the products controller parses `page` and `size` with its own `parseInt`, not the query DTO. A `size` of 0, a negative `page` or `size` (so a negative `skip` or `take`), and a non-numeric value are outside the model. The service requires `page >= 0` and `size >= 1`. For the other listings, validated queries guarantee this (`PaginationQuery.AcceptedQueryPaginates`).
- Customers.ViewOf: the `include: { cars }` clauses set no `orderBy`, so the database may return a customer's cars in any order. The model fixes one order: the order in which the cars were stored.
- `String.prototype.toLowerCase` is modelled for ASCII letters only. Only ASCII matters for the "bearer " prefix test.
- Sorting by name uses code-point order. Database collation, and the order of rows with equal names, are not modelled.
- `@IsEmail()` on the user and register DTOs is not modelled: emails are plain strings.
- `main.ts` bootstrap, the controllers, `PrismaService`, the seed script, logging and the user customizer endpoints are not part of this model. So is the text of the ValidationPipe's joined error messages.
- Auth.LoginOn: the Prisma schema is not part of this model, so a user without a password is taken to be storable, as `UsersService.create` writes it. If the schema makes the password required, that create would fail instead, and the passwordless case of login would not arise. The text of the Error bcrypt rejects with is the library's, "data and hash arguments required".
- Users.UsersService.FindAll returns stored rows, password hashes included, as the code does.
