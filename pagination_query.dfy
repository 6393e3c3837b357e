/** `PaginationQueryDto`: the `page` and `size` query parameters after
    `Number(...)` coercion, their defaults and their bounds. The global
    pipe's `forbidNonWhitelisted` applies to queries too: any other
    parameter is rejected. */
module PaginationQuery {

  import opened Exceptions
  import opened Numbers
  import Pagination

  /** The query as received: `page` and `size` each absent or coerced to a
      number, and the names of every parameter present. */
  datatype RawQuery = RawQuery(page: Option<Number>, size: Option<Number>, names: set<string>)

  /** The parameters the DTO does not declare. */
  function Undeclared(q: RawQuery): set<string> {
    q.names - {"page", "size"}
  }

  /** The query as the controllers read it after validation. */
  datatype PageQuery = PageQuery(page: nat, size: nat)

  /** The outcome of validation: the query, or the fields that failed. */
  datatype Checked = Accepted(query: PageQuery) | Rejected(fields: set<string>)

  const DefaultPage: nat := 0
  const DefaultSize: nat := 10
  const MaxSize: nat := 100

  /** `@IsOptional() @IsInt() @Min(0)` on `page`. */
  predicate PageAcceptable(v: Option<Number>) {
    v.None? || (IsInteger(v.value) && AtLeast(v.value, 0))
  }

  /** `@IsOptional() @IsInt() @Min(1) @Max(100)` on `size`. */
  predicate SizeAcceptable(v: Option<Number>) {
    v.None? || (IsInteger(v.value) && AtLeast(v.value, 1) && AtMost(v.value, MaxSize))
  }

  function PageValue(v: Option<Number>): (page: nat)
    requires PageAcceptable(v)
  {
    if v.None? then DefaultPage
    else
      IntegerAtLeast(v.value, 0);
      IntegerValue(v.value)
  }

  function SizeValue(v: Option<Number>): (size: nat)
    requires SizeAcceptable(v)
    ensures 1 <= size <= MaxSize
  {
    if v.None? then DefaultSize
    else
      IntegerAtLeast(v.value, 1);
      IntegerAtMost(v.value, MaxSize);
      IntegerValue(v.value)
  }

  /** Validation with the property initialisers as defaults: an absent `page`
      is 0, an absent `size` is 10, and a present one is kept only when it is
      an integer within its bounds. A query with an undeclared parameter is
      rejected, and the rejection names each such parameter. */
  function Validate(q: RawQuery): (r: Checked)
    ensures r.Accepted? <==> PageAcceptable(q.page) && SizeAcceptable(q.size) && Undeclared(q) == {}
    ensures r.Accepted? ==> 1 <= r.query.size <= MaxSize
    ensures r.Accepted? && q.page.None? ==> r.query.page == DefaultPage
    ensures r.Accepted? && q.size.None? ==> r.query.size == DefaultSize
    ensures r.Accepted? && q.page.Some? ==> r.query.page == IntegerValue(q.page.value)
    ensures r.Accepted? && q.size.Some? ==> r.query.size == IntegerValue(q.size.value)
    ensures r.Rejected? ==> ("page" in r.fields <==> !PageAcceptable(q.page))
    ensures r.Rejected? ==> ("size" in r.fields <==> !SizeAcceptable(q.size))
    ensures r.Rejected? ==> forall k :: k in r.fields && k !in {"page", "size"} <==> k in Undeclared(q)
  {
    var pageOk := PageAcceptable(q.page);
    var sizeOk := SizeAcceptable(q.size);
    if pageOk && sizeOk && Undeclared(q) == {} then
      Accepted(PageQuery(PageValue(q.page), SizeValue(q.size)))
    else
      Rejected((if pageOk then {} else {"page"}) + (if sizeOk then {} else {"size"}) + Undeclared(q))
  }

  /** A query that carries any parameter besides `page` and `size` is
      rejected, however valid those two are. */
  lemma UndeclaredParameterRejected(page: Option<Number>, size: Option<Number>, names: set<string>, extra: string)
    requires extra in names && extra !in {"page", "size"}
    ensures var r := Validate(RawQuery(page, size, names));
            r.Rejected? && extra in r.fields
  {
    assert extra in Undeclared(RawQuery(page, size, names));
  }

  /** Every accepted query can be handed to the page envelope: its size is a
      valid divisor, and the envelope echoes the query's page and size. */
  lemma AcceptedQueryPaginates<T>(q: RawQuery, content: seq<T>, total: nat)
    requires Validate(q).Accepted?
    ensures var pq := Validate(q).query;
            pq.size >= 1 &&
            var env := Pagination.CreatePaginatedResponse(content, total, pq.page, pq.size);
            env.page.number == pq.page && env.page.size == pq.size &&
            env.page.totalPages * pq.size >= total
  {
  }
}
