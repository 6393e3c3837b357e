/** The page envelope every list endpoint returns, and the `skip`/`take`
    window the database applies before it. */
module Pagination {

  import opened Numbers

  datatype PageInfo = PageInfo(size: nat, number: nat, totalElements: nat, totalPages: nat)

  datatype Paginated<T> = Paginated(content: seq<T>, page: PageInfo)

  /** `Math.ceil(n / d)` on whole numbers: the least page count whose pages of
      `d` rows hold `n` rows. */
  function CeilDiv(n: nat, d: nat): (q: nat)
    requires d >= 1
    ensures q * d >= n
    ensures n > 0 ==> (q - 1) * d < n
    ensures n == 0 ==> q == 0
  {
    var k := n / d;
    assert n == k * d + n % d;
    if n % d == 0 then k else k + 1
  }

  /** `Math.ceil` on a real number. */
  function Ceil(x: real): int {
    -((-x).Floor)
  }

  /** The whole-number ceiling agrees with `Math.ceil` applied to the exact
      quotient `totalElements / size`. */
  lemma CeilDivIsMathCeil(n: nat, d: nat)
    requires d >= 1
    ensures CeilDiv(n, d) == Ceil(n as real / d as real)
  {
    var q := CeilDiv(n, d);
    var x := n as real / d as real;
    QuotientBounds(n, d, q);
    if n > 0 {
      assert -(q as real) <= -x < 1.0 - q as real;
    } else {
      assert x == 0.0;
    }
  }

  /** The exact quotient lies in the last page: above `q - 1`, at most `q`. */
  lemma QuotientBounds(n: nat, d: nat, q: nat)
    requires d >= 1 && q * d >= n && (n > 0 ==> (q - 1) * d < n)
    ensures n as real / d as real <= q as real
    ensures n > 0 ==> (q - 1) as real < n as real / d as real
  {
    var dr, x := d as real, n as real / d as real;
    assert x * dr == n as real;
    CastProduct(q, d);
    RealCancel(x, q as real, dr);
    if n > 0 {
      CastProduct(q - 1, d);
      assert (q - 1) as real * dr < x * dr;
      RealCancelStrict((q - 1) as real, x, dr);
    }
  }

  lemma CastProduct(a: int, b: int)
    ensures (a * b) as real == a as real * b as real
  {
  }

  lemma RealCancel(a: real, b: real, p: real)
    requires p > 0.0 && a * p <= b * p
    ensures a <= b
  {
    assert (b - a) * p >= 0.0;
  }

  lemma RealCancelStrict(a: real, b: real, p: real)
    requires p > 0.0 && a * p < b * p
    ensures a < b
  {
    assert (b - a) * p > 0.0;
  }

  /** `createPaginatedResponse`: the list and the request's page coordinates
      are passed through, and the page count is the ceiling of
      `totalElements / size`. */
  function CreatePaginatedResponse<T>(content: seq<T>, totalElements: nat, page: nat, size: nat): (r: Paginated<T>)
    requires size >= 1
    ensures r.content == content
    ensures r.page.size == size && r.page.number == page && r.page.totalElements == totalElements
    ensures r.page.totalPages * size >= totalElements
    ensures totalElements > 0 ==> (r.page.totalPages - 1) * size < totalElements
    ensures totalElements == 0 ==> r.page.totalPages == 0
    ensures size == 1 ==> r.page.totalPages == totalElements
  {
    Paginated(content, PageInfo(size, page, totalElements, CeilDiv(totalElements, size)))
  }

  /** How many rows page `page` holds when `n` rows are split into pages of
      `size`: none past the end, otherwise a full page or what is left. */
  function PageLength(n: nat, page: nat, size: nat): nat {
    if page * size >= n then 0 else if n - page * size < size then n - page * size else size
  }

  /** Prisma's `skip`/`take`: at most `take` rows, starting `skip` rows in. */
  function Window<T>(s: seq<T>, skip: nat, take: nat): (r: seq<T>)
    ensures |r| <= take
    ensures skip <= |s| ==> |r| == if |s| - skip < take then |s| - skip else take
    ensures skip >= |s| ==> r == []
    ensures forall i :: 0 <= i < |r| ==> skip + i < |s| && r[i] == s[skip + i]
  {
    if skip >= |s| then []
    else if |s| - skip <= take then s[skip..]
    else s[skip..skip + take]
  }

  /** Every row of a listing sits on exactly one page: row `i` is entry
      `i % size` of page `i / size`, and that page number is below the page
      count the envelope reports. */
  lemma RowOnPage<T>(s: seq<T>, size: nat, i: nat)
    requires size >= 1 && i < |s|
    ensures 0 <= i / size < CeilDiv(|s|, size) && (i / size) * size + i % size == i
    ensures var w := Window(s, (i / size) * size, size);
            i % size < |w| && w[i % size] == s[i]
  {
    var p := i / size;
    assert i == p * size + i % size;
    var q := CeilDiv(|s|, size);
    CancelStrict(p, q, size);
  }

  /** A page past the last one is empty. */
  lemma PagePastEndIsEmpty<T>(s: seq<T>, size: nat, page: nat)
    requires size >= 1 && page >= CeilDiv(|s|, size)
    ensures Window(s, page * size, size) == []
  {
    var q := CeilDiv(|s|, size);
    assert (page - q) * size >= 0;
  }
}
