/** The database tables the services read and write, as sequences of rows in
    creation order: a row is appended when it is created, so the table order
    is the `createdAt` order. Listing by `createdAt desc` is then reading a
    table back to front, and `findUnique` is a scan. */
module Tables {

  import opened Exceptions

  datatype Row<K, D> = Row(id: K, data: D)

  /** No two rows share an id. */
  ghost predicate WellFormed<K, D>(t: seq<Row<K, D>>) {
    forall i, j :: 0 <= i < j < |t| ==> t[i].id != t[j].id
  }

  function Ids<K, D>(t: seq<Row<K, D>>): set<K> {
    set i | 0 <= i < |t| :: t[i].id
  }

  /** Where the row with this id sits, if anywhere. */
  function IndexOf<K(==), D>(t: seq<Row<K, D>>, id: K): (r: Option<nat>)
    ensures r.Some? ==> r.value < |t| && t[r.value].id == id
    ensures r.None? <==> id !in Ids(t)
  {
    if t == [] then None
    else if t[0].id == id then Some(0)
    else
      match IndexOf(t[1..], id)
      case None =>
        assert Ids(t) == {t[0].id} + Ids(t[1..]) by {
          forall k | k in Ids(t) ensures k in {t[0].id} + Ids(t[1..]) {
            var i :| 0 <= i < |t| && t[i].id == k;
            if i > 0 { assert t[1..][i - 1].id == k; }
          }
        }
        None
      case Some(i) => Some(i + 1)
  }

  /** `findUnique({ where: { id } })` */
  function Find<K(==), D>(t: seq<Row<K, D>>, id: K): (r: Option<Row<K, D>>)
    ensures r.Some? <==> id in Ids(t)
    ensures r.Some? ==> r.value in t && r.value.id == id
  {
    match IndexOf(t, id)
    case None => None
    case Some(i) => Some(t[i])
  }

  /** `findUnique` on a unique column other than the id: the first row that
      satisfies `hit`, if any. */
  function FirstWhere<T>(t: seq<T>, hit: T -> bool): (r: Option<nat>)
    ensures r.Some? ==> r.value < |t| && hit(t[r.value])
    ensures r.Some? ==> forall j :: 0 <= j < r.value ==> !hit(t[j])
    ensures r.None? <==> forall j :: 0 <= j < |t| ==> !hit(t[j])
  {
    if t == [] then None
    else if hit(t[0]) then Some(0)
    else
      match FirstWhere(t[1..], hit)
      case None => None
      case Some(i) => Some(i + 1)
  }

  /** In a well-formed table the row found under an id is the only one. */
  lemma FoundRowIsUnique<K, D>(t: seq<Row<K, D>>, id: K, i: nat)
    requires WellFormed(t) && i < |t| && t[i].id == id
    ensures IndexOf(t, id) == Some(i) && Find(t, id) == Some(t[i])
  {
    var j := IndexOf(t, id).value;
    assert t[j].id == t[i].id;
  }

  /** The table with the row at `i` taken out. */
  function RemoveAt<T>(t: seq<T>, i: nat): (r: seq<T>)
    requires i < |t|
    ensures |r| == |t| - 1
    ensures forall j :: 0 <= j < i ==> r[j] == t[j]
    ensures forall j :: i <= j < |r| ==> r[j] == t[j + 1]
  {
    t[..i] + t[i + 1..]
  }

  /** After a removal in a well-formed table the id is gone. */
  lemma RemovedIdIsGone<K, D>(t: seq<Row<K, D>>, i: nat)
    requires WellFormed(t) && i < |t|
    ensures t[i].id !in Ids(RemoveAt(t, i))
    ensures Ids(RemoveAt(t, i)) == Ids(t) - {t[i].id}
  {
    var r := RemoveAt(t, i);
    forall k | k in Ids(r) ensures k in Ids(t) && k != t[i].id {
      var j :| 0 <= j < |r| && r[j].id == k;
      if j < i { assert r[j] == t[j]; } else { assert r[j] == t[j + 1]; }
    }
    forall k | k in Ids(t) && k != t[i].id ensures k in Ids(r) {
      var j :| 0 <= j < |t| && t[j].id == k;
      if j < i { assert r[j] == t[j]; } else { assert r[j - 1] == t[j]; }
    }
  }

  /** The table read back to front: newest row first. */
  function NewestFirst<T>(t: seq<T>): (r: seq<T>)
    ensures |r| == |t|
    ensures forall i :: 0 <= i < |t| ==> r[i] == t[|t| - 1 - i]
  {
    if t == [] then [] else [t[|t| - 1]] + NewestFirst(t[..|t| - 1])
  }

  /** Reading back to front lists every row exactly once. */
  lemma {:induction false} ReversePermutes<T>(t: seq<T>)
    ensures multiset(NewestFirst(t)) == multiset(t)
  {
    if t != [] {
      var n := |t| - 1;
      ReversePermutes(t[..n]);
      assert t == t[..n] + [t[n]];
    }
  }

  /** `where: { ... }`: the rows that satisfy `keep`, in table order. */
  function Filter<T>(s: seq<T>, keep: T -> bool): (r: seq<T>)
    ensures |r| <= |s|
    ensures forall i :: 0 <= i < |r| ==> keep(r[i])
    ensures multiset(r) <= multiset(s)
  {
    if s == [] then []
    else
      var rest := Filter(s[1..], keep);
      assert s == [s[0]] + s[1..];
      if keep(s[0]) then [s[0]] + rest else rest
  }

  /** A filter drops exactly the rows that fail `keep`. */
  lemma {:induction false} FilterKeepsAll<T>(s: seq<T>, keep: T -> bool, i: nat)
    requires i < |s| && keep(s[i])
    ensures s[i] in Filter(s, keep)
  {
    if i > 0 {
      FilterKeepsAll(s[1..], keep, i - 1);
    }
  }

  // ---------------------------------------------------------------------
  // orderBy: { name: 'asc' }

  /** Lexicographic order on strings by character code. */
  predicate StrLe(a: string, b: string)
    decreases |a|
  {
    a == [] || (b != [] && (a[0] < b[0] || (a[0] == b[0] && StrLe(a[1..], b[1..]))))
  }

  lemma {:induction false} StrLeTotal(a: string, b: string)
    ensures StrLe(a, b) || StrLe(b, a)
    decreases |a|
  {
    if a != [] && b != [] && a[0] == b[0] {
      StrLeTotal(a[1..], b[1..]);
    }
  }

  lemma {:induction false} StrLeTransitive(a: string, b: string, c: string)
    requires StrLe(a, b) && StrLe(b, c)
    ensures StrLe(a, c)
    decreases |a|
  {
    if a != [] && b != [] && c != [] && a[0] == b[0] && b[0] == c[0] {
      StrLeTransitive(a[1..], b[1..], c[1..]);
    }
  }

  ghost predicate SortedBy<T>(s: seq<T>, key: T -> string) {
    forall i, j :: 0 <= i < j < |s| ==> StrLe(key(s[i]), key(s[j]))
  }

  function InsertByKey<T>(x: T, s: seq<T>, key: T -> string): (r: seq<T>)
    requires SortedBy(s, key)
    ensures multiset(r) == multiset(s) + multiset{x}
    ensures SortedBy(r, key)
  {
    if s == [] then [x]
    else if StrLe(key(x), key(s[0])) then
      InsertFront(x, s, key);
      [x] + s
    else
      var rest := InsertByKey(x, s[1..], key);
      StrLeTotal(key(x), key(s[0]));
      assert s == [s[0]] + s[1..];
      PrependLeast(s[0], rest, key, s[1..], x);
      [s[0]] + rest
  }

  lemma PrependLeast<T>(y: T, rest: seq<T>, key: T -> string, pool: seq<T>, x: T)
    requires SortedBy(rest, key) && multiset(rest) == multiset(pool) + multiset{x}
    requires StrLe(key(y), key(x))
    requires forall j :: 0 <= j < |pool| ==> StrLe(key(y), key(pool[j]))
    ensures SortedBy([y] + rest, key)
  {
    forall k | 0 <= k < |rest| ensures StrLe(key(y), key(rest[k])) {
      assert rest[k] in multiset(rest);
      if rest[k] != x {
        assert rest[k] in multiset(pool);
        var j :| 0 <= j < |pool| && pool[j] == rest[k];
      }
    }
    var r := [y] + rest;
    forall i, j | 0 <= i < j < |r| ensures StrLe(key(r[i]), key(r[j])) {
      assert r[j] == rest[j - 1];
      if i > 0 { assert r[i] == rest[i - 1]; }
    }
  }

  lemma InsertFront<T>(x: T, s: seq<T>, key: T -> string)
    requires SortedBy(s, key) && s != [] && StrLe(key(x), key(s[0]))
    ensures SortedBy([x] + s, key)
  {
    forall j | 0 <= j < |s| ensures StrLe(key(x), key(s[j])) {
      if j > 0 { StrLeTransitive(key(x), key(s[0]), key(s[j])); }
    }
  }

  /** The rows ordered by the string `key`, ascending. */
  function SortByKey<T>(s: seq<T>, key: T -> string): (r: seq<T>)
    ensures multiset(r) == multiset(s)
    ensures SortedBy(r, key)
  {
    if s == [] then []
    else
      assert s == [s[0]] + s[1..];
      InsertByKey(s[0], SortByKey(s[1..], key), key)
  }

  /** `where` then `orderBy`: the sorted listing holds exactly the rows that
      satisfy `keep`. */
  lemma SortedFilterIsExact<T>(t: seq<T>, keep: T -> bool, key: T -> string, x: T)
    ensures x in SortByKey(Filter(t, keep), key) <==> x in t && keep(x)
  {
    var f := Filter(t, keep);
    assert x in SortByKey(f, key) <==> x in multiset(f);
    if x in t && keep(x) {
      var i :| 0 <= i < |t| && t[i] == x;
      FilterKeepsAll(t, keep, i);
    }
    if x in f {
      assert x in multiset(t);
      var i :| 0 <= i < |f| && f[i] == x;
    }
  }
}
