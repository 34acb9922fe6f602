/**
 * Shared vocabulary of the model: optional values, the HTTP error results the
 * routes raise, Python truthiness of optional inputs, offset/limit paging, and
 * the record store.
 *
 * A database table is a `Table<T>`: rows are kept in insertion order and the
 * row with primary key `k` is `rows[k - 1]` (autoincrement keys; no operation
 * of the modelled core ever hard-deletes a row).
 */
module Common {

  datatype Option<+T> = None | Some(value: T)

  /** An HTTPException raised by a route: its status code and its detail text. */
  datatype Error = Error(status: int, detail: string)

  const BAD_REQUEST := 400
  const UNAUTHORIZED := 401
  const FORBIDDEN := 403
  const NOT_FOUND := 404
  const INTERNAL_SERVER_ERROR := 500

  const NOT_ENOUGH_PERMISSIONS := "Not enough permissions"

  datatype Result<+T> = Ok(value: T) | Err(error: Error)

  /** The 403 every permission check raises. */
  function Forbidden<T>(): Result<T>
  {
    Err(Error(FORBIDDEN, NOT_ENOUGH_PERMISSIONS))
  }

  /** A row together with its primary key. */
  datatype Entry<+T> = Entry(id: nat, row: T)

  /** Python truthiness of an `Optional[int]`: None and 0 are both false. */
  predicate Truthy(o: Option<int>)
  {
    o.Some? && o.value != 0
  }

  /** Python truthiness of an `Optional[str]`: None and "" are both false. */
  predicate TruthyText(o: Option<string>)
  {
    o.Some? && o.value != ""
  }

  /** `session.get(T, id)`: the row with that primary key, if any. */
  function Get<T>(rows: seq<T>, id: int): (r: Option<T>)
    ensures r.Some? <==> 1 <= id <= |rows|
    ensures r.Some? ==> r.value == rows[id - 1]
  {
    if 1 <= id <= |rows| then Some(rows[id - 1]) else None
  }

  /** `select(T).where(p).first()`: the key of the first matching row in key order. */
  function FirstWhere<T>(rows: seq<T>, p: T -> bool): (r: Option<nat>)
    ensures r.None? <==> forall i :: 0 <= i < |rows| ==> !p(rows[i])
    ensures r.Some? ==> 1 <= r.value <= |rows| && p(rows[r.value - 1])
    ensures r.Some? ==> forall i :: 0 <= i < r.value - 1 ==> !p(rows[i])
  {
    if rows == [] then None
    else if p(rows[0]) then Some(1)
    else
      match FirstWhere(rows[1..], p)
      case None => None
      case Some(k) => Some(k + 1)
  }

  /** `select(T).where(p).all()`: every matching row with its key, in key order. */
  function Where<T>(rows: seq<T>, p: T -> bool): (r: seq<Entry<T>>)
    ensures forall e :: e in r ==> 1 <= e.id <= |rows| && rows[e.id - 1] == e.row && p(e.row)
    ensures forall id :: Get(rows, id).Some? && p(Get(rows, id).value) ==> Entry(id, Get(rows, id).value) in r
    ensures |r| <= |rows|
  {
    if rows == [] then []
    else
      var last := rows[|rows| - 1];
      var front := Where(rows[..|rows| - 1], p);
      assert forall id :: 1 <= id < |rows| ==> Get(rows, id) == Get(rows[..|rows| - 1], id);
      if p(last) then front + [Entry(|rows|, last)] else front
  }

  /** The rows of a query come in increasing key order, each key at most once. */
  lemma {:induction false} WhereInKeyOrder<T>(rows: seq<T>, p: T -> bool)
    ensures forall a, b :: 0 <= a < b < |Where(rows, p)| ==> Where(rows, p)[a].id < Where(rows, p)[b].id
  {
    if rows != [] {
      var front := rows[..|rows| - 1];
      WhereInKeyOrder(front, p);
      var r := Where(rows, p);
      var f := Where(front, p);
      if p(rows[|rows| - 1]) {
        assert r == f + [Entry(|rows|, rows[|rows| - 1])];
        forall a, b | 0 <= a < b < |r| ensures r[a].id < r[b].id {
          assert r[a] == f[a] && f[a] in f;
          if b < |f| {
            assert r[b] == f[b];
          }
        }
      } else {
        assert r == f;
      }
    }
  }

  /**
   * Whether any of the first `n` changes of a partial update writes null
   * into a NOT NULL column, as `isNull` tells for one change. The three
   * update routes apply a patch by a setattr loop and then commit; this is
   * the condition under which that commit is refused.
   */
  function AnyNull<C>(changes: seq<C>, isNull: C -> bool, n: nat): (b: bool)
    requires n <= |changes|
    ensures b <==> exists k :: 0 <= k < n && isNull(changes[k])
  {
    if n == 0 then false else AnyNull(changes, isNull, n - 1) || isNull(changes[n - 1])
  }

  /**
   * `.offset(skip).limit(limit)` applied to a query result, with SQLite's
   * reading of the two numbers: a negative offset skips nothing and a negative
   * limit is no limit.
   */
  function Page<T>(s: seq<T>, skip: int, limit: int): (r: seq<T>)
    ensures skip <= 0 && (limit < 0 || |s| <= limit) ==> r == s
    ensures limit >= 0 ==> |r| <= limit
    ensures forall i :: 0 <= i < |r| ==> r[i] in s
    ensures 0 <= skip < |s| && limit > 0 ==> |r| > 0 && r[0] == s[skip]
    ensures r == s[PageStart(|s|, skip)..PageEnd(|s|, skip, limit)]
  {
    s[PageStart(|s|, skip)..PageEnd(|s|, skip, limit)]
  }

  /** Where a page starts: the offset, clamped to the rows there are. */
  function PageStart(n: nat, skip: int): (lo: nat)
    ensures lo <= n
    ensures 0 <= skip <= n ==> lo == skip
  {
    if skip <= 0 then 0 else if skip >= n then n else skip
  }

  /** Where a page ends: `limit` rows after its start, or the last row. */
  function PageEnd(n: nat, skip: int, limit: int): (hi: nat)
    ensures PageStart(n, skip) <= hi <= n
    ensures limit >= 0 && PageStart(n, skip) + limit <= n ==> hi == PageStart(n, skip) + limit
    ensures limit < 0 ==> hi == n
  {
    var lo := PageStart(n, skip);
    if limit < 0 || lo + limit >= n then n else lo + limit
  }

  /**
   * A database table. Inserting appends a row and yields its new key; updating
   * a row in place replaces the row under its key.
   */
  class Table<T> {
    var rows: seq<T>

    constructor ()
      ensures rows == []
    {
      rows := [];
    }

    method Insert(row: T) returns (id: nat)
      modifies this
      ensures rows == old(rows) + [row]
      ensures id == |rows| && Get(rows, id) == Some(row)
    {
      rows := rows + [row];
      id := |rows|;
    }

    method Put(id: nat, row: T)
      requires 1 <= id <= |rows|
      modifies this
      ensures |rows| == |old(rows)|
      ensures rows == old(rows)[id - 1 := row]
    {
      rows := rows[id - 1 := row];
    }
  }
}
