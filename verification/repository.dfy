/** The `category` table and the five repository statements over it.

    The table is a sequence of rows in insertion order (the order a plain
    `SELECT id, name FROM category` yields them) plus the next AUTO_INCREMENT value,
    which stands in for `LastInsertId`. Each statement also takes what the database
    driver did with it. A failed `ExecContext`, `LastInsertId`, `QueryContext` or
    `Scan` makes the Go code panic with that error, which here is an `Err(Other(..))`
    that leaves the caller's store as it was. A result cursor can also stop early
    without a panic, because `rows.Err()` is never consulted after `rows.Next()`. */
module Repository {
  import opened Failures
  import opened Domain

  /** What the database driver did with one `ExecContext` statement. */
  datatype Driver = Succeeds | Fails(desc: string)

  /** What the database driver did with one query and its result cursor: it delivered
      every row; `QueryContext` or a `Scan` failed; or `rows.Next()` returned false after
      `after` rows because iteration hit an error, which the code never checks. */
  datatype Cursor = Delivers | Breaks(desc: string) | EndsEarly(after: nat)

  datatype Store = Store(rows: seq<Category>, nextId: int)

  /** The table after a statement, with the category the statement returns. */
  datatype Written = Written(store: Store, category: Category)

  /** `FindById`'s two Go results: the scanned category and the error, if any. */
  datatype Lookup = Lookup(category: Category, err: Option<string>)

  /** The error text `FindById` returns when no row matches. */
  const NotFoundMessage := "category not found"

  /** A freshly created (or truncated) table. */
  const Empty := Store([], 1)

  predicate HasId(rows: seq<Category>, id: int) {
    exists i :: 0 <= i < |rows| && rows[i].id == id
  }

  predicate DistinctIds(rows: seq<Category>) {
    forall i, j :: 0 <= i < j < |rows| ==> rows[i].id != rows[j].id
  }

  /** The table's primary key and AUTO_INCREMENT: ids are distinct, positive and
      below the next id to be handed out. */
  predicate Valid(s: Store) {
    && 1 <= s.nextId
    && DistinctIds(s.rows)
    && forall i :: 0 <= i < |s.rows| ==> 1 <= s.rows[i].id < s.nextId
  }

  // ---------------------------------------------------------------- Save

  /** `INSERT INTO category(name) VALUES (?)`, then `category.Id = LastInsertId()`. */
  function Save(s: Store, c: Category, driver: Driver): (r: Result<Written>)
    ensures driver.Fails? <==> r.Err?
    ensures r.Err? ==> r.failure == Other(driver.desc)
    ensures r.Ok? ==> r.value.category.name == c.name
    ensures r.Ok? ==> r.value.store.rows == s.rows + [r.value.category]
    ensures r.Ok? && Valid(s) ==> !HasId(s.rows, r.value.category.id)
    ensures r.Ok? && Valid(s) ==> Valid(r.value.store) && r.value.category.id != 0
  {
    if driver.Fails? then Err(Other(driver.desc))
    else
      var saved := c.(id := s.nextId);
      Ok(Written(Store(s.rows + [saved], s.nextId + 1), saved))
  }

  // ---------------------------------------------------------------- Update

  /** `SET name = ? WHERE id = ?` applied to every row, as the statement does. */
  function Rename(rows: seq<Category>, c: Category): (r: seq<Category>)
    ensures |r| == |rows|
    ensures forall i :: 0 <= i < |rows| ==> r[i].id == rows[i].id
    ensures forall i :: 0 <= i < |rows| ==> r[i].name == (if rows[i].id == c.id then c.name else rows[i].name)
  {
    if |rows| == 0 then []
    else [if rows[0].id == c.id then rows[0].(name := c.name) else rows[0]] + Rename(rows[1..], c)
  }

  /** `UPDATE category SET name = ? WHERE id = ?`; the category is returned as given,
      whether or not a row matched. */
  function Update(s: Store, c: Category, driver: Driver): (r: Result<Written>)
    ensures driver.Fails? <==> r.Err?
    ensures r.Err? ==> r.failure == Other(driver.desc)
    ensures r.Ok? ==> r.value.category == c && r.value.store.nextId == s.nextId
    ensures r.Ok? && !HasId(s.rows, c.id) ==> r.value.store == s
    ensures r.Ok? && Valid(s) ==> Valid(r.value.store)
  {
    if driver.Fails? then Err(Other(driver.desc))
    else
      var rows := Rename(s.rows, c);
      assert !HasId(s.rows, c.id) ==> rows == s.rows;
      Ok(Written(Store(rows, s.nextId), c))
  }

  // ---------------------------------------------------------------- Delete

  /** `WHERE id <> ?`: the rows a `DELETE ... WHERE id = ?` keeps, in their order. */
  function Without(rows: seq<Category>, id: int): (r: seq<Category>)
    ensures |r| <= |rows|
    ensures !HasId(rows, id) ==> r == rows
  {
    if |rows| == 0 then []
    else if rows[0].id == id then Without(rows[1..], id)
    else [rows[0]] + Without(rows[1..], id)
  }

  /** The rows `Without` keeps are exactly the rows with another id. */
  lemma {:induction false} WithoutMembers(rows: seq<Category>, id: int)
    ensures !HasId(Without(rows, id), id)
    ensures forall x :: x in Without(rows, id) <==> x in rows && x.id != id
  {
    var r := Without(rows, id);
    if |rows| > 0 {
      var rest := rows[1..];
      WithoutMembers(rest, id);
      assert rows == [rows[0]] + rest;
      if rows[0].id == id {
        assert r == Without(rest, id);
      } else {
        assert r == [rows[0]] + Without(rest, id);
      }
    }
    forall i | 0 <= i < |r|
      ensures r[i].id != id
    {
      assert r[i] in r;
    }
  }

  /** `DELETE FROM category WHERE id = ?`; only the category's id is used. */
  function Delete(s: Store, c: Category, driver: Driver): (r: Result<Store>)
    ensures driver.Fails? <==> r.Err?
    ensures r.Err? ==> r.failure == Other(driver.desc)
    ensures r.Ok? ==> !HasId(r.value.rows, c.id) && r.value.nextId == s.nextId
    ensures r.Ok? ==> forall x :: x in r.value.rows <==> x in s.rows && x.id != c.id
    ensures r.Ok? && !HasId(s.rows, c.id) ==> r.value == s
    ensures r.Ok? && Valid(s) ==> Valid(r.value)
  {
    if driver.Fails? then Err(Other(driver.desc))
    else
      WithoutMembers(s.rows, c.id);
      WithoutKeepsDistinct(s.rows, c.id);
      Ok(Store(Without(s.rows, c.id), s.nextId))
  }

  /** Dropping rows never makes two of the remaining rows share an id. */
  lemma {:induction false} WithoutKeepsDistinct(rows: seq<Category>, id: int)
    ensures DistinctIds(rows) ==> DistinctIds(Without(rows, id))
  {
    if |rows| > 0 && DistinctIds(rows) {
      var rest := rows[1..];
      assert DistinctIds(rest);
      WithoutKeepsDistinct(rest, id);
      WithoutMembers(rest, id);
      if rows[0].id != id {
        var tail := Without(rest, id);
        forall j | 0 <= j < |tail|
          ensures tail[j].id != rows[0].id
        {
          assert tail[j] in rest;
          var i :| 0 <= i < |rest| && rest[i] == tail[j];
          assert rest[i] == rows[i + 1];
        }
        assert Without(rows, id) == [rows[0]] + tail;
      }
    }
  }

  // ---------------------------------------------------------------- FindById

  /** The first row with `id`, the one a `rows.Next()` cursor reaches first. */
  function FirstWithId(rows: seq<Category>, id: int): (r: Option<Category>)
    ensures r.None? <==> !HasId(rows, id)
    ensures r.Some? ==> r.value in rows && r.value.id == id
    ensures DistinctIds(rows) ==> forall i :: 0 <= i < |rows| && rows[i].id == id ==> r == Some(rows[i])
  {
    if |rows| == 0 then None
    else if rows[0].id == id then Some(rows[0])
    else
      var r := FirstWithId(rows[1..], id);
      assert forall i :: 1 <= i < |rows| ==> rows[i] == rows[1..][i - 1];
      r
  }

  /** `SELECT id, name FROM category WHERE id = ?`: the matching row and no error, or
      the zero category together with the not-found error. The error is also what a
      cursor that stops before its first row produces. */
  function FindById(s: Store, id: int, cursor: Cursor): (r: Result<Lookup>)
    ensures cursor.Breaks? <==> r.Err?
    ensures r.Err? ==> r.failure == Other(cursor.desc)
    ensures r.Ok? ==> (r.value.err.None? <==> HasId(s.rows, id) && cursor != EndsEarly(0))
    ensures r.Ok? && r.value.err.None? ==> r.value.category in s.rows && r.value.category.id == id
    ensures r.Ok? && r.value.err.Some? ==> r.value == Lookup(ZeroCategory, Some(NotFoundMessage))
    ensures r.Ok? && r.value.err.None? && Valid(s) ==> r.value.category.id != 0
  {
    if cursor.Breaks? then Err(Other(cursor.desc))
    else
      match FirstWithId(s.rows, id)
      case None => Ok(Lookup(ZeroCategory, Some(NotFoundMessage)))
      case Some(found) =>
        if cursor == EndsEarly(0) then Ok(Lookup(ZeroCategory, Some(NotFoundMessage)))
        else Ok(Lookup(found, None))
  }

  // ---------------------------------------------------------------- FindAll

  /** `SELECT id, name FROM category`, scanned row by row into a slice until
      `rows.Next()` returns false. The listing is always a prefix of the table in table
      order: exactly the rows read before the cursor stopped, which is the whole table unless
      it stopped early. */
  method FindAll(s: Store, cursor: Cursor) returns (r: Result<seq<Category>>)
    ensures cursor.Breaks? <==> r.Err?
    ensures r.Err? ==> r.failure == Other(cursor.desc)
    ensures r.Ok? ==> r.value <= s.rows
    ensures r.Ok? ==> |r.value| == |s.rows| || cursor == EndsEarly(|r.value|)
    ensures cursor.Delivers? ==> r == Ok(s.rows)
    ensures cursor.EndsEarly? ==>
      r == Ok(if cursor.after < |s.rows| then s.rows[..cursor.after] else s.rows)
  {
    if cursor.Breaks? {
      return Err(Other(cursor.desc));
    }
    var available := if cursor.EndsEarly? && cursor.after < |s.rows| then cursor.after else |s.rows|;
    var categories: seq<Category> := [];
    var next := 0;
    while next < available
      invariant next <= available
      invariant categories == s.rows[..next]
    {
      var category := s.rows[next];
      categories := categories + [category];
      next := next + 1;
    }
    assert s.rows[..|s.rows|] == s.rows;
    return Ok(categories);
  }
}
