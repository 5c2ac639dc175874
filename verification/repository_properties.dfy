/** Properties that relate several repository statements to each other: round trips
    through the table, where rows sit, and what a run of inserts leaves behind. */
module RepositoryProperties {
  import opened Failures
  import opened Domain
  import opened Repository

  /** A saved category is found again under the id `Save` assigned it, unchanged. */
  lemma SaveThenFindById(s: Store, c: Category)
    requires Valid(s)
    ensures Save(s, c, Succeeds).Ok?
    ensures var w := Save(s, c, Succeeds).value;
      FindById(w.store, w.category.id, Delivers) == Ok(Lookup(w.category, None))
  {
    var w := Save(s, c, Succeeds).value;
    var k := |s.rows|;
    assert w.store.rows[k] == w.category;
    assert FirstWithId(w.store.rows, w.category.id) == Some(w.category);
  }

  /** Deleting what was just saved restores the rows that were there before, and the
      id is reported not found afterwards; the AUTO_INCREMENT counter does not go back. */
  lemma SaveThenDelete(s: Store, c: Category)
    requires Valid(s)
    ensures Save(s, c, Succeeds).Ok?
    ensures var w := Save(s, c, Succeeds).value;
      && Delete(w.store, w.category, Succeeds) == Ok(Store(s.rows, s.nextId + 1))
      && FindById(Store(s.rows, s.nextId + 1), w.category.id, Delivers)
         == Ok(Lookup(ZeroCategory, Some(NotFoundMessage)))
  {
    var w := Save(s, c, Succeeds).value;
    DeleteLast(w.store.rows, s.rows, w.category);
    AbsentIsNotFound(Store(s.rows, s.nextId + 1), w.category.id);
  }

  /** Removing the id of the last row, when no earlier row has it, leaves the earlier rows. */
  lemma DeleteLast(rows: seq<Category>, before: seq<Category>, last: Category)
    requires rows == before + [last] && DistinctIds(rows)
    ensures Without(rows, last.id) == before
  {
    var k := |before|;
    assert rows[k] == last;
    WithoutRemovesAt(rows, last.id, k);
    assert rows[..k] + rows[k + 1..] == before;
  }

  /** An id no row holds is reported not found. */
  lemma AbsentIsNotFound(t: Store, id: int)
    requires !HasId(t.rows, id)
    ensures FindById(t, id, Delivers) == Ok(Lookup(ZeroCategory, Some(NotFoundMessage)))
  {
  }

  /** With distinct ids, the row at the head is the only one `Without` drops. */
  lemma WithoutHead(rows: seq<Category>, id: int)
    requires DistinctIds(rows)
    requires 0 < |rows| && rows[0].id == id
    ensures Without(rows, id) == rows[1..]
  {
    assert !HasId(rows[1..], id) by {
      forall j | 0 <= j < |rows[1..]|
        ensures rows[1..][j].id != id
      {
        assert rows[1..][j] == rows[j + 1];
      }
    }
  }

  /** With distinct ids, deleting the row at position `k` leaves every other row in its
      original order. */
  lemma {:induction false} WithoutRemovesAt(rows: seq<Category>, id: int, k: nat)
    requires DistinctIds(rows)
    requires k < |rows| && rows[k].id == id
    ensures Without(rows, id) == rows[..k] + rows[k + 1..]
    decreases |rows|
  {
    if k == 0 {
      WithoutHead(rows, id);
      assert rows[..k] + rows[k + 1..] == rows[1..];
    } else {
      var tail := rows[1..];
      assert rows[0].id != id;
      assert DistinctIds(tail);
      WithoutRemovesAt(tail, id, k - 1);
      assert rows[..k] + rows[k + 1..] == [rows[0]] + (tail[..k - 1] + tail[k..]);
    }
  }

  /** `Delete` removes the matching row and keeps the order of the rest. */
  lemma DeleteKeepsOrder(s: Store, c: Category, k: nat)
    requires Valid(s)
    requires k < |s.rows| && s.rows[k].id == c.id
    ensures Delete(s, c, Succeeds) == Ok(Store(s.rows[..k] + s.rows[k + 1..], s.nextId))
  {
    WithoutRemovesAt(s.rows, c.id, k);
  }

  /** Deleting twice leaves the table as deleting once. */
  lemma DeleteIdempotent(s: Store, c: Category)
    ensures Delete(s, c, Succeeds).Ok?
    ensures var once := Delete(s, c, Succeeds).value;
      Delete(once, c, Succeeds) == Ok(once)
  {
  }

  /** `Update` on a present id replaces that row's name in place: its id and position
      are kept and every other row is untouched. */
  lemma UpdateInPlace(s: Store, c: Category, k: nat)
    requires Valid(s)
    requires k < |s.rows| && s.rows[k].id == c.id
    ensures Update(s, c, Succeeds)
         == Ok(Written(Store(s.rows[k := Category(c.id, c.name)], s.nextId), c))
  {
    var rows := Rename(s.rows, c);
    assert forall i :: 0 <= i < |s.rows| && i != k ==> s.rows[i].id != c.id;
    assert rows == s.rows[k := Category(c.id, c.name)];
  }

  /** After an update of a present id, the row reads back as the category given. */
  lemma UpdateThenFindById(s: Store, c: Category)
    requires Valid(s) && HasId(s.rows, c.id)
    ensures Update(s, c, Succeeds).Ok?
    ensures FindById(Update(s, c, Succeeds).value.store, c.id, Delivers) == Ok(Lookup(c, None))
  {
    var k :| 0 <= k < |s.rows| && s.rows[k].id == c.id;
    UpdateInPlace(s, c, k);
    var t := Update(s, c, Succeeds).value.store;
    assert t.rows[k] == c;
  }

  /** The table after inserting `names` one by one, every insert succeeding. */
  function SaveAll(s: Store, names: seq<string>): Store
    decreases |names|
  {
    if |names| == 0 then s
    else
      var w := Save(s, Category(0, names[0]), Succeeds).value;
      SaveAll(w.store, names[1..])
  }

  /** After N inserts, the table holds the old rows followed by exactly N new rows,
      carrying the inserted names in insertion order under consecutive ids. */
  lemma {:induction false} SaveAllAppends(s: Store, names: seq<string>)
    ensures var t := SaveAll(s, names);
      && |t.rows| == |s.rows| + |names|
      && t.rows[..|s.rows|] == s.rows
      && t.nextId == s.nextId + |names|
      && forall k :: 0 <= k < |names| ==> t.rows[|s.rows| + k] == Category(s.nextId + k, names[k])
    decreases |names|
  {
    if |names| != 0 {
      var w := Save(s, Category(0, names[0]), Succeeds).value;
      SaveAllAppends(w.store, names[1..]);
      var t := SaveAll(s, names);
      assert t == SaveAll(w.store, names[1..]);
      assert t.rows[..|w.store.rows|] == w.store.rows;
      assert t.rows[..|s.rows|] == t.rows[..|w.store.rows|][..|s.rows|];
      forall k | 0 <= k < |names|
        ensures t.rows[|s.rows| + k] == Category(s.nextId + k, names[k])
      {
        if k == 0 {
          assert t.rows[|s.rows|] == t.rows[..|w.store.rows|][|s.rows|];
        } else {
          assert names[k] == names[1..][k - 1];
          assert t.rows[|s.rows| + k] == t.rows[|w.store.rows| + (k - 1)];
        }
      }
    }
  }

  /** Inserting two categories into an empty table lists them first-inserted first,
      under ids 1 and 2. */
  lemma TwoInsertsListInOrder(a: string, b: string)
    ensures SaveAll(Empty, [a, b]).rows == [Category(1, a), Category(2, b)]
  {
    SaveAllAppends(Empty, [a, b]);
  }

  /** Create "Electronics" in an empty table and rename it "Gadgets": it gets id 1, and
      the rename keeps that id. */
  lemma ElectronicsCreateAndRename()
    ensures Save(Empty, Category(0, "Electronics"), Succeeds)
         == Ok(Written(Store([Category(1, "Electronics")], 2), Category(1, "Electronics")))
    ensures Update(Store([Category(1, "Electronics")], 2), Category(1, "Gadgets"), Succeeds)
         == Ok(Written(Store([Category(1, "Gadgets")], 2), Category(1, "Gadgets")))
  {
    assert Empty.rows + [Category(1, "Electronics")] == [Category(1, "Electronics")];
    var electronics := Store([Category(1, "Electronics")], 2);
    assert electronics.rows[0 := Category(1, "Gadgets")] == [Category(1, "Gadgets")];
    UpdateInPlace(electronics, Category(1, "Gadgets"), 0);
  }

  /** Then read "Gadgets" back under id 1, delete it, and read id 1 as not found. */
  lemma ElectronicsReadAndDelete()
    ensures FindById(Store([Category(1, "Gadgets")], 2), 1, Delivers)
         == Ok(Lookup(Category(1, "Gadgets"), None))
    ensures Delete(Store([Category(1, "Gadgets")], 2), Category(1, ""), Succeeds)
         == Ok(Store([], 2))
    ensures FindById(Store([], 2), 1, Delivers)
         == Ok(Lookup(ZeroCategory, Some(NotFoundMessage)))
  {
    var gadgets := Store([Category(1, "Gadgets")], 2);
    assert FirstWithId(gadgets.rows, 1) == Some(Category(1, "Gadgets"));
    DeleteKeepsOrder(gadgets, Category(1, ""), 0);
    assert gadgets.rows[..0] + gadgets.rows[1..] == [];
    AbsentIsNotFound(Store([], 2), 1);
  }
}
