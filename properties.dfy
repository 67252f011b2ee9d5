/**
 * Properties of the table queries that relate several actions: what a lookup
 * finds after a create, an update or a delete, and how Delete partitions the
 * table.
 */
module Properties {
  import opened Models

  /** With unique keys, `Find(r.id)` returns `r` itself. */
  lemma LookupFindsTheRow(rows: seq<CelestialObject>, r: CelestialObject)
    requires UniqueIds(rows)
    requires r in rows
    ensures Lookup(rows, r.id) == Some(r)
  {
  }

  /** A created row (fresh key, appended) is what a later GetById finds. */
  lemma LookupAfterCreate(rows: seq<CelestialObject>, r: CelestialObject)
    requires forall x :: x in rows ==> x.id != r.id
    ensures Lookup(rows + [r], r.id) == Some(r)
  {
  }

  /** After the tracked entity `row` is written back, looking up its key gives
      `row` when that key was present (and nothing otherwise: the write-back
      never inserts), and every other key finds what it found before. */
  lemma {:induction false} LookupAfterWriteBack(rows: seq<CelestialObject>, row: CelestialObject, key: int)
    ensures Lookup(Replaced(rows, row), key) ==
      if key != row.id then Lookup(rows, key)
      else if Lookup(rows, key).Some? then Some(row)
      else None
  {
    if rows != [] {
      assert Replaced(rows, row)[1..] == Replaced(rows[1..], row);
      LookupAfterWriteBack(rows[1..], row, key);
    }
  }

  /** Delete splits the table: the rows removed and the rows kept together
      make up exactly the table before. */
  lemma {:induction false} DeletePartitions(rows: seq<CelestialObject>, id: int)
    ensures multiset(DeleteTargets(rows, id)) + multiset(Survivors(rows, id)) == multiset(rows)
    ensures |DeleteTargets(rows, id)| + |Survivors(rows, id)| == |rows|
  {
    if rows != [] {
      DeletePartitions(rows[1..], id);
      assert rows == [rows[0]] + rows[1..];
    }
  }

  /** A second Delete of the same id finds nothing to remove. */
  lemma {:induction false} DeleteTwiceFindsNothing(rows: seq<CelestialObject>, id: int)
    ensures DeleteTargets(Survivors(rows, id), id) == []
  {
    if rows != [] {
      DeleteTwiceFindsNothing(rows[1..], id);
    }
  }

  /** Every removed row is gone: no later GetById finds its key. */
  lemma DeletedAreGone(rows: seq<CelestialObject>, id: int, r: CelestialObject)
    requires UniqueIds(rows)
    requires r in DeleteTargets(rows, id)
    ensures Lookup(Survivors(rows, id), r.id) == None
  {
  }

  /** Creating a row and then deleting its fresh key restores the table,
      provided no existing row already pointed at that key. */
  lemma {:induction false} CreateThenDeleteRestores(rows: seq<CelestialObject>, r: CelestialObject)
    requires forall x :: x in rows ==> !DeleteSelects(x, r.id)
    ensures Survivors(rows + [r], r.id) == rows
  {
    if rows != [] {
      assert (rows + [r])[1..] == rows[1..] + [r];
      CreateThenDeleteRestores(rows[1..], r);
    }
  }

  /** Renaming a row and renaming it back restores the table. */
  lemma RenameBackRestores(rows: seq<CelestialObject>, r: CelestialObject, name: string)
    requires UniqueIds(rows)
    requires r in rows
    ensures Replaced(Replaced(rows, r.(name := name)), r) == rows
  {
  }

  /** A write-back acts on a table one row at a time. */
  lemma ReplacedCons(x: CelestialObject, rest: seq<CelestialObject>, row: CelestialObject)
    ensures Replaced([x] + rest, row) == [if x.id == row.id then row else x] + Replaced(rest, row)
  {
  }

  /** Writing back a row whose orbit is unchanged (as RenameObject does)
      keeps every Satellites list: the same rows in the same order, with the
      written-back row appearing in its new form. */
  lemma {:induction false} WriteBackKeepsSatellites(rows: seq<CelestialObject>, row: CelestialObject, id: int)
    requires forall x :: x in rows && x.id == row.id ==> x.orbitedObjectId == row.orbitedObjectId
    ensures SatellitesOf(Replaced(rows, row), id) == Replaced(SatellitesOf(rows, id), row)
  {
    if rows != [] {
      var head := if rows[0].id == row.id then row else rows[0];
      var tail := SatellitesOf(rows[1..], id);
      assert rows == [rows[0]] + rows[1..];
      ReplacedCons(rows[0], rows[1..], row);
      assert head.orbitedObjectId == rows[0].orbitedObjectId;
      WriteBackKeepsSatellites(rows[1..], row, id);
      if rows[0].orbitedObjectId == Some(id) {
        ReplacedCons(rows[0], tail, row);
      }
    }
  }

  /** Delete is not transitive: a moon of a planet of the deleted star stays. */
  lemma DeleteNotTransitive(star: CelestialObject, planet: CelestialObject, moon: CelestialObject)
    requires star.id == 1 && star.orbitedObjectId == None
    requires planet.id == 2 && planet.orbitedObjectId == Some(1)
    requires moon.id == 3 && moon.orbitedObjectId == Some(2)
    ensures Survivors([star, planet, moon], 1) == [moon]
    ensures Lookup(Survivors([star, planet, moon], 1), 3) == Some(moon)
  {
  }

  /** The Sun and Earth example: the Sun's satellites are [Earth], and deleting
      the Sun empties the table. */
  lemma SunAndEarth(sun: CelestialObject, earth: CelestialObject)
    requires sun.id == 1 && sun.name == "Sun" && sun.orbitedObjectId == None
    requires earth.id == 2 && earth.name == "Earth" && earth.orbitedObjectId == Some(1)
    ensures Attach([sun, earth], sun) == View(sun, [earth])
    ensures DeleteTargets([sun, earth], 1) == [sun, earth]
    ensures Survivors([sun, earth], 1) == []
  {
  }
}
