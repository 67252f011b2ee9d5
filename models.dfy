/**
 * The CelestialObject entity and the queries the controller runs against the
 * CelestialObjects table, stated as pure functions over the table's rows.
 */
module Models {

  datatype Option<T> = None | Some(value: T)

  /** An orbital period. The controller never inspects it, only copies it,
      so it is kept opaque. */
  datatype Period = Period(ticks: int)

  /** The stored fields of one CelestialObject row. `orbitedObjectId` is the
      nullable foreign key to the body this one orbits (None for a star). */
  datatype CelestialObject = CelestialObject(
    id: int,
    name: string,
    orbitalPeriod: Period,
    orbitedObjectId: Option<int>)

  /** A row as handed back to a caller: its stored fields together with the
      transient Satellites list, computed at read time and never stored. */
  datatype View = View(obj: CelestialObject, satellites: seq<CelestialObject>)

  /** `Id` is the primary key: no two rows share one. */
  predicate UniqueIds(rows: seq<CelestialObject>) {
    forall i, j :: 0 <= i < j < |rows| ==> rows[i].id != rows[j].id
  }

  /** True of a row that the Delete action selects for `id`: the object itself
      or one of its direct satellites. */
  predicate DeleteSelects(r: CelestialObject, id: int) {
    r.id == id || r.orbitedObjectId == Some(id)
  }

  /** Putting the head of a keyed table in front of rows drawn from its tail
      keeps keys unique: the filters below return each row at most once. */
  lemma PrependKeepsUniqueIds(rows: seq<CelestialObject>, rest: seq<CelestialObject>)
    requires rows != [] && UniqueIds(rows) && UniqueIds(rest)
    requires forall r :: r in rest ==> r in rows[1..]
    ensures UniqueIds([rows[0]] + rest)
  {
    forall r | r in rest ensures r.id != rows[0].id {
      var k :| 0 <= k < |rows[1..]| && rows[1..][k] == r;
      assert rows[k + 1] == r;
    }
  }

  /** `Find(id)`: the row whose key is `id`, if any. */
  function Lookup(rows: seq<CelestialObject>, id: int): (found: Option<CelestialObject>)
    ensures found.None? <==> forall r :: r in rows ==> r.id != id
    ensures found.Some? ==> found.value in rows && found.value.id == id
  {
    if rows == [] then None
    else if rows[0].id == id then Some(rows[0])
    else Lookup(rows[1..], id)
  }

  /** `Where(e => e.OrbitedObjectId == id)`: the direct satellites of `id`,
      in table order. */
  function SatellitesOf(rows: seq<CelestialObject>, id: int): (sats: seq<CelestialObject>)
    ensures |sats| <= |rows|
    ensures forall r :: r in sats <==> r in rows && r.orbitedObjectId == Some(id)
    ensures UniqueIds(rows) ==> UniqueIds(sats)
  {
    if rows == [] then []
    else if rows[0].orbitedObjectId == Some(id) then
      var rest := SatellitesOf(rows[1..], id);
      if UniqueIds(rows) then PrependKeepsUniqueIds(rows, rest); [rows[0]] + rest
      else [rows[0]] + rest
    else SatellitesOf(rows[1..], id)
  }

  /** `Where(e => e.Name == name)`: the rows carrying `name`, in table order. */
  function Named(rows: seq<CelestialObject>, name: string): (named: seq<CelestialObject>)
    ensures |named| <= |rows|
    ensures forall r :: r in named <==> r in rows && r.name == name
    ensures UniqueIds(rows) ==> UniqueIds(named)
  {
    if rows == [] then []
    else if rows[0].name == name then
      var rest := Named(rows[1..], name);
      if UniqueIds(rows) then PrependKeepsUniqueIds(rows, rest); [rows[0]] + rest
      else [rows[0]] + rest
    else Named(rows[1..], name)
  }

  /** `Where(star => star.Id == id || star.OrbitedObjectId == id)`: what Delete removes. */
  function DeleteTargets(rows: seq<CelestialObject>, id: int): (doomed: seq<CelestialObject>)
    ensures |doomed| <= |rows|
    ensures forall r :: r in doomed <==> r in rows && DeleteSelects(r, id)
  {
    if rows == [] then []
    else if DeleteSelects(rows[0], id) then [rows[0]] + DeleteTargets(rows[1..], id)
    else DeleteTargets(rows[1..], id)
  }

  /** The table left after `RemoveRange(DeleteTargets(rows, id))`, in table order. */
  function Survivors(rows: seq<CelestialObject>, id: int): (kept: seq<CelestialObject>)
    ensures |kept| <= |rows|
    ensures forall r :: r in kept <==> r in rows && !DeleteSelects(r, id)
    ensures UniqueIds(rows) ==> UniqueIds(kept)
    ensures (forall r :: r in rows ==> !DeleteSelects(r, id)) ==> kept == rows
  {
    if rows == [] then []
    else if DeleteSelects(rows[0], id) then Survivors(rows[1..], id)
    else
      var rest := Survivors(rows[1..], id);
      if UniqueIds(rows) then PrependKeepsUniqueIds(rows, rest); [rows[0]] + rest
      else [rows[0]] + rest
  }

  /** The table after the tracked entity `row` is written back by
      `Update(row)` and `SaveChanges()`: the row with its key is replaced,
      every other row stays where it was, and no row is added or dropped. */
  function Replaced(rows: seq<CelestialObject>, row: CelestialObject): (written: seq<CelestialObject>)
    ensures |written| == |rows|
    ensures forall k :: 0 <= k < |rows| && rows[k].id == row.id ==> written[k] == row
    ensures forall k :: 0 <= k < |rows| && rows[k].id != row.id ==> written[k] == rows[k]
    ensures forall k :: 0 <= k < |rows| ==> written[k].id == rows[k].id
    ensures UniqueIds(rows) ==> UniqueIds(written)
  {
    seq(|rows|, k requires 0 <= k < |rows| => if rows[k].id == row.id then row else rows[k])
  }

  /** A row with its Satellites list attached, as every read action returns it. */
  function Attach(rows: seq<CelestialObject>, r: CelestialObject): (v: View)
    ensures v.obj == r
    ensures SatellitesCurrent(rows, v)
    ensures UniqueIds(rows) ==> UniqueIds(v.satellites)
  {
    View(r, SatellitesOf(rows, r.id))
  }

  /** `v` carries exactly the current satellites of its object. */
  ghost predicate SatellitesCurrent(rows: seq<CelestialObject>, v: View) {
    forall s :: s in v.satellites <==> s in rows && s.orbitedObjectId == Some(v.obj.id)
  }
}
