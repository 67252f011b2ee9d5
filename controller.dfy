/**
 * CelestialObjectController: the seven actions over the CelestialObjects
 * table. The table is held in the controller as `objects`, a sequence of rows
 * with unique keys; `nextKey` stands for the store's identity counter, from
 * which a created row receives its key.
 */
module Controllers {
  import opened Models

  /** The kinds of IActionResult the actions return. */
  datatype ActionResult =
    | NotFound
    | Ok(view: View)                                 // Ok(one object)
    | OkList(views: seq<View>)                       // Ok(a collection)
    | Created(routeId: int, value: CelestialObject)  // CreatedAtRoute("GetById", new { id }, value)
    | NoContent

  class CelestialObjectController {
    var objects: seq<CelestialObject>
    var nextKey: int

    /** Keys are unique, and every key in use lies below the identity counter. */
    ghost predicate Valid()
      reads this
    {
      UniqueIds(objects) && forall r :: r in objects ==> r.id < nextKey
    }

    /** A controller over a table that starts out empty. */
    constructor ()
      ensures Valid() && objects == []
    {
      objects := [];
      nextKey := 1;
    }

    /** GET {id:int}: the row with key `id` and its satellites, or NotFound. */
    method GetById(id: int) returns (result: ActionResult)
      ensures result.NotFound? <==> forall r :: r in objects ==> r.id != id
      ensures result.NotFound? || result.Ok?
      ensures result.Ok? ==> result.view.obj in objects && result.view.obj.id == id
      ensures result.Ok? ==> SatellitesCurrent(objects, result.view)
      ensures result.Ok? ==> result.view.satellites == SatellitesOf(objects, id)
    {
      var found := Lookup(objects, id);
      if found.None? {
        return NotFound;
      }
      var celestial := found.value;
      result := Ok(View(celestial, SatellitesOf(objects, id)));
    }

    /** GET {name}: every row named `name`, each with its own satellites, or
        NotFound when no row carries that name. */
    method GetByName(name: string) returns (result: ActionResult)
      ensures result.NotFound? <==> forall r :: r in objects ==> r.name != name
      ensures result.NotFound? || result.OkList?
      ensures result.OkList? ==> forall v :: v in result.views ==>
        v.obj in objects && v.obj.name == name && SatellitesCurrent(objects, v)
      ensures result.OkList? ==> forall r :: r in objects && r.name == name ==>
        Attach(objects, r) in result.views
      ensures result.OkList? ==> |result.views| == |Named(objects, name)|
      ensures result.OkList? ==> forall k :: 0 <= k < |result.views| ==>
        result.views[k].obj == Named(objects, name)[k] &&
        result.views[k].satellites == SatellitesOf(objects, result.views[k].obj.id)
      ensures result.OkList? && Valid() ==> forall i, j :: 0 <= i < j < |result.views| ==>
        result.views[i].obj.id != result.views[j].obj.id
    {
      var matches := Named(objects, name);
      if |matches| == 0 {
        return NotFound;
      }
      assert matches[0] in matches;
      var views: seq<View> := [];
      var i := 0;
      while i < |matches|
        invariant 0 <= i <= |matches|
        invariant |views| == i
        invariant forall k :: 0 <= k < i ==> views[k] == Attach(objects, matches[k])
      {
        views := views + [Attach(objects, matches[i])];
        i := i + 1;
      }
      forall r | r in objects && r.name == name ensures Attach(objects, r) in views {
        var k :| 0 <= k < |matches| && matches[k] == r;
        assert views[k] == Attach(objects, r);
      }
      result := OkList(views);
    }

    /** GET: every row in table order, each with its own satellites; never
        NotFound, even on an empty table. */
    method GetAll() returns (result: ActionResult)
      ensures result.OkList?
      ensures |result.views| == |objects|
      ensures forall k :: 0 <= k < |objects| ==>
        result.views[k].obj == objects[k] && SatellitesCurrent(objects, result.views[k])
      ensures forall k :: 0 <= k < |objects| ==>
        result.views[k].satellites == SatellitesOf(objects, objects[k].id)
    {
      var celestialObjects := objects;
      var views: seq<View> := [];
      var i := 0;
      while i < |celestialObjects|
        invariant 0 <= i <= |celestialObjects|
        invariant |views| == i
        invariant forall k :: 0 <= k < i ==> views[k] == Attach(objects, celestialObjects[k])
      {
        views := views + [Attach(objects, celestialObjects[i])];
        i := i + 1;
      }
      result := OkList(views);
    }

    /** POST: the payload is stored under a fresh key (its own Id is not used)
        and returned with a route to GetById for that key. Existing rows are
        untouched. */
    method Create(celestial: CelestialObject) returns (result: ActionResult)
      requires Valid()
      modifies this
      ensures Valid()
      ensures result == Created(old(nextKey), celestial.(id := old(nextKey)))
      ensures forall r :: r in old(objects) ==> r.id != result.routeId
      ensures objects == old(objects) + [result.value]
    {
      var stored := celestial.(id := nextKey);
      objects := objects + [stored];
      nextKey := nextKey + 1;
      result := Created(stored.id, stored);
    }

    /** PUT {id}: overwrite Name, OrbitalPeriod and OrbitedObjectId of the row
        with key `id`. As written, OrbitedObjectId receives the payload's Id
        (never its OrbitedObjectId), so an updated row always orbits
        something. NotFound and no change when the key is absent. */
    method Update(id: int, celestial: CelestialObject) returns (result: ActionResult)
      requires Valid()
      modifies this
      ensures Valid() && nextKey == old(nextKey)
      ensures result.NotFound? <==> forall r :: r in old(objects) ==> r.id != id
      ensures result.NotFound? || result.NoContent?
      ensures |objects| == |old(objects)|
      ensures forall k :: 0 <= k < |objects| ==>
        objects[k] == (if old(objects)[k].id == id
                       then old(objects)[k].(name := celestial.name,
                                             orbitalPeriod := celestial.orbitalPeriod,
                                             orbitedObjectId := Some(celestial.id))
                       else old(objects)[k])
    {
      var locateCelestial := Lookup(objects, id);
      if locateCelestial.None? {
        return NotFound;
      }
      var updated := locateCelestial.value.(name := celestial.name,
                                            orbitalPeriod := celestial.orbitalPeriod,
                                            orbitedObjectId := Some(celestial.id));
      objects := Replaced(objects, updated);
      result := NoContent;
    }

    /** PATCH {id}/{name}: overwrite only the Name of the row with key `id`.
        NotFound and no change when the key is absent. */
    method RenameObject(id: int, name: string) returns (result: ActionResult)
      requires Valid()
      modifies this
      ensures Valid() && nextKey == old(nextKey)
      ensures result.NotFound? <==> forall r :: r in old(objects) ==> r.id != id
      ensures result.NotFound? || result.NoContent?
      ensures |objects| == |old(objects)|
      ensures forall k :: 0 <= k < |objects| ==>
        objects[k] == (if old(objects)[k].id == id then old(objects)[k].(name := name) else old(objects)[k])
    {
      var locateCelestial := Lookup(objects, id);
      if locateCelestial.None? {
        return NotFound;
      }
      objects := Replaced(objects, locateCelestial.value.(name := name));
      result := NoContent;
    }

    /** DELETE {id}: remove the row with key `id` together with its direct
        satellites (not theirs); NotFound and no change when nothing matches. */
    method Delete(id: int) returns (result: ActionResult)
      requires Valid()
      modifies this
      ensures Valid() && nextKey == old(nextKey)
      ensures result.NotFound? <==> forall r :: r in old(objects) ==> !DeleteSelects(r, id)
      ensures result.NotFound? || result.NoContent?
      ensures forall r :: r in objects <==> r in old(objects) && !DeleteSelects(r, id)
      ensures objects == Survivors(old(objects), id)
    {
      var celestial := DeleteTargets(objects, id);
      if |celestial| == 0 {
        return NotFound;
      }
      assert celestial[0] in celestial;
      objects := Survivors(objects, id);
      result := NoContent;
    }
  }

  /** A client of the contracts above: create the Sun and the Earth orbiting
      it, read the Sun back with Earth as its satellite, then delete the Sun,
      which takes the Earth with it, so the Earth is no longer found. */
  method SunAndEarthScenario(year: Period) returns (sun: ActionResult, earthAfterDelete: ActionResult)
    ensures sun.Ok? && sun.view.obj.name == "Sun" && |sun.view.satellites| == 1
    ensures sun.view.satellites[0].name == "Earth" && sun.view.satellites[0].orbitalPeriod == year
    ensures earthAfterDelete == NotFound
  {
    var controller := new CelestialObjectController();
    var created := controller.Create(CelestialObject(0, "Sun", Period(0), None));
    var sunId := created.routeId;
    created := controller.Create(CelestialObject(0, "Earth", year, Some(sunId)));
    var earth := created.value;
    assert earth.id != sunId;

    sun := controller.GetById(sunId);
    assert controller.objects[1..] == [earth] && [earth][1..] == [];
    assert sun.Ok? && sun.view.satellites == [earth];

    var deleted := controller.Delete(sunId);
    assert deleted == NoContent && controller.objects == [];
    earthAfterDelete := controller.GetById(earth.id);
  }
}
