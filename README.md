# StarChart celestial-object controller in Dafny

This project models `CelestialObjectController`, the one controller of the
StarChart API. It offers seven actions over a single table of
`CelestialObject` rows: GetById, GetByName, GetAll, Create, Update,
RenameObject and Delete.

- `models.dfy` (module `Models`) holds the entity (`CelestialObject`: `id`,
  `name`, `orbitalPeriod`, optional `orbitedObjectId`). It also holds the view
  a read returns (`View`: the row plus its derived Satellites list). Each
  query the controller sends to the table is a recursive function over the
  rows: `Lookup` is `Find(id)`, and `SatellitesOf`, `Named` and `DeleteTargets`
  are the three `Where` filters. `Survivors` is the table that
  `RemoveRange` leaves behind.
- `controller.dfy` (module `Controllers`) holds the class
  `CelestialObjectController`. Its field `objects` stands for the
  `CelestialObjects` table, and `nextKey` stands for the store's identity
  counter. Each action is a method that returns an `ActionResult` (`NotFound`,
  `Ok`, `OkList`, `Created`, `NoContent`). The actions that write change
  `objects` in place. The read actions have no `modifies` clause, so the
  verifier itself checks that they leave the table unchanged. GetByName and
  GetAll attach satellites in a loop, as the source's `foreach` does.
- `properties.dfy` (module `Properties`) holds lemmas that connect the
  actions. They cover what a lookup finds after a create, update or delete,
  how Delete splits the table, and the Sun/Earth example.

Update is modelled exactly as written. The stored `OrbitedObjectId` receives
the payload's `Id`, not the payload's `OrbitedObjectId`. So every updated row
orbits something, and the payload's own orbit is ignored. The model keeps this
behaviour and does not correct it.

## Model

| member | source | states |
|---|---|---|
| `Models.Lookup` | StarChart/Controllers/CelestialObjectController.cs:32-37 | `Find(id)` returns nothing exactly when no row has key `id`; otherwise it returns a row of the table with that key |
| `Models.SatellitesOf` | StarChart/Controllers/CelestialObjectController.cs:38 | a row is among the satellites of `id` exactly when it is in the table and its `OrbitedObjectId` is `id` |
| `Models.Named` | StarChart/Controllers/CelestialObjectController.cs:58 | a row is selected exactly when it is in the table and its `Name` equals `name` |
| `Models.DeleteTargets` | StarChart/Controllers/CelestialObjectController.cs:187 | a row is selected exactly when it is in the table and its `Id` is `id` or its `OrbitedObjectId` is `id` |
| `Models.Replaced` | StarChart/Controllers/CelestialObjectController.cs:139-140 | writing back a tracked entity keeps the table's length and every key in place, replaces the row with that key by the entity, leaves every other row unchanged, and keeps keys unique |
| `Models.Attach` | StarChart/Controllers/CelestialObjectController.cs:86 | the row handed back is the row itself, and its Satellites list is exactly the rows orbiting it, each once when keys are unique |
| `Models.Survivors` | StarChart/Controllers/CelestialObjectController.cs:193-194 | the rows left after `RemoveRange` are exactly the unselected rows; keys stay unique; when nothing was selected the table is unchanged |
| `Controllers.CelestialObjectController.GetById` | StarChart/Controllers/CelestialObjectController.cs:30-41 | NotFound exactly when no row has key `id`; otherwise Ok with a row of that key, whose Satellites are exactly the rows orbiting `id`; the table is not modified |
| `Controllers.CelestialObjectController.GetByName` | StarChart/Controllers/CelestialObjectController.cs:56-68 | NotFound exactly when no row has that name; otherwise one entry per named row, in table order, each row returned once (keys distinct), each carrying exactly its satellites in table order |
| `Controllers.CelestialObjectController.GetAll` | StarChart/Controllers/CelestialObjectController.cs:81-89 | always Ok, even on an empty table; one entry per row, in table order, each carrying exactly the rows that orbit it, in table order and each once |
| `Controllers.CelestialObjectController.Create` | StarChart/Controllers/CelestialObjectController.cs:106-113 | appends exactly one row, the payload under a fresh key, leaving existing rows unchanged; returns Created with route id equal to the new key and the stored row |
| `Controllers.CelestialObjectController.Update` | StarChart/Controllers/CelestialObjectController.cs:129-142 | NotFound with no change when the key is absent; otherwise NoContent and only the row with key `id` changes, taking the payload's Name and OrbitalPeriod and the payload's Id as its OrbitedObjectId |
| `Controllers.CelestialObjectController.RenameObject` | StarChart/Controllers/CelestialObjectController.cs:158-169 | NotFound with no change when the key is absent; otherwise NoContent and only the Name of the row with key `id` changes |
| `Controllers.CelestialObjectController.Delete` | StarChart/Controllers/CelestialObjectController.cs:185-196 | NotFound with no change exactly when no row is the target or a direct satellite of it; otherwise NoContent, and a row survives exactly when it is neither, with order kept |
| `Properties.LookupFindsTheRow` | StarChart/Controllers/CelestialObjectController.cs:32 | with unique keys, looking up a row's key returns that very row |
| `Properties.LookupAfterCreate` | StarChart/Controllers/CelestialObjectController.cs:106-112 | after Create, looking up the new key returns the stored payload |
| `Properties.LookupAfterWriteBack` | StarChart/Controllers/CelestialObjectController.cs:136-140 | after a row is written back, its key finds the new row, and every other key finds what it found before |
| `Properties.WriteBackKeepsSatellites` | StarChart/Controllers/CelestialObjectController.cs:165-167 | a write-back that keeps the orbit, as a rename does, leaves every Satellites list the same rows in the same order, with the written-back row in its new form |
| `Properties.RenameBackRestores` | StarChart/Controllers/CelestialObjectController.cs:158-168 | renaming a row and then writing back the original row restores the table |
| `Properties.DeletePartitions` | StarChart/Controllers/CelestialObjectController.cs:187-194 | the removed rows and the kept rows together form the old table, as a multiset and by count |
| `Properties.DeleteTwiceFindsNothing` | StarChart/Controllers/CelestialObjectController.cs:185-195 | after a Delete, a second Delete of the same id selects nothing and returns NotFound |
| `Properties.DeletedAreGone` | StarChart/Controllers/CelestialObjectController.cs:185-195 | after a Delete, no removed row's key can be found any more |
| `Properties.CreateThenDeleteRestores` | StarChart/Controllers/CelestialObjectController.cs:106-112 | deleting the fresh key right after Create restores the table, provided no existing row already pointed at that key |
| `Properties.DeleteNotTransitive` | StarChart/Controllers/CelestialObjectController.cs:187 | deleting a star removes its planet but keeps the planet's moon |
| `Controllers.SunAndEarthScenario` | StarChart/Controllers/CelestialObjectController.cs:30-41 | through the actions' contracts: after creating the Sun and the Earth orbiting it, GetById of the Sun returns it with Earth as its one satellite, and after deleting the Sun, GetById of the Earth is NotFound |
| `Properties.SunAndEarth` | StarChart/Controllers/CelestialObjectController.cs:30-41 | with Sun (1) and Earth orbiting 1, the Sun's satellites are [Earth], and deleting 1 removes both rows |

## Left out

- HTTP routing, `[ApiController]` model binding and the encoding of results as status codes, headers and JSON are not modelled. Only the kind of result and its payload are.
- The controller's constructor and dependency injection are not modelled. The class starts from an empty table instead.
- EF Core change tracking, the identity-map cache behind `Find`, and the transaction behind `SaveChanges` are not modelled. Each action is one atomic update of `objects`.
- The store's key generation is reduced to a counter that always yields a key not yet in use.
- Concurrent requests racing on read-then-write are not modelled. Each action runs alone.
- Ids are unbounded integers. The source's 32-bit `int` and any overflow of the identity column are not modelled.
- OrbitalPeriod is an opaque value that is only copied. Its concrete type is not part of this model.
- Name comparison in GetByName is exact string equality. A database collation (for example, case-insensitive matching) and null names are not modelled.
- Create: the payload carries no Satellites list, since Satellites is never stored. The source's Created result echoes the object as the client sent it, including any Satellites list; the model's `Created` value carries none. The payload's `Id` is ignored, not rejected.
- A returned satellite carries only its stored fields, not a Satellites list of its own. In the source, a shared tracked entity may carry a Satellites list that another iteration set.
