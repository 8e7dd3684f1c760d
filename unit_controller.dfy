/** The `/emergency-units` routes: the name-collision checks that guard
    creation and renaming, and the mapping of a missing unit to 404. */
module UnitController {
  import opened Common
  import opened Entities
  import opened Tables
  import opened Sorting
  import opened UnitService

  /** `POST /emergency-units`: refused with 400 when a unit already has the
      name; a second holder makes the name lookup itself fail. */
  function CreateUnitRoute(db: Db, input: UnitCreate): (r: (Db, Result<Unit>))
    ensures r.1.Ok? <==> NamedAs(db, input.name) == {}
    ensures r.1 == Err(Conflict) <==> |NamedAs(db, input.name)| == 1
    ensures r.1 == Err(MultipleResults) <==> |NamedAs(db, input.name)| >= 2
    ensures r.1.Err? ==> r.0 == db
    ensures r.1.Ok? ==> (r.0, r.1.value) == CreateUnit(db, input)
  {
    match GetUnitByName(db, input.name)
    case Found(_) => (db, Err(Conflict))
    case Multiple => (db, Err(MultipleResults))
    case Missing =>
      var (db', u) := CreateUnit(db, input);
      (db', Ok(u))
  }

  /** `GET /emergency-units/{id}`. */
  function GetUnitRoute(db: Db, unitId: int): (r: Result<Unit>)
    ensures r.Err? <==> unitId !in db.units
    ensures r.Err? ==> r.error == NotFound
    ensures r.Ok? ==> r.value == db.units[unitId]
  {
    match GetUnit(db, unitId)
    case None => Err(NotFound)
    case Some(u) => Ok(u)
  }

  /** The unit's fields followed by its two counts. */
  datatype UnitWithStats = UnitWithStats(
    id: int,
    name: string,
    latitud: real,
    longitud: real,
    assignedEmergencyId: Option<int>,
    activeEmergencies: nat,
    totalEmergencies: nat)

  /** `GET /emergency-units/{id}/stats`. */
  function UnitStatsRoute(db: Db, unitId: int): (r: Result<UnitWithStats>)
    ensures r.Err? <==> unitId !in db.units
    ensures r.Err? ==> r.error == NotFound
    ensures r.Ok? ==>
      var u, s := db.units[unitId], r.value;
      && s.id == u.id && s.name == u.name && s.latitud == u.latitud && s.longitud == u.longitud
      && s.assignedEmergencyId == u.assignedEmergencyId
      && s.activeEmergencies == |ActiveServedBy(db, unitId)|
      && s.totalEmergencies == |ServedBy(db, unitId)|
      && s.activeEmergencies <= s.totalEmergencies
  {
    match GetUnit(db, unitId)
    case None => Err(NotFound)
    case Some(u) =>
      var stats := GetUnitStats(db, unitId);
      Ok(UnitWithStats(u.id, u.name, u.latitud, u.longitud, u.assignedEmergencyId,
                       stats.activeEmergencies, stats.totalEmergencies))
  }

  /** The declared bounds of the listing's query parameters. */
  predicate PageParamsValid(skip: int, limit: int)
  {
    0 <= skip && 1 <= limit <= 1000
  }

  /** `GET /emergency-units`: one page of the units by name. */
  function ListUnitsRoute(db: Db, skip: int, limit: int): (r: Result<seq<Unit>>)
    ensures r.Err? <==> !PageParamsValid(skip, limit)
    ensures r.Err? ==> r.error == Invalid
    ensures r.Ok? ==> |r.value| <= limit && r.value == ListUnits(db, skip, limit)
  {
    if !PageParamsValid(skip, limit) then Err(Invalid) else Ok(ListUnits(db, skip, limit))
  }

  /** The rename check runs only for a patch whose name is non-empty text. */
  predicate ChecksName(patch: UnitUpdate)
  {
    patch.name.Some? && patch.name.value != []
  }

  /** The renaming patch names a unit other than `unitId`. */
  predicate NameHeldByOther(db: Db, unitId: int, patch: UnitUpdate)
  {
    ChecksName(patch) &&
    var found := GetUnitByName(db, patch.name.value);
    found.Found? && found.value.id != unitId
  }

  /** `PUT /emergency-units/{id}`: the name check comes first, so a renaming
      to a taken name is refused with 400 even when the unit does not exist;
      otherwise 404 when the unit is absent. */
  function UpdateUnitRoute(db: Db, unitId: int, patch: UnitUpdate): (r: (Db, Result<Unit>))
    ensures r.1 == Err(Conflict) <==> NameHeldByOther(db, unitId, patch)
    ensures r.1 == Err(MultipleResults) <==> ChecksName(patch) && |NamedAs(db, patch.name.value)| >= 2
    ensures r.1 == Err(NotFound) <==>
      && !NameHeldByOther(db, unitId, patch)
      && !(ChecksName(patch) && |NamedAs(db, patch.name.value)| >= 2)
      && unitId !in db.units
    ensures r.1.Ok? <==>
      && !NameHeldByOther(db, unitId, patch)
      && !(ChecksName(patch) && |NamedAs(db, patch.name.value)| >= 2)
      && unitId in db.units
    ensures r.1.Err? ==> r.0 == db
    ensures r.1.Ok? ==> (r.0, Some(r.1.value)) == UpdateUnit(db, unitId, patch)
  {
    var found := if ChecksName(patch) then GetUnitByName(db, patch.name.value) else Missing;
    if found.Found? && found.value.id != unitId then (db, Err(Conflict))
    else if found.Multiple? then (db, Err(MultipleResults))
    else
      var (db', u) := UpdateUnit(db, unitId, patch);
      if u.None? then (db', Err(NotFound)) else (db', Ok(u.value))
  }

  /** `DELETE /emergency-units/{id}`: 404 exactly when the unit is absent. */
  function DeleteUnitRoute(db: Db, unitId: int): (r: (Db, Result<()>))
    ensures r.1.Err? <==> unitId !in db.units
    ensures r.1.Err? ==> r.1.error == NotFound && r.0 == db
    ensures r.1.Ok? ==> r.0 == DeleteUnit(db, unitId).0 && unitId !in r.0.units
  {
    var (db', ok) := DeleteUnit(db, unitId);
    if ok then (db', Ok(())) else (db', Err(NotFound))
  }

  /** No two units share a name. */
  ghost predicate NamesUnique(db: Db)
  {
    forall j, k | j in db.units && k in db.units && j != k :: db.units[j].name != db.units[k].name
  }

  /** Creating through the route keeps names unique. */
  lemma CreateKeepsNamesUnique(db: Db, input: UnitCreate)
    requires Valid(db) && NamesUnique(db)
    ensures NamesUnique(CreateUnitRoute(db, input).0)
  {
    var (db', r) := CreateUnitRoute(db, input);
    if r.Ok? {
      forall j | j in db.units ensures db'.units[j].name != input.name {
        assert j !in NamedAs(db, input.name);
      }
    }
  }

  /** Renaming through the route keeps names unique, given the schema's
      `min_length=1` on the new name. */
  lemma UpdateKeepsNamesUnique(db: Db, unitId: int, patch: UnitUpdate)
    requires Valid(db) && NamesUnique(db)
    requires patch.name.Some? ==> |patch.name.value| >= 1
    ensures NamesUnique(UpdateUnitRoute(db, unitId, patch).0)
  {
    var (db', r) := UpdateUnitRoute(db, unitId, patch);
    if r.Ok? && patch.name.Some? {
      var name := patch.name.value;
      var holders := NamedAs(db, name);
      // the only unit that may already have the name is the renamed one
      forall j | j in db.units && j != unitId ensures j !in holders {
        var found := GetUnitByName(db, name);
        if found.Found? {
          assert found.value.id == unitId;
          assert db.units[j].id == j;
        }
      }
      forall j | j in db'.units && j != unitId ensures db'.units[j].name != name {
        assert db'.units[j] == db.units[j];
      }
    }
  }

  /** A renaming to a name held by another unit is refused with 400 even for
      an id no unit has: the existence check comes second. */
  lemma ConflictBeforeNotFound(db: Db, unitId: int, holder: int, patch: UnitUpdate)
    requires Valid(db)
    requires unitId !in db.units
    requires ChecksName(patch)
    requires NamedAs(db, patch.name.value) == {holder}
    ensures UpdateUnitRoute(db, unitId, patch).1 == Err(Conflict)
  {
    assert db.units[holder].id == holder;
  }

  /** Keeping the unit's own name in a patch is not a collision. */
  lemma OwnNameAllowed(db: Db, unitId: int, patch: UnitUpdate)
    requires Valid(db) && NamesUnique(db)
    requires unitId in db.units
    requires patch.name == Some(db.units[unitId].name)
    ensures UpdateUnitRoute(db, unitId, patch).1.Ok?
  {
    var name := db.units[unitId].name;
    forall j | j in db.units && j != unitId ensures j !in NamedAs(db, name) {
    }
    assert NamedAs(db, name) == {unitId};
  }

  /** An order the database may return for the by-name query: every row
      once, ascending by name, rows with equal names in any order. */
  ghost predicate ByNameOrder(db: Db, r: seq<Unit>)
  {
    ByName(r) && multiset(r) == multiset(Rows(db.units))
  }

  /** While names are unique, the model's order is the only one the
      database may return. */
  lemma OnlyByNameOrder(db: Db, r: seq<Unit>)
    requires NamesUnique(db) && ByNameOrder(db, r)
    ensures r == UnitsByName(db.units)
  {
    NameBeforeIsTotalPreorder();
    assert UnitsByName(db.units) == Sort(Rows(db.units), NameBefore);
    assert SortedBy(r, NameBefore);
    forall a, b | a in r && b in r && NameBefore(a, b) && NameBefore(b, a) ensures a == b {
      assert a in multiset(Rows(db.units)) && b in multiset(Rows(db.units));
      RowHasKey(db.units, a);
      RowHasKey(db.units, b);
      TextLeAntisymmetric(a.name, b.name);
    }
    SortedUnique(r, UnitsByName(db.units), NameBefore);
  }

  /** While names are unique, two requests for consecutive pages see the
      same order: the pages concatenate to the spanning page and, when every
      row records its key, share no unit. */
  lemma UnitPagesAcrossRequests(db: Db, r1: seq<Unit>, r2: seq<Unit>, skip: nat, a: nat, b: nat)
    requires NamesUnique(db) && ByNameOrder(db, r1) && ByNameOrder(db, r2)
    ensures Page(r1, skip, a) + Page(r2, skip + a, b) == ListUnits(db, skip, a + b)
    ensures (forall k | k in db.units :: db.units[k].id == k) ==>
              forall x :: x in Page(r1, skip, a) ==> x !in Page(r2, skip + a, b)
  {
    OnlyByNameOrder(db, r1);
    OnlyByNameOrder(db, r2);
    ListUnitsConsecutive(db, skip, a, b);
    if forall k | k in db.units :: db.units[k].id == k {
      ListUnitsDisjoint(db, skip, a, b);
    }
  }
}
