/** The emergency-unit service: creation, lookups, the name-ordered listing,
    the partial update, deletion and the per-unit emergency counts. */
module UnitService {
  import opened Common
  import opened Entities
  import opened Tables
  import opened Sorting

  /** The create payload. */
  datatype UnitCreate = UnitCreate(name: string, latitud: real, longitud: real)

  /** The partial-update payload: an absent field is left untouched. */
  datatype UnitUpdate = UnitUpdate(name: Option<string>, latitud: Option<real>, longitud: Option<real>)

  /** Inserts a new unit with the next id and no assigned emergency. */
  function CreateUnit(db: Db, input: UnitCreate): (r: (Db, Unit))
    ensures var db', u := r.0, r.1;
      && db' == db.(units := db'.units, nextUnitId := db'.nextUnitId)
      && u.id == db.nextUnitId < db'.nextUnitId
      && db'.units.Keys == db.units.Keys + {u.id}
      && db'.units[u.id] == u
      && (forall k | k in db.units && k != u.id :: db'.units[k] == db.units[k])
      && u.name == input.name && u.latitud == input.latitud && u.longitud == input.longitud
      && u.assignedEmergencyId.None?
    ensures Valid(db) ==> r.1.id !in db.units && Valid(r.0)

  {
    var id := db.nextUnitId;
    var unit := Unit(id, input.name, input.latitud, input.longitud, None);
    (db.(units := db.units[id := unit], nextUnitId := id + 1), unit)
  }

  /** On a valid table, creation adds exactly one unit. */
  lemma CreateUnitAddsOne(db: Db, input: UnitCreate)
    requires Valid(db)
    ensures |CreateUnit(db, input).0.units| == |db.units| + 1
  {
    var (db', u) := CreateUnit(db, input);
    assert u.id !in db.units;
    assert db'.units == db.units[u.id := u];
  }

  /** Lookup by primary key. */
  function GetUnit(db: Db, unitId: int): (r: Option<Unit>)
    ensures r.Some? <==> unitId in db.units
    ensures r.Some? ==> r.value == db.units[unitId]
  {
    if unitId in db.units then Some(db.units[unitId]) else None
  }

  /** The keys of the units called `name`. */
  function NamedAs(db: Db, name: string): (r: set<int>)
    ensures forall k :: k in r <==> k in db.units && db.units[k].name == name
  {
    KeysWhere(db.units, (u: Unit) => u.name == name)
  }

  /** `SELECT ... WHERE name = :name` read with `scalar_one_or_none`: the
      unit when exactly one has the name, and a failure when several do. */
  function GetUnitByName(db: Db, name: string): (r: Lookup<Unit>)
    ensures r.Missing? <==> NamedAs(db, name) == {}
    ensures r.Multiple? <==> |NamedAs(db, name)| >= 2
    ensures r.Found? ==>
      && |NamedAs(db, name)| == 1
      && r.value.name == name
      && forall k | k in NamedAs(db, name) :: db.units[k] == r.value
  {
    var ks := NamedAs(db, name);
    if ks == {} then Missing
    else if |ks| >= 2 then Multiple
    else
      var k := MinKey(ks);
      assert ks == {k} by { SingletonIs(ks, k); }
      Found(db.units[k])
  }

  /** `ORDER BY name`. */
  predicate NameBefore(a: Unit, b: Unit)
  {
    TextLe(a.name, b.name)
  }

  lemma NameBeforeIsTotalPreorder()
    ensures TotalPreorder(NameBefore)
  {
    forall a: Unit, b: Unit ensures NameBefore(a, b) || NameBefore(b, a) {
      TextLeTotal(a.name, b.name);
    }
    forall a: Unit, b: Unit, c: Unit | NameBefore(a, b) && NameBefore(b, c) ensures NameBefore(a, c) {
      TextLeTransitive(a.name, b.name, c.name);
    }
  }

  /** `s` is ordered by name. */
  predicate ByName(s: seq<Unit>)
  {
    forall i, j | 0 <= i < j < |s| :: TextLe(s[i].name, s[j].name)
  }

  /** All units, ordered by name. */
  function UnitsByName(m: map<int, Unit>): (r: seq<Unit>)
    ensures |r| == |m|
    ensures ByName(r)
    ensures forall i | 0 <= i < |r| :: r[i] in m.Values
  {
    NameBeforeIsTotalPreorder();
    var rows := Rows(m);
    var r := Sort(rows, NameBefore);
    assert forall i, j | 0 <= i < j < |r| :: NameBefore(r[i], r[j]);
    forall i | 0 <= i < |r| ensures r[i] in m.Values {
      assert r[i] in multiset(rows);
    }
    r
  }

  /** Every unit is in the ordering. */
  lemma UnitsByNameHasRow(m: map<int, Unit>, k: int)
    requires k in m
    ensures m[k] in UnitsByName(m)
  {
    RowsHasRow(m, k);
    NameBeforeIsTotalPreorder();
    assert UnitsByName(m) == Sort(Rows(m), NameBefore);
    assert m[k] in multiset(UnitsByName(m));
  }

  /** One page of all units, ordered by name. */
  function ListUnits(db: Db, skip: nat, limit: nat): (r: seq<Unit>)
    ensures |r| == if skip >= |db.units| then 0 else Min(limit, |db.units| - skip)
    ensures |r| <= limit
    ensures ByName(r)
  {
    Page(UnitsByName(db.units), skip, limit)
  }

  /** A page is the window `[skip, skip + limit)` of the name ordering, and
      holds units of the table only. */
  lemma ListUnitsWindow(db: Db, skip: nat, limit: nat)
    ensures var r, all := ListUnits(db, skip, limit), UnitsByName(db.units);
      forall i | 0 <= i < |r| :: r[i] == all[skip + i] && r[i] in db.units.Values
  {
    var r, all := ListUnits(db, skip, limit), UnitsByName(db.units);
    forall i | 0 <= i < |r| ensures r[i] == all[skip + i] && r[i] in db.units.Values {
      assert r[i] == all[skip + i];
    }
  }

  /** Consecutive pages of units concatenate to the page that spans both. */
  lemma ListUnitsConsecutive(db: Db, skip: nat, a: nat, b: nat)
    ensures ListUnits(db, skip, a) + ListUnits(db, skip + a, b) == ListUnits(db, skip, a + b)
  {
    PageConcat(UnitsByName(db.units), skip, a, b);
  }

  /** When every row records its key, consecutive pages share no unit. */
  lemma ListUnitsDisjoint(db: Db, skip: nat, a: nat, b: nat)
    requires forall k | k in db.units :: db.units[k].id == k
    ensures forall x :: x in ListUnits(db, skip, a) ==> x !in ListUnits(db, skip + a, b)
  {
    RowsDistinct(db.units, (u: Unit) => u.id);
    NameBeforeIsTotalPreorder();
    assert UnitsByName(db.units) == Sort(Rows(db.units), NameBefore);
    DistinctPermutation(Rows(db.units), UnitsByName(db.units));
    PagesDisjoint(UnitsByName(db.units), skip, a, b);
  }

  /** Partial update of name and coordinates; the back-reference is kept. */
  function UpdateUnit(db: Db, unitId: int, patch: UnitUpdate): (r: (Db, Option<Unit>))
    ensures r.1.None? <==> unitId !in db.units
    ensures r.1.None? ==> r.0 == db
    ensures r.1.Some? ==>
      var db', u0, u := r.0, db.units[unitId], r.1.value;
      && db' == db.(units := db'.units)
      && AgreeExcept(db.units, db'.units, unitId)
      && db'.units[unitId] == u
      && u.id == u0.id
      && u.assignedEmergencyId == u0.assignedEmergencyId
      && u.name == (if patch.name.Some? then patch.name.value else u0.name)
      && u.latitud == (if patch.latitud.Some? then patch.latitud.value else u0.latitud)
      && u.longitud == (if patch.longitud.Some? then patch.longitud.value else u0.longitud)
    ensures Valid(db) ==> Valid(r.0)
  {
    if unitId !in db.units then (db, None)
    else
      var unit := db.units[unitId];
      var unit' := unit.(
        name := if patch.name.Some? then patch.name.value else unit.name,
        latitud := if patch.latitud.Some? then patch.latitud.value else unit.latitud,
        longitud := if patch.longitud.Some? then patch.longitud.value else unit.longitud);
      (db.(units := db.units[unitId := unit']), Some(unit'))
  }

  /** Removes the unit. No emergency row is removed with it, and no
      emergency changes except in its reference to the removed unit, which
      the contract leaves open. */
  function DeleteUnit(db: Db, unitId: int): (r: (Db, bool))
    ensures r.1 <==> unitId in db.units
    ensures !r.1 ==> r.0 == db
    ensures r.1 ==>
      && r.0 == db.(units := r.0.units, emergencies := r.0.emergencies)
      && r.0.emergencies.Keys == db.emergencies.Keys
      && (forall k | k in db.emergencies ::
            var e, e' := db.emergencies[k], r.0.emergencies[k];
            && SameReport(e, e') && e'.status == e.status
            && (e.assignedUnit != Some(unitId) ==> e' == e))
      && r.0.units.Keys == db.units.Keys - {unitId}
      && |r.0.units| == |db.units| - 1
      && forall k | k in r.0.units :: r.0.units[k] == db.units[k]
    ensures Valid(db) ==> Valid(r.0)
  {
    if unitId !in db.units then (db, false)
    else (db.(units := db.units - {unitId}), true)
  }

  /** The emergencies that name `unitId` as their unit. */
  function ServedBy(db: Db, unitId: int): (r: set<int>)
    ensures forall k :: k in r <==> k in db.emergencies && db.emergencies[k].assignedUnit == Some(unitId)
  {
    KeysWhere(db.emergencies, (e: Emergency) => e.assignedUnit == Some(unitId))
  }

  /** The emergencies that name `unitId` as their unit and are pending or
      assigned (status 1 or 2). */
  function ActiveServedBy(db: Db, unitId: int): (r: set<int>)
    ensures forall k :: k in r <==> k in ServedBy(db, unitId) && db.emergencies[k].status != Closed
    ensures r <= ServedBy(db, unitId)
  {
    KeysWhere(db.emergencies, (e: Emergency) => e.assignedUnit == Some(unitId) && e.status in {1, 2})
  }

  datatype UnitStats = UnitStats(activeEmergencies: nat, totalEmergencies: nat)

  /** The two counts; the unit itself need not exist. */
  function GetUnitStats(db: Db, unitId: int): (r: UnitStats)
    ensures r.activeEmergencies == |ActiveServedBy(db, unitId)|
    ensures r.totalEmergencies == |ServedBy(db, unitId)|
    ensures r.activeEmergencies <= r.totalEmergencies
  {
    SubsetCard(ActiveServedBy(db, unitId), ServedBy(db, unitId));
    UnitStats(|ActiveServedBy(db, unitId)|, |ServedBy(db, unitId)|)
  }
}
