/** The emergency service: assigning a unit, the partial update with the
    release of a unit on closing, creation, and the read queries. */
module EmergencyService {
  import opened Common
  import opened Entities
  import opened Tables
  import opened Sorting

  /** The create payload; `status` defaults to pending at the schema. */
  datatype EmergencyCreate = EmergencyCreate(
    timestamp: Option<Timestamp>,
    accidentType: Option<int>,
    assignedUnit: Option<int>,
    latitud: real,
    longitud: real,
    userId: Option<int>,
    status: Status)

  /** The partial-update payload: an absent field is left untouched. */
  datatype EmergencyUpdate = EmergencyUpdate(assignedUnit: Option<int>, status: Option<Status>)

  /** Links an emergency and a unit: the emergency records the unit and
      becomes assigned, the unit records the emergency. Nothing is checked
      about either side's previous link. */
  function AssignUnit(db: Db, emergencyId: int, unitId: int): (r: (Db, Option<Emergency>))
    ensures r.1.None? <==> emergencyId !in db.emergencies || unitId !in db.units
    ensures r.1.None? ==> r.0 == db
    ensures r.1.Some? ==>
      var db', e := r.0, r.1.value;
      && db' == db.(emergencies := db'.emergencies, units := db'.units)
      && AgreeExcept(db.emergencies, db'.emergencies, emergencyId)
      && AgreeExcept(db.units, db'.units, unitId)
      && db'.emergencies[emergencyId] == e
      && SameReport(db.emergencies[emergencyId], e)
      && e.assignedUnit == Some(unitId)
      && e.status == Assigned
      && SamePlace(db.units[unitId], db'.units[unitId])
      && db'.units[unitId].assignedEmergencyId == Some(emergencyId)
    ensures Valid(db) ==> Valid(r.0)
  {
    if emergencyId !in db.emergencies || unitId !in db.units then (db, None)
    else
      var emergency := db.emergencies[emergencyId].(assignedUnit := Some(unitId), status := Assigned);
      var unit := db.units[unitId].(assignedEmergencyId := Some(emergencyId));
      (db.(emergencies := db.emergencies[emergencyId := emergency],
           units := db.units[unitId := unit]),
       Some(emergency))
  }

  /** Whether updating an emergency with `patch` releases its pre-update unit:
      the patch closes it, it has a unit, and that unit exists. */
  predicate Releases(db: Db, emergencyId: int, patch: EmergencyUpdate)
    requires emergencyId in db.emergencies
  {
    var e := db.emergencies[emergencyId];
    patch.status == Some(Closed) && e.assignedUnit.Some? && e.assignedUnit.value in db.units
  }

  /** Partial update. Closing releases the unit the emergency had before the
      update; an `assignedUnit` in the patch is written on the emergency side
      only. */
  function UpdateEmergency(db: Db, emergencyId: int, patch: EmergencyUpdate): (r: (Db, Option<Emergency>))
    ensures r.1.None? <==> emergencyId !in db.emergencies
    ensures r.1.None? ==> r.0 == db
    ensures r.1.Some? ==>
      var db', e0, e := r.0, db.emergencies[emergencyId], r.1.value;
      && db' == db.(emergencies := db'.emergencies, units := db'.units)
      && AgreeExcept(db.emergencies, db'.emergencies, emergencyId)
      && db'.emergencies[emergencyId] == e
      && SameReport(e0, e)
      && e.assignedUnit == (if patch.assignedUnit.Some? then patch.assignedUnit else e0.assignedUnit)
      && e.status == (if patch.status.Some? then patch.status.value else e0.status)
      && db'.units.Keys == db.units.Keys
      && (Releases(db, emergencyId, patch) ==>
            var u := e0.assignedUnit.value;
            && SamePlace(db.units[u], db'.units[u])
            && db'.units[u].assignedEmergencyId.None?
            && AgreeExcept(db.units, db'.units, u))
      && (!Releases(db, emergencyId, patch) ==> db'.units == db.units)
    ensures Valid(db) ==> Valid(r.0)
  {
    if emergencyId !in db.emergencies then (db, None)
    else
      var emergency := db.emergencies[emergencyId];
      var units :=
        if Releases(db, emergencyId, patch) then
          var u := emergency.assignedUnit.value;
          db.units[u := db.units[u].(assignedEmergencyId := None)]
        else db.units;
      var emergency' := emergency.(
        assignedUnit := if patch.assignedUnit.Some? then patch.assignedUnit else emergency.assignedUnit,
        status := if patch.status.Some? then patch.status.value else emergency.status);
      (db.(emergencies := db.emergencies[emergencyId := emergency'], units := units), Some(emergency'))
  }

  /** The `Numeric(8, 6)` latitude and `Numeric(9, 6)` longitude columns
      take a value only if, rounded half away from zero to six decimals, it
      has at most two and three digits before the point. */
  predicate FitsColumns(latitud: real, longitud: real)
  {
    && -99.9999995 < latitud < 99.9999995
    && -999.9999995 < longitud < 999.9999995
  }

  /** Inserts a new emergency with the next id; the timestamp falls back to
      `now`. No unit is touched, even when `assignedUnit` is given. A
      coordinate that does not fit its column fails the commit. */
  function CreateEmergency(db: Db, input: EmergencyCreate, now: Timestamp): (r: (Db, Result<Emergency>))
    ensures r.1.Ok? <==> FitsColumns(input.latitud, input.longitud)
    ensures r.1.Err? ==> r.1.error == QueryFailed && r.0 == db
    ensures r.1.Ok? ==> var db', e := r.0, r.1.value;
      && db' == db.(emergencies := db'.emergencies, nextEmergencyId := db'.nextEmergencyId)
      && e.id == db.nextEmergencyId < db'.nextEmergencyId
      && db'.emergencies.Keys == db.emergencies.Keys + {e.id}
      && db'.emergencies[e.id] == e
      && (forall k | k in db.emergencies && k != e.id :: db'.emergencies[k] == db.emergencies[k])
      && e.timestamp == (if input.timestamp.Some? then input.timestamp.value else now)
      && e.accidentType == input.accidentType
      && e.assignedUnit == input.assignedUnit
      && e.latitud == input.latitud
      && e.longitud == input.longitud
      && e.userId == input.userId
      && e.status == input.status
    ensures Valid(db) ==> Valid(r.0) && (r.1.Ok? ==> r.1.value.id !in db.emergencies)
  {
    if !FitsColumns(input.latitud, input.longitud) then (db, Err(QueryFailed))
    else
      var id := db.nextEmergencyId;
      var timestamp := if input.timestamp.Some? then input.timestamp.value else now;
      var emergency := Emergency(id, timestamp, input.accidentType, input.assignedUnit,
                                 input.latitud, input.longitud, input.userId, input.status);
      (db.(emergencies := db.emergencies[id := emergency], nextEmergencyId := id + 1), Ok(emergency))
  }


  /** Lookup by primary key. */
  function GetEmergency(db: Db, emergencyId: int): (r: Option<Emergency>)
    ensures r.Some? <==> emergencyId in db.emergencies
    ensures r.Some? ==> r.value == db.emergencies[emergencyId]
  {
    if emergencyId in db.emergencies then Some(db.emergencies[emergencyId]) else None
  }

  /** `ORDER BY timestamp DESC`. */
  predicate Newer(a: Emergency, b: Emergency)
  {
    a.timestamp >= b.timestamp
  }

  lemma NewerIsTotalPreorder()
    ensures TotalPreorder(Newer)
  {
  }

  /** `s` is ordered most recent first. */
  predicate NewestFirst(s: seq<Emergency>)
  {
    forall i, j | 0 <= i < j < |s| :: s[i].timestamp >= s[j].timestamp
  }

  /** All rows of a table of emergencies, most recent first. */
  function LatestFirst(m: map<int, Emergency>): (r: seq<Emergency>)
    ensures |r| == |m|
    ensures NewestFirst(r)
    ensures forall i | 0 <= i < |r| :: r[i] in m.Values
  {
    NewerIsTotalPreorder();
    var rows := Rows(m);
    var r := Sort(rows, Newer);
    assert forall i, j | 0 <= i < j < |r| :: Newer(r[i], r[j]);
    forall i | 0 <= i < |r| ensures r[i] in m.Values {
      assert r[i] in multiset(rows);
    }
    r
  }

  /** Every row of the table is in the ordering. */
  lemma LatestFirstHasRow(m: map<int, Emergency>, k: int)
    requires k in m
    ensures m[k] in LatestFirst(m)
  {
    RowsHasRow(m, k);
    NewerIsTotalPreorder();
    assert LatestFirst(m) == Sort(Rows(m), Newer);
    assert m[k] in multiset(LatestFirst(m));
  }

  /** Every entry of the ordering is one of the rows. */
  lemma LatestFirstFromRows(m: map<int, Emergency>, i: int)
    requires 0 <= i < |LatestFirst(m)|
    ensures LatestFirst(m)[i] in Rows(m)
  {
    NewerIsTotalPreorder();
    assert LatestFirst(m) == Sort(Rows(m), Newer);
    assert LatestFirst(m)[i] in multiset(Rows(m));
  }

  /** When every row records its key, the ordering lists each row once. */
  lemma LatestFirstDistinct(m: map<int, Emergency>)
    requires forall k | k in m :: m[k].id == k
    ensures Distinct(LatestFirst(m))
  {
    RowsDistinct(m, (e: Emergency) => e.id);
    NewerIsTotalPreorder();
    assert LatestFirst(m) == Sort(Rows(m), Newer);
    DistinctPermutation(Rows(m), LatestFirst(m));
  }

  /** One page of all emergencies, most recent first. */
  function ListEmergencies(db: Db, skip: nat, limit: nat): (r: seq<Emergency>)
    ensures |r| == if skip >= |db.emergencies| then 0 else Min(limit, |db.emergencies| - skip)
    ensures NewestFirst(r)
  {
    Page(LatestFirst(db.emergencies), skip, limit)
  }

  /** A page is the window `[skip, skip + limit)` of the whole ordering, and
      holds rows of the table only. */
  lemma ListEmergenciesWindow(db: Db, skip: nat, limit: nat)
    ensures var r, all := ListEmergencies(db, skip, limit), LatestFirst(db.emergencies);
      forall i | 0 <= i < |r| :: r[i] == all[skip + i] && r[i] in db.emergencies.Values
  {
    var r, all := ListEmergencies(db, skip, limit), LatestFirst(db.emergencies);
    forall i | 0 <= i < |r| ensures r[i] == all[skip + i] && r[i] in db.emergencies.Values {
      assert r[i] == all[skip + i];
    }
  }

  /** Consecutive pages partition the ordering: reading `a` rows and then `b`
      rows from where the first page ended gives the page of `a + b` rows. */
  lemma ListEmergenciesConsecutive(db: Db, skip: nat, a: nat, b: nat)
    ensures ListEmergencies(db, skip, a) + ListEmergencies(db, skip + a, b) == ListEmergencies(db, skip, a + b)
  {
    PageConcat(LatestFirst(db.emergencies), skip, a, b);
  }

  /** When every row records its key, consecutive pages share no row. */
  lemma ListEmergenciesDisjoint(db: Db, skip: nat, a: nat, b: nat)
    requires forall k | k in db.emergencies :: db.emergencies[k].id == k
    ensures forall x :: x in ListEmergencies(db, skip, a) ==> x !in ListEmergencies(db, skip + a, b)
  {
    LatestFirstDistinct(db.emergencies);
    PagesDisjoint(LatestFirst(db.emergencies), skip, a, b);
  }

  /** An order the database may return for the newest-first query: every
      row once, newest first, rows with equal timestamps in any order. */
  ghost predicate NewestFirstOrder(m: map<int, Emergency>, r: seq<Emergency>)
  {
    NewestFirst(r) && multiset(r) == multiset(Rows(m))
  }

  ghost predicate TimestampsDistinct(m: map<int, Emergency>)
  {
    forall j, k | j in m && k in m && j != k :: m[j].timestamp != m[k].timestamp
  }

  /** Without ties, the model's order is the only one the database may
      return. */
  lemma OnlyNewestFirstOrder(m: map<int, Emergency>, r: seq<Emergency>)
    requires TimestampsDistinct(m) && NewestFirstOrder(m, r)
    ensures r == LatestFirst(m)
  {
    NewerIsTotalPreorder();
    assert LatestFirst(m) == Sort(Rows(m), Newer);
    assert SortedBy(r, Newer);
    forall a, b | a in r && b in r && Newer(a, b) && Newer(b, a) ensures a == b {
      assert a in multiset(Rows(m)) && b in multiset(Rows(m));
      RowHasKey(m, a);
      RowHasKey(m, b);
    }
    SortedUnique(r, LatestFirst(m), Newer);
  }

  /** Without ties, two requests for consecutive pages see the same order,
      whichever order each gets: the pages concatenate to the spanning page
      and, when every row records its key, share no emergency. */
  lemma PagesAcrossRequests(db: Db, r1: seq<Emergency>, r2: seq<Emergency>, skip: nat, a: nat, b: nat)
    requires TimestampsDistinct(db.emergencies)
    requires NewestFirstOrder(db.emergencies, r1) && NewestFirstOrder(db.emergencies, r2)
    ensures Page(r1, skip, a) + Page(r2, skip + a, b) == ListEmergencies(db, skip, a + b)
    ensures (forall k | k in db.emergencies :: db.emergencies[k].id == k) ==>
              forall x :: x in Page(r1, skip, a) ==> x !in Page(r2, skip + a, b)
  {
    OnlyNewestFirstOrder(db.emergencies, r1);
    OnlyNewestFirstOrder(db.emergencies, r2);
    ListEmergenciesConsecutive(db, skip, a, b);
    if forall k | k in db.emergencies :: db.emergencies[k].id == k {
      ListEmergenciesDisjoint(db, skip, a, b);
    }
  }

  /** The emergencies reported by `userId`. */
  function ReportedBy(db: Db, userId: int): (r: map<int, Emergency>)
    ensures forall k :: k in r <==> k in db.emergencies && db.emergencies[k].userId == Some(userId)
    ensures forall k | k in r :: r[k] == db.emergencies[k]
  {
    Where(db.emergencies, (e: Emergency) => e.userId == Some(userId))
  }

  /** Every emergency reported by `userId`, most recent first. */
  function EmergenciesByUser(db: Db, userId: int): (r: seq<Emergency>)
    ensures |r| == |ReportedBy(db, userId)|
    ensures NewestFirst(r)
    ensures forall i | 0 <= i < |r| :: r[i] in db.emergencies.Values && r[i].userId == Some(userId)
  {
    var m := ReportedBy(db, userId);
    var r := LatestFirst(m);
    forall i | 0 <= i < |r| ensures r[i] in db.emergencies.Values && r[i].userId == Some(userId) {
      LatestFirstFromRows(m, i);
      RowHasKey(m, r[i]);
      var k :| k in m && m[k] == r[i];
      assert db.emergencies[k] == r[i];
    }
    r
  }

  /** No emergency of the user is missing from the by-user query. */
  lemma EmergenciesByUserComplete(db: Db, userId: int, k: int)
    requires k in db.emergencies && db.emergencies[k].userId == Some(userId)
    ensures db.emergencies[k] in EmergenciesByUser(db, userId)
  {
    LatestFirstHasRow(ReportedBy(db, userId), k);
  }

  /** The emergencies whose status is `status`. */
  function WithStatus(db: Db, status: Status): (r: map<int, Emergency>)
    ensures forall k :: k in r <==> k in db.emergencies && db.emergencies[k].status == status
    ensures forall k | k in r :: r[k] == db.emergencies[k]
  {
    Where(db.emergencies, (e: Emergency) => e.status == status)
  }

  /** Every emergency with status `status`, most recent first. */
  function EmergenciesByStatus(db: Db, status: Status): (r: seq<Emergency>)
    ensures |r| == |WithStatus(db, status)|
    ensures NewestFirst(r)
    ensures forall i | 0 <= i < |r| :: r[i] in db.emergencies.Values && r[i].status == status
  {
    var m := WithStatus(db, status);
    var r := LatestFirst(m);
    forall i | 0 <= i < |r| ensures r[i] in db.emergencies.Values && r[i].status == status {
      LatestFirstFromRows(m, i);
      RowHasKey(m, r[i]);
      var k :| k in m && m[k] == r[i];
      assert db.emergencies[k] == r[i];
    }
    r
  }

  /** No emergency with the status is missing from the by-status query. */
  lemma EmergenciesByStatusComplete(db: Db, status: Status, k: int)
    requires k in db.emergencies && db.emergencies[k].status == status
    ensures db.emergencies[k] in EmergenciesByStatus(db, status)
  {
    LatestFirstHasRow(WithStatus(db, status), k);
  }
}
