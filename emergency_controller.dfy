/** The `/emergencies` routes: query-parameter bounds, the status-filter
    branch of the listing, and the mapping of a missing row to 404. */
module EmergencyController {
  import opened Common
  import opened Entities
  import opened EmergencyService

  /** `POST /emergencies`: the created emergency, or a server error when a
      coordinate does not fit its column and the commit fails. */
  function CreateEmergencyRoute(db: Db, input: EmergencyCreate, now: Timestamp): (r: (Db, Result<Emergency>))
    ensures r.1.Ok? <==> FitsColumns(input.latitud, input.longitud)
    ensures r.1.Err? ==> r.1.error == QueryFailed && r.0 == db
    ensures r == CreateEmergency(db, input, now)
  {
    CreateEmergency(db, input, now)
  }

  /** `GET /emergencies/{id}`. */
  function GetEmergencyRoute(db: Db, emergencyId: int): (r: Result<Emergency>)
    ensures r.Err? <==> emergencyId !in db.emergencies
    ensures r.Err? ==> r.error == NotFound
    ensures r.Ok? ==> r.value == db.emergencies[emergencyId]
  {
    match GetEmergency(db, emergencyId)
    case None => Err(NotFound)
    case Some(e) => Ok(e)
  }

  /** The declared bounds of the listing's query parameters: `skip >= 0`,
      `1 <= limit <= 1000`, and a status filter, when given, in 1..3. */
  predicate ListParamsValid(skip: int, limit: int, statusFilter: Option<int>)
  {
    && 0 <= skip
    && 1 <= limit <= 1000
    && (statusFilter.Some? ==> 1 <= statusFilter.value <= 3)
  }

  /** `GET /emergencies`: with a status filter, every emergency with that
      status; otherwise one page of all emergencies. */
  function ListEmergenciesRoute(db: Db, skip: int, limit: int, statusFilter: Option<int>): (r: Result<seq<Emergency>>)
    ensures r.Err? <==> !ListParamsValid(skip, limit, statusFilter)
    ensures r.Err? ==> r.error == Invalid
    ensures r.Ok? && statusFilter.Some? ==> r.value == EmergenciesByStatus(db, statusFilter.value)
    ensures r.Ok? && statusFilter.None? ==> r.value == ListEmergencies(db, skip, limit)
  {
    if !ListParamsValid(skip, limit, statusFilter) then Err(Invalid)
    else if statusFilter.Some? then Ok(EmergenciesByStatus(db, statusFilter.value))
    else Ok(ListEmergencies(db, skip, limit))
  }

  /** With a status filter, `skip` and `limit` make no difference once they
      are in bounds. */
  lemma FilterIgnoresPagination(db: Db, status: Status, skip1: nat, limit1: int, skip2: nat, limit2: int)
    requires 1 <= limit1 <= 1000 && 1 <= limit2 <= 1000
    ensures ListEmergenciesRoute(db, skip1, limit1, Some(status)) == ListEmergenciesRoute(db, skip2, limit2, Some(status))
  {
  }

  /** The filtered listing contains exactly the emergencies with the status,
      most recent first, whatever the page size: it may be longer than
      `limit`. */
  lemma FilteredListingIsExact(db: Db, skip: int, limit: int, status: Status)
    requires ListParamsValid(skip, limit, Some(status))
    ensures var r := ListEmergenciesRoute(db, skip, limit, Some(status));
      && r.Ok?
      && NewestFirst(r.value)
      && (forall i | 0 <= i < |r.value| :: r.value[i] in db.emergencies.Values && r.value[i].status == status)
      && (forall k | k in db.emergencies && db.emergencies[k].status == status :: db.emergencies[k] in r.value)
  {
    forall k | k in db.emergencies && db.emergencies[k].status == status
      ensures db.emergencies[k] in EmergenciesByStatus(db, status)
    {
      EmergenciesByStatusComplete(db, status, k);
    }
  }

  /** `PUT /emergencies/{id}/assign-unit`: 404 when the service finds
      nothing, which covers a missing emergency and a missing unit alike. */
  function AssignUnitRoute(db: Db, emergencyId: int, unitId: int): (r: (Db, Result<Emergency>))
    ensures r.1.Err? <==> emergencyId !in db.emergencies || unitId !in db.units
    ensures r.1.Err? ==> r.1.error == NotFound && r.0 == db
    ensures r.1.Ok? ==> (r.0, Some(r.1.value)) == AssignUnit(db, emergencyId, unitId)
  {
    var (db', e) := AssignUnit(db, emergencyId, unitId);
    if e.None? then (db', Err(NotFound)) else (db', Ok(e.value))
  }

  /** `PUT /emergencies/{id}`: 404 exactly when the emergency is absent. */
  function UpdateEmergencyRoute(db: Db, emergencyId: int, patch: EmergencyUpdate): (r: (Db, Result<Emergency>))
    ensures r.1.Err? <==> emergencyId !in db.emergencies
    ensures r.1.Err? ==> r.1.error == NotFound && r.0 == db
    ensures r.1.Ok? ==> (r.0, Some(r.1.value)) == UpdateEmergency(db, emergencyId, patch)
  {
    var (db', e) := UpdateEmergency(db, emergencyId, patch);
    if e.None? then (db', Err(NotFound)) else (db', Ok(e.value))
  }

  /** `GET /emergencies/user/{user_id}`: always succeeds. */
  function EmergenciesByUserRoute(db: Db, userId: int): (r: Result<seq<Emergency>>)
    ensures r.Ok?
    ensures r.value == EmergenciesByUser(db, userId)
  {
    Ok(EmergenciesByUser(db, userId))
  }
}
