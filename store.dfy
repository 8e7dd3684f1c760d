/** The database as one mutable object, as the services see it through the
    ORM session: each method fetches rows, changes their fields and writes
    them back, and is proved to leave the store in the state the matching
    service function describes. */
module Storage {
  import opened Common
  import opened Entities
  import ES = EmergencyService
  import UnitSvc = UnitService
  import US = UserService

  class Store {
    var emergencies: map<int, Emergency>
    var units: map<int, Unit>
    var users: map<int, User>
    var nextEmergencyId: int
    var nextUnitId: int
    var nextUserId: int
    var nextContactId: int

    /** The tables and sequences as one value. */
    function Model(): Db
      reads this
    {
      Db(emergencies, units, users, nextEmergencyId, nextUnitId, nextUserId, nextContactId)
    }

    /** An empty database whose sequences start at 1. */
    constructor ()
      ensures Model() == EmptyDb
    {
      emergencies, units, users := map[], map[], map[];
      nextEmergencyId, nextUnitId, nextUserId, nextContactId := 1, 1, 1, 1;
    }

    /** `assign_unit_to_emergency`. */
    method AssignUnit(emergencyId: int, unitId: int) returns (r: Option<Emergency>)
      modifies this
      ensures (Model(), r) == ES.AssignUnit(old(Model()), emergencyId, unitId)
    {
      if emergencyId !in emergencies {
        return None;
      }
      if unitId !in units {
        return None;
      }
      var emergency := emergencies[emergencyId];
      var unit := units[unitId];
      emergency := emergency.(assignedUnit := Some(unitId));
      emergency := emergency.(status := Assigned);
      unit := unit.(assignedEmergencyId := Some(emergencyId));
      emergencies := emergencies[emergencyId := emergency];
      units := units[unitId := unit];
      return Some(emergency);
    }

    /** `update_emergency`. */
    method UpdateEmergency(emergencyId: int, patch: ES.EmergencyUpdate) returns (r: Option<Emergency>)
      modifies this
      ensures (Model(), r) == ES.UpdateEmergency(old(Model()), emergencyId, patch)
    {
      if emergencyId !in emergencies {
        return None;
      }
      var emergency := emergencies[emergencyId];
      if patch.status == Some(Closed) && emergency.assignedUnit.Some? {
        var u := emergency.assignedUnit.value;
        if u in units {
          units := units[u := units[u].(assignedEmergencyId := None)];
        }
      }
      if patch.assignedUnit.Some? {
        emergency := emergency.(assignedUnit := patch.assignedUnit);
      }
      if patch.status.Some? {
        emergency := emergency.(status := patch.status.value);
      }
      emergencies := emergencies[emergencyId := emergency];
      return Some(emergency);
    }

    /** `create_emergency`. */
    method CreateEmergency(input: ES.EmergencyCreate, now: Timestamp) returns (r: Result<Emergency>)
      modifies this
      ensures (Model(), r) == ES.CreateEmergency(old(Model()), input, now)
    {
      if !ES.FitsColumns(input.latitud, input.longitud) {
        return Err(QueryFailed);
      }
      var timestamp := now;
      if input.timestamp.Some? {
        timestamp := input.timestamp.value;
      }
      var e := Emergency(nextEmergencyId, timestamp, input.accidentType, input.assignedUnit,
                         input.latitud, input.longitud, input.userId, input.status);
      emergencies := emergencies[nextEmergencyId := e];
      nextEmergencyId := nextEmergencyId + 1;
      return Ok(e);
    }

    /** `create_emergency_unit`. */
    method CreateUnit(input: UnitSvc.UnitCreate) returns (u: Unit)
      modifies this
      ensures (Model(), u) == UnitSvc.CreateUnit(old(Model()), input)
    {
      u := Unit(nextUnitId, input.name, input.latitud, input.longitud, None);
      units := units[nextUnitId := u];
      nextUnitId := nextUnitId + 1;
    }

    /** `update_emergency_unit`. */
    method UpdateUnit(unitId: int, patch: UnitSvc.UnitUpdate) returns (r: Option<Unit>)
      modifies this
      ensures (Model(), r) == UnitSvc.UpdateUnit(old(Model()), unitId, patch)
    {
      if unitId !in units {
        return None;
      }
      var unit := units[unitId];
      if patch.name.Some? {
        unit := unit.(name := patch.name.value);
      }
      if patch.latitud.Some? {
        unit := unit.(latitud := patch.latitud.value);
      }
      if patch.longitud.Some? {
        unit := unit.(longitud := patch.longitud.value);
      }
      units := units[unitId := unit];
      return Some(unit);
    }

    /** `delete_emergency_unit`. */
    method DeleteUnit(unitId: int) returns (deleted: bool)
      modifies this
      ensures (Model(), deleted) == UnitSvc.DeleteUnit(old(Model()), unitId)
    {
      if unitId !in units {
        return false;
      }
      units := units - {unitId};
      return true;
    }

    /** `create_user`: builds one contact per entry and one condition link
        per id, in the order given, then stores the user with them in one
        write. */
    method CreateUser(input: US.UserCreate, hash: string -> string, now: Timestamp) returns (user: User)
      modifies this
      ensures (Model(), user) == US.CreateUser(old(Model()), input, hash, now)
    {
      var id := nextUserId;
      nextUserId := nextUserId + 1;
      user := User(id, input.name, input.phone, input.birthday, hash(input.password), now, [], []);

      var entries := US.OrEmpty(input.contacts);
      var contacts := AddContacts(id, nextContactId, entries);
      nextContactId := nextContactId + |entries|;
      var conditions := LinkConditions(US.OrEmpty(input.conditionIds));
      user := user.(contacts := contacts, conditions := conditions);
      users := users[id := user];
    }

    /** `update_user`. */
    method UpdateUser(userId: int, patch: US.UserUpdate, hash: string -> string) returns (r: Option<User>)
      modifies this
      ensures (Model(), r) == US.UpdateUser(old(Model()), userId, patch, hash)
    {
      if userId !in users {
        return None;
      }
      var user := users[userId];
      if patch.name.Some? {
        user := user.(name := patch.name.value);
      }
      if patch.phone.Some? {
        user := user.(phone := patch.phone.value);
      }
      if patch.birthday.Some? {
        user := user.(birthday := patch.birthday);
      }
      if patch.password.Some? {
        user := user.(passwordHash := hash(patch.password.value));
      }
      users := users[userId := user];
      return Some(user);
    }

    /** `delete_user`; the user's contacts and condition links go with it. */
    method DeleteUser(userId: int) returns (deleted: bool)
      modifies this
      ensures (Model(), deleted) == US.DeleteUser(old(Model()), userId)
    {
      if userId !in users {
        return false;
      }
      users := users - {userId};
      return true;
    }
  }

  /** The loop of `create_user` over the contact entries: one row per entry,
      numbered from `firstId`, each owned by `userId`. */
  method AddContacts(userId: int, firstId: int, entries: seq<US.ContactCreate>) returns (contacts: seq<Contact>)
    ensures contacts == US.NewContacts(userId, firstId, entries)
  {
    contacts := [];
    var i := 0;
    while i < |entries|
      invariant 0 <= i <= |entries|
      invariant contacts == US.NewContacts(userId, firstId, entries[..i])
    {
      var entry := entries[i];
      contacts := contacts + [Contact(firstId + i, userId, entry.phone, entry.kin, entry.name)];
      assert entries[..i + 1][..i] == entries[..i];
      i := i + 1;
    }
    assert entries[..i] == entries;
  }

  /** The loop of `create_user` over the condition ids: one link per id, in
      the order given. */
  method LinkConditions(conditionIds: seq<int>) returns (conditions: seq<int>)
    ensures conditions == conditionIds
  {
    conditions := [];
    var j := 0;
    while j < |conditionIds|
      invariant 0 <= j <= |conditionIds|
      invariant conditions == conditionIds[..j]
    {
      conditions := conditions + [conditionIds[j]];
      assert conditionIds[..j + 1] == conditionIds[..j] + [conditionIds[j]];
      j := j + 1;
    }
    assert conditionIds[..j] == conditionIds;
  }
}
