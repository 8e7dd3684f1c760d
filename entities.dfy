/** The rows of the database that the services read and write, and the
    database itself as one value. */
module Entities {
  import opened Common

  /** The `chk_emergencies_status` constraint: 1 = pending, 2 = assigned,
      3 = closed. */
  type Status = s: int | 1 <= s <= 3 witness 1

  const Pending: Status := 1
  const Assigned: Status := 2
  const Closed: Status := 3

  /** A point in time (`TIMESTAMP`), as a count of ticks. */
  type Timestamp = int

  /** A row of `emergencies`. */
  datatype Emergency = Emergency(
    id: int,
    timestamp: Timestamp,
    accidentType: Option<int>,
    assignedUnit: Option<int>,
    latitud: real,
    longitud: real,
    userId: Option<int>,
    status: Status)

  /** A row of `emergency_unit`, with the back-reference to the emergency
      the unit currently serves. */
  datatype Unit = Unit(
    id: int,
    name: string,
    latitud: real,
    longitud: real,
    assignedEmergencyId: Option<int>)

  /** A row of `emergency_contacts`. */
  datatype Contact = Contact(
    id: int,
    userId: int,
    phone: Option<string>,
    kin: Option<int>,
    name: Option<string>)

  /** A row of `users` together with the rows that belong to it: its
      emergency contacts and the ids of its `user_conditions` links.
      `passwordHash` is the `password` column, which holds a hash. */
  datatype User = User(
    id: int,
    name: string,
    phone: string,
    birthday: Option<int>,
    passwordHash: string,
    createdAt: Timestamp,
    contacts: seq<Contact>,
    conditions: seq<int>)

  /** The database: one table per entity, keyed by primary key, and the
      next value of each autoincrement sequence. */
  datatype Db = Db(
    emergencies: map<int, Emergency>,
    units: map<int, Unit>,
    users: map<int, User>,
    nextEmergencyId: int,
    nextUnitId: int,
    nextUserId: int,
    nextContactId: int)

  const EmptyDb := Db(map[], map[], map[], 1, 1, 1, 1)

  /** Primary-key integrity: every row records the key it is stored under,
      every key was drawn from its sequence, and every contact belongs to
      the user that holds it. */
  ghost predicate Valid(db: Db)
  {
    && (forall k | k in db.emergencies :: db.emergencies[k].id == k && k < db.nextEmergencyId)
    && (forall k | k in db.units :: db.units[k].id == k && k < db.nextUnitId)
    && (forall k | k in db.users :: db.users[k].id == k && k < db.nextUserId)
    && (forall k, i | k in db.users && 0 <= i < |db.users[k].contacts| ::
          db.users[k].contacts[i].userId == k && db.users[k].contacts[i].id < db.nextContactId)
  }

  /** Rewriting a user's own fields, keeping its id and contacts, keeps the
      database valid. */
  lemma ReplaceUserKeepsValid(db: Db, k: int, u: User)
    requires k in db.users && u.id == db.users[k].id && u.contacts == db.users[k].contacts
    ensures Valid(db) ==> Valid(db.(users := db.users[k := u]))
  {
  }

  /** Two versions of an emergency agree on everything that neither the
      assignment nor the status update writes. */
  predicate SameReport(a: Emergency, b: Emergency)
  {
    && a.id == b.id
    && a.timestamp == b.timestamp
    && a.accidentType == b.accidentType
    && a.latitud == b.latitud
    && a.longitud == b.longitud
    && a.userId == b.userId
  }

  /** Two versions of a unit agree on everything except the back-reference. */
  predicate SamePlace(a: Unit, b: Unit)
  {
    a.id == b.id && a.name == b.name && a.latitud == b.latitud && a.longitud == b.longitud
  }
}
