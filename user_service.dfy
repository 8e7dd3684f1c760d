/** The user service: registration with emergency contacts and medical
    condition links, lookups, authentication by phone and password, the
    listing, the partial update and deletion. The password hash is a
    parameter `hash`, about which nothing is assumed. */
module UserService {
  import opened Common
  import opened Entities
  import opened Tables
  import opened Sorting

  /** One emergency contact of the create payload. */
  datatype ContactCreate = ContactCreate(phone: Option<string>, kin: Option<int>, name: Option<string>)

  /** The create payload; both lists may be absent, which counts as empty. */
  datatype UserCreate = UserCreate(
    name: string,
    phone: string,
    birthday: Option<int>,
    password: string,
    contacts: Option<seq<ContactCreate>>,
    conditionIds: Option<seq<int>>)

  /** The partial-update payload: an absent field is left untouched. */
  datatype UserUpdate = UserUpdate(
    name: Option<string>,
    phone: Option<string>,
    birthday: Option<int>,
    password: Option<string>)

  /** An absent list is an empty one. */
  function OrEmpty<T>(o: Option<seq<T>>): (r: seq<T>)
    ensures o.None? ==> r == []
    ensures o.Some? ==> r == o.value
  {
    if o.Some? then o.value else []
  }

  /** The contact rows for the entries `cs` of user `userId`, numbered from
      `firstId` in the order the entries are given. */
  function NewContacts(userId: int, firstId: int, cs: seq<ContactCreate>): (r: seq<Contact>)
    ensures |r| == |cs|
    ensures forall i | 0 <= i < |r| ::
      && r[i].id == firstId + i
      && r[i].userId == userId
      && r[i].phone == cs[i].phone
      && r[i].kin == cs[i].kin
      && r[i].name == cs[i].name
  {
    if cs == [] then []
    else
      var n := |cs| - 1;
      NewContacts(userId, firstId, cs[..n]) + [Contact(firstId + n, userId, cs[n].phone, cs[n].kin, cs[n].name)]
  }

  /** Registers a user: the row with the hashed password and the creation
      time, one contact per supplied entry and one condition link per
      supplied condition id. */
  function CreateUser(db: Db, input: UserCreate, hash: string -> string, now: Timestamp): (r: (Db, User))
    ensures var db', u := r.0, r.1;
      var cs := OrEmpty(input.contacts);
      && db' == db.(users := db'.users, nextUserId := db'.nextUserId, nextContactId := db'.nextContactId)
      && u.id == db.nextUserId < db'.nextUserId
      && db'.users.Keys == db.users.Keys + {u.id}
      && db'.users[u.id] == u
      && (forall k | k in db.users && k != u.id :: db'.users[k] == db.users[k])
      && u.name == input.name && u.phone == input.phone && u.birthday == input.birthday
      && u.passwordHash == hash(input.password)
      && u.createdAt == now
      && |u.contacts| == |cs|
      && (forall i | 0 <= i < |cs| ::
            && u.contacts[i].userId == u.id
            && u.contacts[i].phone == cs[i].phone
            && u.contacts[i].kin == cs[i].kin
            && u.contacts[i].name == cs[i].name)
      && u.conditions == OrEmpty(input.conditionIds)
      && db'.nextContactId == db.nextContactId + |cs|
    ensures Valid(db) ==> r.1.id !in db.users && Valid(r.0)
  {
    var id := db.nextUserId;
    var cs := OrEmpty(input.contacts);
    var contacts := NewContacts(id, db.nextContactId, cs);
    var user := User(id, input.name, input.phone, input.birthday, hash(input.password), now,
                     contacts, OrEmpty(input.conditionIds));
    (db.(users := db.users[id := user], nextUserId := id + 1, nextContactId := db.nextContactId + |cs|), user)
  }

  /** Lookup by primary key. */
  function GetUser(db: Db, userId: int): (r: Option<User>)
    ensures r.Some? <==> userId in db.users
    ensures r.Some? ==> r.value == db.users[userId]
  {
    if userId in db.users then Some(db.users[userId]) else None
  }

  /** The keys of the users registered with `phone`; the column is not
      unique. */
  function WithPhone(db: Db, phone: string): (r: set<int>)
    ensures forall k :: k in r <==> k in db.users && db.users[k].phone == phone
  {
    KeysWhere(db.users, (u: User) => u.phone == phone)
  }

  /** `SELECT ... WHERE phone = :phone` read with `scalar_one_or_none`. */
  function GetUserByPhone(db: Db, phone: string): (r: Lookup<User>)
    ensures r.Missing? <==> WithPhone(db, phone) == {}
    ensures r.Multiple? <==> |WithPhone(db, phone)| >= 2
    ensures r.Found? ==>
      && |WithPhone(db, phone)| == 1
      && r.value.phone == phone
      && forall k | k in WithPhone(db, phone) :: db.users[k] == r.value
  {
    var ks := WithPhone(db, phone);
    if ks == {} then Missing
    else if |ks| >= 2 then Multiple
    else
      var k := MinKey(ks);
      assert ks == {k} by { SingletonIs(ks, k); }
      Found(db.users[k])
  }

  /** The user registered with `phone`, when the stored hash is the hash of
      `password`; `Ok(None)` for an unknown phone and for a wrong password
      alike. Two users with the phone make the lookup fail. */
  function Authenticate(db: Db, phone: string, password: string, hash: string -> string): (r: Result<Option<User>>)
    ensures r.Err? <==> |WithPhone(db, phone)| >= 2
    ensures r.Err? ==> r.error == MultipleResults
    ensures r == Ok(None) <==>
      || WithPhone(db, phone) == {}
      || (|WithPhone(db, phone)| == 1 && forall k | k in WithPhone(db, phone) :: db.users[k].passwordHash != hash(password))
    ensures r.Ok? && r.value.Some? ==>
      && |WithPhone(db, phone)| == 1
      && (forall k | k in WithPhone(db, phone) :: db.users[k] == r.value.value)
      && r.value.value.phone == phone
      && r.value.value.passwordHash == hash(password)
  {
    match GetUserByPhone(db, phone)
    case Multiple => Err(MultipleResults)
    case Missing => Ok(None)
    case Found(user) => if user.passwordHash != hash(password) then Ok(None) else Ok(Some(user))
  }

  /** One page of users. The query has no `ORDER BY`; the model reads the
      rows in key order. `skip` and `limit` reach the query unchecked, and
      PostgreSQL rejects a negative OFFSET or LIMIT. */
  function ListUsers(db: Db, skip: int, limit: int): (r: Result<seq<User>>)
    ensures r.Err? <==> skip < 0 || limit < 0
    ensures r.Err? ==> r.error == QueryFailed
    ensures r.Ok? ==>
      && |r.value| == (if skip >= |db.users| then 0 else Min(limit, |db.users| - skip))
      && |r.value| <= limit
  {
    if skip < 0 || limit < 0 then Err(QueryFailed)
    else Ok(PageOfRows(db.users, skip, limit))
  }

  /** For arguments the database accepts, a page is the window
      `[skip, skip + limit)` of the rows, and holds users of the table only. */
  lemma ListUsersWindow(db: Db, skip: nat, limit: nat)
    ensures ListUsers(db, skip, limit).Ok?
    ensures var r, all := ListUsers(db, skip, limit).value, Rows(db.users);
      forall i | 0 <= i < |r| :: r[i] == all[skip + i] && r[i] in db.users.Values
  {
    var r, all := ListUsers(db, skip, limit).value, Rows(db.users);
    forall i | 0 <= i < |r| ensures r[i] == all[skip + i] && r[i] in db.users.Values {
      assert r[i] == all[skip + i];
    }
  }

  /** Consecutive pages of users concatenate to the page that spans both. */
  lemma ListUsersConsecutive(db: Db, skip: nat, a: nat, b: nat)
    ensures ListUsers(db, skip, a).value + ListUsers(db, skip + a, b).value == ListUsers(db, skip, a + b).value
  {
    PageConcat(Rows(db.users), skip, a, b);
  }

  /** Partial update; a new password is stored hashed. Contacts, condition
      links and the creation time are kept. */
  function UpdateUser(db: Db, userId: int, patch: UserUpdate, hash: string -> string): (r: (Db, Option<User>))
    ensures r.1.None? <==> userId !in db.users
    ensures r.1.None? ==> r.0 == db
    ensures r.1.Some? ==>
      var db', u0, u := r.0, db.users[userId], r.1.value;
      && db' == db.(users := db'.users)
      && AgreeExcept(db.users, db'.users, userId)
      && db'.users[userId] == u
      && u.id == u0.id && u.createdAt == u0.createdAt
      && u.contacts == u0.contacts && u.conditions == u0.conditions
      && u.name == (if patch.name.Some? then patch.name.value else u0.name)
      && u.phone == (if patch.phone.Some? then patch.phone.value else u0.phone)
      && u.birthday == (if patch.birthday.Some? then patch.birthday else u0.birthday)
      && u.passwordHash == (if patch.password.Some? then hash(patch.password.value) else u0.passwordHash)
    ensures Valid(db) ==> Valid(r.0)
  {
    if userId !in db.users then (db, None)
    else
      var user := db.users[userId];
      var user' := user.(
        name := if patch.name.Some? then patch.name.value else user.name,
        phone := if patch.phone.Some? then patch.phone.value else user.phone,
        birthday := if patch.birthday.Some? then patch.birthday else user.birthday,
        passwordHash := if patch.password.Some? then hash(patch.password.value) else user.passwordHash);
      ReplaceUserKeepsValid(db, userId, user');
      (db.(users := db.users[userId := user']), Some(user'))
  }

  /** Removes the user together with its contacts and condition links. No
      emergency row is removed with it, and no emergency changes except in
      its reference to the removed user, which the contract leaves open. */
  function DeleteUser(db: Db, userId: int): (r: (Db, bool))
    ensures r.1 <==> userId in db.users
    ensures !r.1 ==> r.0 == db
    ensures r.1 ==>
      && r.0 == db.(users := r.0.users, emergencies := r.0.emergencies)
      && r.0.emergencies.Keys == db.emergencies.Keys
      && (forall k | k in db.emergencies ::
            var e, e' := db.emergencies[k], r.0.emergencies[k];
            && e'.id == e.id && e'.timestamp == e.timestamp && e'.accidentType == e.accidentType
            && e'.assignedUnit == e.assignedUnit && e'.latitud == e.latitud && e'.longitud == e.longitud
            && e'.status == e.status
            && (e.userId != Some(userId) ==> e' == e))
      && r.0.users.Keys == db.users.Keys - {userId}
      && |r.0.users| == |db.users| - 1
      && forall k | k in r.0.users :: r.0.users[k] == db.users[k]
    ensures Valid(db) ==> Valid(r.0)
  {
    if userId !in db.users then (db, false)
    else (db.(users := db.users - {userId}), true)
  }

  /** Registering with a phone nobody uses and then logging in with the same
      password returns the new user. */
  lemma RegisterThenLogin(db: Db, input: UserCreate, hash: string -> string, now: Timestamp)
    requires Valid(db)
    requires WithPhone(db, input.phone) == {}
    ensures var (db', u) := CreateUser(db, input, hash, now);
      Authenticate(db', input.phone, input.password, hash) == Ok(Some(u))
  {
    var (db', u) := CreateUser(db, input, hash, now);
    assert u.id in WithPhone(db', input.phone);
    forall k | k in db.users ensures k !in WithPhone(db', input.phone) {
      assert k !in WithPhone(db, input.phone);
    }
    assert WithPhone(db', input.phone) == {u.id};
  }

  /** When `hash` is injective, logging in with a password other than the
      one registered fails, however the rest of the table looks. */
  lemma OtherPasswordRejected(db: Db, input: UserCreate, other: string, hash: string -> string, now: Timestamp)
    requires Valid(db)
    requires forall p, q | hash(p) == hash(q) :: p == q
    requires other != input.password
    ensures var (db', u) := CreateUser(db, input, hash, now);
      Authenticate(db', input.phone, other, hash).Ok? ==> Authenticate(db', input.phone, other, hash).value != Some(u)
  {
  }

  /** A wrong password cannot be told apart from an unregistered phone: the
      answer is the one the table without that user gives. */
  lemma WrongPasswordLooksUnregistered(db: Db, k: int, password: string, hash: string -> string)
    requires k in db.users
    requires WithPhone(db, db.users[k].phone) == {k}
    requires db.users[k].passwordHash != hash(password)
    ensures Authenticate(db, db.users[k].phone, password, hash)
         == Authenticate(DeleteUser(db, k).0, db.users[k].phone, password, hash)
         == Ok(None)
  {
    var phone := db.users[k].phone;
    var db' := DeleteUser(db, k).0;
    assert WithPhone(db', phone) == WithPhone(db, phone) - {k};
  }

  /** After a password change, the new password logs the user in. */
  lemma NewPasswordLogsIn(db: Db, userId: int, patch: UserUpdate, hash: string -> string)
    requires userId in db.users && patch.password.Some?
    requires var phone := UpdateUser(db, userId, patch, hash).0.users[userId].phone;
      forall k | k in db.users && k != userId :: db.users[k].phone != phone
    ensures var (db', u) := UpdateUser(db, userId, patch, hash);
      Authenticate(db', u.value.phone, patch.password.value, hash) == Ok(Some(u.value))
  {
    var (db', u) := UpdateUser(db, userId, patch, hash);
    var phone := u.value.phone;
    assert userId in WithPhone(db', phone);
    forall k | k in db.users && k != userId ensures k !in WithPhone(db', phone) {
      assert db'.users[k] == db.users[k];
    }
    assert WithPhone(db', phone) == {userId};
  }
}
