/**
 * The user table behind `UserService`, as a map from id to record with two
 * unique indexes, by username and by email. Lookups by either return zero
 * or one record, as `UserService.getUserByUsername` and `getUserEmail` do.
 */
module UserStore {
  import opened Wrappers
  import opened Entities

  datatype Store = Store(
    rows: map<Uuid, User>,
    byUsername: map<string, Uuid>,
    byEmail: map<string, Uuid>)

  /** Some row has this username. */
  predicate HasUsername(s: Store, name: string) {
    exists id :: id in s.rows && s.rows[id].username == name
  }

  /** Some row has this email. */
  predicate HasEmail(s: Store, email: string) {
    exists id :: id in s.rows && s.rows[id].email == email
  }

  /** Rows are keyed by their own id and both indexes agree with the rows. */
  predicate Valid(s: Store) {
    && (forall id :: id in s.rows ==> s.rows[id].id == id)
    && (forall n :: n in s.byUsername ==> s.byUsername[n] in s.rows && s.rows[s.byUsername[n]].username == n)
    && (forall id :: id in s.rows ==> s.rows[id].username in s.byUsername && s.byUsername[s.rows[id].username] == id)
    && (forall e :: e in s.byEmail ==> s.byEmail[e] in s.rows && s.rows[s.byEmail[e]].email == e)
    && (forall id :: id in s.rows ==> s.rows[id].email in s.byEmail && s.byEmail[s.rows[id].email] == id)
  }

  /** The store with no users. */
  function Empty(): (s: Store)
    ensures Valid(s) && s.rows == map[]
  {
    Store(map[], map[], map[])
  }

  /** `findById`: the record with this id, if any; both indexes lead back to the same record. */
  function FindById(s: Store, id: Uuid): (r: Option<User>)
    requires Valid(s)
    ensures r.Some? <==> id in s.rows
    ensures r.Some? ==> r.value.id == id
    ensures r.Some? ==> FindByUsername(s, r.value.username) == r && FindByEmail(s, r.value.email) == r
  {
    if id in s.rows then Some(s.rows[id]) else None
  }

  /** `findByUsername`: the one record with this username, or none. */
  function FindByUsername(s: Store, name: string): (r: Option<User>)
    requires Valid(s)
    ensures r.Some? <==> HasUsername(s, name)
    ensures r.Some? ==> r.value.id in s.rows && s.rows[r.value.id] == r.value && r.value.username == name
  {
    if name in s.byUsername then Some(s.rows[s.byUsername[name]]) else None
  }

  /** `findByEmail`: the one record with this email, or none. */
  function FindByEmail(s: Store, email: string): (r: Option<User>)
    requires Valid(s)
    ensures r.Some? <==> HasEmail(s, email)
    ensures r.Some? ==> r.value.id in s.rows && s.rows[r.value.id] == r.value && r.value.email == email
  {
    if email in s.byEmail then Some(s.rows[s.byEmail[email]]) else None
  }

  /** Only one record can carry a given username. */
  lemma UsernameIsUnique(s: Store, a: Uuid, b: Uuid)
    requires Valid(s)
    requires a in s.rows && b in s.rows
    requires s.rows[a].username == s.rows[b].username
    ensures a == b
  {
  }

  /** `deleteUserById`: removes the row with this id, if any, from the table and both indexes. */
  function DeleteById(s: Store, id: Uuid): (r: Store)
    requires Valid(s)
    ensures Valid(r)
    ensures r.rows == s.rows - {id}
  {
    if id !in s.rows then s
    else
      var u := s.rows[id];
      Store(s.rows - {id}, s.byUsername - {u.username}, s.byEmail - {u.email})
  }

  /** The record would break the primary key or one of the unique indexes. */
  predicate Clashes(s: Store, u: User) {
    || u.id in s.rows
    || HasUsername(s, u.username)
    || HasEmail(s, u.email)
  }

  /**
   * `save` of a new record: fails on a duplicate id, username or email (a
   * constraint violation), and otherwise adds the record and indexes it.
   */
  function Insert(s: Store, u: User): (r: Option<Store>)
    requires Valid(s)
    ensures r.None? <==> Clashes(s, u)
    ensures r.Some? ==> Valid(r.value) && r.value.rows == s.rows[u.id := u]
  {
    if u.id in s.rows || u.username in s.byUsername || u.email in s.byEmail then None
    else Some(Store(s.rows[u.id := u], s.byUsername[u.username := u.id], s.byEmail[u.email := u.id]))
  }
}
