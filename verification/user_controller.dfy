/**
 * The decisions of `UserController`: each endpoint maps the current
 * principal, the user store, the validator's verdict and the outcome of the
 * repository calls to a reply, the store afterwards, and the list of writes
 * it handed to the repository.
 *
 * A repository call that raises is given by `Faults`; a raised failure
 * inside a `try` is caught by `CatchFailure`, and the write it interrupted
 * leaves the store as it was (the service methods are transactional).
 */
module UserController {
  import opened Wrappers
  import opened Entities
  import opened Http
  import opened UserStore
  import opened Authorization

  const UserNotFound: string := "User not found"
  const UserDeleted: string := "User deleted successfully"
  const DeleteRefused: string := "Only Admins or the actual User can delete a User."
  const UpdateRefused: string := "Users can only edit there own Profile (except admins)"
  const UserUpdated: string := "User info has been updated successfully"
  const UserRegistered: string := "User registered successfully"
  const NoSuchUser: string := "No user with this name found"
  const UploadFailed: string := "An error occurred while uploading your file."

  /** The arguments of `updateUserInfo`: the name the row is found by, and the new field values. */
  datatype UserUpdate = UserUpdate(oldUsername: string, fields: User)

  /** A write handed to the repository. */
  datatype Write = DeleteCall(id: Uuid) | CreateCall(user: User) | UpdateCall(update: UserUpdate)

  /** What `updateUserInfo` reports: the affected-row count, and the table after the update. */
  datatype UpdateReply = UpdateReply(affectedRows: int, after: Store)

  /** `updateUserInfo`, whose query is not part of this model. */
  type UpdateQuery = (Store, UserUpdate) -> Result<UpdateReply, Failure>

  /** `BCryptPasswordEncoder.encode`, as an opaque one-way function. */
  type Hasher = string -> string

  /** The outcome of a request. */
  datatype Step = Step(reply: Reply, store: Store, writes: seq<Write>)

  /** Code that either returns a step or raises after issuing some writes. */
  datatype Flow = Returned(step: Step) | Raised(failure: Failure, writes: seq<Write>)

  /** The catch blocks around a `try`: a raised failure becomes its reply and the store is rolled back. */
  function Catch(flow: Flow, s: Store): Step {
    match flow
    case Returned(st) => st
    case Raised(f, ws) => Step(CatchFailure(f), s, ws)
  }

  /** `getUserRole`: the stored role of the named user, or a fixed message. */
  function GetUserRole(s: Store, name: string): (role: string)
    requires Valid(s)
    ensures forall id :: id in s.rows && s.rows[id].username == name ==> role == s.rows[id].role
    ensures !HasUsername(s, name) ==> role == NoSuchUser
  {
    match FindByUsername(s, name)
    case Some(u) => u.role
    case None => NoSuchUser
  }

  /** `UserService.getUser`: `findById(id).orElseThrow()`, so a missing id raises. */
  function GetUser(s: Store, id: Uuid, onRead: Option<Failure>): (r: Result<User, Failure>)
    requires Valid(s)
    ensures onRead.Some? ==> r == Failure(onRead.value)
    ensures onRead.None? && id in s.rows ==> r == Success(s.rows[id])
    ensures onRead.None? && id !in s.rows ==> r == Failure(OtherException)
  {
    if onRead.Some? then Failure(onRead.value)
    else
      match FindById(s, id)
      case Some(u) => Success(u)
      case None => Failure(OtherException)
  }

  /** `handleUserDeletion`: 404 for a null user, otherwise delete that user's id. */
  function HandleUserDeletion(s: Store, target: Option<User>, onWrite: Option<Failure>): (r: Flow)
    requires Valid(s)
    ensures target.None? ==> r == Returned(Step(Respond(NotFound, Text(UserNotFound)), s, []))
    ensures target.Some? && onWrite.Some? ==> r == Raised(onWrite.value, [DeleteCall(target.value.id)])
    ensures target.Some? && onWrite.None? ==>
      && r.Returned?
      && r.step.reply == Respond(Ok, Text(UserDeleted))
      && r.step.writes == [DeleteCall(target.value.id)]
      && r.step.store.rows == s.rows - {target.value.id}
    ensures r.Returned? ==> Valid(r.step.store)
  {
    match target
    case None => Returned(Step(Respond(NotFound, Text(UserNotFound)), s, []))
    case Some(u) =>
      if onWrite.Some? then Raised(onWrite.value, [DeleteCall(u.id)])
      else Returned(Step(Respond(Ok, Text(UserDeleted)), DeleteById(s, u.id), [DeleteCall(u.id)]))
  }

  /**
   * `DELETE /deleteUser/{id}` as written. There is no owner-or-admin check,
   * and because `getUser` raises on a missing id the 404 branch of
   * `handleUserDeletion` is never reached: an unknown id answers 500.
   */
  function DeleteUserById(s: Store, id: Uuid, faults: Faults): (r: Step)
    requires Valid(s)
    ensures Valid(r.store) && r.reply.Respond?
    ensures r.reply.status != NotFound
    ensures faults.onRead.Some? ==> r == Step(CatchFailure(faults.onRead.value), s, [])
    ensures faults.onRead.None? && id !in s.rows ==> r == Step(Respond(InternalServerError, Text(ErrorMessage)), s, [])
    ensures faults.onRead.None? && faults.onWrite.None? && id in s.rows ==>
      r.reply == Respond(Ok, Text(UserDeleted)) && r.store.rows == s.rows - {id}
    ensures faults.onRead.None? && faults.onWrite.Some? && id in s.rows ==>
      r == Step(CatchFailure(faults.onWrite.value), s, [DeleteCall(id)])
    ensures r.store == s || (id in s.rows && r.store.rows == s.rows - {id})
  {
    match GetUser(s, id, faults.onRead)
    case Failure(f) => Step(CatchFailure(f), s, [])
    case Success(u) => Catch(HandleUserDeletion(s, Some(u), faults.onWrite), s)
  }

  /** `DELETE /deleteUser/{id}` as its tests expect it: a missing id is "not found". */
  function DeleteUserByIdIntended(s: Store, id: Uuid, faults: Faults): (r: Step)
    requires Valid(s)
    ensures Valid(r.store) && r.reply.Respond?
    ensures faults.onRead.Some? ==> r == Step(CatchFailure(faults.onRead.value), s, [])
    ensures faults.onRead.None? && id !in s.rows ==> r == Step(Respond(NotFound, Text(UserNotFound)), s, [])
    ensures faults.onRead.None? && faults.onWrite.None? && id in s.rows ==>
      r.reply == Respond(Ok, Text(UserDeleted)) && r.store.rows == s.rows - {id}
    ensures r.store == s || (id in s.rows && r.store.rows == s.rows - {id})
  {
    if faults.onRead.Some? then Step(CatchFailure(faults.onRead.value), s, [])
    else Catch(HandleUserDeletion(s, FindById(s, id), faults.onWrite), s)
  }

  /** The same unknown id: the code answers 500 where its tests expect 404. */
  lemma UnknownIdDeletion(s: Store, id: Uuid)
    requires Valid(s) && id !in s.rows
    ensures DeleteUserById(s, id, NoFaults).reply == Respond(InternalServerError, Text(ErrorMessage))
    ensures DeleteUserByIdIntended(s, id, NoFaults).reply == Respond(NotFound, Text(UserNotFound))
  {
  }

  /** `userService.getUserByUsername` inside a `try`. */
  function LookupByUsername(s: Store, name: string, onRead: Option<Failure>): Result<Option<User>, Failure>
    requires Valid(s)
  {
    if onRead.Some? then Failure(onRead.value) else Success(FindByUsername(s, name))
  }

  /**
   * `DELETE /deleteUsername/{usernameD}`: look the user up, then apply the
   * owner-or-admin rule, then `handleUserDeletion`. A refusal answers 401 and
   * issues no write; a missing role is a NullPointerException, caught as 500.
   */
  function DeleteUserByName(s: Store, p: Principal, target: string, faults: Faults): (r: Step)
    requires Valid(s)
    ensures Valid(r.store) && r.reply.Respond?
    ensures r.writes != [] ==> Check(p, target) == Granted
    ensures r.store != s ==>
      && Check(p, target) == Granted
      && r.reply == Respond(Ok, Text(UserDeleted))
      && exists id :: id in s.rows && s.rows[id].username == target && r.store.rows == s.rows - {id}
    ensures faults.onRead.Some? ==> r == Step(CatchFailure(faults.onRead.value), s, [])
    ensures faults.onRead.None? && Check(p, target) == Refused ==>
      r == Step(Respond(Unauthorized, Text(DeleteRefused)), s, [])
    ensures faults.onRead.None? && Check(p, target) == NullRole ==>
      r == Step(Respond(InternalServerError, Text(ErrorMessage)), s, [])
    ensures faults.onRead.None? && Check(p, target) == Granted && !HasUsername(s, target) ==>
      r == Step(Respond(NotFound, Text(UserNotFound)), s, [])
    ensures faults.onRead.None? && faults.onWrite.None? && Check(p, target) == Granted && HasUsername(s, target) ==>
      r.reply == Respond(Ok, Text(UserDeleted)) && !HasUsername(r.store, target)
    ensures faults.onRead.None? && faults.onWrite.Some? && Check(p, target) == Granted && HasUsername(s, target) ==>
      r == Step(CatchFailure(faults.onWrite.value), s, [DeleteCall(FindByUsername(s, target).value.id)])
  {
    match LookupByUsername(s, target, faults.onRead)
    case Failure(f) => Step(CatchFailure(f), s, [])
    case Success(userToDelete) =>
      match Check(p, target)
      case Refused => Step(Respond(Unauthorized, Text(DeleteRefused)), s, [])
      case NullRole => Step(CatchFailure(OtherException), s, [])
      case Granted => Catch(HandleUserDeletion(s, userToDelete, faults.onWrite), s)
  }

  /**
   * The part of `handleUserUpdate` after the password is encoded: the
   * owner-or-admin rule (outside any `try`, so a missing role escapes),
   * then `updateUserInfo`, then 200 or 404 by the affected-row count.
   */
  function ApplyUserUpdate(s: Store, p: Principal, name: string, fields: User, query: UpdateQuery): (r: Step)
    ensures Check(p, name) != Granted ==> r.store == s && r.writes == []
    ensures Check(p, name) == NullRole ==> r.reply == Uncaught
    ensures Check(p, name) == Refused ==> r.reply == Respond(Unauthorized, Text(UpdateRefused))
    ensures Check(p, name) == Granted ==> r.writes == [UpdateCall(UserUpdate(name, fields))]
    ensures Check(p, name) == Granted && query(s, UserUpdate(name, fields)).Failure? ==>
      r.reply == CatchFailure(query(s, UserUpdate(name, fields)).error) && r.store == s
    ensures Check(p, name) == Granted && query(s, UserUpdate(name, fields)).Success? ==>
      && r.store == query(s, UserUpdate(name, fields)).value.after
      && (r.reply == Respond(Ok, Text(UserUpdated)) <==> query(s, UserUpdate(name, fields)).value.affectedRows > 0)
      && (r.reply == Respond(NotFound, Text(UserNotFound)) <==> query(s, UserUpdate(name, fields)).value.affectedRows <= 0)
  {
    match Check(p, name)
    case NullRole => Step(Uncaught, s, [])
    case Refused => Step(Respond(Unauthorized, Text(UpdateRefused)), s, [])
    case Granted =>
      var call := UserUpdate(name, fields);
      match query(s, call)
      case Failure(f) => Step(CatchFailure(f), s, [UpdateCall(call)])
      case Success(rep) =>
        if rep.affectedRows > 0 then Step(Respond(Ok, Text(UserUpdated)), rep.after, [UpdateCall(call)])
        else Step(Respond(NotFound, Text(UserNotFound)), rep.after, [UpdateCall(call)])
  }

  /** `PUT /updateUser/{name}` (`handleUserUpdate`): the submitted password is encoded before the update. */
  function HandleUserUpdate(s: Store, p: Principal, name: string, updated: User, hash: Hasher, query: UpdateQuery): (r: Step)
    ensures Check(p, name) != Granted ==> r.store == s && r.writes == []
    ensures Check(p, name) == Granted ==>
      r.writes == [UpdateCall(UserUpdate(name, updated.(password := hash(updated.password))))]
    ensures r.reply.Respond? && r.reply.status == Ok ==> Check(p, name) == Granted
  {
    ApplyUserUpdate(s, p, name, updated.(password := hash(updated.password)), query)
  }

  /** A refused or failing update gives the same answer whatever the update query would do. */
  lemma RefusedUpdateIgnoresQuery(s: Store, p: Principal, name: string, updated: User, hash: Hasher, q1: UpdateQuery, q2: UpdateQuery)
    requires Check(p, name) != Granted
    ensures HandleUserUpdate(s, p, name, updated, hash, q1) == HandleUserUpdate(s, p, name, updated, hash, q2)
  {
  }

  /**
   * `POST /register` (`handleUserCreation`): a non-empty error list is the
   * 400 body and nothing is written; otherwise the password is encoded and
   * the user saved under the id the database generates, which is fresh.
   */
  function HandleUserCreation(s: Store, user: User, errors: seq<string>, hash: Hasher, newId: Uuid, onWrite: Option<Failure>): (r: Step)
    requires Valid(s)
    requires newId !in s.rows
    ensures Valid(r.store) && r.reply.Respond?
    ensures errors != [] ==> r == Step(Respond(BadRequest, Errors(errors)), s, [])
    ensures errors == [] ==> r.writes == [CreateCall(user.(id := newId, password := hash(user.password)))]
    ensures r.store != s ==>
      && errors == []
      && r.reply == Respond(Ok, Text(UserRegistered))
      && r.store.rows == s.rows[newId := user.(id := newId, password := hash(user.password))]
    ensures errors == [] && onWrite.Some? ==> r.reply == CatchFailure(onWrite.value) && r.store == s
    ensures errors == [] && onWrite.None? ==>
      (r.reply == Respond(Ok, Text(UserRegistered)) <==> !Clashes(s, user.(id := newId)))
  {
    if errors != [] then Step(Respond(BadRequest, Errors(errors)), s, [])
    else
      var stored := user.(id := newId, password := hash(user.password));
      var flow :=
        if onWrite.Some? then Raised(onWrite.value, [CreateCall(stored)])
        else match Insert(s, stored)
          case None => Raised(OtherException, [CreateCall(stored)])
          case Some(s') => Returned(Step(Respond(Ok, Text(UserRegistered)), s', [CreateCall(stored)]));
      Catch(flow, s)
  }

  /** After a registration the new user is found by name and by email, with the encoded password. */
  lemma RegisteredUserIsFound(s: Store, user: User, hash: Hasher, newId: Uuid)
    requires Valid(s)
    requires !Clashes(s, user.(id := newId))
    ensures FindByUsername(HandleUserCreation(s, user, [], hash, newId, None).store, user.username)
      == Some(user.(id := newId, password := hash(user.password)))
    ensures FindByEmail(HandleUserCreation(s, user, [], hash, newId, None).store, user.email)
      == Some(user.(id := newId, password := hash(user.password)))
    ensures GetUserRole(HandleUserCreation(s, user, [], hash, newId, None).store, user.username) == user.role
  {
  }

  /** Registering a user and then deleting it by name as that user restores the table. */
  lemma RegisterThenDeleteRestores(s: Store, user: User, hash: Hasher, newId: Uuid)
    requires Valid(s)
    requires !Clashes(s, user.(id := newId))
    ensures DeleteUserByName(
        HandleUserCreation(s, user, [], hash, newId, None).store,
        Principal(Some(user.username), None), user.username, NoFaults).store.rows
      == s.rows
  {
  }

  /** `POST /uploadImage/{username}` as written: the stored user goes through `handleUserUpdate`. */
  function UploadUserImage(s: Store, p: Principal, username: string, file: Upload, ioFailure: bool, hash: Hasher, query: UpdateQuery): (r: Step)
    requires Valid(s)
    ensures (file.NoPart? || file.size == 0) ==> r == Step(Respond(BadRequest, Text(SelectFile)), s, [])
    ensures file.File? && file.size > 0 && ioFailure ==> r == Step(Respond(InternalServerError, Text(UploadFailed)), s, [])
    ensures file.File? && file.size > 0 && !ioFailure && !HasUsername(s, username) ==> r == Step(Uncaught, s, [])
    ensures file.File? && file.size > 0 && !ioFailure && HasUsername(s, username) && Check(p, username) == Granted ==>
      r.writes == [UpdateCall(UserUpdate(username,
        FindByUsername(s, username).value.(profilePicture := file.originalName,
                                           password := hash(FindByUsername(s, username).value.password))))]
    ensures file.File? && file.size > 0 && !ioFailure && HasUsername(s, username) && Check(p, username) != Granted ==>
      r.writes == [] && r.store == s
    ensures file.File? && file.size > 0 && !ioFailure && HasUsername(s, username) && Check(p, username) == Refused ==>
      r.reply == Respond(Unauthorized, Text(UpdateRefused))
    ensures file.File? && file.size > 0 && !ioFailure && HasUsername(s, username) && Check(p, username) == NullRole ==>
      r.reply == Uncaught
  {
    if file.NoPart? || file.size == 0 then Step(Respond(BadRequest, Text(SelectFile)), s, [])
    else if ioFailure then Step(Respond(InternalServerError, Text(UploadFailed)), s, [])
    else
      match FindByUsername(s, username)
      case None => Step(Uncaught, s, [])
      case Some(u) => HandleUserUpdate(s, p, username, u.(profilePicture := file.originalName), hash, query)
  }

  /** `POST /uploadImage/{username}` as intended: only the picture changes; the stored hash is kept. */
  function UploadUserImageIntended(s: Store, p: Principal, username: string, file: Upload, ioFailure: bool, query: UpdateQuery): (r: Step)
    requires Valid(s)
    ensures (file.NoPart? || file.size == 0) ==> r == Step(Respond(BadRequest, Text(SelectFile)), s, [])
    ensures file.File? && file.size > 0 && ioFailure ==> r == Step(Respond(InternalServerError, Text(UploadFailed)), s, [])
    ensures file.File? && file.size > 0 && !ioFailure && !HasUsername(s, username) ==> r == Step(Uncaught, s, [])
    ensures file.File? && file.size > 0 && !ioFailure && Check(p, username) == Granted ==>
      forall id :: id in s.rows && s.rows[id].username == username ==>
        r.writes == [UpdateCall(UserUpdate(username, s.rows[id].(profilePicture := file.originalName)))]
    ensures file.File? && file.size > 0 && !ioFailure && HasUsername(s, username) && Check(p, username) != Granted ==>
      r.writes == [] && r.store == s
    ensures file.File? && file.size > 0 && !ioFailure && HasUsername(s, username) && Check(p, username) == Refused ==>
      r.reply == Respond(Unauthorized, Text(UpdateRefused))
    ensures file.File? && file.size > 0 && !ioFailure && HasUsername(s, username) && Check(p, username) == NullRole ==>
      r.reply == Uncaught
  {
    if file.NoPart? || file.size == 0 then Step(Respond(BadRequest, Text(SelectFile)), s, [])
    else if ioFailure then Step(Respond(InternalServerError, Text(UploadFailed)), s, [])
    else
      match FindByUsername(s, username)
      case None => Step(Uncaught, s, [])
      case Some(u) => ApplyUserUpdate(s, p, username, u.(profilePicture := file.originalName), query)
  }

  /** An upload of a non-empty file for a present user answers exactly what `handleUserUpdate` answers for the stored user with the new picture. */
  lemma UploadUserImageIsUpdate(s: Store, p: Principal, username: string, name: string, size: nat, hash: Hasher, query: UpdateQuery)
    requires Valid(s) && HasUsername(s, username) && size > 0
    ensures UploadUserImage(s, p, username, File(name, size), false, hash, query)
      == HandleUserUpdate(s, p, username, FindByUsername(s, username).value.(profilePicture := name), hash, query)
  {
  }

  /** The intended upload answers exactly what the update answers for the stored user, hash unchanged, with the new picture. */
  lemma UploadUserImageIntendedIsUpdate(s: Store, p: Principal, username: string, name: string, size: nat, query: UpdateQuery)
    requires Valid(s) && HasUsername(s, username) && size > 0
    ensures UploadUserImageIntended(s, p, username, File(name, size), false, query)
      == ApplyUserUpdate(s, p, username, FindByUsername(s, username).value.(profilePicture := name), query)
  {
  }

  /**
   * A concrete case: with the encoder `x => "$2a$" + x` and a stored hash
   * "$2a$pw", the upload as written hands "$2a$$2a$pw" to `updateUserInfo`,
   * so the password "pw" no longer matches; the intended upload keeps "$2a$pw".
   */
  lemma UploadRehashesStoredPassword(query: UpdateQuery)
    ensures
      var alice := User(1, "alice", "$2a$pw", "ROLE_user", "alice@example.com", "");
      var s := Store(map[1 := alice], map["alice" := 1], map["alice@example.com" := 1]);
      var p := Principal(Some("alice"), Some("ROLE_user"));
      var file := File("me.png", 42);
      && UploadUserImage(s, p, "alice", file, false, x => "$2a$" + x, query).writes
           == [UpdateCall(UserUpdate("alice", alice.(profilePicture := "me.png", password := "$2a$$2a$pw")))]
      && UploadUserImageIntended(s, p, "alice", file, false, query).writes
           == [UpdateCall(UserUpdate("alice", alice.(profilePicture := "me.png")))]
  {
    var alice := User(1, "alice", "$2a$pw", "ROLE_user", "alice@example.com", "");
    var s := Store(map[1 := alice], map["alice" := 1], map["alice@example.com" := 1]);
    assert Valid(s);
    assert FindByUsername(s, "alice") == Some(alice);
    var hash: Hasher := x => "$2a$" + x;
    assert hash(alice.password) == "$2a$$2a$pw";
  }
}
