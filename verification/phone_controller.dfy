/**
 * The decisions of `PhoneController`. None of its handlers has a `try`, so
 * every raised failure escapes as `Uncaught`; `PhoneService.getPhone` raises
 * on a missing id (`orElseThrow`).
 */
module PhoneController {
  import opened Wrappers
  import opened Entities
  import opened Http

  const PhoneNotFound: string := "Phone not found"
  const PhoneDeleted: string := "Phone deleted successfully"
  const PhoneUpdated: string := "Phone info has been updated successfully"
  const UploadDirectory: string := "uploads"

  /** The phone table, keyed by id. */
  type PhoneStore = map<Uuid, Phone>

  predicate Valid(s: PhoneStore) {
    forall id :: id in s ==> s[id].id == id
  }

  /**
   * The arguments `handlePhoneUpdate` passes to `updatePhoneInfo` (the two
   * float arguments are left out). The picture is not among them.
   */
  datatype PhoneUpdate = PhoneUpdate(id: Uuid, name: string, description: string, memory: int, battery: int)

  /** What `updatePhoneInfo` reports: the affected-row count and the table afterwards. */
  datatype PhoneUpdateReply = PhoneUpdateReply(affectedRows: int, after: PhoneStore)

  /** `updatePhoneInfo`, whose query is not part of this model. */
  type PhoneUpdateQuery = (PhoneStore, PhoneUpdate) -> Result<PhoneUpdateReply, Failure>

  /** A write handed to the repository. */
  datatype PhoneWrite = PhoneDeleteCall(id: Uuid) | PhoneUpdateCall(update: PhoneUpdate)

  datatype PhoneStep = PhoneStep(reply: Reply, store: PhoneStore, writes: seq<PhoneWrite>)

  /** `handlePhoneDeletion`: 404 for a null phone, otherwise delete that phone's id. */
  function HandlePhoneDeletion(s: PhoneStore, target: Option<Phone>, onWrite: Option<Failure>): (r: PhoneStep)
    requires Valid(s)
    ensures Valid(r.store)
    ensures target.None? ==> r == PhoneStep(Respond(NotFound, Text(PhoneNotFound)), s, [])
    ensures target.Some? ==> r.writes == [PhoneDeleteCall(target.value.id)]
    ensures target.Some? && onWrite.Some? ==> r.reply == Uncaught && r.store == s
    ensures target.Some? && onWrite.None? ==>
      r.reply == Respond(Ok, Text(PhoneDeleted)) && r.store == s - {target.value.id}
  {
    match target
    case None => PhoneStep(Respond(NotFound, Text(PhoneNotFound)), s, [])
    case Some(p) =>
      if onWrite.Some? then PhoneStep(Uncaught, s, [PhoneDeleteCall(p.id)])
      else PhoneStep(Respond(Ok, Text(PhoneDeleted)), s - {p.id}, [PhoneDeleteCall(p.id)])
  }

  /**
   * `DELETE /deletePhone/{id}`: `getPhone` raises on a missing id, so the
   * null branch of `handlePhoneDeletion` is not reached from here.
   */
  function DeletePhone(s: PhoneStore, id: Uuid, faults: Faults): (r: PhoneStep)
    requires Valid(s)
    ensures Valid(r.store)
    ensures r.reply.Respond? ==> r.reply == Respond(Ok, Text(PhoneDeleted))
    ensures (faults.onRead.Some? || id !in s) ==> r == PhoneStep(Uncaught, s, [])
    ensures faults.onRead.None? && faults.onWrite.None? && id in s ==>
      r.reply == Respond(Ok, Text(PhoneDeleted)) && r.store == s - {id}
    ensures r.store == s || r.store == s - {id}
  {
    if faults.onRead.Some? || id !in s then PhoneStep(Uncaught, s, [])
    else HandlePhoneDeletion(s, Some(s[id]), faults.onWrite)
  }

  /** Deleting the same phone twice: the second request raises instead of answering 404. */
  lemma DeletePhoneTwice(s: PhoneStore, id: Uuid)
    requires Valid(s) && id in s
    ensures DeletePhone(s, id, NoFaults).reply == Respond(Ok, Text(PhoneDeleted))
    ensures id !in DeletePhone(s, id, NoFaults).store
    ensures DeletePhone(DeletePhone(s, id, NoFaults).store, id, NoFaults).reply == Uncaught
  {
  }

  /** The update call `handlePhoneUpdate` builds from the path id and the submitted phone. */
  function UpdateArguments(id: Uuid, updated: Phone): PhoneUpdate {
    PhoneUpdate(id, updated.name, updated.description, updated.memory, updated.battery)
  }

  /** `PUT /updatePhone/{id}` (`handlePhoneUpdate`): 200 iff the update reports an affected row. */
  function HandlePhoneUpdate(s: PhoneStore, id: Uuid, updated: Phone, query: PhoneUpdateQuery): (r: PhoneStep)
    ensures r.writes == [PhoneUpdateCall(PhoneUpdate(id, updated.name, updated.description, updated.memory, updated.battery))]
    ensures query(s, UpdateArguments(id, updated)).Failure? ==> r.reply == Uncaught && r.store == s
    ensures query(s, UpdateArguments(id, updated)).Success? ==>
      && r.store == query(s, UpdateArguments(id, updated)).value.after
      && (r.reply == Respond(Ok, Text(PhoneUpdated)) <==> query(s, UpdateArguments(id, updated)).value.affectedRows > 0)
      && (r.reply == Respond(NotFound, Text(PhoneNotFound)) <==> query(s, UpdateArguments(id, updated)).value.affectedRows <= 0)
  {
    var call := UpdateArguments(id, updated);
    match query(s, call)
    case Failure(_) => PhoneStep(Uncaught, s, [PhoneUpdateCall(call)])
    case Success(rep) =>
      if rep.affectedRows > 0 then PhoneStep(Respond(Ok, Text(PhoneUpdated)), rep.after, [PhoneUpdateCall(call)])
      else PhoneStep(Respond(NotFound, Text(PhoneNotFound)), rep.after, [PhoneUpdateCall(call)])
  }

  /**
   * `POST /phones/upload/{id}`: an empty file is refused before any store
   * access; a null part raises on `file.isEmpty()`; an I/O failure returns
   * `null`; otherwise the stored phone, with its picture set to the saved
   * path, goes through `handlePhoneUpdate`.
   */
  function UploadPhoneImage(s: PhoneStore, id: Uuid, file: Upload, ioFailure: bool, query: PhoneUpdateQuery): (r: PhoneStep)
    requires Valid(s)
    ensures file.NoPart? ==> r == PhoneStep(Uncaught, s, [])
    ensures file.File? && file.size == 0 ==> r == PhoneStep(Respond(BadRequest, Text(SelectFile)), s, [])
    ensures file.File? && file.size > 0 && ioFailure ==> r == PhoneStep(NullReply, s, [])
    ensures file.File? && file.size > 0 && !ioFailure && id !in s ==> r == PhoneStep(Uncaught, s, [])
    ensures file.File? && file.size > 0 && !ioFailure && id in s ==> r.writes == [PhoneUpdateCall(UpdateArguments(id, s[id]))]
  {
    match file
    case NoPart => PhoneStep(Uncaught, s, [])
    case File(name, size) =>
      if size == 0 then PhoneStep(Respond(BadRequest, Text(SelectFile)), s, [])
      else if ioFailure then PhoneStep(NullReply, s, [])
      else if id !in s then PhoneStep(Uncaught, s, [])
      else HandlePhoneUpdate(s, id, s[id].(picture := UploadDirectory + "/" + name), query)
  }

  /**
   * The uploaded file's name never reaches `updatePhoneInfo`: two uploads
   * differing only in the file behave alike. This holds of the call as
   * written, which passes 7 arguments to a service method taking 8 (the
   * last being the image), so the source does not compile as shown and
   * this is not settled program behaviour.
   */
  lemma UploadedPictureNotForwarded(s: PhoneStore, id: Uuid, name1: string, name2: string, size: nat, query: PhoneUpdateQuery)
    requires Valid(s) && size > 0
    ensures UploadPhoneImage(s, id, File(name1, size), false, query) == UploadPhoneImage(s, id, File(name2, size), false, query)
  {
  }

  /** When the update query succeeds, the reply depends on it only through the sign of its affected-row count. */
  lemma UpdateReplyFollowsCount(s: PhoneStore, id: Uuid, updated: Phone, q1: PhoneUpdateQuery, q2: PhoneUpdateQuery)
    requires q1(s, UpdateArguments(id, updated)).Success? && q2(s, UpdateArguments(id, updated)).Success?
    requires (q1(s, UpdateArguments(id, updated)).value.affectedRows > 0) == (q2(s, UpdateArguments(id, updated)).value.affectedRows > 0)
    ensures HandlePhoneUpdate(s, id, updated, q1).reply == HandlePhoneUpdate(s, id, updated, q2).reply
    ensures HandlePhoneUpdate(s, id, updated, q1).writes == HandlePhoneUpdate(s, id, updated, q2).writes
  {
  }

  /** A successful upload to a present phone answers exactly what an update with the stored phone answers. */
  lemma UploadIsUpdateOfStoredPhone(s: PhoneStore, id: Uuid, name: string, size: nat, query: PhoneUpdateQuery)
    requires Valid(s) && id in s && size > 0
    ensures UploadPhoneImage(s, id, File(name, size), false, query) == HandlePhoneUpdate(s, id, s[id], query)
  {
  }

}
