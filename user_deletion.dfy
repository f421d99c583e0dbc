/**
 * Deleting a user, with the save outcome taken from the User service's
 * context rather than left free. `User` is `ICanBeSoftDeleted`, so
 * `Remove(user)` leaves one soft deletion in the change tracker, and the
 * context's pre-save pass as written throws on it before anything is sent:
 * the `DeleteUser` handler then always answers the unexpected error for a
 * present user, and a deletion saga never ends well. With the corrected
 * pre-save pass, both succeed.
 */
module UserDeletion {
  import opened Common
  import opened Linq
  import opened Persistence
  import opened UserStore
  import opened UserCommands
  import Saga

  /** The tracker entry `Remove(user)` leaves for a loaded user: deleted, soft-deletable, without user data. */
  function RemovedUser(userId: Guid): (e: TrackedEntry)
    ensures IsSoftDeletion(e) && !NeedsUserData(e) && e.key == userId
  {
    TrackedEntry(userId, Deleted, true, false, false, None, None)
  }

  /** How a handler sees a save: it returned, or it threw `message`. */
  function Outcome(sent: Option<seq<Command>>, message: string): (r: SaveResult)
    ensures r.Saved? <==> sent.Some?
    ensures sent.None? ==> r == SaveThrew(message)
  {
    if sent.Some? then Saved else SaveThrew(message)
  }

  /**
   * Whoever is signed in, the save of a removed user throws as written, and
   * the corrected save sends one update that keeps the row with its flag set.
   */
  lemma RemovalSave(userId: Guid, signedIn: Option<string>)
    ensures SaveAsWritten([RemovedUser(userId)], signedIn) == None
    ensures Commands(Prepared([RemovedUser(userId)], signedIn)) ==
      [Update(RemovedUser(userId).(isDeleted := true, state := Modified))]
  {
    var e := RemovedUser(userId);
    SoftDeleteOfOneEntity(e, signedIn);
    assert Prepared([e], signedIn) == SoftDeleted([e]);
  }

  /**
   * `DeleteUser` for a user who is present: as written the save throws and
   * the answer is the unexpected error with nothing removed; with the
   * corrected save the user is removed.
   */
  lemma DeleteUserThrowsAsWritten(users: seq<User>, userId: Option<Guid>, signedIn: Option<string>, message: string)
    requires userId.Some? && userId.value != EmptyGuid
    requires SingleWhere(users, IsUser(userId)).Match?
    ensures var save := Outcome(SaveAsWritten([RemovedUser(userId.value)], signedIn), message);
      DeleteUser(users, userId, save) == CommandState(Err(UnexpectedError(DeleteUnexpected)), users)
    ensures var save := Outcome(Some(Commands(Prepared([RemovedUser(userId.value)], signedIn))), message);
      DeleteUser(users, userId, save) ==
        CommandState(Ok(()), Where(users, (u: User) => Some(u.id) != userId))
  {
    RemovalSave(userId.value, signedIn);
  }

  /**
   * The whole deletion saga for a user who is present, with the save of
   * `DeleteUserDataAsync` taken from the context. As written the save
   * throws: the user stays and the caller gets `false` at the timeout. With
   * the corrected save the saga answers `true` and the user is gone.
   */
  lemma SagaOutcomeFollowsSave(s: Saga.UserSide, sagaId: string, userId: Guid, hasDocuments: bool, signedIn: Option<string>)
    requires sagaId !in s.completed && userId in s.users
    ensures var saveOk := SaveAsWritten([RemovedUser(userId)], signedIn).Some?;
      var s1 := Saga.Start(s, sagaId, userId);
      var ack := Saga.DocumentReply(s1.published[|s1.published| - 1].message, hasDocuments, false)[0].message;
      var s2 := Saga.Receive(s1, ack, saveOk);
      var done := Saga.DocumentReply(s2.published[|s2.published| - 1].message, hasDocuments, false)[0].message;
      var s3 := Saga.Receive(s2, done, saveOk);
      var (s4, result) := Saga.Await(s3, sagaId);
      !result && s4.users == s.users && sagaId !in s4.sagas
    ensures var saveOk := Some(Commands(Prepared([RemovedUser(userId)], signedIn))).Some?;
      var s1 := Saga.Start(s, sagaId, userId);
      var ack := Saga.DocumentReply(s1.published[|s1.published| - 1].message, hasDocuments, false)[0].message;
      var s2 := Saga.Receive(s1, ack, saveOk);
      var done := Saga.DocumentReply(s2.published[|s2.published| - 1].message, hasDocuments, false)[0].message;
      var s3 := Saga.Receive(s2, done, saveOk);
      var (s4, result) := Saga.Await(s3, sagaId);
      result && s4.users == s.users - {userId} && sagaId !in s4.sagas
  {
    RemovalSave(userId, signedIn);
    Saga.HappyPath(s, sagaId, userId, hasDocuments);
    var s1 := Saga.Start(s, sagaId, userId);
    var ack := Saga.DocumentReply(s1.published[|s1.published| - 1].message, hasDocuments, false)[0].message;
    assert ack == Saga.SagaMessage(sagaId, Saga.PrepareDeleteAcknowledged, userId);
    var s2 := Saga.Receive(s1, ack, false);
    var done := Saga.DocumentReply(s2.published[|s2.published| - 1].message, hasDocuments, false)[0].message;
    assert done == Saga.SagaMessage(sagaId, Saga.DeleteSucceeded, userId);
    Saga.FailedSaveEndsByTimeout(s2, done);
  }
}
