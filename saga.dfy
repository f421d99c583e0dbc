/**
 * The user-deletion saga between the User and the Document services. The
 * User side (`UserApiSaga`) keeps a map of running sagas, publishes the
 * commands and completes each saga once; the Document side
 * (`DocumentApiSaga`) answers each command with one reply. Message order
 * on the queues and the 15-second timer are the caller's choice of calls.
 */
module Saga {
  import opened Common

  const UserToDocumentQueue: string := "user_to_document_queue"
  const DocumentToUserQueue: string := "document_to_user_queue"

  const PrepareDeleteCommand: string := "PrepareDeleteCommand"
  const DeleteCommand: string := "DeleteCommand"
  const PrepareDeleteAcknowledged: string := "PrepareDeleteAcknowledged"
  const DeleteSucceeded: string := "DeleteSucceeded"
  const DeleteFailed: string := "DeleteFailed"

  /** A `SagaMessage`: its saga id, its type and the `UserId` of its payload. */
  datatype SagaMessage = SagaMessage(sagaId: string, msgType: string, userId: Guid)

  /** A message published on a queue. */
  datatype Published = Published(queue: string, message: SagaMessage)

  // ---------------------------------------------------------------- Document side

  /**
   * What `DocumentApiSaga.OnUserMessageReceivedAsync` publishes for `m`.
   * `hasDocuments` is the answer of the existence query, which only gets logged;
   * `deleteFailed` is whether the deletion command answered with an error.
   */
  function DocumentReply(m: SagaMessage, hasDocuments: bool, deleteFailed: bool): (r: seq<Published>)
    ensures |r| <= 1
    ensures r != [] <==> m.msgType == PrepareDeleteCommand || m.msgType == DeleteCommand
    ensures r != [] ==> (r[0].queue == DocumentToUserQueue &&
      r[0].message.sagaId == m.sagaId && r[0].message.userId == m.userId)
    ensures m.msgType == PrepareDeleteCommand ==> r[0].message.msgType == PrepareDeleteAcknowledged
    ensures m.msgType == DeleteCommand ==>
      r[0].message.msgType == (if deleteFailed then DeleteFailed else DeleteSucceeded)
  {
    if m.msgType == PrepareDeleteCommand then
      [Published(DocumentToUserQueue, SagaMessage(m.sagaId, PrepareDeleteAcknowledged, m.userId))]
    else if m.msgType == DeleteCommand then
      [Published(DocumentToUserQueue, SagaMessage(m.sagaId, if deleteFailed then DeleteFailed else DeleteSucceeded, m.userId))]
    else []
  }

  /** A prepare command is acknowledged whether or not the user has documents. */
  lemma PrepareIgnoresExistence(m: SagaMessage, deleteFailed: bool)
    ensures DocumentReply(m, true, deleteFailed) == DocumentReply(m, false, deleteFailed)
  {
  }

  class DocumentApiSaga {
    var published: seq<Published>

    constructor ()
      ensures published == []
    {
      published := [];
    }

    /** `OnUserMessageReceivedAsync`, with `HandlePrepareDeleteAsync` and `HandleDeleteAsync`. */
    method OnUserMessageReceived(m: SagaMessage, hasDocuments: bool, deleteFailed: bool)
      modifies this
      ensures published == old(published) + DocumentReply(m, hasDocuments, deleteFailed)
    {
      if m.msgType == PrepareDeleteCommand {
        var ack := SagaMessage(m.sagaId, PrepareDeleteAcknowledged, m.userId);
        published := published + [Published(DocumentToUserQueue, ack)];
      } else if m.msgType == DeleteCommand {
        var response := SagaMessage(m.sagaId, if deleteFailed then DeleteFailed else DeleteSucceeded, m.userId);
        published := published + [Published(DocumentToUserQueue, response)];
      }
    }
  }

  // ---------------------------------------------------------------- User side

  /**
   * The User side's state: the running sagas and the user each deletes, the
   * messages published, the ids of the users in the database, and the
   * result each saga's completion source was set to.
   */
  datatype UserSide = UserSide(sagas: map<string, Guid>, published: seq<Published>,
                               users: set<Guid>, completed: map<string, bool>)

  /** `TrySetResult`: only the first result sticks. */
  function Complete(completed: map<string, bool>, sagaId: string, result: bool): (r: map<string, bool>)
    ensures sagaId in r && r[sagaId] == (if sagaId in completed then completed[sagaId] else result)
    ensures forall k :: k != sagaId ==> (k in r <==> k in completed) && (k in r ==> r[k] == completed[k])
  {
    if sagaId in completed then completed else completed[sagaId := result]
  }

  /** The start of `StartDeleteSagaAsync`: the saga is registered and the prepare command published. */
  function Start(s: UserSide, sagaId: string, userId: Guid): (r: UserSide)
    ensures r.sagas == s.sagas[sagaId := userId]
    ensures r.published == s.published + [Published(UserToDocumentQueue, SagaMessage(sagaId, PrepareDeleteCommand, userId))]
    ensures r.users == s.users && r.completed == s.completed
  {
    s.(sagas := s.sagas[sagaId := userId],
       published := s.published + [Published(UserToDocumentQueue, SagaMessage(sagaId, PrepareDeleteCommand, userId))])
  }

  /**
   * The end of `StartDeleteSagaAsync`, once the saga completed or the timeout
   * fired: the completion's result, or `false` after removing the saga.
   */
  function Await(s: UserSide, sagaId: string): (UserSide, bool) {
    if sagaId in s.completed then (s, s.completed[sagaId])
    else (s.(sagas := s.sagas - {sagaId}), false)
  }

  /**
   * `DeleteUserDataAsync` on the users in the database: the user is removed
   * when present, and the save only runs then. `saveOk` is whether that
   * `SaveChangesAsync` returned; when it throws, nothing is removed and the
   * exception escapes to the caller.
   */
  function RemoveUser(users: set<Guid>, userId: Guid, saveOk: bool): (r: (set<Guid>, bool))
    ensures r.1 <==> userId !in users || saveOk
    ensures r.1 ==> r.0 == users - {userId}
    ensures !r.1 ==> r.0 == users
  {
    if userId !in users then (users, true)
    else if saveOk then (users - {userId}, true)
    else (users, false)
  }

  /**
   * `OnDocumentMessageReceivedAsync`. `saveOk` is the outcome of the user's
   * save on a `DeleteSucceeded`; a save that throws leaves the handler before
   * the saga is completed or removed.
   */
  function Receive(s: UserSide, m: SagaMessage, saveOk: bool): UserSide {
    if m.sagaId !in s.sagas then s
    else
      var userId := s.sagas[m.sagaId];
      if m.msgType == PrepareDeleteAcknowledged then
        s.(published := s.published + [Published(UserToDocumentQueue, SagaMessage(m.sagaId, DeleteCommand, userId))])
      else if m.msgType == DeleteSucceeded then
        var (users, ok) := RemoveUser(s.users, userId, saveOk);
        if !ok then s
        else
          s.(users := users, completed := Complete(s.completed, m.sagaId, true),
             sagas := s.sagas - {m.sagaId})
      else if m.msgType == DeleteFailed then
        s.(completed := Complete(s.completed, m.sagaId, false), sagas := s.sagas - {m.sagaId})
      else s
  }

  /**
   * A message for no running saga changes nothing. A prepare acknowledgement
   * sends the delete command for the saga's own user and keeps the saga; a
   * success whose save goes through (or that finds no user to save) deletes
   * that user, completes with `true` and ends the saga; a success whose save
   * throws changes nothing at all; a failure completes with `false`, ends the
   * saga and keeps the user. The user id the message carries is never used.
   */
  lemma ReceiveCases(s: UserSide, m: SagaMessage, saveOk: bool)
    ensures var r := Receive(s, m, saveOk);
      (m.sagaId !in s.sagas ==> r == s) &&
      (m.sagaId in s.sagas && m.msgType == PrepareDeleteAcknowledged ==>
        r.published == s.published + [Published(UserToDocumentQueue, SagaMessage(m.sagaId, DeleteCommand, s.sagas[m.sagaId]))] &&
        r.sagas == s.sagas && r.users == s.users && r.completed == s.completed) &&
      (m.sagaId in s.sagas && m.msgType == DeleteSucceeded && (saveOk || s.sagas[m.sagaId] !in s.users) ==>
        r.users == s.users - {s.sagas[m.sagaId]} && m.sagaId !in r.sagas && r.published == s.published &&
        (m.sagaId !in s.completed ==> r.completed == s.completed[m.sagaId := true])) &&
      (m.sagaId in s.sagas && m.msgType == DeleteSucceeded && !saveOk && s.sagas[m.sagaId] in s.users ==>
        r == s) &&
      (m.sagaId in s.sagas && m.msgType == DeleteFailed ==>
        r.users == s.users && m.sagaId !in r.sagas && r.published == s.published &&
        (m.sagaId !in s.completed ==> r.completed == s.completed[m.sagaId := false])) &&
      Receive(s, m.(userId := EmptyGuid), saveOk) == r
  {
  }

  /**
   * When the user's save throws on a `DeleteSucceeded`, the user stays, the
   * saga stays registered and uncompleted, and the waiting caller gets
   * `false` at the timeout, with the user still in the database.
   */
  lemma FailedSaveEndsByTimeout(s: UserSide, m: SagaMessage)
    requires m.sagaId in s.sagas && m.msgType == DeleteSucceeded
    requires s.sagas[m.sagaId] in s.users && m.sagaId !in s.completed
    ensures var r := Receive(s, m, false);
      r.users == s.users && m.sagaId in r.sagas && m.sagaId !in r.completed &&
      var (s', result) := Await(r, m.sagaId);
      !result && s.sagas[m.sagaId] in s'.users && m.sagaId !in s'.sagas
  {
  }

  /**
   * A saga that ended (a failure, or a success whose save went through)
   * ignores every later message: it completes at most once.
   */
  lemma EndedSagaIgnoresMessages(s: UserSide, m: SagaMessage, later: SagaMessage, saveOk: bool, laterSaveOk: bool)
    requires m.msgType == DeleteFailed ||
      (m.msgType == DeleteSucceeded && (saveOk || m.sagaId !in s.sagas || s.sagas[m.sagaId] !in s.users))
    requires later.sagaId == m.sagaId
    ensures Receive(Receive(s, m, saveOk), later, laterSaveOk) == Receive(s, m, saveOk)
  {
  }

  /** A timed-out saga answers `false`, is no longer running, and ignores the late replies. */
  lemma TimeoutEndsSaga(s: UserSide, sagaId: string, late: SagaMessage, saveOk: bool)
    requires sagaId !in s.completed
    requires late.sagaId == sagaId
    ensures var (s', result) := Await(s, sagaId);
      !result && sagaId !in s'.sagas && s'.users == s.users && Receive(s', late, saveOk) == s'
  {
  }

  /**
   * The whole exchange, when both services answer in turn and the documents
   * and the user's save are done: the user is gone, the saga answers `true` and is no longer
   * running, and four messages were published, alternating between queues.
   */
  lemma HappyPath(s: UserSide, sagaId: string, userId: Guid, hasDocuments: bool)
    requires sagaId !in s.completed
    ensures var s1 := Start(s, sagaId, userId);
      var ack := DocumentReply(s1.published[|s1.published| - 1].message, hasDocuments, false)[0].message;
      var s2 := Receive(s1, ack, true);
      var done := DocumentReply(s2.published[|s2.published| - 1].message, hasDocuments, false)[0].message;
      var s3 := Receive(s2, done, true);
      var (s4, result) := Await(s3, sagaId);
      result && userId !in s4.users && s4.users == s.users - {userId} && sagaId !in s4.sagas &&
      s4.published == s.published + [
        Published(UserToDocumentQueue, SagaMessage(sagaId, PrepareDeleteCommand, userId)),
        Published(UserToDocumentQueue, SagaMessage(sagaId, DeleteCommand, userId))]
  {
    var s1 := Start(s, sagaId, userId);
    var ack := DocumentReply(s1.published[|s1.published| - 1].message, hasDocuments, false)[0].message;
    assert ack == SagaMessage(sagaId, PrepareDeleteAcknowledged, userId);
    var s2 := Receive(s1, ack, true);
    var done := DocumentReply(s2.published[|s2.published| - 1].message, hasDocuments, false)[0].message;
    assert done == SagaMessage(sagaId, DeleteSucceeded, userId);
  }

  /** Deleting a user who is not in the database changes nothing but the saga's own state. */
  lemma AbsentUserUnchanged(s: UserSide, m: SagaMessage, saveOk: bool)
    requires m.sagaId in s.sagas && s.sagas[m.sagaId] !in s.users
    ensures Receive(s, m, saveOk).users == s.users
  {
  }

  class UserApiSaga {
    var sagas: map<string, Guid>
    var published: seq<Published>
    var users: set<Guid>
    var completed: map<string, bool>

    function State(): UserSide
      reads this
    {
      UserSide(sagas, published, users, completed)
    }

    constructor (initialUsers: set<Guid>)
      ensures State() == UserSide(map[], [], initialUsers, map[])
    {
      sagas := map[];
      published := [];
      users := initialUsers;
      completed := map[];
    }

    /** `StartDeleteSagaAsync` up to the wait; `sagaId` is the new `Guid` as a string. */
    method StartDeleteSaga(userId: Guid, sagaId: string)
      modifies this
      ensures State() == Start(old(State()), sagaId, userId)
    {
      sagas := sagas[sagaId := userId];
      var prepare := SagaMessage(sagaId, PrepareDeleteCommand, userId);
      published := published + [Published(UserToDocumentQueue, prepare)];
    }

    /** The wait of `StartDeleteSagaAsync`, at completion or at the timeout. */
    method AwaitSaga(sagaId: string) returns (result: bool)
      modifies this
      ensures (State(), result) == Await(old(State()), sagaId)
    {
      if sagaId in completed {
        return completed[sagaId];
      }
      sagas := sagas - {sagaId};
      result := false;
    }

    /**
     * `DeleteUserDataAsync`: removes the user if present. `saveOk` is whether
     * the save returned; `ok` is false when it threw, and then nothing changed.
     */
    method DeleteUserData(userId: Guid, saveOk: bool) returns (ok: bool)
      modifies this
      ensures (users, ok) == RemoveUser(old(users), userId, saveOk)
      ensures sagas == old(sagas) && published == old(published) && completed == old(completed)
    {
      ok := true;
      if userId in users {
        if !saveOk {
          return false;
        }
        users := users - {userId};
      }
    }

    /** `OnDocumentMessageReceivedAsync`; `saveOk` as for `Receive`. */
    method OnDocumentMessageReceived(m: SagaMessage, saveOk: bool)
      modifies this
      ensures State() == Receive(old(State()), m, saveOk)
    {
      if m.sagaId !in sagas {
        return;
      }
      var userId := sagas[m.sagaId];
      if m.msgType == PrepareDeleteAcknowledged {
        var delete := SagaMessage(m.sagaId, DeleteCommand, userId);
        published := published + [Published(UserToDocumentQueue, delete)];
      } else if m.msgType == DeleteSucceeded {
        var ok := DeleteUserData(userId, saveOk);
        if !ok {
          return;
        }
        if m.sagaId !in completed {
          completed := completed[m.sagaId := true];
        }
        sagas := sagas - {m.sagaId};
      } else if m.msgType == DeleteFailed {
        if m.sagaId !in completed {
          completed := completed[m.sagaId := false];
        }
        sagas := sagas - {m.sagaId};
      }
    }
  }
}
