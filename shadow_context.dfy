/**
 * `ShadowContext`, the User service's abstract Entity Framework context:
 * before each save it turns the deletion of a
 * soft-deletable entity into a flag on its row, and stamps the entities that
 * carry user data with the signed-in user.
 */
module Persistence {
  import opened Common
  import opened Linq

  /** `EntityState`. */
  datatype EntityState = Detached | Unchanged | Deleted | Modified | Added

  /**
   * A change-tracker entry: the entity's key and state, whether its type is
   * `ICanBeSoftDeleted` and `IHaveUserData`, and the shadow properties those
   * markers add.
   */
  datatype TrackedEntry = TrackedEntry(key: Guid, state: EntityState, softDeletable: bool, hasUserData: bool,
                                       isDeleted: bool, createdBy: Option<string>, lastUpdatedBy: Option<string>)

  /** What the base `SaveChanges` sends to the database for one entry. */
  datatype Command = Insert(row: TrackedEntry) | Update(row: TrackedEntry) | Delete(key: Guid)

  /** The command of one entry: unchanged and detached entries send none. */
  function CommandOf(e: TrackedEntry): (r: seq<Command>)
    ensures |r| <= 1
    ensures r == [] <==> e.state == Detached || e.state == Unchanged
    ensures r != [] ==> (r[0].Delete? <==> e.state == Deleted) && (r[0].Delete? ==> r[0].key == e.key)
    ensures r != [] && !r[0].Delete? ==> r[0].row == e && (r[0].Insert? <==> e.state == Added)
  {
    match e.state
    case Added => [Insert(e)]
    case Modified => [Update(e)]
    case Deleted => [Delete(e.key)]
    case _ => []
  }

  /** The base `SaveChanges`: the entries' commands, in the tracker's order. */
  function Commands(es: seq<TrackedEntry>): (r: seq<Command>)
    ensures |r| <= |es|
    ensures forall c :: c in r <==> exists i :: 0 <= i < |es| && c in CommandOf(es[i])
    decreases |es|
  {
    if es == [] then []
    else
      var n := |es| - 1;
      assert forall i :: 0 <= i < n ==> es[..n][i] == es[i];
      Commands(es[..n]) + CommandOf(es[n])
  }

  /** A deleted entry whose entity can be soft-deleted. */
  predicate IsSoftDeletion(e: TrackedEntry) {
    e.state == Deleted && e.softDeletable
  }

  /** An added or modified entry whose entity carries user data. */
  predicate NeedsUserData(e: TrackedEntry) {
    (e.state == Added || e.state == Modified) && e.hasUserData
  }

  /** The soft deletions flagged and detached, as `UpdateSoftDeleteProperties` means to leave them. */
  function Detach(es: seq<TrackedEntry>): (r: seq<TrackedEntry>)
    ensures |r| == |es|
    ensures forall i :: 0 <= i < |es| && IsSoftDeletion(es[i]) ==> r[i] == es[i].(isDeleted := true, state := Detached)
    ensures forall i :: 0 <= i < |es| && !IsSoftDeletion(es[i]) ==> r[i] == es[i]
  {
    seq(|es|, i requires 0 <= i < |es| =>
      if IsSoftDeletion(es[i]) then es[i].(isDeleted := true, state := Detached) else es[i])
  }

  /** The soft deletions flagged and turned into updates, so that the flag reaches the row. */
  function SoftDeleted(es: seq<TrackedEntry>): (r: seq<TrackedEntry>)
    ensures |r| == |es|
    ensures forall i :: 0 <= i < |es| && IsSoftDeletion(es[i]) ==> r[i] == es[i].(isDeleted := true, state := Modified)
    ensures forall i :: 0 <= i < |es| && !IsSoftDeletion(es[i]) ==> r[i] == es[i]
    ensures forall i :: 0 <= i < |r| ==> !IsSoftDeletion(r[i])
  {
    seq(|es|, i requires 0 <= i < |es| =>
      if IsSoftDeletion(es[i]) then es[i].(isDeleted := true, state := Modified) else es[i])
  }

  /** `UpdateUserData` for `user`: added entries get `CreatedBy`, modified ones `LastUpdatedBy`. */
  function Stamped(es: seq<TrackedEntry>, user: string): (r: seq<TrackedEntry>)
    ensures |r| == |es|
    ensures forall i :: 0 <= i < |es| && NeedsUserData(es[i]) && es[i].state == Added ==> r[i] == es[i].(createdBy := Some(user))
    ensures forall i :: 0 <= i < |es| && NeedsUserData(es[i]) && es[i].state == Modified ==> r[i] == es[i].(lastUpdatedBy := Some(user))
    ensures forall i :: 0 <= i < |es| && !NeedsUserData(es[i]) ==> r[i] == es[i]
  {
    seq(|es|, i requires 0 <= i < |es| =>
      if !NeedsUserData(es[i]) then es[i]
      else if es[i].state == Modified then es[i].(lastUpdatedBy := Some(user))
      else es[i].(createdBy := Some(user)))
  }

  /** The entries the base `SaveChanges` sees: soft deletions turned into updates, then user data stamped. */
  function Prepared(es: seq<TrackedEntry>, user: Option<string>): (r: seq<TrackedEntry>)
    ensures |r| == |es|
    ensures user.None? ==> forall i :: 0 <= i < |es| ==>
      r[i].createdBy == es[i].createdBy && r[i].lastUpdatedBy == es[i].lastUpdatedBy
    ensures forall i :: 0 <= i < |es| && !IsSoftDeletion(es[i]) && !(user.Some? && NeedsUserData(es[i])) ==> r[i] == es[i]
  {
    if user.Some? then Stamped(SoftDeleted(es), user.value) else SoftDeleted(es)
  }

  /**
   * `SaveChanges` as written, `None` where it throws. `Entry(entry)` is
   * handed the `EntityEntry` itself, whose type is no entity of the model,
   * so the first soft deletion, or with a signed-in user the first entry
   * needing user data, throws before anything is written.
   */
  function SaveAsWritten(es: seq<TrackedEntry>, user: Option<string>): (r: Option<seq<Command>>)
    ensures r.None? <==>
      (exists i :: 0 <= i < |es| && IsSoftDeletion(es[i])) ||
      (user.Some? && exists i :: 0 <= i < |es| && NeedsUserData(es[i]))
    ensures r.Some? ==> r.value == Commands(es)
  {
    if exists i :: 0 <= i < |es| && IsSoftDeletion(es[i]) then None
    else if user.Some? && exists i :: 0 <= i < |es| && NeedsUserData(es[i]) then None
    else Some(Commands(es))
  }

  /**
   * A soft-deleted entity's row is never deleted: it is updated with the
   * flag set, and every delete sent is of an entity that cannot be
   * soft-deleted.
   */
  lemma SoftDeletionKeepsRow(es: seq<TrackedEntry>, user: Option<string>, i: nat)
    requires i < |es| && IsSoftDeletion(es[i])
    ensures var cs := Commands(Prepared(es, user));
      (exists c :: c in cs && c.Update? && c.row.key == es[i].key && c.row.isDeleted) &&
      forall c :: c in cs && c.Delete? ==> exists j :: 0 <= j < |es| && es[j].key == c.key && es[j].state == Deleted && !es[j].softDeletable
  {
    var ps := Prepared(es, user);
    var cs := Commands(ps);
    assert ps[i].state == Modified && ps[i].key == es[i].key && ps[i].isDeleted;
    assert Update(ps[i]) in CommandOf(ps[i]);
    forall c | c in cs && c.Delete?
      ensures exists j :: 0 <= j < |es| && es[j].key == c.key && es[j].state == Deleted && !es[j].softDeletable
    {
      var j :| 0 <= j < |ps| && c in CommandOf(ps[j]);
      assert ps[j].state == Deleted;
      assert !IsSoftDeletion(es[j]);
    }
  }

  /** With a signed-in user, every inserted or updated row carrying user data names that user. */
  lemma StampsSignedInUser(es: seq<TrackedEntry>, user: string)
    ensures forall c :: c in Commands(Prepared(es, Some(user))) && c.Insert? && c.row.hasUserData ==> c.row.createdBy == Some(user)
    ensures forall c :: c in Commands(Prepared(es, Some(user))) && c.Update? && c.row.hasUserData ==> c.row.lastUpdatedBy == Some(user)
  {
    var ps := Prepared(es, Some(user));
    forall c | c in Commands(ps) && !c.Delete? && c.row.hasUserData
      ensures c.Insert? ==> c.row.createdBy == Some(user)
      ensures c.Update? ==> c.row.lastUpdatedBy == Some(user)
    {
      var j :| 0 <= j < |ps| && c in CommandOf(ps[j]);
      assert NeedsUserData(SoftDeleted(es)[j]);
    }
  }

  /** What detaching does to the commands: the soft deletions send nothing, the other entries what they sent. */
  lemma {:induction false} DetachDropsSoftDeletions(es: seq<TrackedEntry>)
    ensures Commands(Detach(es)) == Commands(Where(es, (e: TrackedEntry) => !IsSoftDeletion(e)))
    decreases |es|
  {
    if es != [] {
      var n := |es| - 1;
      var p := (e: TrackedEntry) => !IsSoftDeletion(e);
      assert Detach(es)[..n] == Detach(es[..n]);
      DetachDropsSoftDeletions(es[..n]);
      WhereConcat(Where(es[..n], p), if p(es[n]) then [es[n]] else [], (e: TrackedEntry) => true);
      CommandsConcat(Where(es[..n], p), if p(es[n]) then [es[n]] else []);
    }
  }

  /** The commands of two runs of entries are the commands of each, in order. */
  lemma {:induction false} CommandsConcat(a: seq<TrackedEntry>, b: seq<TrackedEntry>)
    ensures Commands(a + b) == Commands(a) + Commands(b)
    decreases |b|
  {
    if b == [] {
      assert a + b == a;
    } else {
      assert (a + b)[..|a + b| - 1] == a + b[..|b| - 1];
      CommandsConcat(a, b[..|b| - 1]);
    }
  }

  /**
   * One soft deletion: as written the save throws; with `entry.Property`
   * and `Detached` the entity would send nothing at all, neither its delete
   * nor its flag; turned into an update the flag reaches the row.
   */
  lemma SoftDeleteOfOneEntity(e: TrackedEntry, user: Option<string>)
    requires IsSoftDeletion(e)
    ensures SaveAsWritten([e], user) == None
    ensures Commands([e]) == [Delete(e.key)]
    ensures Commands(Detach([e])) == []
    ensures Commands(SoftDeleted([e])) == [Update(e.(isDeleted := true, state := Modified))]
  {
    assert [e][..0] == [];
    assert Detach([e])[..0] == [];
    assert SoftDeleted([e])[..0] == [];
  }

  /** As written, with a signed-in user, any save of a new entity carrying user data throws. */
  lemma StampThrowsAsWritten(e: TrackedEntry, user: string)
    requires e.state == Added && e.hasUserData
    ensures SaveAsWritten([e], Some(user)) == None
    ensures Commands(Prepared([e], Some(user))) == [Insert(e.(createdBy := Some(user)))]
  {
    assert Prepared([e], Some(user))[..0] == [];
  }

  /** `ShadowContext`: the signed-in user it was built with and the tracker's entries. */
  class ShadowContext {
    const user: Option<string>
    var entries: seq<TrackedEntry>

    constructor (currentUser: Option<string>, tracked: seq<TrackedEntry>)
      ensures user == currentUser && entries == tracked
    {
      user := currentUser;
      entries := tracked;
    }

    /** `UpdateSoftDeleteProperties` as written: it throws at the first soft deletion, having changed nothing. */
    method UpdateSoftDeletePropertiesAsWritten() returns (threw: bool)
      ensures threw <==> exists i :: 0 <= i < |entries| && IsSoftDeletion(entries[i])
    {
      var i := 0;
      while i < |entries|
        invariant 0 <= i <= |entries|
        invariant forall j :: 0 <= j < i ==> !IsSoftDeletion(entries[j])
      {
        if entries[i].state == Deleted && entries[i].softDeletable {
          return true;
        }
        i := i + 1;
      }
      return false;
    }

    /** `UpdateSoftDeleteProperties` through `entry.Property` and `entry.State`: flagged and detached. */
    method DetachSoftDeleted()
      modifies this
      ensures entries == Detach(old(entries))
    {
      var i := 0;
      while i < |entries|
        invariant 0 <= i <= |entries| == |old(entries)|
        invariant forall j :: 0 <= j < i ==> entries[j] == Detach(old(entries))[j]
        invariant forall j :: i <= j < |entries| ==> entries[j] == old(entries)[j]
      {
        var e := entries[i];
        if e.state == Deleted && e.softDeletable {
          entries := entries[i := e.(isDeleted := true, state := Detached)];
        }
        i := i + 1;
      }
    }

    /** The soft delete that keeps the row: flagged and saved as an update. */
    method MarkSoftDeleted()
      modifies this
      ensures entries == SoftDeleted(old(entries))
    {
      var i := 0;
      while i < |entries|
        invariant 0 <= i <= |entries| == |old(entries)|
        invariant forall j :: 0 <= j < i ==> entries[j] == SoftDeleted(old(entries))[j]
        invariant forall j :: i <= j < |entries| ==> entries[j] == old(entries)[j]
      {
        var e := entries[i];
        if e.state == Deleted && e.softDeletable {
          entries := entries[i := e.(isDeleted := true, state := Modified)];
        }
        i := i + 1;
      }
    }

    /** `UpdateUserData` as written: it throws at the first entry needing user data, having changed nothing. */
    method UpdateUserDataAsWritten() returns (threw: bool)
      ensures threw <==> exists i :: 0 <= i < |entries| && NeedsUserData(entries[i])
    {
      var i := 0;
      while i < |entries|
        invariant 0 <= i <= |entries|
        invariant forall j :: 0 <= j < i ==> !NeedsUserData(entries[j])
      {
        var e := entries[i];
        if (e.state == Added || e.state == Modified) && e.hasUserData {
          return true;
        }
        i := i + 1;
      }
      return false;
    }

    /** `UpdateUserData` through `entry.Property`: the signed-in user stamped. */
    method UpdateUserData()
      requires user.Some?
      modifies this
      ensures entries == Stamped(old(entries), user.value)
    {
      var i := 0;
      while i < |entries|
        invariant 0 <= i <= |entries| == |old(entries)|
        invariant forall j :: 0 <= j < i ==> entries[j] == Stamped(old(entries), user.value)[j]
        invariant forall j :: i <= j < |entries| ==> entries[j] == old(entries)[j]
      {
        var e := entries[i];
        if (e.state == Added || e.state == Modified) && e.hasUserData {
          if e.state == Modified {
            entries := entries[i := e.(lastUpdatedBy := user)];
          } else if e.state == Added {
            entries := entries[i := e.(createdBy := user)];
          }
        }
        i := i + 1;
      }
    }

    /** `SaveChanges` as written: `None` where it throws; the tracking dates are not touched. */
    method SaveChangesAsWritten() returns (r: Option<seq<Command>>)
      ensures r == SaveAsWritten(entries, user)
    {
      var threw := UpdateSoftDeletePropertiesAsWritten();
      if threw {
        return None;
      }
      if user != None {
        threw := UpdateUserDataAsWritten();
        if threw {
          return None;
        }
      }
      r := Some(Commands(entries));
    }

    /** `SaveChanges` with both passes writing through the entry: the commands of the prepared entries. */
    method SaveChanges() returns (commands: seq<Command>)
      modifies this
      ensures entries == Prepared(old(entries), user)
      ensures commands == Commands(entries)
    {
      MarkSoftDeleted();
      if user != None {
        UpdateUserData();
      }
      commands := Commands(entries);
    }
  }
}
