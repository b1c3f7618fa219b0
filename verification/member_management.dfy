/**
 * The admin members panel: the member list and how a create, an update or a
 * delete changes it, and the removal of a deleted member's pictures from the
 * `profile-pics` storage bucket.
 */
module MemberManagement {
  import opened Wrappers
  import opened ApiTypes
  import opened ListUpdates

  datatype Panel = Panel(
    members: seq<Member>,
    error: Option<string>,
    showForm: bool,
    editing: Option<Member>)

  const AddError := "Error adding member"
  const UpdateError := "Error updating member"
  const DeleteError := "Error deleting member"

  /** `addMember`: on success the created member (as the backend returned it) goes at the end and the form closes. */
  function AddMember(p: Panel, created: ApiResult<Member>): (q: Panel)
    ensures created.Success? ==> q.members == p.members + [created.value] && !q.showForm && q.editing.None? && q.error == p.error
    ensures created.Failure? ==> q == p.(error := Some(AddError))
  {
    match created
    case Success(m) => p.(members := p.members + [m], showForm := false, editing := None)
    case Failure => p.(error := Some(AddError))
  }

  /**
   * `editMember`: on success every member with the form's id is replaced by
   * the submitted form data itself (the backend's reply is not used).
   */
  function EditMember(p: Panel, data: Member, updated: ApiResult<()>): (q: Panel)
    ensures updated.Success? ==> q.members == ReplaceWhere(p.members, (m: Member) => m.id == data.id, data)
                                 && !q.showForm && q.editing.None? && q.error == p.error
    ensures updated.Failure? ==> q == p.(error := Some(UpdateError))
  {
    match updated
    case Success(_) => p.(members := ReplaceWhere(p.members, (m: Member) => m.id == data.id, data), showForm := false, editing := None)
    case Failure => p.(error := Some(UpdateError))
  }

  /** The list part of `handleDeleteMember`: on success the members with the id are dropped. */
  function DeleteMember(p: Panel, memberId: string, deleted: ApiResult<()>): (q: Panel)
    ensures deleted.Success? ==> q == p.(members := RemoveWhere(p.members, (m: Member) => m.id == memberId))
    ensures deleted.Failure? ==> q == p.(error := Some(DeleteError))
  {
    match deleted
    case Success(_) => p.(members := RemoveWhere(p.members, (m: Member) => m.id == memberId))
    case Failure => p.(error := Some(DeleteError))
  }

  /** An update keeps length and order and puts the submitted data where the id matched. */
  lemma EditReplacesInPlace(p: Panel, data: Member)
    ensures var q := EditMember(p, data, Success(()));
      |q.members| == |p.members|
      && (forall i :: 0 <= i < |p.members| && p.members[i].id != data.id ==> q.members[i] == p.members[i])
      && (forall i :: 0 <= i < |p.members| && p.members[i].id == data.id ==> q.members[i] == data)
  {
  }

  /** After an update, the edited member is in the list exactly when its id was. */
  lemma EditedMemberPresent(p: Panel, data: Member)
    ensures var q := EditMember(p, data, Success(()));
      data in q.members <==> data in p.members || exists i :: 0 <= i < |p.members| && p.members[i].id == data.id
  {
    var q := EditMember(p, data, Success(()));
    if data in q.members {
      var i :| 0 <= i < |q.members| && q.members[i] == data;
      assert p.members[i].id == data.id || data in p.members;
    }
    if data in p.members {
      var i :| 0 <= i < |p.members| && p.members[i] == data;
      assert q.members[i] == data;
    }
  }

  /** A delete leaves exactly the members with other ids, in their order. */
  lemma DeleteRemovesExactly(p: Panel, memberId: string, front: seq<Member>, back: seq<Member>)
    requires p.members == front + back
    ensures var q := DeleteMember(p, memberId, Success(()));
      (forall i :: 0 <= i < |q.members| ==> q.members[i].id != memberId && q.members[i] in p.members)
      && (forall i :: 0 <= i < |p.members| && p.members[i].id != memberId ==> p.members[i] in q.members)
      && q.members == RemoveWhere(front, (m: Member) => m.id == memberId) + RemoveWhere(back, (m: Member) => m.id == memberId)
  {
    RemoveWhereAppend(front, back, (m: Member) => m.id == memberId);
  }

  /** Creating a member with a new id and then deleting it gives back the list. */
  lemma DeleteUndoesAdd(p: Panel, m: Member)
    requires forall i :: 0 <= i < |p.members| ==> p.members[i].id != m.id
    ensures DeleteMember(AddMember(p, Success(m)), m.id, Success(())).members == p.members
  {
    var matches := (x: Member) => x.id == m.id;
    RemoveWhereAppend(p.members, [m], matches);
    RemoveWhereNoMatch(p.members, matches);
    assert RemoveWhere([m], matches) == [];
  }

  /** The storage path of a picture in a member's folder. */
  function PicturePath(memberId: string, name: string): string {
    memberId + "/" + name
  }

  /** The paths removed for a folder listing; a failed listing removes nothing. */
  function FolderPaths(memberId: string, entries: Option<seq<string>>): set<string> {
    match entries
    case None => {}
    case Some(names) => set i | 0 <= i < |names| :: PicturePath(memberId, names[i])
  }

  /** The `profile-pics` bucket as a set of object paths. */
  class PictureBucket {
    var objects: set<string>

    constructor(objects: set<string>)
      ensures this.objects == objects
    {
      this.objects := objects;
    }

    /** Removes each listed picture of the member, one call per entry; failures of a removal are ignored. */
    method RemoveFolder(memberId: string, entries: Option<seq<string>>)
      modifies this
      ensures objects == old(objects) - FolderPaths(memberId, entries)
    {
      var names := entries.GetOr([]);
      for i := 0 to |names|
        invariant objects == old(objects) - (set k | 0 <= k < i :: PicturePath(memberId, names[k]))
      {
        objects := objects - {PicturePath(memberId, names[i])};
        assert (set k | 0 <= k < i + 1 :: PicturePath(memberId, names[k]))
            == (set k | 0 <= k < i :: PicturePath(memberId, names[k])) + {PicturePath(memberId, names[i])};
      }
    }
  }

  /**
   * `handleDeleteMember`: after confirmation, the member's pictures are
   * removed first and the member is deleted second, so the pictures are gone
   * even when the delete then fails.
   */
  method HandleDeleteMember(p: Panel, bucket: PictureBucket, memberId: string, confirmed: bool,
                            entries: Option<seq<string>>, deleted: ApiResult<()>) returns (q: Panel)
    modifies bucket
    ensures !confirmed ==> q == p && bucket.objects == old(bucket.objects)
    ensures confirmed ==> bucket.objects == old(bucket.objects) - FolderPaths(memberId, entries)
                          && q == DeleteMember(p, memberId, deleted)
  {
    if !confirmed {
      return p;
    }
    bucket.RemoveFolder(memberId, entries);
    q := DeleteMember(p, memberId, deleted);
  }

  /** Every removed path lies in the deleted member's folder. */
  lemma RemovedPathsInFolder(memberId: string, entries: Option<seq<string>>, path: string)
    requires path in FolderPaths(memberId, entries)
    ensures |path| > |memberId| && path[..|memberId| + 1] == memberId + "/"
  {
    var names := entries.value;
    var i :| 0 <= i < |names| && path == PicturePath(memberId, names[i]);
    assert path[..|memberId| + 1] == memberId + "/";
  }
}
