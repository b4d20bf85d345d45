/** `updateImageAction` and `deleteImageAction`: a moderator renames or
    (un)censors an image; a moderator or the image's creator deletes it with
    its links and votes. */
module ApiImages {
  import opened Wrappers
  import opened GoStrings
  import opened Rows
  import opened Ledger
  import opened Merge
  import opened ApiTypes

  /** The stored image edited by a posted one: the display name only when the
      posted name is not empty, the censored flag always. */
  function EditImage(stored: Image, posted: Image): (i: Image)
    ensures i.id == stored.id && i.uuid == stored.uuid && i.createdBy == stored.createdBy
    ensures |posted.displayName| == 0 ==> i.displayName == stored.displayName
    ensures |posted.displayName| != 0 ==> i.displayName == posted.displayName
    ensures i.isCensored == posted.isCensored
  {
    var named := if |posted.displayName| != 0 then stored.(displayName := posted.displayName) else stored;
    named.(isCensored := posted.isCensored)
  }

  /** The entry queued when the censored flag changes. */
  function CensorModerations(actor: int, stored: Image, posted: Image): (q: seq<Moderation>)
    ensures q == [] <==> posted.isCensored == stored.isCensored
    ensures q != [] ==> q == [Moderation(actor, if posted.isCensored then Censor else Uncensor, ImageObject, [stored.uuid])]
  {
    if posted.isCensored == stored.isCensored then []
    else if posted.isCensored then [Moderation(actor, Censor, ImageObject, [stored.uuid])]
    else [Moderation(actor, Uncensor, ImageObject, [stored.uuid])]
  }

  /** `updateImageAction` (server/controller/api.go) as written: the error
      from reading the body is dropped, so an unreadable body (`None`) edits
      the image as the zero image would. */
  function UpdateImageAction(session: Session, db: Db, imageUuid: String, posted: Option<Image>): (r: Response<Image>)
    ensures r.status == OK <==> session.user.isModerator && !ImageByUuid(db, imageUuid).IsZero()
    ensures !session.user.isModerator ==> r.status == NotAuthorized
    ensures session.user.isModerator && ImageByUuid(db, imageUuid).IsZero() ==> r.status == NotFound
    ensures r.status != OK ==> r.db == db && r.queued == [] && r.body.None?
    ensures r.status == OK ==>
      var stored := ImageByUuid(db, imageUuid);
      var edit := posted.GetOr(ZeroImage);
      r.body == Some(EditImage(stored, edit)) && r.db == UpdateImage(db, r.body.value)
      && r.queued == CensorModerations(session.userId, stored, edit)
  {
    if !session.user.isModerator then Refused(NotAuthorized, db)
    else
      var stored := ImageByUuid(db, imageUuid);
      if stored.IsZero() then Refused(NotFound, db)
      else
        var edit := posted.GetOr(ZeroImage);
        var updated := EditImage(stored, edit);
        Response(OK, Some(updated), UpdateImage(db, updated), CensorModerations(session.userId, stored, edit))
  }

  /** An unreadable body sent for a censored image uncensors it and logs the
      uncensoring. */
  lemma UnreadableBodyUncensors(session: Session, db: Db, imageUuid: String)
    requires session.user.isModerator
    requires !ImageByUuid(db, imageUuid).IsZero() && ImageByUuid(db, imageUuid).isCensored
    ensures var r := UpdateImageAction(session, db, imageUuid, None);
      r.status == OK && !r.body.value.isCensored
      && r.queued == [Moderation(session.userId, Uncensor, ImageObject, [ImageByUuid(db, imageUuid).uuid])]
  {
  }

  /** The same handler with the body error checked: an unreadable body is a
      BadRequest and changes nothing. */
  function UpdateImageActionChecked(session: Session, db: Db, imageUuid: String, posted: Option<Image>): (r: Response<Image>)
    ensures posted.None? ==> r.db == db && r.queued == [] && r.status != OK
    ensures r.status == OK ==> posted.Some? && r.body.Some? && r.body.value.isCensored == posted.value.isCensored
    ensures r.status == OK && r.body.Some? && r.body.value.isCensored != ImageByUuid(db, imageUuid).isCensored ==>
      r.queued == [Moderation(session.userId, if posted.value.isCensored then Censor else Uncensor,
                              ImageObject, [ImageByUuid(db, imageUuid).uuid])]
    ensures posted.Some? ==> r == UpdateImageAction(session, db, imageUuid, posted)
  {
    if posted.None? && session.user.isModerator && !ImageByUuid(db, imageUuid).IsZero() then Refused(BadRequest, db)
    else UpdateImageAction(session, db, imageUuid, posted)
  }

  /** Writing an image record back under its own id keeps the constraints. */
  lemma UpdateImageKeepsWf(db: Db, i: Image)
    requires Wf(db)
    ensures Wf(UpdateImage(db, i))
  {
    var r := UpdateImage(db, i);
    assert forall j :: 0 <= j < |db.images| ==> r.images[j].id == db.images[j].id;
    forall x | HasImage(db, x) ensures HasImage(r, x) {
      AnyWitness(r.images, ImageIdIs(x), FindIndex(db.images, ImageIdIs(x)).value);
    }
  }

  /** With unique ids, rewriting the row with the id of the first row with a
      uuid, by a record that keeps that uuid, is what the uuid reads back. */
  lemma RewriteFirstImageByUuid(images: seq<Image>, uuid: String, i: Image)
    requires Pairwise(images, ImageIdsDiffer)
    requires Any(images, ImageUuidIs(uuid))
    requires i.id == First(images, ImageUuidIs(uuid), ZeroImage).id && i.uuid == uuid
    ensures First(Rewrite(images, ImageIdIs(i.id), ReplaceImage(i)), ImageUuidIs(uuid), ZeroImage) == i
  {
    var k := FindIndex(images, ImageUuidIs(uuid)).value;
    FirstAt(images, ImageUuidIs(uuid), k, ZeroImage);
    var r := Rewrite(images, ImageIdIs(i.id), ReplaceImage(i));
    forall j | 0 <= j < k ensures !ImageUuidIs(uuid)(r[j]) {
      assert images[j].id != images[k].id;
      assert r[j] == images[j];
    }
    assert r[k] == i;
    FirstAt(r, ImageUuidIs(uuid), k, ZeroImage);
  }

  /** After an accepted edit the uuid reads back the edited image and the constraints still hold. */
  lemma UpdateImageReadsBack(session: Session, db: Db, imageUuid: String, posted: Option<Image>)
    requires Wf(db)
    requires UpdateImageAction(session, db, imageUuid, posted).status == OK
    ensures var r := UpdateImageAction(session, db, imageUuid, posted);
      ImageByUuid(r.db, imageUuid) == r.body.value && Wf(r.db)
  {
    var r := UpdateImageAction(session, db, imageUuid, posted);
    assert Any(db.images, ImageUuidIs(imageUuid));
    RewriteFirstImageByUuid(db.images, imageUuid, r.body.value);
    UpdateImageKeepsWf(db, r.body.value);
  }

  /** `deleteImageAction`, the same in all three versions: the image must
      exist and the caller must be a moderator or its creator; the stored
      file is deleted first (`fileDeleteFails` stands for that call failing),
      then the image with its links and votes. */
  function DeleteImageAction(session: Session, db: Db, imageUuid: String, fileDeleteFails: bool): (r: Response<()>)
    ensures r.status == NotFound <==> ImageByUuid(db, imageUuid).IsZero()
    ensures r.status == NotAuthorized <==>
              !ImageByUuid(db, imageUuid).IsZero()
              && !MayDelete(UserById(db, session.userId), ImageByUuid(db, imageUuid).createdBy)
    ensures r.status == OK <==>
              !ImageByUuid(db, imageUuid).IsZero()
              && MayDelete(UserById(db, session.userId), ImageByUuid(db, imageUuid).createdBy) && !fileDeleteFails
    ensures r.queued == []
    ensures r.status != OK ==> r.db == db
    ensures r.status == OK ==>
      var id := ImageByUuid(db, imageUuid).id;
      !HasImage(r.db, id) && !ImageReferenced(r.db, id)
      && r.db.users == db.users && r.db.tags == db.tags
      && (forall j :: 0 <= j < |db.images| && db.images[j].id != id ==> db.images[j] in r.db.images)
      && (forall j :: 0 <= j < |db.summaries| && db.summaries[j].imageId != id ==> db.summaries[j] in r.db.summaries)
      && (forall j :: 0 <= j < |db.votes| && db.votes[j].imageId != id ==> db.votes[j] in r.db.votes)
  {
    var currentUser := UserById(db, session.userId);
    var image := ImageByUuid(db, imageUuid);
    if image.IsZero() then Refused(NotFound, db)
    else if !MayDelete(currentUser, image.createdBy) then Refused(NotAuthorized, db)
    else if fileDeleteFails then Refused(InternalError, db)
    else Response(OK, None, DeleteImageByID(db, image.id).value, [])
  }

  /** Deleting an image through the handler keeps the constraints. */
  lemma DeleteImageActionKeepsWf(session: Session, db: Db, imageUuid: String, fileDeleteFails: bool)
    requires Wf(db)
    ensures Wf(DeleteImageAction(session, db, imageUuid, fileDeleteFails).db)
  {
    var image := ImageByUuid(db, imageUuid);
    DeleteImageByIDKeepsWf(db, image.id);
  }
}
