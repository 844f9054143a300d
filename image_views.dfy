/**
 * The request handlers of images/views.py over the database: serving an
 * original, a thumbnail or an expiring link by its URL, creating an expiring
 * link, an image's detail, the uploader's list, and the upload itself.
 *
 * The authenticated requester is the `username` argument, the current time is
 * the `now` argument, and the uploaded file is the `file` argument. A failure
 * is answered as the Failure its HTTP status stands for.
 */
module ImageViews {
  import opened Wrappers
  import Accounts
  import opened ImageRecords
  import opened ImageModels
  import opened ImageUtils
  import opened ViewRules

  // ---------------------------------------------------------------- serving by URL

  /** `image_preview_view`: the original whose URL is the image lookup URL, as JPEG; 404 when none has it. */
  method PreviewImage(db: Database, randomId: string) returns (res: Result<FileResponse, Failure>)
    requires db.Valid()
    ensures res.Err? <==> forall i :: i in db.images ==> db.images[i].imageUrl != ImageLookupUrl(randomId)
    ensures res.Err? ==> res.error == NotFound
    ensures forall i :: i in db.images && db.images[i].imageUrl == ImageLookupUrl(randomId) ==>
      res == Ok(FileResponse(OriginalBytes(db.images[i].imageFile.bytes), JpegType))
  {
    var url := ImageLookupUrl(randomId);
    if i :| i in db.images && db.images[i].imageUrl == url {
      forall j | j in db.images && db.images[j].imageUrl == url
        ensures j == i
      {
        ImageUrlsDistinct(db.images, db.users, db.minted, db.nextImageId, i, j);
      }
      return Ok(FileResponse(OriginalBytes(db.images[i].imageFile.bytes), JpegType));
    }
    return Err(NotFound);
  }

  /**
   * `thumbnail_preview_view`: the thumbnail whose URL is the thumbnail lookup
   * URL, as JPEG; 404 when none has it; a row without a file raises.
   */
  method PreviewThumbnail(db: Database, randomId: string) returns (res: Result<FileResponse, Failure>)
    requires db.Valid()
    ensures (forall t :: t in db.thumbnails ==> db.thumbnails[t].url != Some(ThumbnailLookupUrl(randomId))) ==> res == Err(NotFound)
    ensures forall t :: t in db.thumbnails && db.thumbnails[t].url == Some(ThumbnailLookupUrl(randomId)) ==>
      res == (if db.thumbnails[t].thumbnailFile.None? then Err(ServerError)
              else Ok(FileResponse(ThumbnailBytes(db.thumbnails[t].thumbnailFile.value), JpegType)))
  {
    var url := ThumbnailLookupUrl(randomId);
    if t :| t in db.thumbnails && db.thumbnails[t].url == Some(url) {
      forall u | u in db.thumbnails && db.thumbnails[u].url == Some(url)
        ensures u == t
      {
        ThumbnailUrlsDistinct(db.thumbnails, db.images, db.minted, db.nextThumbnailId, t, u);
      }
      var file := db.thumbnails[t].thumbnailFile;
      if file.None? {
        return Err(ServerError);
      }
      return Ok(FileResponse(ThumbnailBytes(file.value), JpegType));
    }
    return Err(NotFound);
  }

  /**
   * `expire_image_preview_view`: the link whose URL is the expiring lookup
   * URL. No such link answers 410. A link past its expiry time is deleted and
   * answers 410. Otherwise the linked original is served as JPEG.
   */
  method ResolveExpiring(db: Database, randomId: string, now: int) returns (res: Result<FileResponse, Failure>)
    requires db.Valid()
    modifies db`expiring
    ensures db.Valid()
    ensures (forall e :: e in old(db.expiring) ==> old(db.expiring)[e].url != ExpiringLookupPrefix + randomId) ==>
      res == Err(Gone) && db.expiring == old(db.expiring)
    ensures forall e :: e in old(db.expiring) && old(db.expiring)[e].url == ExpiringLookupPrefix + randomId ==>
      if Expired(old(db.expiring)[e], now) then res == Err(Gone) && db.expiring == old(db.expiring) - {e}
      else (db.expiring == old(db.expiring) &&
            res == Ok(FileResponse(OriginalBytes(db.images[old(db.expiring)[e].image].imageFile.bytes), JpegType)))
    ensures res.Err? ==> res.error == Gone && forall e :: e in db.expiring ==> db.expiring[e].url != ExpiringLookupPrefix + randomId
  {
    var url := ExpiringLookupPrefix + randomId;
    if e :| e in db.expiring && db.expiring[e].url == url {
      forall f | f in db.expiring && db.expiring[f].url == url
        ensures f == e
      {
        LinkUrlsDistinct(db.expiring, db.images, db.minted, db.nextExpiringId, e, f);
      }
      var link := db.expiring[e];
      if Expired(link, now) {
        db.DeleteExpiring(e);
        return Err(Gone);
      }
      return Ok(FileResponse(OriginalBytes(db.images[link.image].imageFile.bytes), JpegType));
    }
    return Err(Gone);
  }

  // ---------------------------------------------------------------- expiring links

  /**
   * `create_expire_image_view`: after the checks of ExpiringRejection pass,
   * one new link to the image, expiring `timeToExpire` seconds from `now`, is
   * saved and its fresh URL answered; a rejected request saves nothing.
   */
  method CreateExpiring(db: Database, username: string, id: ImageId, timeToExpire: int, now: int)
    returns (res: Result<string, Failure>)
    requires db.Valid() && username in db.users
    modifies db`expiring, db`minted, db`nextExpiringId
    ensures db.Valid()
    ensures ExpiringRejection(db.users, db.roles, db.images, username, id, timeToExpire).Some? ==>
      && res == Err(ExpiringRejection(db.users, db.roles, db.images, username, id, timeToExpire).value)
      && db.expiring == old(db.expiring) && db.minted == old(db.minted) && db.nextExpiringId == old(db.nextExpiringId)
    ensures ExpiringRejection(db.users, db.roles, db.images, username, id, timeToExpire).None? ==>
      && res.Ok? && res.value !in old(db.minted)
      && db.expiring == old(db.expiring)[old(db.nextExpiringId) := ExpiringImage(id, now + timeToExpire, res.value)]
  {
    if id !in db.images {
      return Err(ValidationError);
    }
    if db.images[id].owner != username {
      return Err(PermissionDenied);
    }
    var role := db.users[username].role;
    if role.None? {
      return Err(ServerError);
    }
    if !db.roles[role.value].allowExpiring {
      return Err(PermissionDenied);
    }
    if timeToExpire < MinTimeToExpire || timeToExpire > MaxTimeToExpire {
      return Err(ValidationError);
    }
    var _, url := db.SaveExpiring(id, now + timeToExpire);
    return Ok(url);
  }

  // ---------------------------------------------------------------- detail and list

  /** The `{height}px_url` map of an image, built by walking the thumbnail table in key order. */
  method ThumbnailUrls(thumbnails: map<ThumbnailId, Thumbnail>, nextThumbnail: ThumbnailId, image: ImageId)
    returns (urls: map<string, Option<string>>)
    ensures urls == ThumbnailListing(thumbnails, image, nextThumbnail)
  {
    urls := map[];
    for t := 0 to nextThumbnail
      invariant urls == ThumbnailListing(thumbnails, image, t)
    {
      if t in thumbnails && thumbnails[t].image == image {
        urls := urls[UrlKey(thumbnails[t].height) := thumbnails[t].url];
      }
    }
  }

  /**
   * `image_view`: a missing image answers 400, someone else's 403; for the
   * owner, a missing role raises, and otherwise the image's summary is
   * answered, with the original's URL when the role allows originals.
   */
  method Detail(db: Database, username: string, id: ImageId) returns (res: Result<ImageSummary, Failure>)
    requires db.Valid() && username in db.users
    ensures id !in db.images ==> res == Err(ValidationError)
    ensures id in db.images && db.images[id].owner != username ==> res == Err(PermissionDenied)
    ensures id in db.images && db.images[id].owner == username && db.users[username].role.None? ==> res == Err(ServerError)
    ensures id in db.images && db.images[id].owner == username && db.users[username].role.Some? ==>
      res == Ok(SummaryOf(db.images, db.thumbnails, db.nextThumbnailId, id,
                          ListingShowsOriginal(db.roles[db.users[username].role.value])))
  {
    if id !in db.images {
      return Err(ValidationError);
    }
    var image := db.images[id];
    if image.owner != username {
      return Err(PermissionDenied);
    }
    var thumbnails := ThumbnailUrls(db.thumbnails, db.nextThumbnailId, id);
    var role := db.users[username].role;
    if role.None? {
      return Err(ServerError);
    }
    var original := if db.roles[role.value].allowOriginal then Some(image.imageUrl) else None;
    return Ok(ImageSummary(id, image.fileName, original, thumbnails));
  }

  /** The list loop: number the images `username` owns below `upTo` from 1, in key order, each with its summary. */
  method ListOwned(images: map<ImageId, Image>, thumbnails: map<ThumbnailId, Thumbnail>, nextThumbnail: ThumbnailId,
                   username: string, shows: bool, upTo: ImageId) returns (data: map<string, ImageSummary>)
    ensures data == Listing(images, thumbnails, nextThumbnail, username, shows, upTo)
  {
    data := map[];
    var count := 0;
    for pk := 0 to upTo
      invariant count == |OwnedIds(images, username, pk)|
      invariant data == Listing(images, thumbnails, nextThumbnail, username, shows, pk)
    {
      if pk in images && images[pk].owner == username {
        var urls := ThumbnailUrls(thumbnails, nextThumbnail, pk);
        var original := if shows then Some(images[pk].imageUrl) else None;
        var summary := ImageSummary(pk, images[pk].fileName, original, urls);
        assert summary == SummaryOf(images, thumbnails, nextThumbnail, pk, shows);
        assert OwnedIds(images, username, pk + 1) == OwnedIds(images, username, pk) + [pk];
        assert Listing(images, thumbnails, nextThumbnail, username, shows, pk + 1) == data[ListKey(count + 1) := summary];
        count := count + 1;
        data := data[ListKey(count) := summary];
      } else {
        assert OwnedIds(images, username, pk + 1) == OwnedIds(images, username, pk);
        assert Listing(images, thumbnails, nextThumbnail, username, shows, pk + 1) == data;
      }
    }
  }

  /**
   * `ImageUploadView.list`: a user without a role gets 400; otherwise the
   * response's entry "image{j}" summarises the j-th image the user owns, in
   * key order, and there are no other entries.
   */
  method List(db: Database, username: string) returns (res: Result<map<string, ImageSummary>, Failure>)
    requires db.Valid() && username in db.users
    ensures res.Err? <==> db.users[username].role.None?
    ensures res.Err? ==> res.error == ValidationError
    ensures res.Ok? ==>
      ListedInOrder(res.value, OwnedIds(db.images, username, db.nextImageId), db.images, db.thumbnails, db.nextThumbnailId,
                    ListingShowsOriginal(db.roles[db.users[username].role.value]))
  {
    var role := db.users[username].role;
    if role.None? {
      return Err(ValidationError);
    }
    var data := ListOwned(db.images, db.thumbnails, db.nextThumbnailId, username, db.roles[role.value].allowOriginal, db.nextImageId);
    ListingInOrder(db.images, db.thumbnails, db.nextThumbnailId, username, db.roles[role.value].allowOriginal, db.nextImageId);
    return Ok(data);
  }

  // ---------------------------------------------------------------- upload

  /**
   * The thumbnail loop of an upload: `create_thumbnail` for each size in
   * order, each size's key answering the new row's URL. On an undecodable
   * source the first call raises, before anything is saved.
   */
  method SaveThumbnails(db: Database, image: ImageId, sizes: seq<nat>) returns (res: Result<map<string, string>, Failure>)
    requires db.Valid() && image in db.images
    modifies db`thumbnails, db`minted, db`nextThumbnailId
    ensures db.Valid()
    ensures res.Err? <==> |sizes| > 0 && db.images[image].imageFile.size.None?
    ensures res.Err? ==>
      && res.error == ServerError
      && db.thumbnails == old(db.thumbnails) && db.minted == old(db.minted) && db.nextThumbnailId == old(db.nextThumbnailId)
    ensures res.Ok? ==> ThumbnailsSaved(res.value, old(db.thumbnails), db.thumbnails, old(db.nextThumbnailId), image, sizes)
  {
    var data: map<string, string> := map[];
    for k := 0 to |sizes|
      invariant db.Valid() && db.images == old(db.images)
      invariant db.nextThumbnailId == old(db.nextThumbnailId) + k
      invariant k > 0 ==> db.images[image].imageFile.size.Some?
      invariant k == 0 ==> db.thumbnails == old(db.thumbnails) && db.minted == old(db.minted)
      invariant ThumbnailsSavedUpTo(data, old(db.thumbnails), db.thumbnails, old(db.nextThumbnailId), image, sizes, k)
    {
      var step := SaveThumbnailAt(db, image, sizes, k, data, old(db.thumbnails), old(db.nextThumbnailId));
      if step.Err? {
        return Err(ServerError);
      }
      data := step.value;
    }
    return Ok(data);
  }

  /**
   * A proof helper, not a separate operation: `create_thumbnail` as the
   * thumbnail loop sees it, with CreateThumbnail's contract cut down to the
   * new row's key, its image, height and URL, and the table it is added to,
   * so that the loop's proof does not carry the file and URL facts it never uses.
   */
  method CreateThumbnailRow(db: Database, image: ImageId, size: nat) returns (res: Result<(ThumbnailId, Thumbnail), ThumbnailError>)
    requires db.Valid() && image in db.images
    modifies db`thumbnails, db`minted, db`nextThumbnailId
    ensures db.Valid()
    ensures res.Err? <==> db.images[image].imageFile.size.None?
    ensures res.Err? ==> db.thumbnails == old(db.thumbnails) && db.minted == old(db.minted) && db.nextThumbnailId == old(db.nextThumbnailId)
    ensures res.Ok? ==>
      && res.value.0 == old(db.nextThumbnailId) && res.value.0 !in old(db.thumbnails) && db.nextThumbnailId == res.value.0 + 1
      && res.value.1.image == image && res.value.1.height == size && res.value.1.url.Some?
      && db.thumbnails == old(db.thumbnails)[res.value.0 := res.value.1]
  {
    res := CreateThumbnail(db, image, size);
  }

  /**
   * One pass of the thumbnail loop: create the thumbnail for `sizes[k]` and
   * record its URL under that height's key, extending what the first `k`
   * passes saved; an undecodable source stops the loop with nothing saved.
   */
  method SaveThumbnailAt(db: Database, image: ImageId, sizes: seq<nat>, k: nat, data: map<string, string>,
                         ghost before: map<ThumbnailId, Thumbnail>, ghost first: ThumbnailId)
    returns (res: Result<map<string, string>, Failure>)
    requires db.Valid() && image in db.images && k < |sizes|
    requires db.nextThumbnailId == first + k
    requires ThumbnailsSavedUpTo(data, before, db.thumbnails, first, image, sizes, k)
    modifies db`thumbnails, db`minted, db`nextThumbnailId
    ensures db.Valid()
    ensures res.Err? <==> db.images[image].imageFile.size.None?
    ensures res.Err? ==>
      && res.error == ServerError
      && db.thumbnails == old(db.thumbnails) && db.minted == old(db.minted) && db.nextThumbnailId == old(db.nextThumbnailId)
    ensures res.Ok? ==>
      && db.nextThumbnailId == first + k + 1
      && ThumbnailsSavedUpTo(res.value, before, db.thumbnails, first, image, sizes, k + 1)
  {
    ghost var mid := db.thumbnails;
    var created := CreateThumbnailRow(db, image, sizes[k]);
    if created.Err? {
      return Err(ServerError);
    }
    var t := created.value.1;
    var data' := data[ThumbnailKey(sizes[k]) := t.url.value];
    ThumbnailsSavedStep(data, data', before, mid, db.thumbnails, first, image, sizes, k, t);
    return Ok(data');
  }

  /**
   * The part of an upload after the image is stored: the role's thumbnail
   * sizes, the thumbnail loop, and the original's key when shown.
   */
  method AnswerUpload(db: Database, roleName: string, id: ImageId) returns (res: Result<map<string, string>, Failure>)
    requires db.Valid() && id in db.images && roleName in db.roles
    modifies db`thumbnails, db`minted, db`nextThumbnailId
    ensures db.Valid()
    ensures UploadAnswered(res, db.roles, roleName, id, db.images[id], old(db.thumbnails), db.thumbnails, old(db.nextThumbnailId))
  {
    var image := db.images[id];
    var sizes := ThumbnailSizes(db.roles, roleName);
    if sizes.None? {
      UploadAnsweredNoSizes(db.roles, roleName, id, image, db.thumbnails, db.nextThumbnailId);
      return Err(ServerError);
    }
    var answer := SaveThumbnails(db, id, sizes.value);
    if answer.Err? {
      UploadAnsweredUndecodable(db.roles, roleName, id, image, db.thumbnails, db.nextThumbnailId);
      return Err(ServerError);
    }
    var response := if UploadShowsOriginal(roleName, db.roles[roleName]) then answer.value[OriginalKey := image.imageUrl] else answer.value;
    UploadAnsweredSaved(db.roles, roleName, id, image, old(db.thumbnails), db.thumbnails, old(db.nextThumbnailId), answer.value, response);
    return Ok(response);
  }

  /** The accepted upload is saved as a new Image owned by the uploader, under its composed name. */
  method StoreUpload(db: Database, username: string, upload: UploadedFile, now: int) returns (id: ImageId)
    requires db.Valid() && username in db.users
    modifies db`images, db`minted, db`nextImageId
    ensures db.Valid()
    ensures id == old(db.nextImageId)
    ensures StoredUpload(old(db.images), db.images, id, username, upload, now)
  {
    var saved;
    id, saved := db.SaveImage(NewImage(upload, username, ComposedName(upload.name, username)), now);
    StoredUploadOfSave(old(db.images), db.images, id, username, upload, now, saved);
  }

  /**
   * `ImageUploadView.create`: a rejected upload stores nothing and answers
   * the rejection. Otherwise the image is stored under a new key with its
   * composed name, and the response is as UploadAnswered describes.
   */
  method Upload(db: Database, username: string, file: Option<UploadedFile>, now: int)
    returns (res: Result<map<string, string>, Failure>)
    requires db.Valid() && username in db.users
    modifies db`images, db`minted, db`nextImageId, db`thumbnails, db`nextThumbnailId
    ensures db.Valid()
    ensures UploadRejection(db.users, old(db.images), username, file).Some? ==>
      && res == Err(UploadRejection(db.users, old(db.images), username, file).value)
      && db.images == old(db.images) && db.thumbnails == old(db.thumbnails) && db.minted == old(db.minted)
    ensures UploadRejection(db.users, old(db.images), username, file).None? ==>
      && StoredUpload(old(db.images), db.images, old(db.nextImageId), username, file.value, now)
      && UploadAnswered(res, db.roles, db.users[username].role.value, old(db.nextImageId), db.images[old(db.nextImageId)],
                        old(db.thumbnails), db.thumbnails, old(db.nextThumbnailId))
  {
    var rejection := UploadRejection(db.users, db.images, username, file);
    if rejection.Some? {
      return Err(rejection.value);
    }
    var roleName := db.users[username].role.value;
    var id := StoreUpload(db, username, file.value, now);
    res := AnswerUpload(db, roleName, id);
  }
}
