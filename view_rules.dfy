/**
 * The decisions the request handlers of images/views.py make, as pure
 * functions over the tables: the ordered validation of an upload and of an
 * expiring-link request, the role-to-thumbnail-sizes table, when the original
 * URL is exposed, and the keys of the JSON responses.
 *
 * Record listings follow the tables' primary keys in ascending order.
 */
module ViewRules {
  import opened Wrappers
  import opened Text
  import Accounts
  import opened ImageRecords

  /**
   * How a request fails, by HTTP status: ValidationError 400, PermissionDenied
   * 403, NotFound 404, Gone 410, and ServerError 500 for an exception the
   * handler does not catch.
   */
  datatype Failure = ValidationError | PermissionDenied | NotFound | Gone | ServerError

  /** A row's summary as the detail and list responses render it. */
  datatype ImageSummary = ImageSummary(imageId: ImageId, fileName: string, originalUrl: Option<string>,
                                       thumbnails: map<string, Option<string>>)

  /** What a file-serving response carries: the stored original, or a thumbnail file. */
  datatype Body = OriginalBytes(bytes: seq<bv8>) | ThumbnailBytes(file: ThumbnailFile)
  datatype FileResponse = FileResponse(body: Body, contentType: string)

  const MinTimeToExpire := 300
  const MaxTimeToExpire := 30000
  const OriginalKey := "original_image"

  // ---------------------------------------------------------------- upload

  /** The stored name of an upload: its root, "_", the uploader's username, its extension. */
  function ComposedName(raw: string, username: string): (name: string)
    ensures |name| == |raw| + 1 + |username|
    ensures name[..|SplitExt(raw).0|] == SplitExt(raw).0
    ensures name[|SplitExt(raw).0|..|SplitExt(raw).0| + 1 + |username|] == "_" + username
    ensures name[|name| - |SplitExt(raw).1|..] == SplitExt(raw).1
  {
    var (root, ext) := SplitExt(raw);
    root + "_" + username + ext
  }

  /** Some stored image already has `name` as its stored name. */
  predicate NameTaken(images: map<ImageId, Image>, name: string) {
    exists i :: i in images && images[i].fileName == name
  }

  predicate AllowedType(contentType: string) {
    contentType == JpegType || contentType == PngType
  }

  /**
   * The checks an upload passes before anything is stored, in the order the
   * handler makes them: the user has a role, a file was sent (reading the
   * name of a missing file raises), no stored image has the upload's raw
   * name as its stored name, and the declared type is JPEG or PNG.
   */
  function UploadRejection(users: Accounts.UserTable, images: map<ImageId, Image>, username: string,
                           file: Option<UploadedFile>): (rejection: Option<Failure>)
    requires username in users
    ensures users[username].role.None? ==> rejection == Some(ValidationError)
    ensures users[username].role.Some? && file.None? ==> rejection == Some(ServerError)
    ensures users[username].role.Some? && file.Some? ==>
      (rejection.None? <==> !NameTaken(images, file.value.name) && AllowedType(file.value.contentType))
    ensures users[username].role.Some? && file.Some? && rejection.Some? ==> rejection == Some(ValidationError)
  {
    if users[username].role.None? then Some(ValidationError)
    else if file.None? then Some(ServerError)
    else if NameTaken(images, file.value.name) then Some(ValidationError)
    else if !AllowedType(file.value.contentType) then Some(ValidationError)
    else None
  }

  /**
   * The thumbnail heights an upload gets. The table is built eagerly from the
   * Basic and Premium rows, so it is None when either row is missing. Basic
   * gets the Basic height, Premium and Enterprise the Basic and Premium
   * heights, and any other role its own height.
   */
  function ThumbnailSizes(roles: Accounts.RoleTable, roleName: string): (sizes: Option<seq<nat>>)
    requires roleName in roles
    ensures sizes.None? <==> Accounts.BasicName !in roles || Accounts.PremiumName !in roles
    ensures sizes.Some? ==> 1 <= |sizes.value| <= 2 && (|sizes.value| == 2 <==> roleName in {Accounts.PremiumName, Accounts.EnterpriseName})
    ensures sizes.Some? && roleName !in {Accounts.PremiumName, Accounts.EnterpriseName} ==> sizes.value == [roles[roleName].thumbnailSize]
    ensures sizes.Some? && roleName in {Accounts.PremiumName, Accounts.EnterpriseName} ==>
      sizes.value == [roles[Accounts.BasicName].thumbnailSize, roles[Accounts.PremiumName].thumbnailSize]
  {
    if Accounts.BasicName !in roles || Accounts.PremiumName !in roles then None
    else
      var basic := roles[Accounts.BasicName].thumbnailSize;
      var premium := roles[Accounts.PremiumName].thumbnailSize;
      if roleName == Accounts.BasicName then Some([basic])
      else if roleName == Accounts.PremiumName || roleName == Accounts.EnterpriseName then Some([basic, premium])
      else Some([roles[roleName].thumbnailSize])
  }

  /** On the seeded roles: Basic gets 200, Premium and Enterprise get 200 and 400. */
  lemma SeededSizes()
    ensures ThumbnailSizes(Accounts.SeededRoles(), Accounts.BasicName) == Some([200])
    ensures ThumbnailSizes(Accounts.SeededRoles(), Accounts.PremiumName) == Some([200, 400])
    ensures ThumbnailSizes(Accounts.SeededRoles(), Accounts.EnterpriseName) == Some([200, 400])
  {
  }

  /**
   * The tiers stack: Basic's sizes start Premium's, Enterprise gets exactly
   * Premium's, whatever height the Enterprise row itself carries.
   */
  lemma TiersAreCumulative(roles: Accounts.RoleTable, enterpriseSize: nat)
    requires Accounts.BasicName in roles && Accounts.PremiumName in roles && Accounts.EnterpriseName in roles
    ensures ThumbnailSizes(roles, Accounts.BasicName).value <= ThumbnailSizes(roles, Accounts.PremiumName).value
    ensures ThumbnailSizes(roles, Accounts.EnterpriseName) == ThumbnailSizes(roles, Accounts.PremiumName)
    ensures var roles' := roles[Accounts.EnterpriseName := roles[Accounts.EnterpriseName].(thumbnailSize := enterpriseSize)];
      ThumbnailSizes(roles', Accounts.EnterpriseName) == ThumbnailSizes(roles, Accounts.EnterpriseName)
  {
  }

  /** The upload response carries the original's URL for Enterprise, whatever its flag, and for any role allowing originals. */
  predicate UploadShowsOriginal(roleName: string, role: Accounts.Role) {
    roleName == Accounts.EnterpriseName || role.allowOriginal
  }

  /** The list and detail responses carry the original's URL only for roles allowing originals. */
  predicate ListingShowsOriginal(role: Accounts.Role) {
    role.allowOriginal
  }

  /** Upload and listing disagree about the original exactly for an Enterprise row without the flag. */
  lemma OriginalExposureDiffers(roleName: string, role: Accounts.Role)
    ensures UploadShowsOriginal(roleName, role) != ListingShowsOriginal(role)
        <==> roleName == Accounts.EnterpriseName && !role.allowOriginal
  {
  }

  // ---------------------------------------------------------------- response keys

  /** The upload response's key for a thumbnail height: "{size}px_thumbnail". */
  function ThumbnailKey(size: nat): (key: string)
    ensures |key| > 0 && '0' <= key[0] <= '9'
  {
    Decimal(size) + "px_thumbnail"
  }

  /** A summary's key for a thumbnail height: "{height}px_url". */
  function UrlKey(height: nat): (key: string)
    ensures |key| > 0 && '0' <= key[0] <= '9'
  {
    Decimal(height) + "px_url"
  }

  /** The list response's key for the entry at 1-based `position`: "image{position}". */
  function ListKey(position: nat): string
  {
    "image" + Decimal(position)
  }

  lemma ThumbnailKeyInjective(a: nat, b: nat)
    requires ThumbnailKey(a) == ThumbnailKey(b)
    ensures a == b
  {
    SuffixCancel(Decimal(a), Decimal(b), "px_thumbnail");
    DecimalInjective(a, b);
  }

  lemma UrlKeyInjective(a: nat, b: nat)
    requires UrlKey(a) == UrlKey(b)
    ensures a == b
  {
    SuffixCancel(Decimal(a), Decimal(b), "px_url");
    DecimalInjective(a, b);
  }

  lemma ListKeyInjective(a: nat, b: nat)
    requires ListKey(a) == ListKey(b)
    ensures a == b
  {
    PrefixCancel("image", Decimal(a), Decimal(b));
    DecimalInjective(a, b);
  }

  /** No thumbnail key collides with the original's key. */
  lemma ThumbnailKeyNotOriginal(size: nat)
    ensures ThumbnailKey(size) != OriginalKey
  {
    assert OriginalKey[0] == 'o';
  }

  /** The keys of a successful upload response: one per size, and the original's when shown. */
  function UploadKeys(sizes: seq<nat>, showsOriginal: bool): (keys: set<string>)
    ensures forall s :: s in sizes ==> ThumbnailKey(s) in keys
    ensures OriginalKey in keys <==> showsOriginal
    ensures forall k :: k in keys ==> k == OriginalKey || exists s :: s in sizes && k == ThumbnailKey(s)
  {
    forall s | s in sizes ensures ThumbnailKey(s) != OriginalKey {
      ThumbnailKeyNotOriginal(s);
    }
    (set s | s in sizes :: ThumbnailKey(s)) + (if showsOriginal then {OriginalKey} else {})
  }

  lemma DecimalOf200And400()
    ensures Decimal(200) == "200" && Decimal(400) == "400"
  {
    assert Decimal(2) == "2";
    assert Decimal(20) == "20";
    assert Decimal(4) == "4";
    assert Decimal(40) == "40";
  }

  /**
   * A Basic user's upload on the seeded roles answers a "200px_thumbnail"
   * key and no "400px_thumbnail" key.
   */
  lemma BasicUploadKeys()
    ensures ThumbnailSizes(Accounts.SeededRoles(), Accounts.BasicName) == Some([200])
    ensures !UploadShowsOriginal(Accounts.BasicName, Accounts.Basic)
    ensures "200px_thumbnail" in UploadKeys([200], false)
    ensures "400px_thumbnail" !in UploadKeys([200], false)
  {
    DecimalOf200And400();
    assert ThumbnailKey(200) == "200px_thumbnail";
    assert ThumbnailKey(400) == "400px_thumbnail";
    if "400px_thumbnail" in UploadKeys([200], false) {
      ThumbnailKeyInjective(400, 200);
    }
  }

  // ---------------------------------------------------------------- listings

  /**
   * The thumbnail part of a summary: for each thumbnail of `image` with a key
   * below `upTo`, in ascending key order, "{height}px_url" maps to its URL;
   * a later thumbnail of the same height overwrites an earlier one.
   */
  function ThumbnailListing(thumbnails: map<ThumbnailId, Thumbnail>, image: ImageId, upTo: nat): map<string, Option<string>>
  {
    if upTo == 0 then map[]
    else
      var t := upTo - 1;
      var earlier := ThumbnailListing(thumbnails, image, t);
      if t in thumbnails && thumbnails[t].image == image then earlier[UrlKey(thumbnails[t].height) := thumbnails[t].url]
      else earlier
  }

  /** Every thumbnail of the image has its height's key, and every key is some thumbnail's height and URL. */
  lemma {:induction false} ThumbnailListingComplete(thumbnails: map<ThumbnailId, Thumbnail>, image: ImageId, upTo: nat)
    ensures forall t :: t < upTo && t in thumbnails && thumbnails[t].image == image ==>
      UrlKey(thumbnails[t].height) in ThumbnailListing(thumbnails, image, upTo)
    ensures forall k :: k in ThumbnailListing(thumbnails, image, upTo) ==>
      exists t :: t < upTo && t in thumbnails && thumbnails[t].image == image &&
        k == UrlKey(thumbnails[t].height) && ThumbnailListing(thumbnails, image, upTo)[k] == thumbnails[t].url
  {
    if upTo > 0 {
      ThumbnailListingComplete(thumbnails, image, upTo - 1);
    }
  }

  /** The summary of image `id`: its key, stored name, the original's URL when shown, and its thumbnails. */
  function SummaryOf(images: map<ImageId, Image>, thumbnails: map<ThumbnailId, Thumbnail>, nextThumbnail: ThumbnailId,
                     id: ImageId, showsOriginal: bool): (summary: ImageSummary)
    requires id in images
    ensures summary.imageId == id && summary.fileName == images[id].fileName
    ensures summary.originalUrl.Some? <==> showsOriginal
    ensures summary.originalUrl.Some? ==> summary.originalUrl.value == images[id].imageUrl
  {
    ImageSummary(id, images[id].fileName, if showsOriginal then Some(images[id].imageUrl) else None,
                 ThumbnailListing(thumbnails, id, nextThumbnail))
  }

  /** The keys below `upTo` of the images `username` owns, ascending. */
  function OwnedIds(images: map<ImageId, Image>, username: string, upTo: nat): seq<ImageId>
  {
    if upTo == 0 then []
    else
      var i := upTo - 1;
      OwnedIds(images, username, i) + if i in images && images[i].owner == username then [i] else []
  }

  /** OwnedIds holds exactly the owned keys below the bound, each once, in ascending order. */
  lemma {:induction false} OwnedIdsExact(images: map<ImageId, Image>, username: string, upTo: nat)
    ensures forall i :: i in OwnedIds(images, username, upTo) <==> i < upTo && i in images && images[i].owner == username
    ensures forall j, k :: 0 <= j < k < |OwnedIds(images, username, upTo)| ==>
      OwnedIds(images, username, upTo)[j] < OwnedIds(images, username, upTo)[k]
  {
    if upTo > 0 {
      var i := upTo - 1;
      OwnedIdsExact(images, username, i);
      var earlier := OwnedIds(images, username, i);
      forall j | 0 <= j < |earlier|
        ensures earlier[j] < i
      {
        assert earlier[j] in earlier;
      }
    }
  }

  // ---------------------------------------------------------------- what an upload stores and answers

  /** `after` is `before` plus one new Image under key `id`, owned by the uploader, holding the file under its composed name. */
  ghost predicate StoredUpload(before: map<ImageId, Image>, after: map<ImageId, Image>, id: ImageId,
                               username: string, file: UploadedFile, now: int)
  {
    && id !in before && after.Keys == before.Keys + {id}
    && (forall i :: i in before ==> after[i] == before[i])
    && after[id].owner == username && after[id].imageFile == file && after[id].uploadDate == now
    && after[id].fileName == ComposedName(file.name, username)
    && (exists token :: after[id].imageUrl == ImagePrefix + token)
  }

  /**
   * `after` is `before` plus one Thumbnail row for each of the first `count`
   * sizes, under the keys from `first` on, in order, each pointing at `image`
   * with that size as its height and carrying a URL.
   */
  ghost predicate AddedThumbnails(before: map<ThumbnailId, Thumbnail>, after: map<ThumbnailId, Thumbnail>,
                                  first: ThumbnailId, image: ImageId, sizes: seq<nat>, count: nat)
  {
    && count <= |sizes|
    && (forall t :: t in after <==> t in before || first <= t < first + count)
    && (forall t :: t in before ==> t < first && after[t] == before[t])
    && (forall t :: first <= t < first + count ==>
          t in after && after[t].image == image && after[t].height == sizes[t - first] && after[t].url.Some?)
  }

  /**
   * Each of the first `count` sizes has its key, answering the URL of one of
   * the rows from `first` on whose height is that size.
   */
  ghost predicate ThumbnailAnswers(data: map<string, string>, thumbnails: map<ThumbnailId, Thumbnail>,
                                   first: ThumbnailId, sizes: seq<nat>, count: nat)
  {
    && count <= |sizes|
    && forall k :: 0 <= k < count ==>
         ThumbnailKey(sizes[k]) in data &&
         exists t :: first <= t < first + count && t in thumbnails && thumbnails[t].height == sizes[k] &&
           thumbnails[t].url == Some(data[ThumbnailKey(sizes[k])])
  }

  /** Every key is the key of one of the first `count` sizes. */
  ghost predicate OnlyThumbnailKeys(data: map<string, string>, sizes: seq<nat>, count: nat) {
    forall key :: key in data ==> exists k :: 0 <= k < count && k < |sizes| && key == ThumbnailKey(sizes[k])
  }

  /** One step of the thumbnail loop: the row for size `count` joins the table. */
  lemma AddedThumbnailsStep(before: map<ThumbnailId, Thumbnail>, mid: map<ThumbnailId, Thumbnail>, after: map<ThumbnailId, Thumbnail>,
                            first: ThumbnailId, image: ImageId, sizes: seq<nat>, count: nat, t: Thumbnail)
    requires AddedThumbnails(before, mid, first, image, sizes, count) && count < |sizes|
    requires first + count !in mid && after == mid[first + count := t]
    requires t.image == image && t.height == sizes[count] && t.url.Some?
    ensures AddedThumbnails(before, after, first, image, sizes, count + 1)
  {
  }

  /** One step of the thumbnail loop: the key of size `count` answers the new row's URL. */
  lemma {:induction false} ThumbnailAnswersStep(data: map<string, string>, data': map<string, string>,
                                                mid: map<ThumbnailId, Thumbnail>, after: map<ThumbnailId, Thumbnail>,
                                                first: ThumbnailId, sizes: seq<nat>, count: nat, t: Thumbnail)
    requires ThumbnailAnswers(data, mid, first, sizes, count) && count < |sizes|
    requires after == mid[first + count := t] && t.height == sizes[count] && t.url.Some?
    requires data' == data[ThumbnailKey(sizes[count]) := t.url.value]
    ensures ThumbnailAnswers(data', after, first, sizes, count + 1)
  {
    forall k | 0 <= k < count + 1
      ensures ThumbnailKey(sizes[k]) in data'
      ensures exists u :: first <= u < first + count + 1 && u in after && after[u].height == sizes[k] &&
                after[u].url == Some(data'[ThumbnailKey(sizes[k])])
    {
      if ThumbnailKey(sizes[k]) == ThumbnailKey(sizes[count]) {
        ThumbnailKeyInjective(sizes[k], sizes[count]);
        assert after[first + count] == t;
      } else {
        var u :| first <= u < first + count && u in mid && mid[u].height == sizes[k] &&
                 mid[u].url == Some(data[ThumbnailKey(sizes[k])]);
        assert after[u] == mid[u];
      }
    }
  }

  lemma {:induction false} OnlyThumbnailKeysStep(data: map<string, string>, data': map<string, string>,
                                                 sizes: seq<nat>, count: nat, url: string)
    requires OnlyThumbnailKeys(data, sizes, count) && count < |sizes|
    requires data' == data[ThumbnailKey(sizes[count]) := url]
    ensures OnlyThumbnailKeys(data', sizes, count + 1)
  {
    forall key | key in data'
      ensures exists k :: 0 <= k < count + 1 && k < |sizes| && key == ThumbnailKey(sizes[k])
    {
      if key != ThumbnailKey(sizes[count]) {
        var k :| 0 <= k < count && k < |sizes| && key == ThumbnailKey(sizes[k]);
        assert k < count + 1;
      }
    }
  }

  /** The thumbnail loop after `count` sizes: their rows added, and only their keys, each answering such a row. */
  ghost predicate ThumbnailsSavedUpTo(data: map<string, string>, before: map<ThumbnailId, Thumbnail>, after: map<ThumbnailId, Thumbnail>,
                                      first: ThumbnailId, image: ImageId, sizes: seq<nat>, count: nat)
  {
    && AddedThumbnails(before, after, first, image, sizes, count)
    && ThumbnailAnswers(data, after, first, sizes, count)
    && OnlyThumbnailKeys(data, sizes, count)
  }

  /** The thumbnail loop's whole effect. */
  ghost predicate ThumbnailsSaved(data: map<string, string>, before: map<ThumbnailId, Thumbnail>, after: map<ThumbnailId, Thumbnail>,
                                  first: ThumbnailId, image: ImageId, sizes: seq<nat>)
  {
    ThumbnailsSavedUpTo(data, before, after, first, image, sizes, |sizes|)
  }

  /** One step of the thumbnail loop: the row for size `count` is added and its key answers the row's URL. */
  lemma ThumbnailsSavedStep(data: map<string, string>, data': map<string, string>, before: map<ThumbnailId, Thumbnail>,
                            mid: map<ThumbnailId, Thumbnail>, after: map<ThumbnailId, Thumbnail>,
                            first: ThumbnailId, image: ImageId, sizes: seq<nat>, count: nat, t: Thumbnail)
    requires ThumbnailsSavedUpTo(data, before, mid, first, image, sizes, count) && count < |sizes|
    requires first + count !in mid && after == mid[first + count := t]
    requires t.image == image && t.height == sizes[count] && t.url.Some?
    requires data' == data[ThumbnailKey(sizes[count]) := t.url.value]
    ensures ThumbnailsSavedUpTo(data', before, after, first, image, sizes, count + 1)
  {
    AddedThumbnailsStep(before, mid, after, first, image, sizes, count, t);
    ThumbnailAnswersStep(data, data', mid, after, first, sizes, count, t);
    OnlyThumbnailKeysStep(data, data', sizes, count, t.url.value);
  }

  /** Adding the original's key leaves every size's answer as it was. */
  lemma {:induction false} ThumbnailAnswersKeepOriginal(data: map<string, string>, thumbnails: map<ThumbnailId, Thumbnail>,
                                                        first: ThumbnailId, sizes: seq<nat>, url: string)
    requires ThumbnailAnswers(data, thumbnails, first, sizes, |sizes|)
    ensures ThumbnailAnswers(data[OriginalKey := url], thumbnails, first, sizes, |sizes|)
  {
    var data' := data[OriginalKey := url];
    forall k | 0 <= k < |sizes|
      ensures ThumbnailKey(sizes[k]) in data' && data'[ThumbnailKey(sizes[k])] == data[ThumbnailKey(sizes[k])]
    {
      ThumbnailKeyNotOriginal(sizes[k]);
    }
  }

  /**
   * What an upload that passed its checks answers, once image `id` is
   * stored: a missing Basic or Premium row raises; an undecodable file raises
   * at the first thumbnail; otherwise every size's thumbnail is saved and the
   * response has exactly UploadKeys, each size's key answering a new row of
   * that height, and the original's key answering the image URL when shown.
   * A raise leaves the thumbnail table as it was; the image stays stored.
   */
  ghost predicate UploadAnswered(res: Result<map<string, string>, Failure>, roles: Accounts.RoleTable, roleName: string,
                                 id: ImageId, image: Image, before: map<ThumbnailId, Thumbnail>,
                                 after: map<ThumbnailId, Thumbnail>, first: ThumbnailId)
  {
    && roleName in roles
    && match ThumbnailSizes(roles, roleName)
       case None => res == Err(ServerError) && after == before
       case Some(sizes) =>
         && (res.Err? <==> image.imageFile.size.None?)
         && (res.Err? ==> res.error == ServerError && after == before)
         && (res.Ok? ==>
               && res.value.Keys == UploadKeys(sizes, UploadShowsOriginal(roleName, roles[roleName]))
               && AddedThumbnails(before, after, first, id, sizes, |sizes|)
               && ThumbnailAnswers(res.value, after, first, sizes, |sizes|)
               && (UploadShowsOriginal(roleName, roles[roleName]) ==> res.value[OriginalKey] == image.imageUrl))
  }

  /** Saving the new Image row under a fresh key is a stored upload. */
  lemma StoredUploadOfSave(before: map<ImageId, Image>, after: map<ImageId, Image>, id: ImageId,
                           username: string, file: UploadedFile, now: int, saved: Image)
    requires id !in before && after == before[id := saved]
    requires saved == NewImage(file, username, ComposedName(file.name, username)).(imageUrl := saved.imageUrl, uploadDate := now)
    requires exists token :: saved.imageUrl == ImagePrefix + token
    ensures StoredUpload(before, after, id, username, file, now)
  {
  }

  /** Without the Basic or Premium row, the upload raises once the image is stored. */
  lemma UploadAnsweredNoSizes(roles: Accounts.RoleTable, roleName: string, id: ImageId, image: Image,
                              thumbnails: map<ThumbnailId, Thumbnail>, first: ThumbnailId)
    requires roleName in roles && ThumbnailSizes(roles, roleName).None?
    ensures UploadAnswered(Err(ServerError), roles, roleName, id, image, thumbnails, thumbnails, first)
  {
  }

  /** An undecodable file raises at the first thumbnail, which every role gets. */
  lemma UploadAnsweredUndecodable(roles: Accounts.RoleTable, roleName: string, id: ImageId, image: Image,
                                  thumbnails: map<ThumbnailId, Thumbnail>, first: ThumbnailId)
    requires roleName in roles && ThumbnailSizes(roles, roleName).Some? && image.imageFile.size.None?
    ensures UploadAnswered(Err(ServerError), roles, roleName, id, image, thumbnails, thumbnails, first)
  {
  }

  /** After the thumbnail loop, the response adds the original's key when shown. */
  lemma UploadAnsweredSaved(roles: Accounts.RoleTable, roleName: string, id: ImageId, image: Image,
                            before: map<ThumbnailId, Thumbnail>, after: map<ThumbnailId, Thumbnail>, first: ThumbnailId,
                            data: map<string, string>, response: map<string, string>)
    requires roleName in roles && ThumbnailSizes(roles, roleName).Some? && image.imageFile.size.Some?
    requires ThumbnailsSaved(data, before, after, first, id, ThumbnailSizes(roles, roleName).value)
    requires response == if UploadShowsOriginal(roleName, roles[roleName]) then data[OriginalKey := image.imageUrl] else data
    ensures UploadAnswered(Ok(response), roles, roleName, id, image, before, after, first)
  {
    var sizes := ThumbnailSizes(roles, roleName).value;
    var shows := UploadShowsOriginal(roleName, roles[roleName]);
    UploadResponseKeys(data, response, sizes, shows, image.imageUrl);
    if shows {
      ThumbnailAnswersKeepOriginal(data, after, first, sizes, image.imageUrl);
    }
  }

  /**
   * The upload response's keys: the thumbnail loop's keys, plus the
   * original's key when the original is shown, are UploadKeys.
   */
  lemma UploadResponseKeys(data: map<string, string>, response: map<string, string>, sizes: seq<nat>,
                           showsOriginal: bool, url: string)
    requires forall k :: 0 <= k < |sizes| ==> ThumbnailKey(sizes[k]) in data
    requires OnlyThumbnailKeys(data, sizes, |sizes|)
    requires response == if showsOriginal then data[OriginalKey := url] else data
    ensures response.Keys == UploadKeys(sizes, showsOriginal)
  {
    var keys := UploadKeys(sizes, showsOriginal);
    forall key | key in response
      ensures key in keys
    {
      if key != OriginalKey {
        var k :| 0 <= k < |sizes| && key == ThumbnailKey(sizes[k]);
        assert sizes[k] in sizes;
      }
    }
    forall key | key in keys
      ensures key in response
    {
      if key != OriginalKey {
        var s :| s in sizes && key == ThumbnailKey(s);
        var k :| 0 <= k < |sizes| && sizes[k] == s;
        ThumbnailKeyNotOriginal(s);
      }
    }
  }

  /**
   * The duplicate check compares the raw upload name against stored names,
   * and an upload stores its composed name, which is longer: so after an
   * upload passes the check, the same upload passes it again.
   */
  lemma RepeatUploadPassesNameCheck(before: map<ImageId, Image>, after: map<ImageId, Image>, id: ImageId,
                                    username: string, file: UploadedFile, now: int)
    requires StoredUpload(before, after, id, username, file, now)
    requires !NameTaken(before, file.name)
    ensures !NameTaken(after, file.name)
  {
    assert |after[id].fileName| == |file.name| + 1 + |username|;
  }

  // ---------------------------------------------------------------- what a listing answers

  /**
   * The list loop up to key `upTo`: each image `username` owns, in key
   * order, is added under "image{n}", n counting the owned images so far.
   */
  function Listing(images: map<ImageId, Image>, thumbnails: map<ThumbnailId, Thumbnail>, nextThumbnail: ThumbnailId,
                   username: string, showsOriginal: bool, upTo: nat): map<string, ImageSummary>
  {
    if upTo == 0 then map[]
    else
      var i := upTo - 1;
      var earlier := Listing(images, thumbnails, nextThumbnail, username, showsOriginal, i);
      if i in images && images[i].owner == username then
        earlier[ListKey(|OwnedIds(images, username, i)| + 1) := SummaryOf(images, thumbnails, nextThumbnail, i, showsOriginal)]
      else earlier
  }

  /** The entry "image{position}" summarises the image at that 1-based position of `owned`. */
  ghost predicate EntriesNumbered(data: map<string, ImageSummary>, owned: seq<ImageId>, images: map<ImageId, Image>,
                                  thumbnails: map<ThumbnailId, Thumbnail>, nextThumbnail: ThumbnailId, showsOriginal: bool)
  {
    forall position :: 1 <= position <= |owned| ==>
      ListKey(position) in data && owned[position - 1] in images &&
      data[ListKey(position)] == SummaryOf(images, thumbnails, nextThumbnail, owned[position - 1], showsOriginal)
  }

  /** Every key is "image{position}" for a position from 1 to `count`. */
  ghost predicate OnlyNumbered(data: map<string, ImageSummary>, count: nat) {
    forall key :: key in data ==> exists position :: 1 <= position <= count && key == ListKey(position)
  }

  /** The list response: one numbered entry per image of `owned`, in order, and no other entries. */
  ghost predicate ListedInOrder(data: map<string, ImageSummary>, owned: seq<ImageId>, images: map<ImageId, Image>,
                                thumbnails: map<ThumbnailId, Thumbnail>, nextThumbnail: ThumbnailId, showsOriginal: bool)
  {
    EntriesNumbered(data, owned, images, thumbnails, nextThumbnail, showsOriginal) && OnlyNumbered(data, |owned|)
  }

  lemma {:induction false} EntriesNumberedAppend(data: map<string, ImageSummary>, owned: seq<ImageId>, images: map<ImageId, Image>,
                                                 thumbnails: map<ThumbnailId, Thumbnail>, nextThumbnail: ThumbnailId,
                                                 showsOriginal: bool, pk: ImageId,
                                                 data': map<string, ImageSummary>, owned': seq<ImageId>)
    requires pk in images && owned' == owned + [pk]
    requires data' == data[ListKey(|owned| + 1) := SummaryOf(images, thumbnails, nextThumbnail, pk, showsOriginal)]
    requires EntriesNumbered(data, owned, images, thumbnails, nextThumbnail, showsOriginal)
    ensures EntriesNumbered(data', owned', images, thumbnails, nextThumbnail, showsOriginal)
  {
    forall position | 1 <= position <= |owned'|
      ensures ListKey(position) in data' && owned'[position - 1] in images
      ensures data'[ListKey(position)] == SummaryOf(images, thumbnails, nextThumbnail, owned'[position - 1], showsOriginal)
    {
      if position <= |owned| {
        if ListKey(position) == ListKey(|owned| + 1) {
          ListKeyInjective(position, |owned| + 1);
        }
        assert owned'[position - 1] == owned[position - 1];
      }
    }
  }

  lemma {:induction false} OnlyNumberedAppend(data: map<string, ImageSummary>, count: nat, summary: ImageSummary,
                                              data': map<string, ImageSummary>)
    requires data' == data[ListKey(count + 1) := summary]
    requires OnlyNumbered(data, count)
    ensures OnlyNumbered(data', count + 1)
  {
    forall key | key in data'
      ensures exists position :: 1 <= position <= count + 1 && key == ListKey(position)
    {
      if key == ListKey(count + 1) {
        assert 1 <= count + 1;
      } else {
        var position :| 1 <= position <= count && key == ListKey(position);
        assert position <= count + 1;
      }
    }
  }

  /** The list loop's result numbers exactly the owned images below `upTo`, in key order. */
  lemma {:induction false} ListingInOrder(images: map<ImageId, Image>, thumbnails: map<ThumbnailId, Thumbnail>, nextThumbnail: ThumbnailId,
                                          username: string, showsOriginal: bool, upTo: nat)
    ensures ListedInOrder(Listing(images, thumbnails, nextThumbnail, username, showsOriginal, upTo),
                          OwnedIds(images, username, upTo), images, thumbnails, nextThumbnail, showsOriginal)
  {
    if upTo > 0 {
      var i := upTo - 1;
      var earlier := Listing(images, thumbnails, nextThumbnail, username, showsOriginal, i);
      var owned := OwnedIds(images, username, i);
      ListingInOrder(images, thumbnails, nextThumbnail, username, showsOriginal, i);
      if i in images && images[i].owner == username {
        var summary := SummaryOf(images, thumbnails, nextThumbnail, i, showsOriginal);
        var listing := Listing(images, thumbnails, nextThumbnail, username, showsOriginal, upTo);
        var owned' := OwnedIds(images, username, upTo);
        assert listing == earlier[ListKey(|owned| + 1) := summary];
        assert owned' == owned + [i];
        EntriesNumberedAppend(earlier, owned, images, thumbnails, nextThumbnail, showsOriginal, i, listing, owned');
        OnlyNumberedAppend(earlier, |owned|, summary, listing);
      } else {
        assert Listing(images, thumbnails, nextThumbnail, username, showsOriginal, upTo) == earlier;
        assert OwnedIds(images, username, upTo) == owned;
      }
    }
  }

  /** When every image key is below `next`, OwnedIds up to `next` lists every image `username` owns. */
  lemma OwnedIdsCoverOwner(images: map<ImageId, Image>, username: string, next: ImageId, i: ImageId)
    requires forall k :: k in images ==> k < next
    requires i in images && images[i].owner == username
    ensures i in OwnedIds(images, username, next)
  {
    OwnedIdsExact(images, username, next);
  }

  // ---------------------------------------------------------------- expiring links

  /**
   * The checks an expiring-link request passes, in order: the image exists,
   * the requester owns it, the requester's role allows expiring links
   * (reading the flag of a missing role raises), and the time to expire lies
   * in [300, 30000] seconds.
   */
  function ExpiringRejection(users: Accounts.UserTable, roles: Accounts.RoleTable, images: map<ImageId, Image>,
                             username: string, id: ImageId, timeToExpire: int): (rejection: Option<Failure>)
    requires username in users && Accounts.RolesResolve(users, roles)
    ensures rejection.None? <==>
      && id in images && images[id].owner == username
      && users[username].role.Some? && roles[users[username].role.value].allowExpiring
      && MinTimeToExpire <= timeToExpire <= MaxTimeToExpire
    ensures id !in images ==> rejection == Some(ValidationError)
    ensures id in images && images[id].owner != username ==> rejection == Some(PermissionDenied)
    ensures id in images && images[id].owner == username && users[username].role.None? ==> rejection == Some(ServerError)
    ensures (id in images && images[id].owner == username && users[username].role.Some? &&
             !roles[users[username].role.value].allowExpiring) ==> rejection == Some(PermissionDenied)
    ensures (id in images && images[id].owner == username && users[username].role.Some? &&
             roles[users[username].role.value].allowExpiring &&
             (timeToExpire < MinTimeToExpire || timeToExpire > MaxTimeToExpire)) ==> rejection == Some(ValidationError)
  {
    var role := users[username].role;
    if id !in images then Some(ValidationError)
    else if images[id].owner != username then Some(PermissionDenied)
    else if role.None? then Some(ServerError)
    else if !roles[role.value].allowExpiring then Some(PermissionDenied)
    else if timeToExpire < MinTimeToExpire || timeToExpire > MaxTimeToExpire then Some(ValidationError)
    else None
  }

  /** Both ends of the time-to-expire range are accepted, and one second beyond either end is refused. */
  lemma TimeToExpireBoundsInclusive(users: Accounts.UserTable, roles: Accounts.RoleTable, images: map<ImageId, Image>,
                                    username: string, id: ImageId)
    requires username in users && Accounts.RolesResolve(users, roles)
    requires ExpiringRejection(users, roles, images, username, id, 1000).None?
    ensures ExpiringRejection(users, roles, images, username, id, MinTimeToExpire).None?
    ensures ExpiringRejection(users, roles, images, username, id, MaxTimeToExpire).None?
    ensures ExpiringRejection(users, roles, images, username, id, MinTimeToExpire - 1) == Some(ValidationError)
    ensures ExpiringRejection(users, roles, images, username, id, MaxTimeToExpire + 1) == Some(ValidationError)
  {
  }

  /** A link is served while `now` has not passed its expiry time: the expiry instant itself still serves. */
  predicate Expired(link: ExpiringImage, now: int) {
    now > link.expireTime
  }

  // ---------------------------------------------------------------- lookup URLs

  /** The URL an original's preview looks up: the prefix every image URL is minted under, then the id. */
  function ImageLookupUrl(randomId: string): (url: string)
    ensures url == ImagePrefix + randomId
  {
    "http://127.0.0.1:8000/api/v1/img/" + randomId
  }

  /** The URL a thumbnail's preview looks up: the prefix every thumbnail URL is minted under, then the id. */
  function ThumbnailLookupUrl(randomId: string): (url: string)
    ensures url == ThumbnailPrefix + randomId
  {
    "http://127.0.0.1:8000/api/v1/tmb/" + randomId
  }

  const ExpiringLookupPrefix := "http://127.0.0.1:8000/api/v1/exp/"
}
