# ImageUploadAPI — a verified model of the upload, listing and link handlers

This project models the core of ImageUploadAPI, a Django image-hosting service.

- Users hold a Role. A Role sets the thumbnail heights a user gets, whether they see the original image's URL, and whether they may create expiring links.
- An upload stores an Image under a composed name and creates one Thumbnail per height. The answer maps "{size}px_thumbnail" to each new thumbnail's URL, plus "original_image" when shown.
- Originals, thumbnails and expiring links are served by a URL. That URL is minted when the record is saved.

The model is organised as follows:

- `Wrappers`: Option and Result.
- `Text`: `str()` of a non-negative integer, and POSIX `os.path.splitext`.
- `Accounts` (accounts/models.py): the Role and user tables as pure functions. Role names are unique and at most 20 characters. A user's role is nullable and protected against deletion. A new account gets Basic by default, as the docstrings and tests promise; the field declaration itself has no default (see "## Left out").
- `ImageRecords` (images/models.py): Image, Thumbnail and ExpiringImage rows. It also holds the URL constants and the store invariant. That invariant says every row carries the URL minted for it, so no two rows share a URL. There is one lemma per kind of table change.
- `ImageModels`: the `Database` class. Its methods are the `save()` overrides (which mint a fresh URL), the expiring-link save and delete, and the on-delete cascades.
- `ImageUtils` (images/utils.py): `create_thumbnail`.
- `ViewRules`: the decisions of images/views.py as pure functions, and the predicates that describe what each handler answers.
- `ImageViews` (images/views.py): the handlers as methods over the `Database`.

Design decisions:

- **Method contracts.** The handlers are imperative, as in the source. Each method's `ensures` ties its answer and the new tables to the functions and predicates of `ViewRules`. Lemmas prove what those promise.
- **Listing loop.** The list loop is proved against `ViewRules.Listing`, a function that mirrors it. `ListingInOrder` proves the listing holds the owned images numbered from 1, in key order, and nothing else.
- **Thumbnail loop.** The thumbnail loop keeps `ThumbnailsSavedUpTo` as its invariant.
- **Freshness.** The UUID generator is a fresh-token oracle: `MintToken` returns a token whose URL was never minted. The database remembers every URL it minted and the row it minted it for. This is what makes the lookups by URL find at most one row.
- **Inputs.** The requesting user is the `username` argument. The clock is the `now` argument, as whole seconds. The uploaded file is the `file` argument.

Where the code and its documented intent differ, the model follows the code:

- **Duplicate-name check.** The upload handler checks the raw upload name against the stored names (images/views.py:214). It stores the composed, longer name instead (images/views.py:211-212, 223). So a second upload of the same file passes the check, and `ViewRules.RepeatUploadPassesNameCheck` proves it.
- **Undecodable file.** An upload whose bytes are no image fails inside `create_thumbnail` with an uncaught exception, after the Image row is saved. The model answers that with `ServerError` (HTTP 500), not a validation error, and keeps the stored Image.
- **Missing file.** An upload without the `image_file` field raises when the handler reads the name. The model answers `ServerError` (HTTP 500).
- **Content type.** The original is always served as "image/jpeg", whatever the type of the upload.
- **Enterprise and originals.** Enterprise users always get "original_image" in the upload answer. Listing and detail show the original only when the role's `allow_original` flag is set. `ViewRules.OriginalExposureDiffers` states exactly when the two disagree.

## Model

| member | source | states |
|---|---|---|
| Text.Decimal | images/views.py:243 | `str(n)` as an f-string writes it: at least one digit, only digits, no leading zero, a single digit exactly below 10 |
| Text.DecimalRoundTrip | images/views.py:243 | the digits `str(n)` writes spell `n` back (round trip through DigitsValue) |
| Text.DecimalInjective | images/views.py:243 | different numbers print differently, so keys built from sizes and positions never collide |
| Text.SplitExt | images/views.py:211 | `os.path.splitext`: root + extension is the name; the extension is empty or a dot with no further dot or slash; an extension is split off exactly when the last component has a dot after some non-dot character |
| Text.LastIndex | images/views.py:211 | `rfind` of one character: the index holds the character and nothing after it does, or -1 |
| Accounts.NewRole | accounts/models.py:24-27 | a Role created with only its name has height 200 and both flags off |
| Accounts.SeededRoles | accounts/tests.py:23-25 | the seeded table holds exactly Basic, Premium and Enterprise, all with names within the column length |
| Accounts.AddRole | accounts/models.py:24 | inserting a Role fails exactly when the name is taken or longer than 20, with that error; otherwise adds exactly that row and keeps the others |
| Accounts.AddRoleKeepsTables | accounts/models.py:24 | a successful insert keeps names within the bound and every user's role resolvable |
| Accounts.DeleteRole | accounts/models.py:42 | deleting a Role fails exactly when it is missing or some user points at it (PROTECT); otherwise removes exactly that row |
| Accounts.DeleteRoleKeepsReferences | accounts/models.py:42 | a successful delete never leaves a user pointing at a missing Role |
| Accounts.InitialRole | accounts/tests.py:41 | a new account's role is the requested one, or Basic when none is given |
| Accounts.CreateUser | accounts/models.py:34-42 | creating an account fails exactly when the username is taken or the role does not exist; otherwise adds exactly that user |
| Accounts.CreateUserKeepsTables | accounts/models.py:42 | creating an account keeps every user's role resolvable |
| Accounts.DefaultAccountIsBasic | accounts/tests.py:33-45 | on the seeded roles an account created without a role gets height 200, no original and no expiring links |
| ImageRecords.NewImage | images/models.py:27-31 | an unsaved Image carries its file, owner and name, and the URL column's default |
| ImageRecords.NewThumbnail | images/models.py:46-51 | an unsaved Thumbnail points at its Image, has height 200, no file and a null URL |
| ImageRecords.ImageUrlsDistinct | images/models.py:33-36 | two stored Images with the same URL are the same Image |
| ImageRecords.ThumbnailUrlsDistinct | images/models.py:53-56 | two stored Thumbnails with the same URL are the same Thumbnail |
| ImageRecords.LinkUrlsDistinct | images/views.py:103-107 | two stored expiring links with the same URL are the same link |
| ImageRecords.StoreOkInsertImage | images/models.py:33-36 | saving a new Image under the next key with a fresh URL keeps the store invariant |
| ImageRecords.StoreOkUpdateImageUrl | images/models.py:33-36 | re-saving an Image with a fresh URL keeps the invariant, and the new URL differs from the old |
| ImageRecords.StoreOkInsertThumbnail | images/models.py:53-56 | saving a new Thumbnail of a stored Image with a fresh URL keeps the invariant |
| ImageRecords.StoreOkUpdateThumbnailUrl | images/models.py:53-56 | re-saving a Thumbnail with a fresh URL keeps the invariant, and the new URL differs from the old |
| ImageRecords.StoreOkInsertExpiring | images/views.py:103-106 | saving a new link to a stored Image with a fresh URL keeps the invariant |
| ImageRecords.StoreOkDeleteExpiring | images/views.py:136 | deleting a link keeps the invariant |
| ImageRecords.StoreOkDeleteImages | images/models.py:27-49 | deleting users and images, cascading to thumbnails and links, keeps the invariant when surviving images have surviving owners |
| ImageRecords.NotOwnedBy | images/models.py:27 | the images that survive deleting a user are exactly those the user does not own, unchanged |
| ImageRecords.ThumbnailsOfImages | images/models.py:47-49 | the thumbnails that survive a cascade are exactly those whose Image survives, unchanged |
| ImageRecords.LinksOfImages | images/views.py:103-104 | the links that survive a cascade are exactly those whose Image survives, unchanged |
| ImageModels.Database.constructor | accounts/models.py:15-42 | a database over valid account tables starts valid with no images |
| ImageModels.Database.MintToken | images/models.py:35 | the UUID generator: the token's URL under the prefix was never minted |
| ImageModels.Database.SaveImage | images/models.py:33-36 | `Image.save()` on a new row: a fresh "http://127.0.0.1:8000/api/v1/img/" URL, the upload date stamped, one row added under a new key, the invariant kept |
| ImageModels.Database.ResaveImage | images/models.py:33-36 | `Image.save()` again re-mints: the new URL differs from the old, nothing else changes |
| ImageModels.Database.SaveThumbnail | images/models.py:53-56 | `Thumbnail.save()` on a new row: a fresh "/tmb/" URL, one row added under a new key, the invariant kept |
| ImageModels.Database.ResaveThumbnail | images/models.py:53-56 | `Thumbnail.save()` again re-mints: the new URL differs from the old, nothing else changes |
| ImageModels.Database.SaveExpiring | images/views.py:103-106 | one new link with the given image and expiry time and a fresh URL; nothing else added |
| ImageModels.Database.DeleteExpiring | images/views.py:136 | exactly that link is removed, the invariant kept |
| ImageModels.Database.DeleteImage | images/models.py:47-49 | deleting an Image removes exactly its thumbnails and links |
| ImageModels.Database.DeleteUser | images/models.py:27 | deleting a user removes exactly the images they own, and from those their thumbnails and links |
| ImageUtils.BoundingBox | images/utils.py:28-31 | the resizer's height bound is the requested size |
| ImageUtils.BoundingBoxKeepsAspect | images/utils.py:28-30 | the width bound is the largest whole number whose ratio to the height does not exceed the source's aspect ratio |
| ImageUtils.CreateThumbnail | images/utils.py:12-46 | an undecodable source fails with nothing saved; otherwise exactly one Thumbnail is saved and returned: parent `image`, height `size`, file named file_name + ".jpg" typed "image/jpeg" over the source fitted to the bounding box, a fresh URL |
| ViewRules.ComposedName | images/views.py:211-212 | the stored name is the root, "_" and the username, then the extension, in that order |
| ViewRules.UploadRejection | images/views.py:204-221 | in order: no role gives 400; a missing file raises; otherwise the upload passes exactly when no stored name equals the raw name and the type is JPEG or PNG, and fails with 400 when not |
| ViewRules.NameTaken | images/views.py:214 | some stored Image has the name as its stored name |
| ViewRules.AllowedType | images/views.py:217-221 | the declared type is "image/jpeg" or "image/png" |
| ViewRules.ThumbnailSizes | images/views.py:226-239 | no Basic or Premium row raises; Basic gets [Basic], Premium and Enterprise [Basic, Premium], any other role [its own height] |
| ViewRules.SeededSizes | images/views.py:226-236 | on the seeded roles: Basic [200], Premium and Enterprise [200, 400] |
| ViewRules.TiersAreCumulative | images/views.py:226-236 | Basic's sizes start Premium's; Enterprise gets Premium's, whatever its own height |
| ViewRules.UploadShowsOriginal | images/views.py:246 | the upload answer shows the original for Enterprise or a role allowing originals |
| ViewRules.ListingShowsOriginal | images/views.py:263 | listing and detail show the original exactly when the role allows originals |
| ViewRules.OriginalExposureDiffers | images/views.py:246 | the upload and the listing disagree about showing the original exactly for an Enterprise row without `allow_original` |
| ViewRules.ThumbnailKey | images/views.py:243 | "{size}px_thumbnail" starts with a digit |
| ViewRules.UrlKey | images/views.py:169 | "{height}px_url" starts with a digit |
| ViewRules.ThumbnailKeyInjective | images/views.py:243 | different sizes get different upload keys |
| ViewRules.UrlKeyInjective | images/views.py:169 | different heights get different summary keys |
| ViewRules.ListKey | images/views.py:267 | the list key "image{position}" |
| ViewRules.ListKeyInjective | images/views.py:267 | different positions get different "image{n}" keys |
| ViewRules.ThumbnailKeyNotOriginal | images/views.py:243-247 | no thumbnail key is "original_image" |
| ViewRules.UploadKeys | images/views.py:241-247 | the answer keys: every size's key, "original_image" exactly when shown, nothing else |
| ViewRules.BasicUploadKeys | images/tests.py:81-82 | a Basic upload answers "200px_thumbnail" and not "400px_thumbnail" |
| ViewRules.ThumbnailListing | images/views.py:259-262 | the thumbnail loop's map over the keys below a bound, in key order, a later thumbnail overwriting its height's key |
| ViewRules.ThumbnailListingComplete | images/views.py:166-169 | every thumbnail of the image has its height's key, and every key answers some thumbnail of that height |
| ViewRules.SummaryOf | images/views.py:171-176 | an entry carries the image's key and stored name, and the original's URL exactly when shown |
| ViewRules.OwnedIds | images/views.py:255 | the requester's image keys below a bound, ascending |
| ViewRules.OwnedIdsExact | images/views.py:255 | the owned keys: exactly the requester's images, each once, ascending |
| ViewRules.AddedThumbnailsStep | images/views.py:241-243 | one loop pass adds the row for the next size, pointing at the image with that height |
| ViewRules.ThumbnailAnswersStep | images/views.py:241-243 | after one pass, the new size's key answers the new row's URL and earlier keys still answer theirs |
| ViewRules.OnlyThumbnailKeysStep | images/views.py:241-243 | after one pass, every key is the key of a size handled so far |
| ViewRules.ThumbnailsSavedStep | images/views.py:241-244 | the loop invariant survives one pass |
| ViewRules.ThumbnailAnswersKeepOriginal | images/views.py:246-247 | adding "original_image" keeps every size's answer |
| ViewRules.StoredUploadOfSave | images/views.py:223-224 | saving the new Image row stores exactly one Image: the uploader's, with the file, the composed name, the date and a fresh URL |
| ViewRules.UploadAnsweredNoSizes | images/views.py:226-236 | a missing Basic or Premium row raises after the Image is stored, with no thumbnail saved |
| ViewRules.UploadAnsweredUndecodable | images/views.py:241-242 | an undecodable file raises at the first thumbnail, with no thumbnail saved |
| ViewRules.UploadAnsweredSaved | images/views.py:241-249 | a completed loop answers exactly UploadKeys, each size's key answering its new row, and the original's URL when shown |
| ViewRules.UploadResponseKeys | images/views.py:241-247 | the loop's keys plus the optional "original_image" are exactly UploadKeys |
| ViewRules.RepeatUploadPassesNameCheck | images/views.py:212-215 | after an upload is stored, the same raw name still passes the duplicate check |
| ViewRules.Listing | images/views.py:255-272 | the enumerate loop up to a key bound: each owned image added as "image{n}", n counting the owned images so far |
| ViewRules.EntriesNumberedAppend | images/views.py:257-272 | adding the next owned image as "image{n+1}" keeps every earlier entry |
| ViewRules.OnlyNumberedAppend | images/views.py:257-267 | adding "image{n+1}" keeps every key an "image{k}" with k up to n+1 |
| ViewRules.ListingInOrder | images/views.py:255-273 | the list loop's result has "image{j}" for the j-th owned image in key order, with its summary, and no other key |
| ViewRules.OwnedIdsCoverOwner | images/views.py:255 | every image the requester owns is listed |
| ViewRules.ExpiringRejection | images/views.py:81-101 | in order: a missing image 400, another owner's 403, a missing role raises, no `allow_expiring` 403, a time outside [300, 30000] 400; it passes exactly when all hold |
| ViewRules.Expired | images/views.py:135 | a link is expired only when now is strictly after its expiry time |
| ViewRules.TimeToExpireBoundsInclusive | images/views.py:100 | 300 and 30000 are accepted, 299 and 30001 refused |
| ViewRules.ImageLookupUrl | images/views.py:36 | the preview rebuilds the prefix `Image.save()` mints under, followed by the id |
| ViewRules.ThumbnailLookupUrl | images/views.py:56 | the preview rebuilds the prefix `Thumbnail.save()` mints under, followed by the id |
| ImageViews.PreviewImage | images/views.py:25-42 | 404 exactly when no Image has the lookup URL; otherwise that Image's bytes as "image/jpeg"; no table changes |
| ImageViews.PreviewThumbnail | images/views.py:45-62 | 404 when no Thumbnail has the lookup URL; otherwise its file as "image/jpeg", or a raise without a file; no table changes |
| ImageViews.ResolveExpiring | images/views.py:111-142 | unknown URL: 410, nothing changes; expired (now strictly after expiry): exactly that link deleted, 410; otherwise the image's bytes, nothing changes; after any 410 no link has the URL, so a later resolve is 410 too |
| ImageViews.CreateExpiring | images/views.py:71-108 | a rejected request answers ExpiringRejection's error and saves nothing; otherwise exactly one link to the image expiring at now + ttl, answered with its fresh URL |
| ImageViews.ThumbnailUrls | images/views.py:166-169 | the thumbnail loop's map is ThumbnailListing |
| ImageViews.Detail | images/views.py:147-177 | missing image 400, another owner's 403, missing role raises, otherwise the image's summary with the original's URL iff `allow_original`; no table changes |
| ImageViews.ListOwned | images/views.py:255-272 | the list loop computes Listing |
| ImageViews.List | images/views.py:251-273 | no role: 400; otherwise ListedInOrder over the requester's images; no table changes |
| ImageViews.SaveThumbnails | images/views.py:240-244 | undecodable source with sizes to make: a raise with no thumbnail saved; otherwise one new row per size, in order, each size's key answering its row's URL, no other key |
| ImageViews.CreateThumbnailRow | images/utils.py:24-46 | a proof helper restating part of CreateThumbnail: the new row's key, parent, height and URL, and the one-row table change |
| ImageViews.SaveThumbnailAt | images/views.py:242-243 | one pass extends what the earlier passes saved by the next size's row and key |
| ImageViews.StoreUpload | images/views.py:223-224 | an accepted upload is stored as StoredUpload describes |
| ImageViews.AnswerUpload | images/views.py:226-249 | what follows the store is UploadAnswered |
| ImageViews.Upload | images/views.py:204-249 | a rejected upload changes nothing and answers the rejection; otherwise exactly one Image is stored and the answer is UploadAnswered |

## Left out

- Pillow's decoding, resizing and JPEG encoding. An upload carries the pixel size its bytes decode to, or none. A thumbnail file records its source bytes and the bounding box it was fitted into.
- ImageUtils.BoundingBox: computes the width as `width * size / height` on integers. The source multiplies a floating-point aspect ratio and truncates, which can differ by one pixel where the float rounds. `BoundingBoxKeepsAspect` states the integer version's bounds.
- Django's ORM, the serializers and DRF's response objects. Tables are maps keyed by primary key. An answer's value is the URL the serializer would wrap (`{"url": …}`, `{"image_url": …}`).
- Authentication and `login_required`: the requester is a known username.
- `datetime.now()` and time zones: the clock is the `now` argument, in seconds.
- Parsing of `time_to_expire` with `int()`: the argument is already an integer, so a non-numeric value is not modelled.
- `UserViewSet`: a plain listing of all users, with no logic.
- Concurrency: two requests interleaving between the duplicate check and the insert, or between the expiry check and the delete.
- Listing order: `Image.objects.filter(owner=…)` and `image.thumbnails.all()` have no declared order. The model takes ascending primary keys, so a later thumbnail of the same height wins its key.
- ExpiringImage's declaration is not part of this model's sources. Its fields are those the handlers read and write. The on-delete cascade from its Image and its URL are assumed, the URL as an opaque fresh token.
- `file_name`'s limit of 255 characters is not enforced: the handler saves without validating it.
- `MultipleObjectsReturned` on the lookups by URL: the store invariant proves at most one row has a URL, so that branch cannot occur.
- `str(role)`: the role's name is its key in the role table.
- Accounts.InitialRole: gives an account created without a role the Basic role, as the docstrings (accounts/models.py:9, 39) and accounts/tests.py:41 promise. The field itself (accounts/models.py:42) is nullable with no default, and whatever assigns Basic is not part of this model's sources.
- ImageUtils.CreateThumbnail: does not model the failure of Pillow's resizer on a requested height of 0, which `thumbnail_size` (a PositiveIntegerField, accounts/models.py:25) admits. Pillow divides by the requested height, so the source raises after the Image is stored; the model saves a 0-high thumbnail and answers as for any other size. The resizer is foreign code and is not modelled.
- File I/O: `image_file.open()`/`read()` (images/views.py:40-41, 60-61, 139-140) are not modelled. Stored bytes are values held in the rows, so a stored file that is missing or unreadable on disk is not modelled.
