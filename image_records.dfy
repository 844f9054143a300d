/**
 * The image records of images/models.py as plain values: Image, Thumbnail and
 * ExpiringImage rows, the URL constants, and the table invariants the store
 * keeps, with one lemma per kind of table change showing the invariants survive it.
 */
module ImageRecords {
  import opened Wrappers
  import Accounts

  type ImageId = nat
  type ThumbnailId = nat
  type ExpiringId = nat
  type Positive = n: nat | n > 0 witness 1

  /** The pixel size the decoder reports for an upload. */
  datatype Dims = Dims(width: Positive, height: Positive)

  /**
   * An uploaded file: its client-side name, declared content type and bytes,
   * and the pixel size its bytes decode to (None when they are no raster image).
   */
  datatype UploadedFile = UploadedFile(name: string, contentType: string, bytes: seq<bv8>, size: Option<Dims>)

  /**
   * The JPEG file written for a thumbnail. The resized pixels are kept abstract:
   * the file records the source bytes and the bounding box they were fitted into.
   */
  datatype ThumbnailFile = ThumbnailFile(name: string, contentType: string, source: seq<bv8>, boxWidth: nat, boxHeight: nat)

  datatype Image = Image(owner: string, imageFile: UploadedFile, imageUrl: string, fileName: string, uploadDate: int)

  /** A derived image; `url` is null until the row is first saved. */
  datatype Thumbnail = Thumbnail(height: nat, image: ImageId, thumbnailFile: Option<ThumbnailFile>, url: Option<string>)

  datatype ExpiringImage = ExpiringImage(image: ImageId, expireTime: int, url: string)

  const CurrentSite := "127.0.0.1:8000/api/v1"
  /** Every minted image URL starts with this. */
  const ImagePrefix := "http://" + CurrentSite + "/img/"
  /** Every minted thumbnail URL starts with this. */
  const ThumbnailPrefix := "http://" + CurrentSite + "/tmb/"
  /** The image URL column's default, overwritten by every save. */
  const DefaultImageUrl := "http://127.0.0.1:8000/admin/images/image/"
  const DefaultThumbnailHeight := 200
  /** The two content types an upload may declare; thumbnails are always JPEG. */
  const JpegType := "image/jpeg"
  const PngType := "image/png"
  const FileNameMaxLength := 255

  /** An Image row before its first save: the URL column holds its default. */
  function NewImage(file: UploadedFile, owner: string, fileName: string): (img: Image)
    ensures img.imageFile == file && img.owner == owner && img.fileName == fileName
    ensures img.imageUrl == DefaultImageUrl
  {
    Image(owner, file, DefaultImageUrl, fileName, 0)
  }

  /** A Thumbnail row before its first save: default height, no file, no URL yet. */
  function NewThumbnail(image: ImageId): (t: Thumbnail)
    ensures t.image == image
    ensures t.height == DefaultThumbnailHeight && t.thumbnailFile.None? && t.url.None?
  {
    Thumbnail(DefaultThumbnailHeight, image, None, None)
  }

  /** The row a URL was minted for. */
  datatype Row = ImageRow(image: ImageId) | ThumbnailRow(thumbnail: ThumbnailId) | LinkRow(link: ExpiringId)

  /** Some string is longer than every string of a finite set, so a fresh token always exists. */
  lemma {:induction false} LongerThanAll(used: set<string>) returns (n: nat)
    ensures forall s :: s in used ==> |s| < n
    decreases used
  {
    if used == {} {
      n := 0;
    } else {
      var x :| x in used;
      var k := LongerThanAll(used - {x});
      n := if |x| < k then k else |x| + 1;
    }
  }

  /** Images belong to existing users and each carries the URL minted for it. */
  ghost predicate ImagesOk(images: map<ImageId, Image>, users: Accounts.UserTable, minted: map<string, Row>, next: ImageId) {
    forall i :: i in images ==>
      i < next && images[i].owner in users &&
      images[i].imageUrl in minted && minted[images[i].imageUrl] == ImageRow(i)
  }

  /** Thumbnails point at stored images, have all been saved, and each carries the URL minted for it. */
  ghost predicate ThumbnailsOk(thumbnails: map<ThumbnailId, Thumbnail>, images: map<ImageId, Image>, minted: map<string, Row>, next: ThumbnailId) {
    forall t :: t in thumbnails ==>
      t < next && thumbnails[t].image in images && thumbnails[t].url.Some? &&
      thumbnails[t].url.value in minted && minted[thumbnails[t].url.value] == ThumbnailRow(t)
  }

  /** Expiring links point at stored images and each carries the URL minted for it. */
  ghost predicate ExpiringOk(expiring: map<ExpiringId, ExpiringImage>, images: map<ImageId, Image>, minted: map<string, Row>, next: ExpiringId) {
    forall e :: e in expiring ==>
      e < next && expiring[e].image in images &&
      expiring[e].url in minted && minted[expiring[e].url] == LinkRow(e)
  }

  /** Every table invariant at once, over plain values. */
  ghost predicate StoreOk(users: Accounts.UserTable, roles: Accounts.RoleTable, images: map<ImageId, Image>,
                          thumbnails: map<ThumbnailId, Thumbnail>, expiring: map<ExpiringId, ExpiringImage>,
                          minted: map<string, Row>, nextImage: ImageId, nextThumbnail: ThumbnailId, nextExpiring: ExpiringId)
  {
    && Accounts.RoleTableValid(roles) && Accounts.RolesResolve(users, roles)
    && ImagesOk(images, users, minted, nextImage)
    && ThumbnailsOk(thumbnails, images, minted, nextThumbnail)
    && ExpiringOk(expiring, images, minted, nextExpiring)
  }

  /** No two stored images share a retrieval URL. */
  lemma ImageUrlsDistinct(images: map<ImageId, Image>, users: Accounts.UserTable, minted: map<string, Row>, next: ImageId, i: ImageId, j: ImageId)
    requires ImagesOk(images, users, minted, next) && i in images && j in images
    requires images[i].imageUrl == images[j].imageUrl
    ensures i == j
  {
  }

  /** No two stored thumbnails share a retrieval URL. */
  lemma ThumbnailUrlsDistinct(thumbnails: map<ThumbnailId, Thumbnail>, images: map<ImageId, Image>, minted: map<string, Row>, next: ThumbnailId, t: ThumbnailId, u: ThumbnailId)
    requires ThumbnailsOk(thumbnails, images, minted, next) && t in thumbnails && u in thumbnails
    requires thumbnails[t].url == thumbnails[u].url
    ensures t == u
  {
  }

  /** No two stored expiring links share a URL. */
  lemma LinkUrlsDistinct(expiring: map<ExpiringId, ExpiringImage>, images: map<ImageId, Image>, minted: map<string, Row>, next: ExpiringId, e: ExpiringId, f: ExpiringId)
    requires ExpiringOk(expiring, images, minted, next) && e in expiring && f in expiring
    requires expiring[e].url == expiring[f].url
    ensures e == f
  {
  }

  /** Saving a new Image under the next key with a freshly minted URL keeps every invariant. */
  lemma StoreOkInsertImage(users: Accounts.UserTable, roles: Accounts.RoleTable, images: map<ImageId, Image>,
                           thumbnails: map<ThumbnailId, Thumbnail>, expiring: map<ExpiringId, ExpiringImage>,
                           minted: map<string, Row>, ni: ImageId, nt: ThumbnailId, ne: ExpiringId, img: Image)
    requires StoreOk(users, roles, images, thumbnails, expiring, minted, ni, nt, ne)
    requires img.imageUrl !in minted && img.owner in users
    ensures ni !in images
    ensures StoreOk(users, roles, images[ni := img], thumbnails, expiring, minted[img.imageUrl := ImageRow(ni)], ni + 1, nt, ne)
  {
  }

  /** Re-saving an Image replaces its URL by a fresh one and keeps every invariant. */
  lemma StoreOkUpdateImageUrl(users: Accounts.UserTable, roles: Accounts.RoleTable, images: map<ImageId, Image>,
                              thumbnails: map<ThumbnailId, Thumbnail>, expiring: map<ExpiringId, ExpiringImage>,
                              minted: map<string, Row>, ni: ImageId, nt: ThumbnailId, ne: ExpiringId, id: ImageId, url: string)
    requires StoreOk(users, roles, images, thumbnails, expiring, minted, ni, nt, ne)
    requires id in images && url !in minted
    ensures images[id].imageUrl != url
    ensures StoreOk(users, roles, images[id := images[id].(imageUrl := url)], thumbnails, expiring, minted[url := ImageRow(id)], ni, nt, ne)
  {
  }

  /** Saving a new Thumbnail of a stored Image under the next key with a fresh URL keeps every invariant. */
  lemma StoreOkInsertThumbnail(users: Accounts.UserTable, roles: Accounts.RoleTable, images: map<ImageId, Image>,
                               thumbnails: map<ThumbnailId, Thumbnail>, expiring: map<ExpiringId, ExpiringImage>,
                               minted: map<string, Row>, ni: ImageId, nt: ThumbnailId, ne: ExpiringId, t: Thumbnail)
    requires StoreOk(users, roles, images, thumbnails, expiring, minted, ni, nt, ne)
    requires t.url.Some? && t.url.value !in minted && t.image in images
    ensures nt !in thumbnails
    ensures StoreOk(users, roles, images, thumbnails[nt := t], expiring, minted[t.url.value := ThumbnailRow(nt)], ni, nt + 1, ne)
  {
  }

  /** Re-saving a Thumbnail replaces its URL by a fresh one and keeps every invariant. */
  lemma StoreOkUpdateThumbnailUrl(users: Accounts.UserTable, roles: Accounts.RoleTable, images: map<ImageId, Image>,
                                  thumbnails: map<ThumbnailId, Thumbnail>, expiring: map<ExpiringId, ExpiringImage>,
                                  minted: map<string, Row>, ni: ImageId, nt: ThumbnailId, ne: ExpiringId, id: ThumbnailId, url: string)
    requires StoreOk(users, roles, images, thumbnails, expiring, minted, ni, nt, ne)
    requires id in thumbnails && url !in minted
    ensures thumbnails[id].url != Some(url)
    ensures StoreOk(users, roles, images, thumbnails[id := thumbnails[id].(url := Some(url))], expiring, minted[url := ThumbnailRow(id)], ni, nt, ne)
  {
  }

  /** Saving a new expiring link to a stored Image with a fresh URL keeps every invariant. */
  lemma StoreOkInsertExpiring(users: Accounts.UserTable, roles: Accounts.RoleTable, images: map<ImageId, Image>,
                              thumbnails: map<ThumbnailId, Thumbnail>, expiring: map<ExpiringId, ExpiringImage>,
                              minted: map<string, Row>, ni: ImageId, nt: ThumbnailId, ne: ExpiringId, e: ExpiringImage)
    requires StoreOk(users, roles, images, thumbnails, expiring, minted, ni, nt, ne)
    requires e.url !in minted && e.image in images
    ensures ne !in expiring
    ensures StoreOk(users, roles, images, thumbnails, expiring[ne := e], minted[e.url := LinkRow(ne)], ni, nt, ne + 1)
  {
  }

  /** Deleting an expiring link keeps every invariant. */
  lemma StoreOkDeleteExpiring(users: Accounts.UserTable, roles: Accounts.RoleTable, images: map<ImageId, Image>,
                              thumbnails: map<ThumbnailId, Thumbnail>, expiring: map<ExpiringId, ExpiringImage>,
                              minted: map<string, Row>, ni: ImageId, nt: ThumbnailId, ne: ExpiringId, id: ExpiringId)
    requires StoreOk(users, roles, images, thumbnails, expiring, minted, ni, nt, ne)
    ensures StoreOk(users, roles, images, thumbnails, expiring - {id}, minted, ni, nt, ne)
  {
  }

  /** The images whose owner is not `username`. */
  function NotOwnedBy(images: map<ImageId, Image>, username: string): (kept: map<ImageId, Image>)
    ensures forall i :: i in kept <==> i in images && images[i].owner != username
    ensures forall i :: i in kept ==> kept[i] == images[i]
  {
    map i | i in images && images[i].owner != username :: images[i]
  }

  /** The thumbnails whose image is still in `images`: what survives an on-delete cascade. */
  function ThumbnailsOfImages(thumbnails: map<ThumbnailId, Thumbnail>, images: map<ImageId, Image>): (kept: map<ThumbnailId, Thumbnail>)
    ensures forall t :: t in kept <==> t in thumbnails && thumbnails[t].image in images
    ensures forall t :: t in kept ==> kept[t] == thumbnails[t]
  {
    map t | t in thumbnails && thumbnails[t].image in images :: thumbnails[t]
  }

  /** The expiring links whose image is still in `images`: what survives an on-delete cascade. */
  function LinksOfImages(expiring: map<ExpiringId, ExpiringImage>, images: map<ImageId, Image>): (kept: map<ExpiringId, ExpiringImage>)
    ensures forall e :: e in kept <==> e in expiring && expiring[e].image in images
    ensures forall e :: e in kept ==> kept[e] == expiring[e]
  {
    map e | e in expiring && expiring[e].image in images :: expiring[e]
  }

  /**
   * Deleting users and images, with the on-delete cascade to thumbnails and
   * links, keeps every invariant as long as the surviving images belong to
   * surviving users.
   */
  lemma StoreOkDeleteImages(users: Accounts.UserTable, roles: Accounts.RoleTable, images: map<ImageId, Image>,
                            thumbnails: map<ThumbnailId, Thumbnail>, expiring: map<ExpiringId, ExpiringImage>,
                            minted: map<string, Row>, ni: ImageId, nt: ThumbnailId, ne: ExpiringId,
                            users': Accounts.UserTable, images': map<ImageId, Image>)
    requires StoreOk(users, roles, images, thumbnails, expiring, minted, ni, nt, ne)
    requires users'.Keys <= users.Keys && (forall u :: u in users' ==> users'[u] == users[u])
    requires images'.Keys <= images.Keys && (forall i :: i in images' ==> images'[i] == images[i] && images[i].owner in users')
    ensures StoreOk(users', roles, images', ThumbnailsOfImages(thumbnails, images'), LinksOfImages(expiring, images'), minted, ni, nt, ne)
  {
  }
}
