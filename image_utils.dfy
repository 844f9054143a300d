/**
 * Thumbnail creation (images/utils.py): a new Thumbnail row for a stored
 * Image, with the requested height, a JPEG file named after the Image and
 * fitted into a bounding box of the requested height, saved once.
 *
 * The image decoder and resizer are not modelled: an uploaded file carries
 * the pixel size its bytes decode to (or none), and the thumbnail file
 * records its source bytes and the bounding box the resizer was given.
 */
module ImageUtils {
  import opened Wrappers
  import opened ImageRecords
  import opened ImageModels

  const ThumbnailExtension := ".jpg"

  /**
   * The box handed to the resizer for a target height: the width is the
   * source aspect ratio times the height, truncated to an integer, and the
   * height is the target itself.
   */
  function BoundingBox(dims: Dims, size: nat): (box: (nat, nat))
    ensures box.1 == size
  {
    (dims.width * size / dims.height, size)
  }

  /**
   * The box keeps the source's aspect ratio up to truncation: its width is
   * the largest whole number whose ratio to the height does not exceed the
   * source's width-to-height ratio.
   */
  lemma BoundingBoxKeepsAspect(dims: Dims, size: nat)
    ensures var box := BoundingBox(dims, size);
      box.0 * dims.height <= dims.width * size < (box.0 + 1) * dims.height
  {
  }

  /** Why creating a thumbnail can fail: the source bytes are no raster image. */
  datatype ThumbnailError = Undecodable

  /**
   * `create_thumbnail(image, size)`: on a decodable source, exactly one new
   * Thumbnail row is saved, pointing at `image`, with height `size`, a file
   * named after the Image's stored name with ".jpg" appended, typed
   * "image/jpeg", and a freshly minted URL; the saved row is returned. On an
   * undecodable source the decoder raises before anything is saved.
   */
  method CreateThumbnail(db: Database, image: ImageId, size: nat) returns (res: Result<(ThumbnailId, Thumbnail), ThumbnailError>)
    requires db.Valid() && image in db.images
    modifies db`thumbnails, db`minted, db`nextThumbnailId
    ensures db.Valid()
    ensures res.Err? <==> old(db.images[image].imageFile.size).None?
    ensures res.Err? ==> db.thumbnails == old(db.thumbnails) && db.minted == old(db.minted) && db.nextThumbnailId == old(db.nextThumbnailId)
    ensures res.Ok? ==>
      var (id, t) := res.value;
      var file := old(db.images[image].imageFile);
      && id == old(db.nextThumbnailId) && id !in old(db.thumbnails) && db.nextThumbnailId == id + 1
      && t.image == image && t.height == size
      && t.thumbnailFile == Some(ThumbnailFile(old(db.images[image].fileName) + ThumbnailExtension, JpegType, file.bytes,
                                               BoundingBox(file.size.value, size).0, size))
      && t.url.Some? && t.url.value !in old(db.minted) && (exists token :: t.url.value == ThumbnailPrefix + token)
      && db.thumbnails == old(db.thumbnails)[id := t]
      && db.minted == old(db.minted)[t.url.value := ThumbnailRow(id)]
  {
    var source := db.images[image];
    if source.imageFile.size.None? {
      return Err(Undecodable);
    }
    var thumbnail := NewThumbnail(image);
    thumbnail := thumbnail.(height := size);
    var box := BoundingBox(source.imageFile.size.value, size);
    var file := ThumbnailFile(source.fileName + ThumbnailExtension, JpegType, source.imageFile.bytes, box.0, box.1);
    thumbnail := thumbnail.(thumbnailFile := Some(file));
    var id, saved := db.SaveThumbnail(thumbnail);
    return Ok((id, saved));
  }
}
