/**
 * The image records (images/models.py) and the store that holds every table.
 *
 * Image and Thumbnail are rows; their `save()` overrides assign a freshly
 * minted retrieval URL, "http://" + site + "/img/" (or "/tmb/") followed by a
 * new UUID, before writing the row. The UUID generator is modelled as a
 * fresh-token oracle: any token whose URL has not been minted before; the
 * store remembers every URL it minted and the row it minted it for, which is
 * what makes retrieval URLs unique. ExpiringImage is used by
 * the handlers but its declaration is not part of this model's sources: its
 * fields are the ones the handlers read and write, and its URL is taken to be
 * an opaque freshly minted token.
 */
module ImageModels {
  import opened Wrappers
  import Accounts
  import opened ImageRecords

  /** The database: the account tables, the three image tables, and every URL minted so far. */
  class Database {
    var users: Accounts.UserTable
    var roles: Accounts.RoleTable
    var images: map<ImageId, Image>
    var thumbnails: map<ThumbnailId, Thumbnail>
    var expiring: map<ExpiringId, ExpiringImage>
    var minted: map<string, Row>
    var nextImageId: ImageId
    var nextThumbnailId: ThumbnailId
    var nextExpiringId: ExpiringId

    ghost predicate Valid()
      reads this
    {
      StoreOk(users, roles, images, thumbnails, expiring, minted, nextImageId, nextThumbnailId, nextExpiringId)
    }

    /** A database holding the given accounts and no images. */
    constructor (roles: Accounts.RoleTable, users: Accounts.UserTable)
      requires Accounts.RoleTableValid(roles) && Accounts.RolesResolve(users, roles)
      ensures Valid()
      ensures this.roles == roles && this.users == users
      ensures images == map[] && thumbnails == map[] && expiring == map[] && minted == map[]
    {
      this.roles := roles;
      this.users := users;
      images, thumbnails, expiring, minted := map[], map[], map[], map[];
      nextImageId, nextThumbnailId, nextExpiringId := 0, 0, 0;
    }

    /** The UUID generator: a token whose URL under `prefix` was never minted before. */
    method MintToken(prefix: string) returns (token: string)
      ensures prefix + token !in minted
    {
      var n := LongerThanAll(minted.Keys);
      assert prefix + seq(n, _ => 'u') !in minted;
      token :| prefix + token !in minted;
    }

    /** `Image.save()` on a new row: mint the image URL, stamp the upload date, insert under a new key. */
    method SaveImage(img: Image, now: int) returns (id: ImageId, saved: Image)
      requires Valid() && img.owner in users
      modifies this`images, this`minted, this`nextImageId
      ensures Valid()
      ensures id == old(nextImageId) && id !in old(images) && nextImageId == id + 1
      ensures saved.imageUrl !in old(minted) && exists token :: saved.imageUrl == ImagePrefix + token
      ensures saved == img.(imageUrl := saved.imageUrl, uploadDate := now)
      ensures images == old(images)[id := saved]
      ensures minted == old(minted)[saved.imageUrl := ImageRow(id)]
    {
      var token := MintToken(ImagePrefix);
      saved := img.(imageUrl := ImagePrefix + token, uploadDate := now);
      id := nextImageId;
      StoreOkInsertImage(users, roles, images, thumbnails, expiring, minted, id, nextThumbnailId, nextExpiringId, saved);
      images, minted, nextImageId := images[id := saved], minted[saved.imageUrl := ImageRow(id)], id + 1;
    }

    /** `Image.save()` on a stored row: a new URL replaces the old one, nothing else changes. */
    method ResaveImage(id: ImageId) returns (url: string)
      requires Valid() && id in images
      modifies this`images, this`minted
      ensures Valid()
      ensures url != old(images[id].imageUrl)
      ensures url !in old(minted) && exists token :: url == ImagePrefix + token
      ensures images == old(images)[id := old(images[id]).(imageUrl := url)]
      ensures minted == old(minted)[url := ImageRow(id)]
    {
      var token := MintToken(ImagePrefix);
      url := ImagePrefix + token;
      StoreOkUpdateImageUrl(users, roles, images, thumbnails, expiring, minted, nextImageId, nextThumbnailId, nextExpiringId, id, url);
      images, minted := images[id := images[id].(imageUrl := url)], minted[url := ImageRow(id)];
    }

    /** `Thumbnail.save()` on a new row: mint the thumbnail URL and insert under a new key. */
    method SaveThumbnail(t: Thumbnail) returns (id: ThumbnailId, saved: Thumbnail)
      requires Valid() && t.image in images
      modifies this`thumbnails, this`minted, this`nextThumbnailId
      ensures Valid()
      ensures id == old(nextThumbnailId) && id !in old(thumbnails) && nextThumbnailId == id + 1
      ensures saved.url.Some? && saved.url.value !in old(minted) && exists token :: saved.url.value == ThumbnailPrefix + token
      ensures saved == t.(url := saved.url)
      ensures thumbnails == old(thumbnails)[id := saved]
      ensures minted == old(minted)[saved.url.value := ThumbnailRow(id)]
    {
      var token := MintToken(ThumbnailPrefix);
      saved := t.(url := Some(ThumbnailPrefix + token));
      id := nextThumbnailId;
      StoreOkInsertThumbnail(users, roles, images, thumbnails, expiring, minted, nextImageId, id, nextExpiringId, saved);
      thumbnails, minted, nextThumbnailId := thumbnails[id := saved], minted[saved.url.value := ThumbnailRow(id)], id + 1;
    }

    /** `Thumbnail.save()` on a stored row: a new URL replaces the old one, nothing else changes. */
    method ResaveThumbnail(id: ThumbnailId) returns (url: string)
      requires Valid() && id in thumbnails
      modifies this`thumbnails, this`minted
      ensures Valid()
      ensures Some(url) != old(thumbnails[id].url)
      ensures url !in old(minted) && exists token :: url == ThumbnailPrefix + token
      ensures thumbnails == old(thumbnails)[id := old(thumbnails[id]).(url := Some(url))]
      ensures minted == old(minted)[url := ThumbnailRow(id)]
    {
      var token := MintToken(ThumbnailPrefix);
      url := ThumbnailPrefix + token;
      StoreOkUpdateThumbnailUrl(users, roles, images, thumbnails, expiring, minted, nextImageId, nextThumbnailId, nextExpiringId, id, url);
      thumbnails, minted := thumbnails[id := thumbnails[id].(url := Some(url))], minted[url := ThumbnailRow(id)];
    }

    /** Saving a new expiring link: its URL is a fresh opaque token. */
    method SaveExpiring(image: ImageId, expireTime: int) returns (id: ExpiringId, url: string)
      requires Valid() && image in images
      modifies this`expiring, this`minted, this`nextExpiringId
      ensures Valid()
      ensures id == old(nextExpiringId) && id !in old(expiring) && nextExpiringId == id + 1
      ensures url !in old(minted)
      ensures expiring == old(expiring)[id := ExpiringImage(image, expireTime, url)]
      ensures minted == old(minted)[url := LinkRow(id)]
    {
      url := MintToken("");
      assert "" + url == url;
      id := nextExpiringId;
      StoreOkInsertExpiring(users, roles, images, thumbnails, expiring, minted, nextImageId, nextThumbnailId, id, ExpiringImage(image, expireTime, url));
      expiring, minted, nextExpiringId := expiring[id := ExpiringImage(image, expireTime, url)], minted[url := LinkRow(id)], id + 1;
    }

    /** Deleting one expiring link. */
    method DeleteExpiring(id: ExpiringId)
      requires Valid() && id in expiring
      modifies this`expiring
      ensures Valid()
      ensures expiring == old(expiring) - {id}
    {
      StoreOkDeleteExpiring(users, roles, images, thumbnails, expiring, minted, nextImageId, nextThumbnailId, nextExpiringId, id);
      expiring := expiring - {id};
    }

    /** Deleting an Image cascades to its thumbnails and to the expiring links that point at it. */
    method DeleteImage(id: ImageId)
      requires Valid() && id in images
      modifies this`images, this`thumbnails, this`expiring
      ensures Valid()
      ensures images == old(images) - {id}
      ensures thumbnails == ThumbnailsOfImages(old(thumbnails), images)
      ensures expiring == LinksOfImages(old(expiring), images)
      ensures forall t :: t in old(thumbnails) ==> (t in thumbnails <==> old(thumbnails)[t].image != id)
      ensures forall e :: e in old(expiring) ==> (e in expiring <==> old(expiring)[e].image != id)
    {
      var images' := images - {id};
      StoreOkDeleteImages(users, roles, images, thumbnails, expiring, minted, nextImageId, nextThumbnailId, nextExpiringId, users, images');
      images, thumbnails, expiring := images', ThumbnailsOfImages(thumbnails, images'), LinksOfImages(expiring, images');
    }

    /** Deleting a user cascades to the images they own, and from those to their thumbnails and links. */
    method DeleteUser(username: string)
      requires Valid() && username in users
      modifies this`users, this`images, this`thumbnails, this`expiring
      ensures Valid()
      ensures users == old(users) - {username}
      ensures images == NotOwnedBy(old(images), username)
      ensures thumbnails == ThumbnailsOfImages(old(thumbnails), images)
      ensures expiring == LinksOfImages(old(expiring), images)
    {
      var users', images' := users - {username}, NotOwnedBy(images, username);
      StoreOkDeleteImages(users, roles, images, thumbnails, expiring, minted, nextImageId, nextThumbnailId, nextExpiringId, users', images');
      users, images, thumbnails, expiring := users', images', ThumbnailsOfImages(thumbnails, images'), LinksOfImages(expiring, images');
    }
  }
}
