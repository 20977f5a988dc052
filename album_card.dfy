/**
 * app/components/AlbumCard.tsx: the cover image of an album card. Unlike the
 * grid in AlbumView, a card without a cover id falls back to the album's first file.
 */
module AlbumCard {
  import opened Common
  import opened ClientModel
  import AlbumView

  /**
   * The path interpolated into the image URL: the file named by a truthy cover id,
   * otherwise `files[0]?.storagePath`. `None` is the `undefined` of a failed lookup
   * or an empty album.
   */
  function CardCoverPath(a: ClientAlbum): (p: Option<string>)
    ensures CoverIdTruthy(a) ==> p == StoragePathOf(a.files, a.coverImageId.value)
    ensures !CoverIdTruthy(a) && a.files == [] ==> p.None?
    ensures !CoverIdTruthy(a) && a.files != [] ==> p == Some(a.files[0].storagePath)
  {
    if CoverIdTruthy(a) then StoragePathOf(a.files, a.coverImageId.value)
    else if |a.files| > 0 then Some(a.files[0].storagePath)
    else None
  }

  /** The card's image: its URL and object position. */
  function CardImage(a: ClientAlbum): (r: (string, string))
    ensures CardCoverPath(a).Some? ==> r.0 == "/api/v1/files/content/" + CardCoverPath(a).value
    ensures CardCoverPath(a).None? ==> r.0 == "/api/v1/files/content/undefined"
    ensures r.1 == (if a.coverImagePosition.Some? && a.coverImagePosition.value != "" then a.coverImagePosition.value else "center")
  {
    (ContentUrl(CardCoverPath(a)), ObjectPosition(a.coverImagePosition))
  }

  /** No path is produced exactly when the lookup fails or, without a cover id, the album is empty. */
  lemma {:induction false} NoPathCases(a: ClientAlbum)
    ensures CardCoverPath(a).None? <==>
      (CoverIdTruthy(a) && forall i :: 0 <= i < |a.files| ==> a.files[i].id != a.coverImageId.value) ||
      (!CoverIdTruthy(a) && a.files == [])
  {
  }

  /** With a truthy cover id the card and the grid show the same image at the same position. */
  lemma {:induction false} CardAgreesWithGrid(a: ClientAlbum)
    requires CoverIdTruthy(a)
    ensures AlbumView.Cover(a) == AlbumView.CoverImage(CardImage(a).0, CardImage(a).1)
  {
  }

  /** Without one, the grid shows its placeholder while the card still shows the first file. */
  lemma {:induction false} CardFallsBackToFirstFile(a: ClientAlbum)
    requires !CoverIdTruthy(a) && a.files != []
    ensures AlbumView.Cover(a).NoCoverImage?
    ensures CardImage(a).0 == "/api/v1/files/content/" + a.files[0].storagePath
  {
  }
}
