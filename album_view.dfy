/**
 * app/components/AlbumView.tsx: the album grid's controls (grouping, minimum
 * photo count, order), the sorted list it renders, and each card's cover.
 */
module AlbumView {
  import opened Common
  import opened Sorting
  import opened ClientModel

  datatype GroupBy = GroupDate | GroupTag | GroupLocation
  datatype AlbumSort = SortDate | SortCount | SortTitle

  /** A JavaScript number as far as `minPhotos` needs one: an integer or NaN. */
  datatype JsNumber = Num(n: int) | NaN

  /**
   * `Math.max(1, parseInt(value))` for the result of `parseInt` (an integer, or
   * `None` for NaN when the input holds no digits). `Math.max` with a NaN argument is NaN.
   */
  function ClampMinPhotos(parsed: Option<int>): (r: JsNumber)
    ensures parsed.None? <==> r.NaN?
    ensures parsed.Some? ==> r.n >= 1 && r.n >= parsed.value && (r.n == 1 || r.n == parsed.value)
  {
    if parsed.None? then NaN
    else if parsed.value > 1 then Num(parsed.value)
    else Num(1)
  }

  /** The sort key: newest start first, most photos first, or title. */
  function AlbumKey(sortBy: AlbumSort, collate: string -> int): ClientAlbum -> int {
    match sortBy
    case SortDate => (a: ClientAlbum) => -a.startDate
    case SortCount => (a: ClientAlbum) => -a.photoCount
    case SortTitle => (a: ClientAlbum) => collate(a.title)
  }

  /** `sortedAlbums`: a reordered copy of `albums`. */
  function SortedAlbums(albums: seq<ClientAlbum>, sortBy: AlbumSort, collate: string -> int): (r: seq<ClientAlbum>)
    ensures multiset(r) == multiset(albums)
    ensures sortBy == SortDate ==> forall i, j :: 0 <= i < j < |r| ==> r[i].startDate >= r[j].startDate
    ensures sortBy == SortCount ==> forall i, j :: 0 <= i < j < |r| ==> r[i].photoCount >= r[j].photoCount
    ensures sortBy == SortTitle ==> forall i, j :: 0 <= i < j < |r| ==> collate(r[i].title) <= collate(r[j].title)
  {
    var r := SortByKey(albums, AlbumKey(sortBy, collate));
    assert SortedByKey(r, AlbumKey(sortBy, collate));
    r
  }

  /** What a card's image area shows. */
  datatype CoverView = NoCoverImage | CoverImage(src: string, position: string)

  /**
   * The image area of a card: the "no cover" placeholder unless `coverImageId` is
   * truthy, otherwise the content URL of the file with that id, placed at the
   * album's position.
   */
  function Cover(a: ClientAlbum): (v: CoverView)
    ensures v.NoCoverImage? <==> !CoverIdTruthy(a)
    ensures v.CoverImage? ==> v.src == ContentUrl(StoragePathOf(a.files, a.coverImageId.value))
    ensures v.CoverImage? ==> v.position == ObjectPosition(a.coverImagePosition)
  {
    if CoverIdTruthy(a) then
      CoverImage(ContentUrl(StoragePathOf(a.files, a.coverImageId.value)), ObjectPosition(a.coverImagePosition))
    else NoCoverImage
  }

  /** A cover id naming a file of the album shows that file. */
  lemma {:induction false} CoverShowsCoverFile(a: ClientAlbum, i: int)
    requires CoverIdTruthy(a) && 0 <= i < |a.files| && a.files[i].id == a.coverImageId.value
    requires forall j :: 0 <= j < |a.files| && j != i ==> a.files[j].id != a.files[i].id
    ensures Cover(a) == CoverImage("/api/v1/files/content/" + a.files[i].storagePath, ObjectPosition(a.coverImagePosition))
  {
    var p := StoragePathOf(a.files, a.coverImageId.value);
    var k :| 0 <= k < |a.files| && a.files[k].id == a.coverImageId.value && a.files[k].storagePath == p.value &&
             (forall j :: 0 <= j < k ==> a.files[j].id != a.coverImageId.value);
    assert k == i;
  }

  /** A cover id naming no file of the album still renders an image, at ".../undefined". */
  lemma {:induction false} DanglingCoverId(a: ClientAlbum)
    requires CoverIdTruthy(a) && forall i :: 0 <= i < |a.files| ==> a.files[i].id != a.coverImageId.value
    ensures Cover(a) == CoverImage("/api/v1/files/content/undefined", ObjectPosition(a.coverImagePosition))
  {
  }

  /** The component's state. */
  class AlbumViewState {
    var albums: seq<ClientAlbum>
    var groupBy: GroupBy
    var minPhotos: JsNumber
    var sortBy: AlbumSort

    /** Grouped by date, at least 3 photos, newest first. */
    constructor()
      ensures albums == [] && groupBy == GroupDate && minPhotos == Num(3) && sortBy == SortDate
    {
      albums := [];
      groupBy := GroupDate;
      minPhotos := Num(3);
      sortBy := SortDate;
    }

    /** The albums in the order the grid renders them. */
    function Displayed(collate: string -> int): (r: seq<ClientAlbum>)
      reads this
      ensures multiset(r) == multiset(albums)
    {
      SortedAlbums(albums, sortBy, collate)
    }

    /** `setAlbums(data)` after a fetch. */
    method SetAlbums(data: seq<ClientAlbum>)
      modifies this
      ensures albums == data && groupBy == old(groupBy) && minPhotos == old(minPhotos) && sortBy == old(sortBy)
    {
      albums := data;
    }

    /** The grouping `<select>`. */
    method SetGroupBy(g: GroupBy)
      modifies this
      ensures groupBy == g && albums == old(albums) && minPhotos == old(minPhotos) && sortBy == old(sortBy)
    {
      groupBy := g;
    }

    /** The order `<select>`: only the rendering order changes, never `albums`. */
    method SetSortBy(s: AlbumSort)
      modifies this
      ensures sortBy == s && albums == old(albums) && groupBy == old(groupBy) && minPhotos == old(minPhotos)
    {
      sortBy := s;
    }

    /** The minimum-photos input: the parsed value, raised to at least 1. */
    method SetMinPhotos(parsed: Option<int>)
      modifies this
      ensures minPhotos == ClampMinPhotos(parsed)
      ensures albums == old(albums) && groupBy == old(groupBy) && sortBy == old(sortBy)
    {
      minPhotos := if parsed.None? then NaN else Num(if parsed.value > 1 then parsed.value else 1);
    }
  }
}
