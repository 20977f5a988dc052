/**
 * service/AlbumService.java: albums kept in a table keyed by id, over a table of
 * stored files. Each operation loads an album, sets some of its fields and saves
 * it back.
 */
module AlbumService {
  import opened Common
  import opened Domain

  datatype AlbumError = AlbumNotFound | FileNotInAlbum

  function Message(e: AlbumError): string {
    match e
    case AlbumNotFound => "앨범을 찾을 수 없습니다."
    case FileNotInAlbum => "선택한 파일이 앨범에 포함되어 있지 않습니다."
  }

  /** Every stored file is filed under its own id. */
  ghost predicate KeyedById(store: map<int, FileInfo>) {
    forall id :: id in store ==> store[id].id == id
  }

  /**
   * `fileInfoRepository.findAllById`: the stored files whose ids were asked for,
   * each once, in the order of first request.
   */
  function FindAllById(store: map<int, FileInfo>, ids: seq<int>): (r: seq<FileInfo>)
    requires KeyedById(store)
    ensures forall i :: 0 <= i < |r| ==> r[i].id in ids && r[i].id in store && store[r[i].id] == r[i]
    ensures forall k :: 0 <= k < |ids| && ids[k] in store ==> store[ids[k]] in r
    ensures NoDuplicates(Ids(r))
    ensures |r| <= |ids|
  {
    var wanted := Distinct(ids);
    var present := Filter(wanted, (id: int) => id in store);
    FilterKeepsNoDuplicates(wanted, (id: int) => id in store);
    var r := seq(|present|, i requires 0 <= i < |present| => store[present[i]]);
    assert forall i :: 0 <= i < |r| ==> r[i].id == present[i];
    assert forall k :: 0 <= k < |ids| && ids[k] in store ==> ids[k] in present;
    r
  }

  /** The earliest `createdAt` of a non-empty list of files (`stream().min`). */
  function MinCreatedAt(fs: seq<FileInfo>): (m: int)
    requires |fs| > 0
    ensures exists i :: 0 <= i < |fs| && fs[i].createdAt == m
    ensures forall i :: 0 <= i < |fs| ==> m <= fs[i].createdAt
  {
    if |fs| == 1 then fs[0].createdAt
    else
      var rest := MinCreatedAt(fs[1..]);
      assert forall i :: 1 <= i < |fs| ==> fs[i] == fs[1..][i - 1];
      if fs[0].createdAt <= rest then fs[0].createdAt else rest
  }

  /** The album `createAlbum` saves under `id` for the files that were found. */
  function CreatedAlbum(id: int, title: string, description: string, found: seq<FileInfo>): (a: Album)
    ensures a.id == Some(id) && a.title == title && a.description == description
    ensures a.files == found && a.photoCount == |found|
    ensures a.startDate.None? <==> found == []
    ensures a.startDate.Some? ==>
      (forall i :: 0 <= i < |found| ==> a.startDate.value <= found[i].createdAt) &&
      (exists i :: 0 <= i < |found| && found[i].createdAt == a.startDate.value)
    ensures a.coverImageId.None? && a.coverImagePosition.None?
  {
    Album(Some(id), title, description, |found|, None, None, found,
          if found != [] then Some(MinCreatedAt(found)) else None)
  }

  /**
   * The album after `updateAlbum`: title and description always, files and photo
   * count only when new files were given; nothing else.
   */
  function UpdatedAlbum(a: Album, title: string, description: string, found: Option<seq<FileInfo>>): (b: Album)
    ensures b.title == title && b.description == description
    ensures found.None? ==> b.files == a.files && b.photoCount == a.photoCount
    ensures found.Some? ==> b.files == found.value && b.photoCount == |found.value|
    ensures b.id == a.id && b.startDate == a.startDate
    ensures b.coverImageId == a.coverImageId && b.coverImagePosition == a.coverImagePosition
  {
    var b := a.(title := title, description := description);
    if found.Some? then b.(files := found.value, photoCount := |found.value|) else b
  }

  /** The album after a successful `updateCoverImage`: only the cover fields change. */
  function WithCover(a: Album, fileId: int, position: Option<string>): (b: Album)
    ensures b.coverImageId == Some(fileId) && b.coverImagePosition == position
    ensures b == a.(coverImageId := Some(fileId), coverImagePosition := position)
    ensures b.id == a.id && b.title == a.title && b.description == a.description
    ensures b.files == a.files && b.photoCount == a.photoCount && b.startDate == a.startDate
  {
    a.(coverImageId := Some(fileId), coverImagePosition := position)
  }

  /** `updateAlbum` does not look at the cover, so new files can leave it pointing outside. */
  lemma UpdateCanOrphanCover(a: Album, title: string, description: string, found: seq<FileInfo>)
    requires a.coverImageId.Some? && HasFile(a.files, a.coverImageId.value)
    requires !HasFile(found, a.coverImageId.value)
    ensures var b := UpdatedAlbum(a, title, description, Some(found));
      b.coverImageId == a.coverImageId && !HasFile(b.files, b.coverImageId.value)
  {
  }

  /** The service with its album table, the file table it reads, and the next generated id. */
  class AlbumService {
    var albums: map<int, Album>
    var files: map<int, FileInfo>
    var nextId: int

    /** Albums are filed under their own id, below `nextId`, and count their files. */
    ghost predicate Valid()
      reads this
    {
      KeyedById(files) &&
      (forall id :: id in albums ==> albums[id].id == Some(id) && id < nextId) &&
      (forall id :: id in albums ==> albums[id].photoCount == |albums[id].files|)
    }

    constructor (files: map<int, FileInfo>)
      requires KeyedById(files)
      ensures Valid()
      ensures this.files == files && albums == map[] && nextId == 1
    {
      this.files := files;
      albums := map[];
      nextId := 1;
    }

    /** `createAlbum`: saves a new album over the requested files that exist. */
    method CreateAlbum(title: string, description: string, fileIds: seq<int>) returns (album: Album)
      requires Valid()
      modifies this`albums, this`nextId
      ensures Valid()
      ensures album == CreatedAlbum(old(nextId), title, description, FindAllById(files, fileIds))
      ensures old(nextId) !in old(albums)
      ensures albums == old(albums)[old(nextId) := album] && nextId == old(nextId) + 1
    {
      var found := FindAllById(files, fileIds);
      album := CreatedAlbum(nextId, title, description, found);
      albums := albums[nextId := album];
      nextId := nextId + 1;
    }

    /** `getAlbum`: the stored album, or the not-found error. */
    method GetAlbum(id: int) returns (r: Result<Album, AlbumError>)
      ensures r.Ok? <==> id in albums
      ensures r.Ok? ==> r.value == albums[id]
      ensures r.Err? ==> r.error == AlbumNotFound
    {
      if id in albums {
        r := Ok(albums[id]);
      } else {
        r := Err(AlbumNotFound);
      }
    }

    /** `deleteAlbum`: removes that album only; an unknown id changes nothing. */
    method DeleteAlbum(id: int)
      requires Valid()
      modifies this`albums
      ensures Valid()
      ensures albums == old(albums) - {id}
      ensures forall other :: other != id && other in old(albums) ==> other in albums && albums[other] == old(albums)[other]
    {
      albums := albums - {id};
    }

    /** `updateAlbum`: overwrites title and description; with `fileIds`, replaces the files. */
    method UpdateAlbum(id: int, title: string, description: string, fileIds: Option<seq<int>>)
      returns (r: Result<Album, AlbumError>)
      requires Valid()
      modifies this`albums
      ensures Valid()
      ensures id !in old(albums) ==> r == Err(AlbumNotFound) && albums == old(albums)
      ensures id in old(albums) ==>
        var found := if fileIds.Some? then Some(FindAllById(files, fileIds.value)) else None;
        r == Ok(UpdatedAlbum(old(albums)[id], title, description, found)) &&
        albums == old(albums)[id := r.value]
    {
      var loaded := GetAlbum(id);
      if loaded.Err? {
        return loaded;
      }
      var found := if fileIds.Some? then Some(FindAllById(files, fileIds.value)) else None;
      var album := UpdatedAlbum(loaded.value, title, description, found);
      albums := albums[id := album];
      r := Ok(album);
    }

    /**
     * `updateCoverImage`: the file must be one of the album's files; then only the
     * cover id and position change. On an error nothing changes.
     */
    method UpdateCoverImage(albumId: int, fileId: int, position: Option<string>)
      returns (r: Result<Album, AlbumError>)
      requires Valid()
      modifies this`albums
      ensures Valid()
      ensures albumId !in old(albums) ==> r == Err(AlbumNotFound) && albums == old(albums)
      ensures albumId in old(albums) && !HasFile(old(albums)[albumId].files, fileId) ==>
        r == Err(FileNotInAlbum) && albums == old(albums)
      ensures albumId in old(albums) && HasFile(old(albums)[albumId].files, fileId) ==>
        r == Ok(WithCover(old(albums)[albumId], fileId, position)) &&
        albums == old(albums)[albumId := r.value]
      ensures r.Ok? ==> HasFile(r.value.files, r.value.coverImageId.value)
    {
      var loaded := GetAlbum(albumId);
      if loaded.Err? {
        return loaded;
      }
      var album := loaded.value;
      var fileExists := exists i :: 0 <= i < |album.files| && album.files[i].id == fileId;
      if !fileExists {
        return Err(FileNotInAlbum);
      }
      album := WithCover(album, fileId, position);
      albums := albums[albumId := album];
      r := Ok(album);
    }
  }

  /** A created album can be read back, and deleting it makes it unreadable again. */
  method CreateGetDelete(service: AlbumService, title: string, fileIds: seq<int>)
    requires service.Valid()
    modifies service`albums, service`nextId
    ensures service.Valid() && service.albums == old(service.albums)
  {
    var album := service.CreateAlbum(title, "", fileIds);
    var got := service.GetAlbum(album.id.value);
    assert got == Ok(album);
    service.DeleteAlbum(album.id.value);
    got := service.GetAlbum(album.id.value);
    assert got == Err(AlbumNotFound);
  }
}
