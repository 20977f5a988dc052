/**
 * The records the client receives from the backend (app/types/album.ts and the
 * local `File` interfaces of the components), and the helpers several
 * components share: lookup by id and the file-size label.
 */
module ClientModel {
  import opened Common

  /** `{ id, name }` of a tag. */
  datatype ClientTag = ClientTag(id: int, name: string)

  /**
   * A file as the client sees it. `createdAt` is the timestamp `new Date(createdAt)`
   * denotes, in milliseconds; `exifDateTime` is `exifData?.dateTime`, the EXIF
   * "yyyy:MM:dd HH:mm:ss" text when the EXIF row was fetched.
   */
  datatype ClientFile = ClientFile(
    id: int,
    fileName: string,
    storagePath: string,
    fileSize: nat,
    fileType: string,
    createdAt: int,
    tags: Option<seq<ClientTag>>,
    exifDateTime: Option<string>)

  /** An album as the client sees it; `startDate` in milliseconds. */
  datatype ClientAlbum = ClientAlbum(
    id: int,
    title: string,
    description: Option<string>,
    photoCount: int,
    coverImageId: Option<int>,
    coverImagePosition: Option<string>,
    files: seq<ClientFile>,
    startDate: int)

  /** The ids of some files, in order (`files.map(f => f.id)`). */
  function FileIds(files: seq<ClientFile>): (ids: seq<int>)
    ensures |ids| == |files| && forall i :: 0 <= i < |files| ==> ids[i] == files[i].id
  {
    Map(files, (f: ClientFile) => f.id)
  }

  /** `files.find(f => f.id === id)`: the first file with that id. */
  function FindById(files: seq<ClientFile>, id: int): (r: Option<ClientFile>)
    ensures r.None? <==> forall i :: 0 <= i < |files| ==> files[i].id != id
    ensures r.Some? ==> r.value.id == id
    ensures r.Some? ==> exists i :: 0 <= i < |files| && files[i] == r.value && (forall j :: 0 <= j < i ==> files[j].id != id)
  {
    if files == [] then None
    else if files[0].id == id then Some(files[0])
    else
      var r := FindById(files[1..], id);
      assert forall i :: 1 <= i < |files| ==> files[i] == files[1..][i - 1];
      r
  }

  /** `album.coverImageId` is truthy: present and not 0. */
  predicate CoverIdTruthy(a: ClientAlbum) {
    a.coverImageId.Some? && a.coverImageId.value != 0
  }

  /** `files.find(f => f.id === id)?.storagePath`. */
  function StoragePathOf(files: seq<ClientFile>, id: int): (p: Option<string>)
    ensures p.None? <==> forall i :: 0 <= i < |files| ==> files[i].id != id
    ensures p.Some? ==> exists i :: 0 <= i < |files| && files[i].id == id && files[i].storagePath == p.value &&
                                    (forall j :: 0 <= j < i ==> files[j].id != id)
  {
    var f := FindById(files, id);
    if f.Some? then Some(f.value.storagePath) else None
  }

  /** `` `/api/v1/files/content/${path}` ``: a missing path is rendered as "undefined". */
  function ContentUrl(path: Option<string>): (u: string)
    ensures path.Some? ==> u == "/api/v1/files/content/" + path.value
    ensures path.None? ==> u == "/api/v1/files/content/undefined"
  {
    "/api/v1/files/content/" + (if path.Some? then path.value else "undefined")
  }

  /** `coverImagePosition || 'center'`: an absent or empty position is centred. */
  function ObjectPosition(position: Option<string>): (p: string)
    ensures p != ""
    ensures position.Some? && position.value != "" ==> p == position.value
    ensures position.None? || position.value == "" ==> p == "center"
  {
    if position.Some? && position.value != "" then position.value else "center"
  }

  /**
   * The label `formatFileSize` shows: the exact byte count below 1024, otherwise
   * kilobytes below 1 MiB and megabytes above. The one-decimal `toFixed` text of
   * the last two is floating-point formatting and is kept as the byte count.
   */
  datatype SizeLabel = Bytes(text: string) | Kilobytes(bytes: nat) | Megabytes(bytes: nat)

  function FormatFileSize(bytes: nat): (r: SizeLabel)
    ensures r.Bytes? <==> bytes < 1024
    ensures r.Kilobytes? <==> 1024 <= bytes < 1024 * 1024
    ensures r.Megabytes? <==> 1024 * 1024 <= bytes
    ensures r.Bytes? ==>
      var n := |r.text| - 2;
      n >= 1 && r.text[n..] == " B" &&
      (forall i :: 0 <= i < n ==> IsDigit(r.text[i])) && DecimalValue(r.text[..n]) == bytes
    ensures r.Kilobytes? || r.Megabytes? ==> r.bytes == bytes
  {
    if bytes < 1024 then
      var digits := NatToString(bytes);
      var text := digits + " B";
      assert text[..|digits|] == digits;
      DecimalRoundTrip(bytes);
      Bytes(text)
    else if bytes < 1024 * 1024 then Kilobytes(bytes)
    else Megabytes(bytes)
  }
}
