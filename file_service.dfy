/**
 * service/FileService.java: the upload guards (`validateFile`, `getFileExtension`,
 * `isImageFile`), the storage path of a new upload (`createStoragePath`, with the
 * clock readings passed in), and album generation by calendar date
 * (`generateAlbums`, `generateDateBasedAlbums`).
 */
module FileService {
  import opened Common
  import opened Domain

  /** `MAX_FILE_SIZE = 50 * 1024 * 1024`. */
  const MaxFileSize: int := 50 * 1024 * 1024

  /** `ALLOWED_EXTENSIONS`, compared after lower-casing. */
  const AllowedExtensions: seq<string> := ["jpg", "jpeg", "png", "gif"]

  /** The `IllegalArgumentException`s the guards throw. */
  datatype UploadError = EmptyFile | FileTooLarge | BadFileName | ExtensionNotAllowed

  function Message(e: UploadError): string {
    match e
    case EmptyFile => "빈 파일입니다."
    case FileTooLarge => "파일 크기가 50MB를 초과합니다."
    case BadFileName => "잘못된 파일 형식입니다."
    case ExtensionNotAllowed => "허용되지 않는 파일 형식입니다."
  }

  /** What the guards look at in a `MultipartFile`: `getOriginalFilename()` and `getSize()`. */
  datatype Upload = Upload(originalFilename: Option<string>, size: nat)

  /**
   * `getFileExtension`: the text after the last '.'; a missing name or a name
   * without '.' is refused.
   */
  function GetFileExtension(fileName: Option<string>): (r: Result<string, UploadError>)
    ensures r.Err? <==> fileName.None? || '.' !in fileName.value
    ensures r.Err? ==> r.error == BadFileName
    ensures r.Ok? ==>
      var name := fileName.value;
      |r.value| < |name| && name[|name| - |r.value| - 1] == '.' &&
      name[|name| - |r.value|..] == r.value && '.' !in r.value
  {
    if fileName.None? || '.' !in fileName.value then Err(BadFileName)
    else
      var name := fileName.value;
      var k := LastIndexOf(name, '.');
      assert name[k + 1..] == name[|name| - |name[k + 1..]|..];
      Ok(name[k + 1..])
  }

  /** `name` ends in a '.' and an extension without '.', whose lower-case form is listed. */
  ghost predicate HasListedExtension(name: string) {
    exists k :: 0 <= k < |name| && name[k] == '.' && '.' !in name[k + 1..] &&
      Lower(name[k + 1..]) in AllowedExtensions
  }

  /**
   * `validateFile`: emptiness first, then the size bound, then the extension;
   * the first failing guard decides the error.
   */
  function ValidateFile(u: Upload): (r: Option<UploadError>)
    ensures r == Some(EmptyFile) <==> u.size == 0
    ensures r == Some(FileTooLarge) <==> u.size > MaxFileSize
    ensures r == Some(BadFileName) <==>
      0 < u.size <= MaxFileSize && (u.originalFilename.None? || '.' !in u.originalFilename.value)
    ensures r.None? <==>
      0 < u.size <= MaxFileSize && u.originalFilename.Some? &&
      HasListedExtension(u.originalFilename.value)
  {
    if u.size == 0 then Some(EmptyFile)
    else if u.size > MaxFileSize then Some(FileTooLarge)
    else
      match GetFileExtension(u.originalFilename)
      case Err(e) =>
        assert u.originalFilename.Some? ==> !HasListedExtension(u.originalFilename.value);
        Some(e)
      case Ok(ext) =>
        ListedIffExtensionListed(u.originalFilename.value, ext);
        if Lower(ext) in AllowedExtensions then None else Some(ExtensionNotAllowed)
  }

  /** The last extension of a name decides whether it has a listed one. */
  lemma ListedIffExtensionListed(name: string, ext: string)
    requires GetFileExtension(Some(name)) == Ok(ext)
    ensures HasListedExtension(name) <==> Lower(ext) in AllowedExtensions
  {
    var k := |name| - |ext| - 1;
    LastDotIsExtension(name, ext, k);
    if HasListedExtension(name) {
      var j :| 0 <= j < |name| && name[j] == '.' && '.' !in name[j + 1..] && Lower(name[j + 1..]) in AllowedExtensions;
      LastDotIsExtension(name, ext, j);
    }
  }

  /** Any '.' with no '.' after it starts the extension `getFileExtension` returns. */
  lemma LastDotIsExtension(name: string, ext: string, j: int)
    requires GetFileExtension(Some(name)) == Ok(ext)
    requires (0 <= j < |name| && name[j] == '.' && '.' !in name[j + 1..]) || j == |name| - |ext| - 1
    ensures 0 <= j < |name| && name[j] == '.' && '.' !in name[j + 1..] && name[j + 1..] == ext
  {
    var k := |name| - |ext| - 1;
    assert name[k + 1..] == ext;
    LastIndexOfAt(name, '.', k);
    if j != k {
      LastIndexOfAt(name, '.', j);
    }
  }



  /** `isImageFile`: the listed extensions other than "gif", in any letter case. */
  function IsImageFile(extension: string): (r: bool)
    ensures r ==> Lower(extension) in AllowedExtensions
    ensures r ==> Lower(extension) != "gif"
    ensures Lower(extension) in AllowedExtensions && Lower(extension) != "gif" ==> r
  {
    Lower(extension) in ["jpg", "jpeg", "png"]
  }

  /** A file of exactly 50 MiB passes the size guard; one byte more does not. */
  lemma ExactlyMaxSizeAccepted()
    ensures ValidateFile(Upload(Some("photo.jpg"), MaxFileSize)).None?
    ensures ValidateFile(Upload(Some("photo.jpg"), MaxFileSize + 1)) == Some(FileTooLarge)
  {
    var name := "photo.jpg";
    assert name[5] == '.' && name[6..] == "jpg" && Lower("jpg") == "jpg";
    assert HasListedExtension(name);
  }

  /** Emptiness is checked before the name. */
  lemma EmptyCheckedFirst()
    ensures ValidateFile(Upload(None, 0)) == Some(EmptyFile)
  {
  }

  /** The extension check ignores letter case. */
  lemma UpperCaseExtensionAccepted()
    ensures ValidateFile(Upload(Some("IMG.JPEG"), 10)).None?
  {
    var name := "IMG.JPEG";
    assert name[3] == '.' && name[4..] == "JPEG" && Lower("JPEG") == "jpeg";
    assert HasListedExtension(name);
  }

  /** "photo." has the empty extension, which is not listed. */
  lemma TrailingDotRejected()
    ensures ValidateFile(Upload(Some("photo."), 10)) == Some(ExtensionNotAllowed)
  {
    var name := "photo.";
    assert name[5] == '.' && name[6..] == "" && Lower("") == "";
    assert GetFileExtension(Some(name)) == Ok("");
  }

  /** "gif" uploads are accepted although `isImageFile` says they are not images. */
  lemma GifAcceptedButNotImage()
    ensures ValidateFile(Upload(Some("anim.gif"), 10)).None?
    ensures !IsImageFile("gif") && IsImageFile("PNG")
  {
    var name := "anim.gif";
    assert name[4] == '.' && name[5..] == "gif" && Lower("gif") == "gif";
    assert HasListedExtension(name);
    assert Lower("PNG") == "png";
  }

  // ------------------------------------------------------------ storage path

  lemma NoSlashInInt(i: int)
    ensures '/' !in IntToString(i)
  {
    var s := IntToString(i);
    var d := NatToString(if i >= 0 then i else -i);
    forall k | 0 <= k < |d| ensures d[k] != '/' {
      assert IsDigit(d[k]);
    }
  }

  lemma NoSeparatorSplit(s: string, c: char)
    requires c !in s
    ensures Split(s, c) == [s]
  {
  }

  /** Joins the parts of a storage path with '/'. */
  function JoinPath(y: string, m: string, d: string, last: string): string {
    (y + "/") + ((m + "/") + ((d + "/") + last))
  }

  lemma JoinPathFlat(y: string, m: string, d: string, t: string, name: string)
    ensures JoinPath(y, m, d, t + "_" + name) == y + "/" + m + "/" + d + "/" + t + "_" + name
  {
  }

  /** Four slash-free parts joined with '/' split back into those parts. */
  lemma SplitFourParts(y: string, m: string, d: string, last: string)
    requires '/' !in y && '/' !in m && '/' !in d && '/' !in last
    ensures Split(JoinPath(y, m, d, last), '/') == [y, m, d, last]
  {
    var t3 := (d + "/") + last;
    var t2 := (m + "/") + t3;
    SplitCons(d, '/', last);
    assert Split(last, '/') == [last];
    SplitCons(m, '/', t3);
    SplitCons(y, '/', t2);
  }

  lemma NoSlashInPadTwo(n: nat)
    ensures '/' !in PadTwo(n)
  {
    var p := PadTwo(n);
    forall k | 0 <= k < |p| ensures p[k] != '/' {
      assert IsDigit(p[k]);
    }
  }

  /**
   * `createStoragePath` for an upload on the given date at the given
   * `currentTimeMillis`: "year/MM/DD/millis_name".
   */
  function CreateStoragePath(year: int, month: int, day: int, millis: int, originalFilename: string): (path: string)
    requires 1 <= month <= 12 && 1 <= day <= 31
    ensures path == IntToString(year) + "/" + PadTwo(month) + "/" + PadTwo(day) + "/" +
                    IntToString(millis) + "_" + originalFilename
    ensures '/' !in originalFilename ==>
      var parts := Split(path, '/');
      |parts| == 4 && parts[0] == IntToString(year) &&
      |parts[1]| == 2 && (forall k :: 0 <= k < 2 ==> IsDigit(parts[1][k])) && DecimalValue(parts[1]) == month &&
      |parts[2]| == 2 && (forall k :: 0 <= k < 2 ==> IsDigit(parts[2][k])) && DecimalValue(parts[2]) == day &&
      parts[3] == IntToString(millis) + "_" + originalFilename
  {
    var last := IntToString(millis) + "_" + originalFilename;
    var path := JoinPath(IntToString(year), PadTwo(month), PadTwo(day), last);
    JoinPathFlat(IntToString(year), PadTwo(month), PadTwo(day), IntToString(millis), originalFilename);
    if '/' !in originalFilename then
      NoSlashInInt(year);
      NoSlashInInt(millis);
      NoSlashInPadTwo(month);
      NoSlashInPadTwo(day);
      SplitFourParts(IntToString(year), PadTwo(month), PadTwo(day), last);
      path
    else
      path
  }

  // --------------------------------------------------------- album generation

  /** `LocalDateTime.toLocalDate()`: the day number of a time given in seconds. */
  function DayOf(t: int): int {
    t / 86400
  }

  /** The files created on day `d`, in input order: one `groupingBy` bucket. */
  function DateGroup(files: seq<FileInfo>, d: int): (g: seq<FileInfo>)
    ensures forall i :: 0 <= i < |g| ==> g[i] in files && DayOf(g[i].createdAt) == d
    ensures forall i :: 0 <= i < |files| && DayOf(files[i].createdAt) == d ==> files[i] in g
  {
    Filter(files, (f: FileInfo) => DayOf(f.createdAt) == d)
  }

  /** The keys of the `groupingBy` map: every day some file was created on, once each. */
  function GroupDates(files: seq<FileInfo>): (ds: seq<int>)
    ensures NoDuplicates(ds)
    ensures forall i :: 0 <= i < |ds| ==> exists j :: 0 <= j < |files| && DayOf(files[j].createdAt) == ds[i]
    ensures forall j :: 0 <= j < |files| ==> DayOf(files[j].createdAt) in ds
  {
    var days := Map(files, (f: FileInfo) => DayOf(f.createdAt));
    assert forall i :: 0 <= i < |files| ==> days[i] == DayOf(files[i].createdAt);
    Distinct(days)
  }

  /** The days whose bucket has at least `minimumPhotos` files. */
  function KeptDates(files: seq<FileInfo>, minimumPhotos: int): seq<int> {
    Filter(GroupDates(files), (d: int) => |DateGroup(files, d)| >= minimumPhotos)
  }

  /** The bucket of a day on which some file was created is not empty. */
  lemma DateGroupOfUsedDay(files: seq<FileInfo>, d: int)
    requires d in GroupDates(files)
    ensures DateGroup(files, d) != []
    ensures DayOf(DateGroup(files, d)[0].createdAt) == d
  {
    var j :| 0 <= j < |files| && DayOf(files[j].createdAt) == d;
    assert files[j] in DateGroup(files, d);
  }

  /** The album made from one bucket (the `map` step of `generateDateBasedAlbums`). */
  function DateAlbum(files: seq<FileInfo>, d: int, formatDate: int -> string): (a: Album)
    ensures a.files == DateGroup(files, d) && a.title == formatDate(d)
    ensures a.photoCount == |a.files| && a.description == NatToString(a.photoCount) + "개의 사진"
    ensures a.files != [] ==> a.coverImageId == Some(a.files[0].id)
    ensures a.files == [] ==> a.coverImageId.None?
    ensures a.id.None? && a.coverImagePosition.None? && a.startDate.None?
  {
    var g := DateGroup(files, d);
    Album(None, formatDate(d), NatToString(|g|) + "개의 사진", |g|,
          if g != [] then Some(g[0].id) else None, None, g, None)
  }

  /**
   * `generateDateBasedAlbums` without its final sort: one album per day whose
   * bucket is large enough. Each album holds the whole bucket of its day, its
   * photo count and description give the bucket's size, and its cover is the first
   * file. Titles are `formatDate` of the day (the "yyyy년 MM월 dd일" formatter).
   */
  function GenerateDateBasedAlbums(files: seq<FileInfo>, minimumPhotos: int, formatDate: int -> string): (albums: seq<Album>)
    ensures |albums| == |KeptDates(files, minimumPhotos)| <= |files|
    ensures forall i :: 0 <= i < |albums| ==>
      var a := albums[i];
      a.files != [] && |a.files| >= minimumPhotos &&
      a.files == DateGroup(files, DayOf(a.files[0].createdAt)) &&
      a.title == formatDate(DayOf(a.files[0].createdAt)) &&
      a.photoCount == |a.files| &&
      a.description == NatToString(|a.files|) + "개의 사진" &&
      a.coverImageId == Some(a.files[0].id) &&
      a.id.None? && a.coverImagePosition.None? && a.startDate.None?
  {
    var kept := KeptDates(files, minimumPhotos);
    assert |kept| <= |GroupDates(files)| <= |Map(files, (f: FileInfo) => DayOf(f.createdAt))|;
    forall i | 0 <= i < |kept|
      ensures DateGroup(files, kept[i]) != [] && DayOf(DateGroup(files, kept[i])[0].createdAt) == kept[i]
    {
      DateGroupOfUsedDay(files, kept[i]);
    }
    Map(kept, (d: int) => DateAlbum(files, d, formatDate))
  }

  /** Album `i` is built from the `i`-th kept day. */
  lemma DateAlbumAt(files: seq<FileInfo>, minimumPhotos: int, formatDate: int -> string, i: int)
    requires 0 <= i < |KeptDates(files, minimumPhotos)|
    ensures |GenerateDateBasedAlbums(files, minimumPhotos, formatDate)| == |KeptDates(files, minimumPhotos)|
    ensures GenerateDateBasedAlbums(files, minimumPhotos, formatDate)[i].files
         == DateGroup(files, KeptDates(files, minimumPhotos)[i])
  {
  }

  /**
   * The albums partition the files of the large buckets: a file lies in some
   * album exactly when its day has at least `minimumPhotos` files, and no file
   * lies in two albums.
   */
  lemma {:induction false} DateAlbumsPartition(files: seq<FileInfo>, minimumPhotos: int, formatDate: int -> string)
    ensures var albums := GenerateDateBasedAlbums(files, minimumPhotos, formatDate);
      forall j :: 0 <= j < |files| ==>
        ((exists i :: 0 <= i < |albums| && files[j] in albums[i].files) <==>
         |DateGroup(files, DayOf(files[j].createdAt))| >= minimumPhotos)
    ensures var albums := GenerateDateBasedAlbums(files, minimumPhotos, formatDate);
      forall i, k, m :: 0 <= i < k < |albums| && 0 <= m < |albums[i].files| ==>
        albums[i].files[m] !in albums[k].files
  {
    var albums := GenerateDateBasedAlbums(files, minimumPhotos, formatDate);
    forall j | 0 <= j < |files|
      ensures (exists i :: 0 <= i < |albums| && files[j] in albums[i].files) <==>
              |DateGroup(files, DayOf(files[j].createdAt))| >= minimumPhotos
    {
      DateAlbumsCoverAt(files, minimumPhotos, formatDate, j);
    }
    forall i, k, m | 0 <= i < k < |albums| && 0 <= m < |albums[i].files|
      ensures albums[i].files[m] !in albums[k].files
    {
      DateAlbumsDisjointAt(files, minimumPhotos, formatDate, i, k, m);
    }
  }

  /** File `j` lies in some album exactly when its day's bucket is large enough. */
  lemma {:induction false} DateAlbumsCoverAt(files: seq<FileInfo>, minimumPhotos: int, formatDate: int -> string, j: int)
    requires 0 <= j < |files|
    ensures var albums := GenerateDateBasedAlbums(files, minimumPhotos, formatDate);
      (exists i :: 0 <= i < |albums| && files[j] in albums[i].files) <==>
      |DateGroup(files, DayOf(files[j].createdAt))| >= minimumPhotos
  {
    var albums := GenerateDateBasedAlbums(files, minimumPhotos, formatDate);
    var kept := KeptDates(files, minimumPhotos);
    var d := DayOf(files[j].createdAt);
    if exists i :: 0 <= i < |albums| && files[j] in albums[i].files {
      var i :| 0 <= i < |albums| && files[j] in albums[i].files;
      DateAlbumAt(files, minimumPhotos, formatDate, i);
      assert kept[i] in kept;
    }
    if |DateGroup(files, d)| >= minimumPhotos {
      assert d in GroupDates(files);
      assert d in kept;
      var i :| 0 <= i < |kept| && kept[i] == d;
      DateAlbumAt(files, minimumPhotos, formatDate, i);
      assert files[j] in albums[i].files;
    }
  }

  /** A file of album `i` is not in a later album `k`. */
  lemma {:induction false} DateAlbumsDisjointAt(files: seq<FileInfo>, minimumPhotos: int, formatDate: int -> string, i: int, k: int, m: int)
    requires 0 <= i < k < |GenerateDateBasedAlbums(files, minimumPhotos, formatDate)|
    requires 0 <= m < |GenerateDateBasedAlbums(files, minimumPhotos, formatDate)[i].files|
    ensures var albums := GenerateDateBasedAlbums(files, minimumPhotos, formatDate);
      albums[i].files[m] !in albums[k].files
  {
    var kept := KeptDates(files, minimumPhotos);
    FilterKeepsNoDuplicates(GroupDates(files), (d: int) => |DateGroup(files, d)| >= minimumPhotos);
    DateAlbumAt(files, minimumPhotos, formatDate, i);
    DateAlbumAt(files, minimumPhotos, formatDate, k);
    assert kept[i] != kept[k];
  }

  /**
   * What `a2.getCreatedAt().compareTo(...)` throws: an album made with `new Album()`
   * has no `createdAt` until `@PrePersist` runs, and nothing here saves it.
   */
  datatype SortError = NullCreatedAt

  /**
   * `generateDateBasedAlbums` as written, final sort included. The comparator
   * dereferences the unset `createdAt`, so the sort throws once it has two albums
   * to compare; with fewer it is never called and the list comes back as built.
   */
  function GenerateDateBasedAlbumsAsWritten(files: seq<FileInfo>, minimumPhotos: int, formatDate: int -> string): (r: Result<seq<Album>, SortError>)
    ensures r.Err? <==> |KeptDates(files, minimumPhotos)| >= 2
    ensures r.Ok? ==> |r.value| <= 1 && r.value == GenerateDateBasedAlbums(files, minimumPhotos, formatDate)
  {
    var albums := GenerateDateBasedAlbums(files, minimumPhotos, formatDate);
    if |albums| >= 2 then Err(NullCreatedAt) else Ok(albums)
  }

  /**
   * Two files taken on different days whose buckets both reach `minimumPhotos`
   * make the code as written throw, where the albums without the sort are at
   * least two.
   */
  lemma {:induction false} TwoDaysThrow(files: seq<FileInfo>, minimumPhotos: int, formatDate: int -> string, i: int, j: int)
    requires 0 <= i < |files| && 0 <= j < |files|
    requires DayOf(files[i].createdAt) != DayOf(files[j].createdAt)
    requires |DateGroup(files, DayOf(files[i].createdAt))| >= minimumPhotos
    requires |DateGroup(files, DayOf(files[j].createdAt))| >= minimumPhotos
    ensures GenerateDateBasedAlbumsAsWritten(files, minimumPhotos, formatDate) == Err(NullCreatedAt)
    ensures |GenerateDateBasedAlbums(files, minimumPhotos, formatDate)| >= 2
  {
    KeptDay(files, minimumPhotos, i);
    KeptDay(files, minimumPhotos, j);
    TwoMembers(KeptDates(files, minimumPhotos), DayOf(files[i].createdAt), DayOf(files[j].createdAt));
  }

  /** A sequence holding two different values has at least two elements. */
  lemma TwoMembers(s: seq<int>, a: int, b: int)
    requires a in s && b in s && a != b
    ensures |s| >= 2
  {
  }

  /** The day of a file whose bucket is large enough is kept. */
  lemma KeptDay(files: seq<FileInfo>, minimumPhotos: int, i: int)
    requires 0 <= i < |files| && |DateGroup(files, DayOf(files[i].createdAt))| >= minimumPhotos
    ensures DayOf(files[i].createdAt) in KeptDates(files, minimumPhotos)
  {
    var days := GroupDates(files);
    var a :| 0 <= a < |days| && days[a] == DayOf(files[i].createdAt);
  }

  /** The `groupBy` strategies; unrecognised names fall back to date grouping. */
  datatype Grouping = ByDate | ByTag | ByLocation

  function GroupingOf(groupBy: Option<string>): (g: Grouping)
    ensures g == ByTag <==> groupBy == Some("tag")
    ensures g == ByLocation <==> groupBy == Some("location")
  {
    if groupBy.None? || groupBy.value == "date" then ByDate
    else if groupBy.value == "tag" then ByTag
    else if groupBy.value == "location" then ByLocation
    else ByDate
  }

  /** `minPhotos != null ? minPhotos : 3`. */
  function MinimumPhotos(minPhotos: Option<int>): (n: int)
    ensures minPhotos.Some? ==> n == minPhotos.value
    ensures minPhotos.None? ==> n == 3
  {
    if minPhotos.Some? then minPhotos.value else 3
  }

  /**
   * `generateAlbums` over all stored files. The tag and location strategies are
   * stubs that return no albums.
   */
  function GenerateAlbums(groupBy: Option<string>, minPhotos: Option<int>, files: seq<FileInfo>,
                          formatDate: int -> string): (albums: seq<Album>)
    ensures groupBy == Some("tag") || groupBy == Some("location") ==> albums == []
    ensures groupBy != Some("tag") && groupBy != Some("location") ==>
      albums == GenerateDateBasedAlbums(files, MinimumPhotos(minPhotos), formatDate)
  {
    match GroupingOf(groupBy)
    case ByDate => GenerateDateBasedAlbums(files, MinimumPhotos(minPhotos), formatDate)
    case ByTag => []
    case ByLocation => []
  }

  /** No `groupBy`, "date" and an unknown name all give the same albums. */
  lemma DefaultGrouping(minPhotos: Option<int>, files: seq<FileInfo>, formatDate: int -> string, other: string)
    requires other != "tag" && other != "location"
    ensures GenerateAlbums(None, minPhotos, files, formatDate) == GenerateAlbums(Some("date"), minPhotos, files, formatDate)
    ensures GenerateAlbums(Some(other), minPhotos, files, formatDate) == GenerateAlbums(None, minPhotos, files, formatDate)
    ensures GenerateAlbums(None, None, files, formatDate) == GenerateAlbums(None, Some(3), files, formatDate)
  {
  }
}
