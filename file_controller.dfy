/**
 * controller/FileController.java: the content type chosen from a file name
 * (`getContentType`), the search criteria built from request parameters
 * (`searchFiles`) and the storage path rebuilt from the URL (`serveFile`).
 */
module FileController {
  import opened Common
  import opened FileService
  import opened AttachmentRepository

  const OctetStream := "application/octet-stream"

  /** `fileName.substring(fileName.lastIndexOf(".") + 1).toLowerCase()`. */
  function ServedExtension(fileName: string): (ext: string)
    ensures '.' !in fileName ==> ext == Lower(fileName)
    ensures forall k :: 0 <= k < |fileName| && fileName[k] == '.' && '.' !in fileName[k + 1..] ==>
      ext == Lower(fileName[k + 1..])
    ensures '.' !in ext
  {
    LastIndexOfUnique(fileName, '.');
    var i := LastIndexOf(fileName, '.');
    LowerNoDot(fileName[i + 1..]);
    Lower(fileName[i + 1..])
  }

  /** `getContentType`: the MIME type for the known image extensions, octet-stream otherwise. */
  function GetContentType(fileName: string): (r: string)
    ensures r == "image/jpeg" <==> ServedExtension(fileName) in ["jpg", "jpeg"]
    ensures r == "image/png" <==> ServedExtension(fileName) == "png"
    ensures r == "image/gif" <==> ServedExtension(fileName) == "gif"
    ensures r == OctetStream <==> ServedExtension(fileName) !in ["jpg", "jpeg", "png", "gif"]
  {
    match ServedExtension(fileName)
    case "jpg" => "image/jpeg"
    case "jpeg" => "image/jpeg"
    case "png" => "image/png"
    case "gif" => "image/gif"
    case _ => OctetStream
  }

  /** "A.JPG" is served as JPEG: the extension is lower-cased first. */
  lemma UpperCaseNameIsJpeg()
    ensures GetContentType("A.JPG") == "image/jpeg"
  {
    assert "A.JPG"[1] == '.' && "A.JPG"[2..] == "JPG" && Lower("JPG") == "jpg";
    LastIndexOfAt("A.JPG", '.', 1);
    assert ServedExtension("A.JPG") == "jpg";
  }

  /** A name without '.' is taken whole as its extension. */
  lemma NameWithoutDotIsItsOwnExtension()
    ensures GetContentType("jpeg") == "image/jpeg"
  {
    assert Lower("jpeg") == "jpeg";
    assert ServedExtension("jpeg") == "jpeg";
  }

  /** Upper-casing commutes with taking a suffix and leaves the dots where they were. */
  lemma UpperSuffix(s: string, k: nat)
    requires k <= |s|
    ensures Upper(s)[k..] == Upper(s[k..])
  {
  }

  lemma LastDotOfUpper(s: string)
    ensures LastIndexOf(Upper(s), '.') == LastIndexOf(s, '.')
  {
    var i := LastIndexOf(s, '.');
    var u := Upper(s);
    if i >= 0 {
      assert u[i] == '.';
      forall j | i < j < |u| ensures u[j] != '.' {
        assert s[j] != '.';
      }
      assert '.' !in u[i + 1..] by {
        var t := u[i + 1..];
        forall j | 0 <= j < |t| ensures t[j] != '.' {
          assert t[j] == u[i + 1 + j];
        }
      }
      LastIndexOfAt(u, '.', i);
    } else {
      forall j | 0 <= j < |u| ensures u[j] != '.' {
        assert s[j] != '.';
      }
    }
  }

  /** The content type does not depend on the letter case of the name. */
  lemma {:induction false} ContentTypeIgnoresCase(fileName: string)
    ensures GetContentType(Upper(fileName)) == GetContentType(fileName)
  {
    var k := LastIndexOf(fileName, '.') + 1;
    LastDotOfUpper(fileName);
    UpperSuffix(fileName, k);
    LowerOfUpper(fileName[k..]);
  }

  /** Every extension `validateFile` lists has an image content type. */
  lemma ListedExtensionIsImage(fileName: string)
    requires ServedExtension(fileName) in AllowedExtensions
    ensures GetContentType(fileName) in ["image/jpeg", "image/png", "image/gif"]
  {
  }

  /** A prefix before a name that holds a '.' does not change its served extension. */
  lemma ServedExtensionAfterPrefix(prefix: string, name: string, k: int)
    requires 0 <= k < |name| && name[k] == '.' && '.' !in name[k + 1..]
    ensures ServedExtension(prefix + name) == Lower(name[k + 1..])
  {
    var s := prefix + name;
    assert s[|prefix| + k] == '.';
    assert s[|prefix| + k + 1..] == name[k + 1..];
    LastIndexOfAt(s, '.', |prefix| + k);
  }

  /**
   * Whatever `validateFile` accepts is served with an image content type, also
   * under the "millis_" prefix the storage path puts before the original name.
   */
  lemma {:induction false} AcceptedUploadServedAsImage(u: Upload, prefix: string)
    requires ValidateFile(u).None?
    ensures GetContentType(prefix + u.originalFilename.value) in ["image/jpeg", "image/png", "image/gif"]
  {
    var name := u.originalFilename.value;
    assert HasListedExtension(name);
    var k :| 0 <= k < |name| && name[k] == '.' && '.' !in name[k + 1..] &&
      Lower(name[k + 1..]) in AllowedExtensions;
    ServedExtensionAfterPrefix(prefix, name, k);
    ListedExtensionIsImage(prefix + name);
  }

  // ------------------------------------------------------------------ search

  /** `startDate.atStartOfDay()` for a day number, in seconds. */
  function StartOfDay(day: int): (t: int)
    ensures DayOf(t) == day && DayOf(t - 1) == day - 1
  {
    day * 86400
  }

  /** The `startDate` criterion: the start of the given day. */
  function StartBound(startDate: Option<int>): (r: Option<int>)
    ensures r.None? <==> startDate.None?
    ensures r.Some? ==> DayOf(r.value) == startDate.value && DayOf(r.value - 1) < startDate.value
  {
    if startDate.Some? then Some(StartOfDay(startDate.value)) else None
  }

  /** The `endDate` criterion: `endDate.plusDays(1).atStartOfDay()`, the start of the next day. */
  function EndBound(endDate: Option<int>): (r: Option<int>)
    ensures r.None? <==> endDate.None?
    ensures r.Some? ==> DayOf(r.value) == endDate.value + 1 && DayOf(r.value - 1) == endDate.value
  {
    if endDate.Some? then Some(StartOfDay(endDate.value + 1)) else None
  }

  /** The criteria `searchFiles` builds from its request parameters (dates as day numbers). */
  function BuildCriteria(tags: Option<set<string>>, startDate: Option<int>, endDate: Option<int>,
                         make: Option<string>, model: Option<string>, fNumber: Option<string>,
                         exposureTime: Option<string>, isoSpeedRatings: Option<string>): (c: SearchCriteria)
    ensures c.tags == tags && c.make == make && c.model == model && c.fNumber == fNumber
    ensures c.exposureTime == exposureTime && c.isoSpeedRatings == isoSpeedRatings
    ensures c.startDate == StartBound(startDate) && c.endDate == EndBound(endDate)
  {
    SearchCriteria(tags, StartBound(startDate), EndBound(endDate), make, model, fNumber, exposureTime, isoSpeedRatings)
  }

  /**
   * Against the repository's inclusive bounds, the built criteria admit every time
   * on the days from `startDate` to `endDate`, and beyond that only the instant at
   * which the day after `endDate` begins.
   */
  lemma {:induction false} SearchDateWindow(startDate: int, endDate: int, t: int)
    ensures var c := BuildCriteria(None, Some(startDate), Some(endDate), None, None, None, None, None);
      (c.startDate.value <= t && t <= c.endDate.value) <==>
      (startDate <= DayOf(t) <= endDate || (startDate <= endDate + 1 && t == StartOfDay(endDate + 1)))
  {
    var lo := StartOfDay(startDate);
    var hi := StartOfDay(endDate + 1);
    assert lo <= t <==> startDate <= DayOf(t);
    assert t < hi <==> DayOf(t) <= endDate;
  }

  /** A file stamped exactly at midnight after the end day is still found. */
  lemma NextMidnightIncluded(day: int)
    ensures var c := BuildCriteria(None, Some(day), Some(day), None, None, None, None, None);
      var a := Attachment(0, StartOfDay(day + 1), [], None);
      Matches(c, a) && DayOf(a.createdAt) == day + 1
  {
  }

  /** The path `serveFile` hands to the file service: "year/month/day/fileName". */
  function ServeFilePath(year: string, month: string, day: string, fileName: string): (p: string)
    ensures '/' !in year && '/' !in month && '/' !in day && '/' !in fileName ==>
      Split(p, '/') == [year, month, day, fileName]
  {
    if '/' !in year && '/' !in month && '/' !in day && '/' !in fileName then
      SplitFourParts(year, month, day, fileName);
      JoinPath(year, month, day, fileName)
    else
      JoinPath(year, month, day, fileName)
  }

  /** Requesting the four segments of a stored path asks for that same path. */
  lemma {:induction false} ServeStoredPath(year: int, month: int, day: int, millis: int, name: string)
    requires 1 <= month <= 12 && 1 <= day <= 31 && '/' !in name
    ensures var parts := Split(CreateStoragePath(year, month, day, millis, name), '/');
      ServeFilePath(parts[0], parts[1], parts[2], parts[3]) == CreateStoragePath(year, month, day, millis, name)
  {
    var y, m, d := IntToString(year), PadTwo(month), PadTwo(day);
    var last := IntToString(millis) + "_" + name;
    assert CreateStoragePath(year, month, day, millis, name) == JoinPath(y, m, d, last);
    NoSlashInInt(year);
    NoSlashInInt(millis);
    NoSlashInPadTwo(month);
    NoSlashInPadTwo(day);
    SplitFourParts(y, m, d, last);
  }
}
