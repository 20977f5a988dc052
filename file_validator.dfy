/**
 * common/utils/FileValidator.java: the stricter upload check. Its guards run in a
 * fixed order and the first failure decides the error. The MIME type Tika detects
 * from the content is an input here.
 */
module FileValidator {
  import opened Common
  import AllowedFileExtension
  import FileService

  /** The `IllegalArgumentException`s `validateFile` throws, in guard order. */
  datatype ValidationError = EmptyFile | BadFileName | MalformedName | ExtensionNotAllowed | NotAnImage

  function Message(e: ValidationError): string {
    match e
    case EmptyFile => "파일이 비어있습니다."
    case BadFileName => "잘못된 파일 이름입니다."
    case MalformedName => "잘못된 형식의 파일입니다."
    case ExtensionNotAllowed => "허용되지 않는 파일 확장자입니다."
    case NotAnImage => "이미지 파일만 업로드할 수 있습니다."
  }

  /** An upload: its original name, its size, and the MIME type detected from its bytes. */
  datatype UploadedFile = UploadedFile(originalFilename: Option<string>, size: nat, detectedMimeType: string)

  /**
   * `getFileExtension`: from the last '.' on, dot included, lower-cased; a name
   * without '.' makes `substring(-1)` throw, reported as a malformed name.
   */
  function GetFileExtension(fileName: string): (r: Result<string, ValidationError>)
    ensures r.Err? <==> '.' !in fileName
    ensures r.Err? ==> r.error == MalformedName
    ensures r.Ok? ==>
      var k := |fileName| - |r.value|;
      0 <= k < |fileName| && fileName[k] == '.' && '.' !in fileName[k + 1..] &&
      r.value == Lower(fileName[k..])
  {
    if '.' !in fileName then Err(MalformedName)
    else
      var i := LastIndexOf(fileName, '.');
      Ok(Lower(fileName[i..]))
  }

  /** `name` has a last '.' after which comes a constant's name in some letter case. */
  ghost predicate NamesConstant(name: string) {
    exists k :: 0 <= k < |name| && name[k] == '.' && '.' !in name[k + 1..] &&
      AllowedFileExtension.Contains(Lower(name[k + 1..]))
  }

  /**
   * `validateFile`: empty file, then the name (missing or holding ".."), then the
   * extension (it must name an `AllowedFileExtension` constant), then the detected
   * type (it must start with "image/").
   */
  function ValidateFile(f: UploadedFile): (r: Option<ValidationError>)
    ensures r == Some(EmptyFile) <==> f.size == 0
    ensures r == Some(BadFileName) <==>
      f.size > 0 && (f.originalFilename.None? || IsSubstring("..", f.originalFilename.value))
    ensures r == Some(MalformedName) <==>
      f.size > 0 && f.originalFilename.Some? && !IsSubstring("..", f.originalFilename.value) &&
      '.' !in f.originalFilename.value
    ensures r == Some(ExtensionNotAllowed) <==>
      f.size > 0 && f.originalFilename.Some? && !IsSubstring("..", f.originalFilename.value) &&
      '.' in f.originalFilename.value && !NamesConstant(f.originalFilename.value)
    ensures r == Some(NotAnImage) <==>
      f.size > 0 && f.originalFilename.Some? && !IsSubstring("..", f.originalFilename.value) &&
      NamesConstant(f.originalFilename.value) && !StartsWith(f.detectedMimeType, "image/")
    ensures r.None? <==>
      f.size > 0 && f.originalFilename.Some? && !IsSubstring("..", f.originalFilename.value) &&
      NamesConstant(f.originalFilename.value) && StartsWith(f.detectedMimeType, "image/")
  {
    if f.size == 0 then Some(EmptyFile)
    else if f.originalFilename.None? || IsSubstring("..", f.originalFilename.value) then Some(BadFileName)
    else
      var name := f.originalFilename.value;
      match GetFileExtension(name)
      case Err(e) => Some(e)
      case Ok(ext) =>
        var k := |name| - |ext|;
        assert ext[1..] == Lower(name[k + 1..]);
        LastIndexOfAt(name, '.', k);
        if !AllowedFileExtension.Contains(ext[1..]) then
          assert !NamesConstant(name) by {
            forall j | 0 <= j < |name| && name[j] == '.' && '.' !in name[j + 1..]
              ensures !AllowedFileExtension.Contains(Lower(name[j + 1..]))
            {
              LastIndexOfAt(name, '.', j);
            }
          }
          Some(ExtensionNotAllowed)
        else if !StartsWith(f.detectedMimeType, "image/") then Some(NotAnImage)
        else None
  }

  /** A name without two consecutive dots does not contain "..". */
  lemma NoDoubleDot(name: string)
    requires forall k :: 0 <= k < |name| - 1 ==> !(name[k] == '.' && name[k + 1] == '.')
    ensures !IsSubstring("..", name)
  {
    if IsSubstring("..", name) {
      PairSubstring("..", name);
    }
  }

  /** The last '.' of `stem + ext` is the one `ext` starts with. */
  lemma LastDotOfSuffix(stem: string, ext: string)
    requires |ext| >= 1 && ext[0] == '.' && '.' !in ext[1..]
    ensures LastIndexOf(stem + ext, '.') == |stem|
    ensures (stem + ext)[|stem| + 1..] == ext[1..]
  {
    var name := stem + ext;
    assert name[|stem|..] == ext;
    assert name[|stem| + 1..] == ext[1..];
    LastIndexOfAt(name, '.', |stem|);
  }

  /** The extension of `stem + ext` decides `NamesConstant`. */
  lemma NamesConstantOfSuffix(stem: string, ext: string)
    requires |ext| >= 1 && ext[0] == '.' && '.' !in ext[1..]
    ensures NamesConstant(stem + ext) <==> AllowedFileExtension.Contains(Lower(ext[1..]))
  {
    var name := stem + ext;
    var k := |stem|;
    LastDotOfSuffix(stem, ext);
    assert name[k] == ext[0];
    if AllowedFileExtension.Contains(Lower(ext[1..])) {
      assert AllowedFileExtension.Contains(Lower(name[k + 1..]));
    }
    if NamesConstant(name) {
      var j :| 0 <= j < |name| && name[j] == '.' && '.' !in name[j + 1..] &&
        AllowedFileExtension.Contains(Lower(name[j + 1..]));
      LastIndexOfAt(name, '.', j);
    }
  }

  /**
   * A ".jpeg" file is refused whatever its content: "jpeg" names no constant,
   * although `JPG` lists ".jpeg".
   */
  lemma JpegRejected(stem: string, size: nat, mime: string)
    requires size > 0 && !IsSubstring("..", stem + ".jpeg")
    ensures ValidateFile(UploadedFile(Some(stem + ".jpeg"), size, mime)) == Some(ExtensionNotAllowed)
  {
    NamesConstantOfSuffix(stem, ".jpeg");
    assert ".jpeg"[1..] == "jpeg" && Lower("jpeg") == "jpeg";
    AllowedFileExtension.JpegListedButNotNamed();
  }

  /** For a name `stem + ext` without "..", only `ext` and the detected type decide. */
  lemma ValidateSuffix(stem: string, ext: string, size: nat, mime: string)
    requires size > 0 && !IsSubstring("..", stem + ext)
    requires |ext| >= 1 && ext[0] == '.' && '.' !in ext[1..]
    ensures ValidateFile(UploadedFile(Some(stem + ext), size, mime)) ==
      if !AllowedFileExtension.Contains(Lower(ext[1..])) then Some(ExtensionNotAllowed)
      else if !StartsWith(mime, "image/") then Some(NotAnImage)
      else None
  {
    NamesConstantOfSuffix(stem, ext);
    assert (stem + ext)[|stem|] == '.';
  }

  /** A ".pdf" file passes the extension guard; only the detected type decides. */
  lemma PdfDecidedByType(stem: string, size: nat, mime: string)
    requires size > 0 && !IsSubstring("..", stem + ".pdf")
    ensures ValidateFile(UploadedFile(Some(stem + ".pdf"), size, mime)) ==
      if StartsWith(mime, "image/") then None else Some(NotAnImage)
  {
    assert ".pdf"[1..] == "pdf";
    LowerPdf();
    ValidateSuffix(stem, ".pdf", size, mime);
  }

  lemma LowerPdf()
    ensures AllowedFileExtension.Contains(Lower("pdf"))
  {
    assert Lower("pdf") == "pdf";
    assert AllowedFileExtension.Contains("pdf");
  }

  /** A ".webp" file with a detected image type passes every guard. */
  lemma WebpAccepted(stem: string, size: nat, mime: string)
    requires size > 0 && !IsSubstring("..", stem + ".webp") && StartsWith(mime, "image/")
    ensures ValidateFile(UploadedFile(Some(stem + ".webp"), size, mime)).None?
  {
    assert ".webp"[1..] == "webp";
    LowerWebp();
    ValidateSuffix(stem, ".webp", size, mime);
  }

  lemma LowerWebp()
    ensures AllowedFileExtension.Contains(Lower("webp"))
  {
    assert Lower("webp") == "webp";
    assert AllowedFileExtension.Contains("webp");
  }

  /** A name holding ".." is refused before its extension is looked at. */
  lemma DotDotRejected(a: string, b: string, size: nat, mime: string)
    requires size > 0
    ensures ValidateFile(UploadedFile(Some(a + ".." + b), size, mime)) == Some(BadFileName)
  {
    var name := a + ".." + b;
    assert name[|a|..|a| + 2] == "..";
    SubstringAt("..", name, |a|);
  }

  /** `FileService.validateFile` accepts a ".jpeg" name of an allowed size. */
  lemma ServiceAcceptsJpeg(stem: string, size: nat)
    requires 0 < size <= FileService.MaxFileSize
    ensures FileService.ValidateFile(FileService.Upload(Some(stem + ".jpeg"), size)).None?
  {
    LastDotOfSuffix(stem, ".jpeg");
    assert ".jpeg"[1..] == "jpeg" && Lower("jpeg") == "jpeg";
    assert (stem + ".jpeg")[|stem|] == '.';
  }

  /** `FileService.validateFile` refuses a ".webp" name. */
  lemma ServiceRejectsWebp(stem: string, size: nat)
    requires 0 < size <= FileService.MaxFileSize
    ensures FileService.ValidateFile(FileService.Upload(Some(stem + ".webp"), size)) == Some(FileService.ExtensionNotAllowed)
  {
    var w := stem + ".webp";
    LastDotOfSuffix(stem, ".webp");
    assert ".webp"[1..] == "webp" && Lower("webp") == "webp";
    assert w[|stem|] == '.';
    assert !FileService.HasListedExtension(w) by {
      forall j | 0 <= j < |w| && w[j] == '.' && '.' !in w[j + 1..]
        ensures Lower(w[j + 1..]) !in FileService.AllowedExtensions
      {
        LastIndexOfAt(w, '.', j);
      }
    }
  }

  /** The two validators disagree: each accepts an upload the other refuses. */
  lemma ValidatorsDisagree(stem: string, size: nat)
    requires 0 < size <= FileService.MaxFileSize
    requires !IsSubstring("..", stem + ".jpeg") && !IsSubstring("..", stem + ".webp")
    ensures FileService.ValidateFile(FileService.Upload(Some(stem + ".jpeg"), size)).None?
    ensures ValidateFile(UploadedFile(Some(stem + ".jpeg"), size, "image/jpeg")) == Some(ExtensionNotAllowed)
    ensures FileService.ValidateFile(FileService.Upload(Some(stem + ".webp"), size)) == Some(FileService.ExtensionNotAllowed)
    ensures ValidateFile(UploadedFile(Some(stem + ".webp"), size, "image/webp")).None?
  {
    JpegRejected(stem, size, "image/jpeg");
    assert StartsWith("image/webp", "image/");
    WebpAccepted(stem, size, "image/webp");
    ServiceAcceptsJpeg(stem, size);
    ServiceRejectsWebp(stem, size);
  }
}
