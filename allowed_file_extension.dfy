/**
 * common/enums/AllowedFileExtension.java: the constant table of accepted
 * extensions and MIME types, `isAllowed` and `contains`.
 */
module AllowedFileExtension {
  import opened Common

  /** The enum constants, in declaration order in `Values`. */
  datatype Kind = JPG | PNG | GIF | PDF | DOC | DOCX | TXT | BMP | WEBP

  const Values: seq<Kind> := [JPG, PNG, GIF, PDF, DOC, DOCX, TXT, BMP, WEBP]

  lemma ValuesComplete(k: Kind)
    ensures k in Values
  {
  }

  /** `name()`: the constant's identifier. */
  function Name(k: Kind): string {
    match k
    case JPG => "JPG"
    case PNG => "PNG"
    case GIF => "GIF"
    case PDF => "PDF"
    case DOC => "DOC"
    case DOCX => "DOCX"
    case TXT => "TXT"
    case BMP => "BMP"
    case WEBP => "WEBP"
  }

  function MimeType(k: Kind): string {
    match k
    case JPG => "image/jpeg"
    case PNG => "image/png"
    case GIF => "image/gif"
    case PDF => "application/pdf"
    case DOC => "application/msword"
    case DOCX => "application/vnd.openxmlformats-officedocument.wordprocessingml.document"
    case TXT => "text/plain"
    case BMP => "image/bmp"
    case WEBP => "image/webp"
  }

  /** The dotted, lower-case extensions each constant lists. */
  function Extensions(k: Kind): seq<string> {
    match k
    case JPG => [".jpg", ".jpeg"]
    case PNG => [".png"]
    case GIF => [".gif"]
    case PDF => [".pdf"]
    case DOC => [".doc"]
    case DOCX => [".docx"]
    case TXT => [".txt"]
    case BMP => [".bmp"]
    case WEBP => [".webp"]
  }

  /** `valueOf`: the constant with exactly that identifier, if any. */
  function ValueOf(name: string): (r: Option<Kind>)
    ensures r.Some? ==> Name(r.value) == name
    ensures r.None? ==> forall k: Kind :: Name(k) != name
  {
    if name == "JPG" then Some(JPG)
    else if name == "PNG" then Some(PNG)
    else if name == "GIF" then Some(GIF)
    else if name == "PDF" then Some(PDF)
    else if name == "DOC" then Some(DOC)
    else if name == "DOCX" then Some(DOCX)
    else if name == "TXT" then Some(TXT)
    else if name == "BMP" then Some(BMP)
    else if name == "WEBP" then Some(WEBP)
    else None
  }

  /** Looking a constant up by its own name finds it. */
  lemma ValueOfName(k: Kind)
    ensures ValueOf(Name(k)) == Some(k)
  {
  }

  predicate IsUpperLetter(c: char) {
    'A' <= c <= 'Z'
  }

  lemma NamesAreUpperCase(k: Kind)
    ensures forall i :: 0 <= i < |Name(k)| ==> IsUpperLetter(Name(k)[i])
  {
  }

  /** Upper-casing a string gives an upper-case word exactly when the two agree ignoring case. */
  lemma {:induction false} UpperMatchesIgnoringCase(s: string, w: string)
    requires forall i :: 0 <= i < |w| ==> IsUpperLetter(w[i])
    ensures Upper(s) == w <==> Lower(s) == Lower(w)
  {
    if Upper(s) == w {
      forall i | 0 <= i < |s| ensures Lower(s)[i] == Lower(w)[i] {
        CharMatchesIgnoringCase(s[i], w[i]);
      }
    }
    if Lower(s) == Lower(w) {
      forall i | 0 <= i < |s| ensures Upper(s)[i] == w[i] {
        CharMatchesIgnoringCase(s[i], w[i]);
      }
    }
  }

  lemma CharMatchesIgnoringCase(c: char, u: char)
    requires IsUpperLetter(u)
    ensures UpperChar(c) == u <==> LowerChar(c) == LowerChar(u)
  {
  }

  /**
   * `contains`: whether `valueOf(extension.toUpperCase())` succeeds, that is,
   * whether the argument is a constant's identifier in some letter case.
   */
  function Contains(extension: string): (r: bool)
    ensures r <==> exists k: Kind :: Lower(extension) == Lower(Name(k))
  {
    var found := ValueOf(Upper(extension));
    forall k: Kind ensures Upper(extension) == Name(k) <==> Lower(extension) == Lower(Name(k)) {
      NamesAreUpperCase(k);
      UpperMatchesIgnoringCase(extension, Name(k));
    }
    found.Some?
  }

  lemma ContainsExamples()
    ensures Contains("jpg") && Contains("PNG") && Contains("webp") && Contains("txt")
    ensures !Contains("jpeg") && !Contains("")
  {
    ListedExamples();
    UnlistedExamples();
  }

  lemma UnlistedExamples()
    ensures !Contains("jpeg") && !Contains("")
  {
    assert Upper("jpeg") == "JPEG";
  }

  lemma ListedExamples()
    ensures Contains("jpg") && Contains("PNG")
    ensures Contains("webp") && Contains("txt")
  {
    assert Upper("jpg") == "JPG" && Upper("PNG") == "PNG";
    assert Upper("webp") == "WEBP" && Upper("txt") == "TXT";
  }

  /** ".jpeg" is listed under `JPG`, yet "jpeg" names no constant. */
  lemma JpegListedButNotNamed()
    ensures ".jpeg" in Extensions(JPG) && !Contains("jpeg")
  {
    assert Upper("jpeg") == "JPEG";
  }

  /** `isAllowed` fails with `substring(-1)` on a name without '.'. */
  datatype IndexOutOfBounds = IndexOutOfBounds

  /** The dotted, lower-cased extension `isAllowed` looks for. */
  function DottedExtension(fileName: string): (ext: string)
    requires '.' in fileName
    ensures |ext| >= 1 && ext[0] == '.' && '.' !in ext[1..]
    ensures forall k :: 0 <= k < |fileName| && fileName[k] == '.' && '.' !in fileName[k + 1..] ==>
      ext == Lower(fileName[k..])
  {
    LastIndexOfUnique(fileName, '.');
    var i := LastIndexOf(fileName, '.');
    var ext := Lower(fileName[i..]);
    assert ext[1..] == Lower(fileName[i + 1..]);
    LowerNoDot(fileName[i + 1..]);
    ext
  }

  /** Constant `k` lists `ext` and has MIME type `contentType`. */
  predicate Allows(k: Kind, ext: string, contentType: string) {
    ext in Extensions(k) && MimeType(k) == contentType
  }

  /**
   * `isAllowed`: some constant lists the lower-cased dotted extension and has
   * exactly the given MIME type.
   */
  function IsAllowed(fileName: string, contentType: string): (r: Result<bool, IndexOutOfBounds>)
    ensures r.Err? <==> '.' !in fileName
    ensures r.Ok? ==> (r.value <==> exists k: Kind :: Allows(k, DottedExtension(fileName), contentType))
  {
    if '.' !in fileName then Err(IndexOutOfBounds)
    else
      var ext := DottedExtension(fileName);
      var found := exists i :: 0 <= i < |Values| && Allows(Values[i], ext, contentType);
      forall k: Kind | Allows(k, ext, contentType) ensures found {
        ValuesComplete(k);
        var i :| 0 <= i < |Values| && Values[i] == k;
      }
      Ok(found)
  }

  lemma DottedExtensionAt(fileName: string, k: int)
    requires 0 <= k < |fileName| && fileName[k] == '.' && '.' !in fileName[k + 1..]
    ensures DottedExtension(fileName) == Lower(fileName[k..])
  {
    LastIndexOfAt(fileName, '.', k);
  }

  /** ".jpeg" is allowed with the JPEG type. */
  lemma JpegAllowedAsJpeg()
    ensures IsAllowed("photo.jpeg", "image/jpeg") == Ok(true)
  {
    DottedExtensionAt("photo.jpeg", 5);
    assert "photo.jpeg"[5..] == ".jpeg" && Lower(".jpeg") == ".jpeg";
    assert Allows(JPG, ".jpeg", "image/jpeg");
  }

  /** ".jpg" is not allowed with the PNG type: the pair must come from one constant. */
  lemma JpgNotAllowedAsPng()
    ensures IsAllowed("photo.jpg", "image/png") == Ok(false)
  {
    DottedExtensionAt("photo.jpg", 5);
    assert "photo.jpg"[5..] == ".jpg" && Lower(".jpg") == ".jpg";
    forall k: Kind ensures !Allows(k, ".jpg", "image/png") {
      match k
      case JPG =>
      case _ =>
    }
  }

  /** The extension is compared ignoring case. */
  lemma UpperCaseExtensionAllowed()
    ensures IsAllowed("PHOTO.PNG", "image/png") == Ok(true)
  {
    DottedExtensionAt("PHOTO.PNG", 5);
    assert "PHOTO.PNG"[5..] == ".PNG" && Lower(".PNG") == ".png";
    assert Allows(PNG, ".png", "image/png");
  }

  /** The MIME type is compared exactly, letter case included. */
  lemma MimeTypeIsCaseSensitive()
    ensures IsAllowed("photo.png", "IMAGE/PNG") == Ok(false)
  {
    DottedExtensionAt("photo.png", 5);
    assert "photo.png"[5..] == ".png" && Lower(".png") == ".png";
    forall k: Kind ensures !Allows(k, ".png", "IMAGE/PNG") {
    }
  }

  /** A name without '.' makes `isAllowed` throw. */
  lemma NoDotFails()
    ensures IsAllowed("photo", "image/png").Err?
  {
  }
}
