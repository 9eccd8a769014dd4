/** Client-side upload checks and file-type icons (client/src/lib/fileUtils.ts). */
module FileUtils {
  import opened Wrappers
  import opened Text

  const MaxFileSize: int := 10 * 1024 * 1024
  const AllowedTypes: seq<string> := [".pdf", ".doc", ".docx", ".xls", ".xlsx", ".png", ".jpg", ".jpeg", ".gif"]
  const MaxFiles: int := 10

  datatype FileError = TypeNotAllowed(extension: string) | TooLarge(size: int)

  /** `{ isValid, error? }` */
  datatype Validation = Validation(isValid: bool, error: Option<FileError>)

  /** `'.' + name.split('.').pop().toLowerCase()` */
  function ClientExtension(name: string): string {
    "." + Lower(LastSegment(name, '.'))
  }

  /** The text of the type error, listing the allowed types. */
  function TypeErrorMessage(ext: string): string {
    "Type de fichier non autoris\U{00E9}: " + ext + ". Types autoris\U{00E9}s: " + Join(AllowedTypes, ", ")
  }

  /** The type check first, then the size check. */
  function ValidateFile(name: string, size: int): Validation {
    var ext := ClientExtension(name);
    if ext !in AllowedTypes then Validation(false, Some(TypeNotAllowed(ext)))
    else if size > MaxFileSize then Validation(false, Some(TooLarge(size)))
    else Validation(true, None)
  }

  const IconPdf: string := "\U{1F4C4}"
  const IconText: string := "\U{1F4DD}"
  const IconSheet: string := "\U{1F4CA}"
  const IconImage: string := "\U{1F5BC}\U{FE0F}"
  const IconOther: string := "\U{1F4CE}"

  function FileTypeIcon(fileType: string): string {
    var t := Lower(fileType);
    if t in ["pdf"] then IconPdf
    else if t in ["doc", "docx"] then IconText
    else if t in ["xls", "xlsx"] then IconSheet
    else if t in ["png", "jpg", "jpeg", "gif"] then IconImage
    else IconOther
  }

  /**
   * A file is accepted exactly when its extension is one of the nine allowed ones and its size
   * is at most 10 MiB; it is valid exactly when no error is reported.
   */
  lemma ValidateFileSpec(name: string, size: int)
    ensures ValidateFile(name, size).isValid <==> ClientExtension(name) in AllowedTypes && size <= MaxFileSize
    ensures ValidateFile(name, size).isValid <==> ValidateFile(name, size).error.None?
    ensures ClientExtension(name) !in AllowedTypes ==>
      ValidateFile(name, size).error == Some(TypeNotAllowed(ClientExtension(name)))
    ensures ClientExtension(name) in AllowedTypes && size > MaxFileSize ==>
      ValidateFile(name, size).error == Some(TooLarge(size))
  {
  }

  /** The size bound is inclusive: 10485760 bytes pass, 10485761 do not. */
  lemma SizeBoundary(name: string)
    requires ClientExtension(name) in AllowedTypes
    ensures ValidateFile(name, 10485760).isValid
    ensures ValidateFile(name, 10485761) == Validation(false, Some(TooLarge(10485761)))
  {
  }

  /** Letter case in the name never changes the outcome: "A.PDF" validates like "a.pdf". */
  lemma ValidateIgnoresCase(name: string, size: int)
    ensures ValidateFile(Upper(name), size) == ValidateFile(name, size)
    ensures ValidateFile(Lower(name), size) == ValidateFile(name, size)
  {
    LastSegmentCase(name, '.');
    CaseRoundTrips(LastSegment(name, '.'));
    LowerIdempotent(LastSegment(name, '.'));
  }

  /** A name with no dot is its own extension candidate: "pdf" is checked as ".pdf". */
  lemma NoDotWholeName(name: string)
    requires '.' !in name
    ensures ClientExtension(name) == "." + Lower(name)
    ensures ValidateFile("pdf", 1).isValid
  {
    LastSegmentWhole(name, '.');
    LastSegmentWhole("pdf", '.');
    assert ClientExtension("pdf") == AllowedTypes[0];
  }

  /** The extension is what follows the last dot: "rapport.final.PDF" is ".pdf". */
  lemma ExtensionAfterLastDot(stem: string, ext: string)
    requires '.' !in ext
    ensures ClientExtension(stem + "." + ext) == "." + Lower(ext)
  {
    LastSegmentAfterLast(stem, '.', ext);
  }

  /** The icon ignores letter case, and everything outside the four groups is a paper clip. */
  lemma FileTypeIconSpec(fileType: string)
    ensures FileTypeIcon(Upper(fileType)) == FileTypeIcon(fileType)
    ensures Lower(fileType) !in {"pdf", "doc", "docx", "xls", "xlsx", "png", "jpg", "jpeg", "gif"} ==>
      FileTypeIcon(fileType) == IconOther
    ensures FileTypeIcon("PDF") == IconPdf
  {
    CaseRoundTrips(fileType);
    assert Lower("PDF") == "pdf";
  }
}
