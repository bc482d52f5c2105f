/**
 * The client-side upload validator: which file names are accepted for
 * analysis, and the size and type checks made before a file is sent to the
 * analysis backend.
 */
module FileProcessor {
  import opened Wrappers
  import opened JsString

  /** The extensions an uploaded file may have (21 entries, all lower-case). */
  const SupportedExtensions: seq<string> := [
    ".js", ".ts", ".jsx", ".tsx", ".py", ".go", ".java", ".php",
    ".rb", ".cs", ".cpp", ".c", ".rs", ".kt", ".json", ".yml",
    ".yaml", ".env", ".html", ".css", ".scss"
  ]

  /** 5 MiB, the largest size accepted. */
  const MaxUploadSize: nat := 5 * 1024 * 1024

  const TooLarge := "File too large (max 5MB)"
  const UnsupportedType := "Unsupported file type"
  const EmptyFile := "File is empty"

  /** The metadata of a browser `File` that validation reads. */
  datatype File = File(name: string, size: nat)

  /** `{ valid, error? }`: `error` is absent exactly when the file is valid. */
  datatype Validation = Validation(valid: bool, error: Option<string>)

  /** Whether some listed extension ends the lower-cased name. */
  function IsSupportedFileType(fileName: string): (r: bool)
    ensures r <==> exists i :: 0 <= i < |SupportedExtensions| && EndsWith(ToLower(fileName), SupportedExtensions[i])
  {
    EndsWithAny(ToLower(fileName), SupportedExtensions)
  }

  /**
   * An independent reading of the allow-list: a name is supported exactly when it
   * has a dot and the text from its last dot on, lower-cased, is a listed extension.
   */
  lemma SupportedIffLastExtensionListed(fileName: string)
    ensures IsSupportedFileType(fileName) <==>
              (LastIndexOf(fileName, '.') != -1 &&
               ToLower(fileName[LastIndexOf(fileName, '.')..]) in SupportedExtensions)
  {
    SupportedExtensionsAreDotExtensions();
    EndsWithAnyDotExtension(fileName, SupportedExtensions);
  }

  lemma SupportedExtensionsAreDotExtensions()
    ensures forall i :: 0 <= i < |SupportedExtensions| ==> IsDotExtension(SupportedExtensions[i])
  {
  }

  /** The check ignores case: a name and its upper-cased form are treated alike. */
  lemma SupportIsCaseInsensitive(fileName: string)
    ensures IsSupportedFileType(ToUpper(fileName)) == IsSupportedFileType(fileName)
  {
    LowerOfUpper(fileName);
  }

  /**
   * Size too large first, then an unsupported name, then a zero size; otherwise valid.
   */
  function ValidateFile(file: File): (r: Validation)
    ensures r.valid <==> 0 < file.size <= MaxUploadSize && IsSupportedFileType(file.name)
    ensures r.valid <==> r.error.None?
    ensures r.error.Some? ==> r.error.value == TooLarge || r.error.value == UnsupportedType || r.error.value == EmptyFile
    ensures r.error == Some(TooLarge) <==> file.size > MaxUploadSize
    ensures r.error == Some(UnsupportedType) <==> file.size <= MaxUploadSize && !IsSupportedFileType(file.name)
    ensures r.error == Some(EmptyFile) <==> file.size == 0 && IsSupportedFileType(file.name)
  {
    if file.size > MaxUploadSize then Validation(false, Some(TooLarge))
    else if !IsSupportedFileType(file.name) then Validation(false, Some(UnsupportedType))
    else if file.size == 0 then Validation(false, Some(EmptyFile))
    else Validation(true, None)
  }

  /** Exactly 5,242,880 bytes passes the size check; one byte more is too large. */
  lemma SizeBoundary(name: string)
    ensures ValidateFile(File(name, 5242880)).error != Some(TooLarge)
    ensures ValidateFile(File(name, 5242881)).error == Some(TooLarge)
    ensures IsSupportedFileType(name) ==> ValidateFile(File(name, 5242880)).valid
  {
  }

  lemma TextNotListed()
    ensures ".txt" !in SupportedExtensions
  {
    forall i | 0 <= i < |SupportedExtensions|
      ensures SupportedExtensions[i] != ".txt"
    {
      var e := SupportedExtensions[i];
      assert |e| != 4 || e[1] != 't' || e[3] != 't';
    }
  }

  /** A ".txt" name is not supported, whatever comes before the extension (even `notes.js.txt`). */
  lemma TextFileUnsupported(stem: string)
    ensures !IsSupportedFileType(stem + ".txt")
  {
    var name := stem + ".txt";
    var k := |stem|;
    LastIndexAt(name, '.', k);
    assert name[k..] == ".txt";
    assert ToLower(".txt") == ".txt";
    TextNotListed();
    SupportedIffLastExtensionListed(name);
  }

  /** An empty file whose type is not supported is reported as unsupported, not as empty. */
  lemma UnsupportedBeatsEmpty(stem: string)
    ensures ValidateFile(File(stem + ".txt", 0)).error == Some(UnsupportedType)
  {
    TextFileUnsupported(stem);
  }
}
