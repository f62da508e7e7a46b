/** The upload helpers of `utils/awsbucket.js`: which files are accepted,
    which folder a file goes to, the object key it is stored under, and the
    key `deleteFileFromS3` derives back from a file URL. The S3 client and
    the multer wiring are not part of this model; the clock is a
    parameter. */
module AwsBucket {
  import opened Wrappers
  import opened Strings

  /** 50 MiB, the limit for every upload. */
  const MaxFileSize: nat := 50 * 1024 * 1024

  const ImageTypes: set<string> := {"image/jpeg", "image/png", "image/webp", "image/svg+xml"}

  /** The vendor-tree types: `application/vnd.ms-excel`,
      `application/vnd.openxmlformats-officedocument.wordprocessingml.document`
      and `application/vnd.openxmlformats-officedocument.spreadsheetml.sheet`.
      They are spelled as the concatenation of their pieces only so that the
      folder proofs can reason piece by piece: `VendorNoVideo` needs the
      `application/vnd.` prefix apart from a tail without `v`, and
      `WordProcessingNoImage` needs `wordprocessingml.` apart from text
      without `g`. */
  const Vendor: string := "application/vnd."
  const OpenXml: string := "openxmlformats-" + "officedocument."
  const WordDocument: string := Vendor + OpenXml + "wordprocessingml." + "document"
  const SpreadsheetSheet: string := Vendor + OpenXml + "spreadsheetml." + "sheet"
  const MsExcel: string := Vendor + "ms-excel"

  const DocTypes: set<string> := {
    "application/pdf",
    "application/msword",
    WordDocument,
    MsExcel,
    SpreadsheetSheet,
    "text/plain",
    "text/csv"
  }

  const VideoTypes: set<string> := {"video/mp4", "video/mpeg", "video/quicktime", "video/webm"}

  /** The three lists spread into one. */
  const AllowedTypes: set<string> := ImageTypes + DocTypes + VideoTypes

  datatype FileError = TooLarge | BadType

  function FileErrorMessage(e: FileError): string {
    match e
    case TooLarge => "File size exceeds limit"
    case BadType => "Invalid file type"
  }

  /** `validateFile(file)`: the size is checked first, then the type. */
  function ValidateFile(size: nat, mimetype: string): (r: Result<bool, FileError>)
    ensures r.Ok? <==> size <= MaxFileSize && mimetype in AllowedTypes
    ensures r.Ok? ==> r.value
    ensures size > MaxFileSize ==> r == Err(TooLarge)
    ensures size <= MaxFileSize && mimetype !in AllowedTypes ==> r == Err(BadType)
  {
    if size > MaxFileSize then Err(TooLarge)
    else if mimetype !in AllowedTypes then Err(BadType)
    else Ok(true)
  }

  /** The multer `fileFilter`: the type check alone. */
  function FileFilter(mimetype: string): (r: Result<bool, FileError>)
    ensures r.Ok? <==> mimetype in AllowedTypes
    ensures r.Ok? ==> r.value
    ensures r.Err? ==> r.error == BadType
  {
    if mimetype in AllowedTypes then Ok(true) else Err(BadType)
  }

  /** The filter and `validateFile` agree on the type: within the size
      limit, a file passes one exactly when it passes the other, and a
      filtered-out file fails validation for its type. */
  lemma FilterAgreesWithValidate(size: nat, mimetype: string)
    ensures size <= MaxFileSize ==> (ValidateFile(size, mimetype).Ok? <==> FileFilter(mimetype).Ok?)
    ensures ValidateFile(size, mimetype).Ok? ==> FileFilter(mimetype).Ok?
    ensures FileFilter(mimetype).Err? && size <= MaxFileSize ==> ValidateFile(size, mimetype) == Err(BadType)
  {
  }

  datatype Folder = Images | Docs | Videos

  function FolderName(f: Folder): string {
    match f
    case Images => "images"
    case Docs => "docs"
    case Videos => "videos"
  }

  /** `getFileFolder(mimetype)`: by substring, images before videos. */
  function GetFileFolder(mimetype: string): (f: Folder)
    ensures f == Images <==> Contains(mimetype, "image")
    ensures f == Videos <==> !Contains(mimetype, "image") && Contains(mimetype, "video")
  {
    if Contains(mimetype, "image") then Images
    else if Contains(mimetype, "video") then Videos
    else Docs
  }

  /** A text lacking one of the characters of `p` does not contain `p`. */
  lemma {:induction false} MissingCharNotContained(s: string, p: string, c: char)
    requires c in p && c !in s
    ensures !Contains(s, p)
  {
    if Contains(s, p) {
      var i := ContainsWitness(s, p);
    }
  }

  /** The allowed image types go to `images`. */
  lemma ImageTypesToImages(mimetype: string)
    requires mimetype in ImageTypes
    ensures GetFileFolder(mimetype) == Images
  {
    assert mimetype[..5] == "image";
    ContainsAt(mimetype, "image", 0);
  }

  /** The allowed video types go to `videos`: none of them has an `a`, so
      none contains `image`. */
  lemma VideoTypesToVideos(mimetype: string)
    requires mimetype in VideoTypes
    ensures GetFileFolder(mimetype) == Videos
  {
    assert mimetype[..5] == "video";
    ContainsAt(mimetype, "video", 0);
    assert 'a' !in mimetype;
    MissingCharNotContained(mimetype, "image", 'a');
  }

  /** In `application/vnd.` followed by text without `v`, no `v` is
      followed by `i`: the one `v` of the prefix is followed by `n`. */
  lemma VendorPairs(t: string, k: nat)
    requires 'v' !in t && k + 1 < |Vendor + t|
    ensures (Vendor + t)[k] != 'v' || (Vendor + t)[k + 1] != 'i'
  {
    var s := Vendor + t;
    if k >= |Vendor| {
      assert s[k] == t[k - |Vendor|];
    } else if k == 12 {
      assert s[k + 1] == Vendor[13];
    } else {
      assert s[k] == Vendor[k];
    }
  }

  /** `application/vnd.` followed by text without `v` does not contain
      `video`. */
  lemma VendorNoVideo(s: string, t: string)
    requires s == Vendor + t && 'v' !in t
    ensures !Contains(s, "video")
  {
    if Contains(s, "video") {
      var i := ContainsWitness(s, "video");
      VendorPairs(t, i);
    }
  }

  lemma OpenXmlLetters()
    ensures 'v' !in OpenXml && 'g' !in OpenXml && 'g' !in Vendor
  {
    assert 'v' !in "openxmlformats-" && 'g' !in "openxmlformats-";
    assert 'v' !in "officedocument." && 'g' !in "officedocument.";
  }

  /** In text whose only `g` is the one in `wordprocessingml.`, no `g` is
      followed by `e`. */
  lemma WordProcessingPairs(x: string, y: string, z: string, k: nat)
    requires 'g' !in x && 'g' !in z && y == "wordprocessingml." && k + 1 < |x + y + z|
    ensures (x + y + z)[k] != 'g' || (x + y + z)[k + 1] != 'e'
  {
    var m := x + y + z;
    if k < |x| {
      assert m[k] == x[k];
    } else if k >= |x| + |y| {
      assert m[k] == z[k - |x| - |y|];
    } else if k - |x| == 14 {
      assert m[k + 1] == y[15];
    } else {
      assert m[k] == y[k - |x|];
    }
  }

  /** Such text does not contain `image`. */
  lemma WordProcessingNoImage(x: string, y: string, z: string)
    requires 'g' !in x && 'g' !in z && y == "wordprocessingml."
    ensures !Contains(x + y + z, "image")
  {
    var m := x + y + z;
    if Contains(m, "image") {
      var i := ContainsWitness(m, "image");
      WordProcessingPairs(x, y, z, i + 3);
    }
  }

  /** An `application/` type whose subtype has neither `g` nor `v` goes to
      `docs` (`pdf`, `msword`). */
  lemma ApplicationToDocs(m: string, sub: string)
    requires m == "application/" + sub && 'g' !in sub && 'v' !in sub
    ensures GetFileFolder(m) == Docs
  {
    assert 'g' !in "application/" && 'v' !in "application/";
    MissingCharNotContained(m, "image", 'g');
    MissingCharNotContained(m, "video", 'v');
  }

  lemma MsExcelToDocs(m: string)
    requires m == MsExcel
    ensures GetFileFolder(m) == Docs
  {
    OpenXmlLetters();
    assert 'g' !in "ms-excel";
    MissingCharNotContained(m, "image", 'g');
    VendorNoVideo(m, "ms-excel");
  }

  lemma TextToDocs(m: string)
    requires m == "text/plain" || m == "text/csv"
    ensures GetFileFolder(m) == Docs
  {
    MissingCharNotContained(m, "image", 'g');
    MissingCharNotContained(m, "video", 'd');
  }

  lemma SpreadsheetToDocs(m: string)
    requires m == SpreadsheetSheet
    ensures GetFileFolder(m) == Docs
  {
    OpenXmlLetters();
    var t := OpenXml + "spreadsheetml." + "sheet";
    assert 'v' !in "spreadsheetml." && 'g' !in "spreadsheetml.";
    assert m == Vendor + t;
    VendorNoVideo(m, t);
    MissingCharNotContained(m, "image", 'g');
  }

  lemma WordDocumentToDocs(m: string)
    requires m == WordDocument
    ensures GetFileFolder(m) == Docs
  {
    OpenXmlLetters();
    var y, z := "wordprocessingml.", "document";
    var t := OpenXml + y + z;
    assert 'v' !in y && 'v' !in z && 'g' !in z;
    assert m == Vendor + t;
    VendorNoVideo(m, t);
    assert m == (Vendor + OpenXml) + y + z;
    WordProcessingNoImage(Vendor + OpenXml, y, z);
  }

  /** The allowed document types go to `docs`. */
  lemma DocTypesToDocs(mimetype: string)
    requires mimetype in DocTypes
    ensures GetFileFolder(mimetype) == Docs
  {
    var m := mimetype;
    if m == WordDocument {
      WordDocumentToDocs(m);
    } else if m == SpreadsheetSheet {
      SpreadsheetToDocs(m);
    } else if m == "application/pdf" {
      ApplicationToDocs(m, "pdf");
    } else if m == "application/msword" {
      ApplicationToDocs(m, "msword");
    } else if m == MsExcel {
      MsExcelToDocs(m);
    } else {
      TextToDocs(m);
    }
  }

  /** For an allowed type, the folder is the one of the list it is in. */
  lemma FolderMatchesList(mimetype: string)
    requires mimetype in AllowedTypes
    ensures GetFileFolder(mimetype) == Images <==> mimetype in ImageTypes
    ensures GetFileFolder(mimetype) == Videos <==> mimetype in VideoTypes
    ensures GetFileFolder(mimetype) == Docs <==> mimetype in DocTypes
  {
    if mimetype in ImageTypes {
      ImageTypesToImages(mimetype);
    }
    if mimetype in VideoTypes {
      VideoTypesToVideos(mimetype);
    }
    if mimetype in DocTypes {
      DocTypesToDocs(mimetype);
    }
  }

  /** `generateFileName(originalName, folder)` at time `now` (milliseconds
      since the epoch): every white space run of the name becomes `_`. */
  function GenerateFileName(originalName: string, folder: Folder, now: nat): string {
    FolderName(folder) + "/" + NatToString(now) + "_" + ReplaceSpaceRuns(originalName, "_")
  }

  /** The object key the multer storage gives an upload. */
  function UploadKey(originalName: string, mimetype: string, now: nat): string {
    GenerateFileName(originalName, GetFileFolder(mimetype), now)
  }

  /** The name part of a generated file name has no white space, and no
      `/` when the original name has none. */
  lemma CleanName(originalName: string)
    ensures NoJsSpace(ReplaceSpaceRuns(originalName, "_"))
    ensures '/' !in originalName ==> '/' !in ReplaceSpaceRuns(originalName, "_")
  {
    assert NoJsSpace("_");
    ReplaceSpaceRunsNoSpace(originalName, "_");
    if '/' in ReplaceSpaceRuns(originalName, "_") {
      ReplaceSpaceRunsChars(originalName, "_", '/');
    }
  }

  /** Two texts without `/` joined by one split back into the two. */
  lemma SplitTwo(a: string, b: string)
    requires '/' !in a && '/' !in b
    ensures Split(a + "/" + b, '/') == [a, b]
  {
    assert a + "/" + b == a + ['/'] + b;
    SplitConcat(a, '/', b);
    SplitNoSeparator(a, '/');
    SplitNoSeparator(b, '/');
  }

  /** A decimal numeral holds only digits. */
  lemma NumeralHasOnlyDigits(n: nat, c: char)
    requires !IsDigit(c)
    ensures c !in NatToString(n)
  {
    assert forall i :: 0 <= i < |NatToString(n)| ==> IsDigit(NatToString(n)[i]);
  }

  /** The parts of a generated file name: the folder, then the timestamp
      and the name without white space, for a name without `/`. */
  lemma FileNameParts(originalName: string, folder: Folder, now: nat)
    requires '/' !in originalName
    ensures var clean := ReplaceSpaceRuns(originalName, "_");
      Split(GenerateFileName(originalName, folder, now), '/') == [FolderName(folder), NatToString(now) + "_" + clean] &&
      NoJsSpace(clean)
  {
    var clean := ReplaceSpaceRuns(originalName, "_");
    var rest := NatToString(now) + "_" + clean;
    CleanName(originalName);
    NoSlashAfterFolder(now, clean);
    FolderHasNoSlash(folder);
    RegroupKey(FolderName(folder) + "/", NatToString(now), clean);
    SplitTwo(FolderName(folder), rest);
  }

  /** The key regrouped as its folder prefix and the rest. */
  lemma RegroupKey(prefix: string, stamp: string, clean: string)
    ensures prefix + stamp + "_" + clean == prefix + (stamp + "_" + clean)
  {
    var rest := stamp + "_" + clean;
    assert |prefix + stamp + "_" + clean| == |prefix + rest|;
    forall i | 0 <= i < |prefix + rest| ensures (prefix + stamp + "_" + clean)[i] == (prefix + rest)[i] {
      if i < |prefix| {
      } else if i < |prefix| + |stamp| {
      } else if i == |prefix| + |stamp| {
      } else {
      }
    }
  }

  /** No folder name holds a `/`. */
  lemma FolderHasNoSlash(f: Folder)
    ensures '/' !in FolderName(f)
  {
    match f
    case Images => assert FolderName(f) == ['i', 'm', 'a', 'g', 'e', 's'];
    case Docs => assert FolderName(f) == ['d', 'o', 'c', 's'];
    case Videos => assert FolderName(f) == ['v', 'i', 'd', 'e', 'o', 's'];
  }

  /** The timestamp and a name without `/` joined by `_` hold no `/`. */
  lemma NoSlashAfterFolder(now: nat, clean: string)
    requires '/' !in clean
    ensures '/' !in NatToString(now) + "_" + clean
  {
    NumeralHasOnlyDigits(now, '/');
    var t := NatToString(now) + "_" + clean;
    forall i | 0 <= i < |t| ensures t[i] != '/' {
      if i < |NatToString(now)| {
        assert t[i] == NatToString(now)[i];
      } else if i > |NatToString(now)| {
        assert t[i] == clean[i - |NatToString(now)| - 1];
      }
    }
  }

  /** The timestamp reads back from a generated file name: it is the text
      between the `/` and the first `_`. */
  lemma TimestampReadsBack(originalName: string, folder: Folder, now: nat)
    requires '/' !in originalName
    ensures var parts := Split(GenerateFileName(originalName, folder, now), '/');
      |parts| == 2 && AllDigits(Split(parts[1], '_')[0]) && DecimalValue(Split(parts[1], '_')[0]) == now
  {
    FileNameParts(originalName, folder, now);
    var digits := NatToString(now);
    var clean := ReplaceSpaceRuns(originalName, "_");
    NumeralHasOnlyDigits(now, '_');
    assert digits + "_" + clean == digits + ['_'] + clean;
    SplitConcat(digits, '_', clean);
    SplitNoSeparator(digits, '_');
    NatToStringValue(now);
  }

  /** What `deleteFileFromS3` does before calling S3. */
  datatype DeleteRequest = NothingToDelete | DeleteObject(key: string)

  /** The last two elements of a list, or the list itself when it is
      shorter: `parts.slice(-2)`. */
  function LastTwo(parts: seq<string>): (r: seq<string>)
    ensures |r| == if |parts| < 2 then |parts| else 2
    ensures r == parts[|parts| - |r|..]
  {
    if |parts| < 2 then parts else parts[|parts| - 2..]
  }

  /** `deleteFileFromS3(fileUrl)` up to the S3 call: a falsy URL is a
      successful no-op; otherwise the key is the last two `/`-separated
      segments joined by `/`. */
  function DeleteFileFromS3(fileUrl: Option<string>): (r: DeleteRequest)
    ensures r == NothingToDelete <==> fileUrl.None? || fileUrl.value == ""
    ensures r.DeleteObject? ==> r.key == Join(LastTwo(Split(fileUrl.value, '/')), '/')
  {
    if fileUrl.None? || fileUrl.value == "" then NothingToDelete
    else DeleteObject(Join(LastTwo(Split(fileUrl.value, '/')), '/'))
  }

  /** The message of the successful result. */
  function DeleteMessage(r: DeleteRequest): string {
    match r
    case NothingToDelete => "No file to delete"
    case DeleteObject(key) => "File " + key + " deleted successfully"
  }

  /** The key derived from a file URL is a suffix of the URL, the path
      after its last-but-one `/`, or the whole URL when it has at most one
      `/`. */
  lemma DeleteKeyIsSuffix(fileUrl: string)
    requires fileUrl != ""
    ensures var r := DeleteFileFromS3(Some(fileUrl));
      r.DeleteObject? && |r.key| <= |fileUrl| && fileUrl[|fileUrl| - |r.key|..] == r.key
  {
    var parts := Split(fileUrl, '/');
    var key := Join(LastTwo(parts), '/');
    if |parts| <= 2 {
      JoinSplit(fileUrl, '/');
      assert LastTwo(parts) == parts;
    } else {
      SplitSuffix(fileUrl, '/', |parts| - 2);
    }
  }

  /** Deleting by the URL of an uploaded object deletes that object: under
      any bucket base URL, the key derived from `base + "/" + key` is the
      key the upload generated, whatever the file name, as long as it has
      no `/`. */
  lemma DeleteFindsUploadedKey(base: string, originalName: string, mimetype: string, now: nat)
    requires '/' !in originalName
    ensures DeleteFileFromS3(Some(base + "/" + UploadKey(originalName, mimetype, now))) ==
      DeleteObject(UploadKey(originalName, mimetype, now))
  {
    var folder := GetFileFolder(mimetype);
    var key := UploadKey(originalName, mimetype, now);
    var url := base + "/" + key;
    FileNameParts(originalName, folder, now);
    var keyParts := Split(key, '/');
    assert url == base + ['/'] + key;
    SplitConcat(base, '/', key);
    var parts := Split(url, '/');
    assert parts == Split(base, '/') + keyParts;
    assert LastTwo(parts) == keyParts;
    JoinSplit(key, '/');
  }
}
