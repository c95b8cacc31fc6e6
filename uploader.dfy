/**
 * The browser side of an upload, the `AudioFileUploader` component: which picked files
 * pass its type and size checks, the record it keeps for each file, removing one file
 * from the list, the multipart form it posts, and how its state answers each outcome
 * of the request.
 */
module Uploader {
  import opened Wrappers
  import opened JsStrings
  import opened JsArrays
  import UploadFilters

  const MAX_FILE_SIZE_MB: nat := 500
  const SUPPORTED_FORMATS: seq<string> := [".wav", ".mp3", ".flac", ".aiff"]
  const FALLBACK_TYPE: string := "audio/wav"
  const UNKNOWN_DURATION: string := "unknown"
  const TYPE_ERROR_PREFIX: string := "Unsupported file type(s): "
  const SIZE_ERROR_PREFIX: string := "Files exceeding 500MB: "
  const FILES_FIELD: string := "files"
  const METADATA_FIELD_PREFIX: string := "metadata"
  const UPLOAD_FAILED_PREFIX: string := "Upload failed: "
  const UPLOAD_CANCELLED: string := "Upload cancelled"
  const UPLOAD_FAILED_GENERIC: string := "Upload failed. Please try again."

  /**
   * A `File` from the folder picker, with what the browser reports about it:
   * `mimeType` is `file.type` (possibly empty), `webkitRelativePath` is empty for a file
   * not picked through a folder, `lastModifiedDate` is the locale date text of
   * `lastModified`, and `playbackDuration` is the two-decimal text of the duration the
   * audio element reports, or None when it reports an error or a zero duration.
   */
  datatype BrowserFile = BrowserFile(
    name: string,
    size: nat,
    mimeType: string,
    webkitRelativePath: string,
    lastModifiedDate: string,
    playbackDuration: Option<string>)

  /** `validateFileType`: an audio MIME type, or a supported extension in any letter case. */
  predicate ValidateFileType(f: BrowserFile) {
    StartsWith(f.mimeType, "audio/") ||
    exists i | 0 <= i < |SUPPORTED_FORMATS| :: EndsWith(Lower(f.name), SUPPORTED_FORMATS[i])
  }

  /** `validateFileSize`: the size in mebibytes is at most the limit. */
  predicate ValidateFileSize(f: BrowserFile) {
    f.size as real / 1024.0 / 1024.0 <= MAX_FILE_SIZE_MB as real
  }

  /** The size check in whole bytes: at most 500 MiB. */
  lemma ValidateFileSizeInBytes(f: BrowserFile)
    ensures ValidateFileSize(f) <==> f.size <= 524288000
  {
    assert f.size as real / 1024.0 / 1024.0 == f.size as real / 1048576.0;
  }

  /** Every MIME type the server accepts also passes the browser's type check. */
  lemma ServerTypesPassBrowserCheck(f: BrowserFile)
    requires f.mimeType in UploadFilters.ALLOWED_FILE_TYPES
    ensures ValidateFileType(f)
  {
    assert StartsWith(f.mimeType, "audio/");
  }

  /** The browser check is wider than the server's: an `audio/ogg` file passes it and is refused by the server. */
  lemma BrowserCheckIsWider(f: BrowserFile)
    requires f.mimeType == "audio/ogg"
    ensures ValidateFileType(f)
    ensures UploadFilters.FileFilter(f.mimeType).Reject?
  {
    assert StartsWith(f.mimeType, "audio/");
  }

  /** The record `getFileMetadata` keeps for a picked file (its size text is not modelled). */
  datatype FileRecord = FileRecord(
    file: BrowserFile,
    name: string,
    mimeType: string,
    duration: Option<string>,
    lastModified: string,
    path: string)

  /** `getFileMetadata`: the type falls back to `audio/wav` and the path to the bare name. */
  function FileMetadata(f: BrowserFile): (r: FileRecord)
    ensures r.file == f && r.name == f.name
    ensures r.mimeType != ""
    ensures f.mimeType != "" ==> r.mimeType == f.mimeType
    ensures f.mimeType == "" ==> r.mimeType == FALLBACK_TYPE
    ensures r.path == "" <==> f.webkitRelativePath == "" && f.name == ""
    ensures f.webkitRelativePath != "" ==> r.path == f.webkitRelativePath
    ensures f.webkitRelativePath == "" ==> r.path == f.name
    ensures r.duration == f.playbackDuration && r.lastModified == f.lastModifiedDate
  {
    FileRecord(
      f,
      f.name,
      if f.mimeType != "" then f.mimeType else FALLBACK_TYPE,
      f.playbackDuration,
      f.lastModifiedDate,
      if f.webkitRelativePath != "" then f.webkitRelativePath else f.name)
  }

  /** `files.map(f => f.name)`. */
  function Names(files: seq<BrowserFile>): (r: seq<string>)
    ensures |r| == |files|
    ensures forall i | 0 <= i < |files| :: r[i] == files[i].name
  {
    seq(|files|, i requires 0 <= i < |files| => files[i].name)
  }

  function InvalidFiles(selected: seq<BrowserFile>): seq<BrowserFile> {
    Filter(selected, (f: BrowserFile) => !ValidateFileType(f))
  }

  function OversizedFiles(selected: seq<BrowserFile>): seq<BrowserFile> {
    Filter(selected, (f: BrowserFile) => !ValidateFileSize(f))
  }

  /** What the validation in `handleFolderSelect` makes of a pick. */
  datatype Selection = Rejected(message: string) | Accepted(records: seq<FileRecord>)

  /**
   * The validation sequence of `handleFolderSelect`: any file of the wrong type refuses
   * the whole pick, naming every such file; otherwise any file over the size limit
   * refuses it, naming every such file; otherwise every file becomes a record, in order.
   */
  function SelectFiles(selected: seq<BrowserFile>): (r: Selection)
    ensures r.Accepted? <==>
      forall i | 0 <= i < |selected| :: ValidateFileType(selected[i]) && ValidateFileSize(selected[i])
    ensures (exists i | 0 <= i < |selected| :: !ValidateFileType(selected[i])) ==>
      r == Rejected(TYPE_ERROR_PREFIX + Join(Names(InvalidFiles(selected)), ", "))
    ensures (forall i | 0 <= i < |selected| :: ValidateFileType(selected[i])) &&
            (exists i | 0 <= i < |selected| :: !ValidateFileSize(selected[i])) ==>
      r == Rejected(SIZE_ERROR_PREFIX + Join(Names(OversizedFiles(selected)), ", "))
    ensures r.Accepted? ==>
      |r.records| == |selected| &&
      forall i | 0 <= i < |selected| :: r.records[i] == FileMetadata(selected[i])
  {
    var invalid := InvalidFiles(selected);
    if |invalid| > 0 then
      Rejected(TYPE_ERROR_PREFIX + Join(Names(invalid), ", "))
    else
      var oversized := OversizedFiles(selected);
      if |oversized| > 0 then
        Rejected(SIZE_ERROR_PREFIX + Join(Names(oversized), ", "))
      else
        Accepted(seq(|selected|, i requires 0 <= i < |selected| => FileMetadata(selected[i])))
  }

  /** The type error lists a file exactly when that file fails the type check. */
  lemma TypeErrorNamesTheInvalidFiles(selected: seq<BrowserFile>, f: BrowserFile)
    requires f in selected
    ensures f in InvalidFiles(selected) <==> !ValidateFileType(f)
    ensures !ValidateFileType(f) ==> f.name in Names(InvalidFiles(selected))
  {
    var invalid := InvalidFiles(selected);
    if !ValidateFileType(f) {
      var k :| 0 <= k < |invalid| && invalid[k] == f;
      assert Names(invalid)[k] == f.name;
    }
  }

  /** The size error lists a file exactly when that file fails the size check. */
  lemma SizeErrorNamesTheOversizedFiles(selected: seq<BrowserFile>, f: BrowserFile)
    requires f in selected
    ensures f in OversizedFiles(selected) <==> f.size > 524288000
    ensures f.size > 524288000 ==> f.name in Names(OversizedFiles(selected))
  {
    ValidateFileSizeInBytes(f);
    var oversized := OversizedFiles(selected);
    if f.size > 524288000 {
      var k :| 0 <= k < |oversized| && oversized[k] == f;
      assert Names(oversized)[k] == f.name;
    }
  }

  /** The metadata sent for one file: a missing duration is sent as `unknown`. */
  datatype PartMetadata = PartMetadata(duration: string, mimeType: string, lastModified: string, path: string)

  /** One entry appended to the `FormData`. */
  datatype FormPart = FilePart(field: string, file: BrowserFile) | MetadataPart(field: string, value: PartMetadata)

  function SentMetadata(r: FileRecord): (m: PartMetadata)
    ensures m.duration != "" && (r.duration.Some? && r.duration.value != "" ==> m.duration == r.duration.value)
    ensures !(r.duration.Some? && r.duration.value != "") ==> m.duration == UNKNOWN_DURATION
    ensures m.mimeType == r.mimeType && m.lastModified == r.lastModified && m.path == r.path
  {
    PartMetadata(
      if r.duration.Some? && r.duration.value != "" then r.duration.value else UNKNOWN_DURATION,
      r.mimeType, r.lastModified, r.path)
  }

  /** `metadata${index}`. */
  function MetadataFieldName(index: nat): string {
    METADATA_FIELD_PREFIX + NatToString(index)
  }

  /** The form `handleUpload` builds: for each file, its file part and then its metadata part. */
  function FormLayout(files: seq<FileRecord>): (parts: seq<FormPart>)
    ensures |parts| == 2 * |files|
  {
    seq(2 * |files|, k requires 0 <= k < 2 * |files| =>
      if k % 2 == 0 then FilePart(FILES_FIELD, files[k / 2].file)
      else MetadataPart(MetadataFieldName(k / 2), SentMetadata(files[k / 2])))
  }

  /** The `forEach` of `handleUpload` that appends two parts per file. */
  method BuildFormData(files: seq<FileRecord>) returns (parts: seq<FormPart>)
    ensures parts == FormLayout(files)
  {
    parts := [];
    var index := 0;
    while index < |files|
      invariant 0 <= index <= |files|
      invariant parts == FormLayout(files[..index])
    {
      assert files[..index + 1][..index] == files[..index];
      parts := parts + [FilePart(FILES_FIELD, files[index].file),
                        MetadataPart(MetadataFieldName(index), SentMetadata(files[index]))];
      index := index + 1;
    }
    assert files[..index] == files;
  }

  /** The file parts of the form carry the listed files, in list order. */
  lemma FormCarriesEveryFileInOrder(files: seq<FileRecord>, i: nat)
    requires i < |files|
    ensures FormLayout(files)[2 * i] == FilePart(FILES_FIELD, files[i].file)
    ensures FormLayout(files)[2 * i + 1] == MetadataPart(MetadataFieldName(i), SentMetadata(files[i]))
  {
    assert (2 * i) / 2 == i && (2 * i) % 2 == 0;
    assert (2 * i + 1) / 2 == i && (2 * i + 1) % 2 == 1;
  }

  /** Two files never share a metadata field name. */
  lemma MetadataFieldNamesDistinct(i: nat, j: nat)
    requires i != j
    ensures MetadataFieldName(i) != MetadataFieldName(j)
  {
    NatToStringInjective(i, j);
    assert MetadataFieldName(i)[|METADATA_FIELD_PREFIX|..] == NatToString(i);
    assert MetadataFieldName(j)[|METADATA_FIELD_PREFIX|..] == NatToString(j);
  }

  /** No part of the form is named plain `metadata`: every metadata part carries its file's index. */
  lemma FormHasNoPlainMetadataField(files: seq<FileRecord>, k: nat)
    requires k < |FormLayout(files)|
    ensures FormLayout(files)[k].field != METADATA_FIELD_PREFIX
  {
    if k % 2 == 1 {
      assert |MetadataFieldName(k / 2)| > |METADATA_FIELD_PREFIX|;
    }
  }

  /** How the request of `handleUpload` ended. */
  datatype FetchOutcome =
    | Responded(ok: bool, statusText: string, errorMessage: Option<string>)
    | Cancelled
    | Thrown(message: string)

  /**
   * The error message `handleUpload` shows, or None on success: a refused upload shows the
   * server's `message` if it sent a non-empty one and otherwise the status text, an abort
   * shows "Upload cancelled", and any other failure its own message or a generic one.
   */
  function UploadError(outcome: FetchOutcome): (r: Option<string>)
    ensures r.None? <==> outcome.Responded? && outcome.ok
    ensures r.Some? ==> r.value != ""
    ensures outcome.Cancelled? ==> r == Some(UPLOAD_CANCELLED)
    ensures outcome.Responded? && !outcome.ok && outcome.errorMessage.Some? && outcome.errorMessage.value != "" ==>
      r == Some(outcome.errorMessage.value)
    ensures outcome.Responded? && !outcome.ok && !(outcome.errorMessage.Some? && outcome.errorMessage.value != "") ==>
      r == Some(UPLOAD_FAILED_PREFIX + outcome.statusText)
    ensures outcome.Thrown? && outcome.message != "" ==> r == Some(outcome.message)
    ensures outcome.Thrown? && outcome.message == "" ==> r == Some(UPLOAD_FAILED_GENERIC)
  {
    match outcome
    case Responded(ok, statusText, errorMessage) =>
      if ok then None
      else if errorMessage.Some? && errorMessage.value != "" then Some(errorMessage.value)
      else Some(UPLOAD_FAILED_PREFIX + statusText)
    case Cancelled => Some(UPLOAD_CANCELLED)
    case Thrown(message) => Some(if message != "" then message else UPLOAD_FAILED_GENERIC)
  }

  /** The component's state. */
  class UploaderState {
    var files: seq<FileRecord>
    var isLoading: bool
    var error: Option<string>
    var uploadSuccess: bool

    constructor()
      ensures files == [] && !isLoading && error == None && !uploadSuccess
    {
      files := [];
      isLoading := false;
      error := None;
      uploadSuccess := false;
    }

    /** `handleFolderSelect`: a valid pick replaces the list; a refused one keeps it and shows why. */
    method HandleFolderSelect(selected: seq<BrowserFile>)
      modifies this
      ensures !isLoading && !uploadSuccess
      ensures match SelectFiles(selected)
        case Accepted(records) => files == records && error == None
        case Rejected(message) => files == old(files) && error == Some(message)
    {
      isLoading := true;
      error := None;
      uploadSuccess := false;
      var selection := SelectFiles(selected);
      match selection {
        case Accepted(records) =>
          files := records;
        case Rejected(message) =>
          error := Some(message);
      }
      isLoading := false;
    }

    /** `removeFile`: drops the file at `index`; any other index leaves the list as it is. */
    method RemoveFile(index: int)
      modifies this
      ensures files == WithoutIndex(old(files), index)
      ensures 0 <= index < |old(files)| ==> files == old(files)[..index] + old(files)[index + 1..]
      ensures !(0 <= index < |old(files)|) ==> files == old(files)
      ensures isLoading == old(isLoading) && error == old(error) && uploadSuccess == old(uploadSuccess)
    {
      files := WithoutIndex(files, index);
      if 0 <= index < |old(files)| {
        WithoutIndexInRange(old(files), index);
      } else {
        WithoutIndexOutOfRange(old(files), index);
      }
    }

    /**
     * `handleUpload`: posts the form built from the list; success clears the list and
     * raises the success flag, any failure keeps the list and shows its error.
     */
    method HandleUpload(outcome: FetchOutcome) returns (sent: seq<FormPart>)
      modifies this
      ensures sent == FormLayout(old(files))
      ensures error == UploadError(outcome)
      ensures uploadSuccess <==> error.None?
      ensures files == if error.None? then [] else old(files)
      ensures !isLoading
    {
      isLoading := true;
      error := None;
      uploadSuccess := false;
      sent := BuildFormData(files);
      var failure := UploadError(outcome);
      if failure.None? {
        files := [];
        uploadSuccess := true;
      } else {
        error := failure;
      }
      isLoading := false;
    }
  }
}
