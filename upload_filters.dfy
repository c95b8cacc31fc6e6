/**
 * The checks the upload route runs before any file is processed: multer's MIME
 * filter (backend/server.js:224-230), the name multer stores each file under
 * (backend/server.js:211-216) and `validateUploadRequest` (backend/server.js:234-247).
 */
module UploadFilters {
  import opened Wrappers
  import opened JsStrings
  import NodePath
  import opened ManufacturerMatch

  /** `ALLOWED_FILE_TYPES`. */
  const ALLOWED_FILE_TYPES: seq<string> := ["audio/wav", "audio/mp3", "audio/flac", "audio/aiff"]

  datatype FilterDecision = Accept | Reject(message: string)

  /** The multer `fileFilter`: exact membership of the MIME type, else an error naming the allowed types. */
  function FileFilter(mimetype: string): (r: FilterDecision)
    ensures r.Accept? <==> mimetype in ALLOWED_FILE_TYPES
    ensures r.Reject? ==> r.message == "Invalid file type. Allowed types: " + Join(ALLOWED_FILE_TYPES, ", ")
  {
    if mimetype in ALLOWED_FILE_TYPES then Accept
    else Reject("Invalid file type. Allowed types: " + Join(ALLOWED_FILE_TYPES, ", "))
  }

  /** `parts.join(sep)` for four parts. */
  lemma JoinFour(parts: seq<string>, sep: string)
    requires |parts| == 4
    ensures Join(parts, sep) == parts[0] + sep + parts[1] + sep + parts[2] + sep + parts[3]
  {
    assert parts[1..][1..] == parts[2..] && parts[2..][1..] == parts[3..];
    assert Join(parts[2..], sep) == parts[2] + sep + parts[3];
  }

  /** The rejection message names the four allowed types, in order, separated by ", ". */
  lemma RejectionMessage(mimetype: string)
    requires mimetype !in ALLOWED_FILE_TYPES
    ensures FileFilter(mimetype).message == "Invalid file type. Allowed types: "
      + "audio/wav" + ", " + "audio/mp3" + ", " + "audio/flac" + ", " + "audio/aiff"
  {
    JoinFour(ALLOWED_FILE_TYPES, ", ");
  }

  /** The value `JSON.parse` gives for the metadata text: `null`, or something that may carry a `path` key. */
  datatype Metadata = NullMetadata | MetadataValue(path: MetaPath)

  /**
   * The `metadata` field of the multipart body. `parsed` is what `JSON.parse` makes of
   * the text, or None when it throws; the JSON parser itself is not part of this model.
   */
  datatype MetadataField = NoField | FieldText(text: string, parsed: Option<Metadata>)

  datatype Verdict = Pass | Fail(message: string)

  /** `validateUploadRequest`: first the file count, then the metadata text when it is non-empty. */
  function ValidateUploadRequest(fileCount: nat, field: MetadataField): (v: Verdict)
    ensures v == Fail("No files received") <==> fileCount == 0
    ensures v == Fail("Invalid metadata format") <==>
      fileCount > 0 && field.FieldText? && field.text != "" && field.parsed.None?
    ensures v.Fail? ==> v.message in {"No files received", "Invalid metadata format"}
  {
    if fileCount == 0 then Fail("No files received")
    else if field.FieldText? && field.text != "" && field.parsed.None? then Fail("Invalid metadata format")
    else Pass
  }

  /** `JSON.parse(req.body.metadata || '{}')`: a missing or empty field reads as `{}`. */
  function RequestMetadata(field: MetadataField): (m: Option<Metadata>)
    ensures field.NoField? || field.text == "" ==> m == Some(MetadataValue(NoPath))
    ensures field.FieldText? && field.text != "" ==> m == field.parsed
  {
    if field.NoField? || field.text == "" then Some(MetadataValue(NoPath))
    else field.parsed
  }

  /** Whatever passes validation, the route's own parse of the metadata cannot throw. */
  lemma ValidatedMetadataParses(fileCount: nat, field: MetadataField)
    requires ValidateUploadRequest(fileCount, field) == Pass
    ensures RequestMetadata(field).Some?
  {
  }

  /**
   * The multer `filename` callback: the original base name, a dash, the unique suffix
   * and the original extension. Multer hands over the original name with its
   * directories stripped; `suffix` stands for `Date.now() + '-' + Math.round(Math.random() * 1e9)`.
   */
  function StoredFilename(originalname: string, suffix: string): (r: string)
    requires NodePath.SEP !in originalname
    ensures NodePath.SEP !in suffix ==> NodePath.SEP !in r
  {
    NodePath.BasenameWithoutExt(originalname) + "-" + suffix + NodePath.Extname(originalname)
  }

  /**
   * The stored name has the original extension, when the suffix has no dot and no slash
   * (the name ".." is the one exception: its stored name gains an extension).
   */
  lemma StoredFilenameKeepsExtension(originalname: string, suffix: string)
    requires NodePath.SEP !in originalname
    requires NodePath.SEP !in suffix && '.' !in suffix
    requires originalname != ".."
    ensures NodePath.Extname(StoredFilename(originalname, suffix)) == NodePath.Extname(originalname)
  {
    var base := NodePath.BasenameWithoutExt(originalname);
    var ext := NodePath.Extname(originalname);
    var r := StoredFilename(originalname, suffix);
    var head := base + "-" + suffix;
    assert r == head + ext;
    var d := NodePath.LastIndexOf(originalname, '.');
    if ext == "" {
      assert base == originalname;
      assert d <= 0;
      forall k | d < k < |r|
        ensures r[k] != '.'
      {
        if k >= |base| + 1 {
          assert r[k] == suffix[k - |base| - 1];
        } else if k < |base| {
          assert r[k] == originalname[k];
        }
      }
      assert d >= 0 ==> r[d] == originalname[d] == '.';
      assert NodePath.LastIndexOf(r, '.') == d;
    } else {
      var p := |head|;
      assert r[p] == '.';
      forall k | p < k < |r|
        ensures r[k] != '.'
      {
        assert r[k] == ext[k - p];
        assert ext[1..][k - p - 1] == ext[k - p];
      }
      assert NodePath.LastIndexOf(r, '.') == p;
      assert r[|base|] == '-';
      assert r[p..] == ext;
    }
  }

  /**
   * Read back with `path.basename(name, path.extname(name))`, the stored name gives the
   * original base name, a dash and the suffix.
   */
  lemma StoredFilenameKeepsBase(originalname: string, suffix: string)
    requires NodePath.SEP !in originalname
    requires NodePath.SEP !in suffix && '.' !in suffix
    requires originalname != ".."
    ensures NodePath.SEP !in StoredFilename(originalname, suffix)
    ensures NodePath.BasenameWithoutExt(StoredFilename(originalname, suffix)) ==
      NodePath.BasenameWithoutExt(originalname) + "-" + suffix
  {
    var r := StoredFilename(originalname, suffix);
    var head := NodePath.BasenameWithoutExt(originalname) + "-" + suffix;
    var ext := NodePath.Extname(originalname);
    StoredFilenameKeepsExtension(originalname, suffix);
    var base := NodePath.BasenameWithoutExt(r);
    assert base + ext == r == head + ext;
    assert |base| == |head|;
    assert base == (base + ext)[..|base|] == (head + ext)[..|head|] == head;
  }

  /** Distinct suffixes give distinct stored names. */
  lemma StoredFilenameInjective(originalname: string, s1: string, s2: string)
    requires NodePath.SEP !in originalname
    requires s1 != s2
    ensures StoredFilename(originalname, s1) != StoredFilename(originalname, s2)
  {
    var i := |NodePath.BasenameWithoutExt(originalname)| + 1;
    var r1 := StoredFilename(originalname, s1);
    var r2 := StoredFilename(originalname, s2);
    if |s1| != |s2| {
      assert |r1| != |r2|;
    } else {
      assert r1[i..i + |s1|] == s1;
      assert r2[i..i + |s2|] == s2;
    }
  }
}
