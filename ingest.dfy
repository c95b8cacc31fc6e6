/**
 * What `AudioFileProcessor.processFile` (backend/server.js:155-205) and the batch loop
 * of the `/api/upload` route (backend/server.js:253-293) do to the database, as
 * functions on a database value. The fingerprint engine and the audio-metadata reader
 * are inputs: each file arrives with what they produced for it.
 */
module Ingest {
  import opened Wrappers
  import opened JsStrings
  import opened JsArrays
  import NodePath
  import opened Folders
  import opened ManufacturerMatch
  import opened FilenameTags
  import opened UploadFilters

  /** `fingerprint.slice(0, 512)`. */
  const FINGERPRINT_LENGTH: nat := 512

  /** The directory part of the stored `filepath`. */
  const UPLOAD_DIR: string := "audio-files/"

  const FINGERPRINT_ERROR: string := "Failed to generate fingerprint"

  /** The TypeError V8 raises for `metadata.path` when the metadata is `null`. */
  const NULL_METADATA_ERROR: string := "Cannot read properties of null (reading 'path')"

  /** The start of the TypeError `path.dirname` raises for an argument that is not a string. */
  const PATH_TYPE_ERROR: string := "The \"path\" argument must be of type string"

  /** `fingerprint.slice(0, 512)`: the first min(512, length) units. */
  function TruncateFingerprint(fp: string): (r: string)
    ensures |r| == if |fp| <= FINGERPRINT_LENGTH then |fp| else FINGERPRINT_LENGTH
    ensures r <= fp
  {
    if |fp| <= FINGERPRINT_LENGTH then fp else fp[..FINGERPRINT_LENGTH]
  }

  /** Truncating twice is truncating once. */
  lemma TruncateIdempotent(fp: string)
    ensures TruncateFingerprint(TruncateFingerprint(fp)) == TruncateFingerprint(fp)
  {
  }

  /** The part of `getAudioMetadata`'s record that is stored; its values are kept as given. */
  datatype AudioMetadata = AudioMetadata(
    duration: Option<real>,
    sampleRate: Option<nat>,
    channels: Option<nat>,
    bpmTag: Option<string>)   // the ID3v2.3 TBPM value, when there is one

  /** One entry of `req.files` as multer leaves it. */
  datatype UploadedFile = UploadedFile(
    originalname: string,
    filename: string,    // the stored name, see UploadFilters.StoredFilename
    path: string,        // the temporary file on disk
    size: nat,
    mimetype: string)

  /** A file together with what the external engines make of it; `fingerprint` is None when chromaprint throws. */
  datatype Received = Received(file: UploadedFile, audio: AudioMetadata, fingerprint: Option<string>)

  /** One row of `audio_files`. */
  datatype AudioFileRow = AudioFileRow(
    id: nat,
    filename: string,
    originalFilename: string,
    filepath: string,
    fingerprint: string,
    manufacturerId: Option<nat>,
    folderId: Option<nat>,
    fileSize: nat,
    duration: Option<real>,
    bpm: Option<BpmValue>,
    keySignature: Option<string>,
    sampleRate: Option<nat>,
    channels: Option<nat>)

  /** The tables the processor reads and writes; `manufacturers` is only read. */
  datatype Db = Db(
    folders: FolderTable,
    audioFiles: seq<AudioFileRow>,
    nextAudioId: nat,
    manufacturers: seq<ManufacturerRow>)

  /** The record `processFile` returns for an inserted file. */
  datatype UploadRecord = UploadRecord(id: nat, filename: string, originalName: string, path: string)

  /** The three ways `processFile` ends: a duplicate, an inserted file, or a thrown error. */
  datatype Processed =
    | Duplicate(filename: string)
    | Uploaded(record: UploadRecord)
    | Failed(error: string)

  datatype Step = Step(db: Db, result: Processed)

  /**
   * Ids below the counters and positive, rows in id order, and no two rows with the same
   * fingerprint.
   */
  ghost predicate Valid(db: Db) {
    && WellFormed(db.folders)
    && db.nextAudioId >= 1
    && (forall i | 0 <= i < |db.audioFiles| :: 1 <= db.audioFiles[i].id < db.nextAudioId)
    && (forall i, j | 0 <= i < j < |db.audioFiles| ::
          db.audioFiles[i].id < db.audioFiles[j].id && db.audioFiles[i].fingerprint != db.audioFiles[j].fingerprint)
  }

  /** `SELECT EXISTS(SELECT 1 FROM audio_files WHERE fingerprint = $1)`. */
  predicate Fingerprinted(rows: seq<AudioFileRow>, fp: string) {
    exists i | 0 <= i < |rows| :: rows[i].fingerprint == fp
  }

  /**
   * The argument of `getOrCreateFolder`: `metadata.path ? path.dirname(metadata.path) : ''`,
   * or None where `path.dirname` throws on a truthy value that is not a string.
   */
  function FolderArgument(path: MetaPath): (r: Option<string>)
    ensures r.None? <==> path == NonStringPath(true)
    ensures path.PathString? && path.text != "" ==> r == Some(NodePath.Dirname(path.text))
    ensures !(path.PathString? && path.text != "") && r.Some? ==> r == Some("")
  {
    match path
    case NoPath => Some("")
    case PathString(s) => if s == "" then Some("") else Some(NodePath.Dirname(s))
    case NonStringPath(truthy) => if truthy then None else Some("")
  }

  /** The row `processFile` inserts, from the file, its engines' output and what was looked up. */
  function NewRow(db: Db, item: Received, fp: string, manufacturerId: Option<nat>, folderId: Option<nat>): AudioFileRow {
    AudioFileRow(
      db.nextAudioId, item.file.filename, item.file.originalname, UPLOAD_DIR + item.file.filename, fp,
      manufacturerId, folderId, item.file.size, item.audio.duration,
      StoredBpm(item.file.originalname, item.audio.bpmTag), FindKey(item.file.originalname),
      item.audio.sampleRate, item.audio.channels)
  }

  /**
   * `processFile(file, metadata)`: fingerprint, truncate, check for a duplicate, detect the
   * manufacturer, walk the folders of the path's directory, insert the row.
   */
  function ProcessFile(db: Db, item: Received, metadata: Metadata): Step {
    if item.fingerprint.None? then Step(db, Failed(FINGERPRINT_ERROR))
    else
      var fp := TruncateFingerprint(item.fingerprint.value);
      if Fingerprinted(db.audioFiles, fp) then Step(db, Duplicate(item.file.originalname))
      else if metadata.NullMetadata? then Step(db, Failed(NULL_METADATA_ERROR))
      else
        var manufacturerId := DetectManufacturer(db.manufacturers, item.file.originalname, metadata.path);
        match FolderArgument(metadata.path)
        case None => Step(db, Failed(PATH_TYPE_ERROR))
        case Some(folderPath) =>
          var walked := GetOrCreateFolder(db.folders, folderPath);
          var row := NewRow(db, item, fp, manufacturerId, walked.folderId);
          Step(
            Db(walked.table, db.audioFiles + [row], db.nextAudioId + 1, db.manufacturers),
            Uploaded(UploadRecord(row.id, row.filename, item.file.originalname, row.filepath)))
  }

  /** A file whose truncated fingerprint is already stored is a duplicate, and nothing is written; and only such a file is. */
  lemma DuplicateWritesNothing(db: Db, item: Received, metadata: Metadata)
    ensures ProcessFile(db, item, metadata).result.Duplicate? <==>
      item.fingerprint.Some? && Fingerprinted(db.audioFiles, TruncateFingerprint(item.fingerprint.value))
    ensures ProcessFile(db, item, metadata).result.Duplicate? ==>
      ProcessFile(db, item, metadata) == Step(db, Duplicate(item.file.originalname))
  {
  }

  /**
   * A file fails exactly when chromaprint throws, or when it is new and the metadata is
   * null or has a truthy `path` that is not a string; a failure writes nothing.
   */
  lemma FailureWritesNothing(db: Db, item: Received, metadata: Metadata)
    ensures ProcessFile(db, item, metadata).result.Failed? <==>
      || item.fingerprint.None?
      || (!Fingerprinted(db.audioFiles, TruncateFingerprint(item.fingerprint.value))
          && (metadata.NullMetadata? || metadata.path == NonStringPath(true)))
    ensures ProcessFile(db, item, metadata).result.Failed? ==> ProcessFile(db, item, metadata).db == db
  {
  }

  /**
   * An inserted file gets the next id and the path under `audio-files/`; its row holds the
   * truncated fingerprint, the detected manufacturer, the folder the walk ended on, the BPM
   * and key read from its name, and is appended after the existing rows.
   */
  lemma UploadedRow(db: Db, item: Received, metadata: Metadata)
    requires ProcessFile(db, item, metadata).result.Uploaded?
    ensures var s := ProcessFile(db, item, metadata);
      var fp := TruncateFingerprint(item.fingerprint.value);
      var walked := GetOrCreateFolder(db.folders, FolderArgument(metadata.path).value);
      && item.fingerprint.Some? && metadata.MetadataValue?
      && s.result.record == UploadRecord(db.nextAudioId, item.file.filename, item.file.originalname, UPLOAD_DIR + item.file.filename)
      && |s.db.audioFiles| == |db.audioFiles| + 1
      && s.db.audioFiles[..|db.audioFiles|] == db.audioFiles
      && s.db.audioFiles[|db.audioFiles|] == NewRow(db, item, fp, DetectManufacturer(db.manufacturers, item.file.originalname, metadata.path), walked.folderId)
      && s.db.folders == walked.table
      && s.db.nextAudioId == db.nextAudioId + 1
      && s.db.manufacturers == db.manufacturers
      && !Fingerprinted(db.audioFiles, fp)
  {
    var s := ProcessFile(db, item, metadata);
    assert s.db.audioFiles[..|db.audioFiles|] == db.audioFiles;
  }

  /** The stored fingerprint is exactly the first min(512, length) units of chromaprint's output. */
  lemma StoredFingerprintIsTruncated(db: Db, item: Received, metadata: Metadata)
    requires ProcessFile(db, item, metadata).result.Uploaded?
    ensures var row := Last(ProcessFile(db, item, metadata).db.audioFiles);
      && item.fingerprint.Some?
      && row.fingerprint <= item.fingerprint.value
      && |row.fingerprint| == if |item.fingerprint.value| <= FINGERPRINT_LENGTH then |item.fingerprint.value| else FINGERPRINT_LENGTH
  {
  }

  function Last(rows: seq<AudioFileRow>): AudioFileRow
    requires |rows| > 0
  {
    rows[|rows| - 1]
  }

  /** Without a `path` in the metadata, the file goes in no folder and no folder is created. */
  lemma NoPathNoFolder(db: Db, item: Received)
    requires ProcessFile(db, item, MetadataValue(NoPath)).result.Uploaded?
    ensures var s := ProcessFile(db, item, MetadataValue(NoPath));
      s.db.folders == db.folders && Last(s.db.audioFiles).folderId.None? && Last(s.db.audioFiles).manufacturerId.None?
  {
    EmptyPathCreatesNothing(db.folders, "");
  }

  /** A file sent as `dir/name` is filed by the walk over `dir`. */
  lemma PathFilesUnderDirectory(db: Db, item: Received, dir: string, name: string)
    requires dir != "" && dir[|dir| - 1] != NodePath.SEP
    requires name != "" && NodePath.SEP !in name
    requires ProcessFile(db, item, MetadataValue(PathString(dir + [NodePath.SEP] + name))).result.Uploaded?
    ensures var s := ProcessFile(db, item, MetadataValue(PathString(dir + [NodePath.SEP] + name)));
      Last(s.db.audioFiles).folderId == GetOrCreateFolder(db.folders, dir).folderId
      && s.db.folders == GetOrCreateFolder(db.folders, dir).table
  {
    NodePath.DirnameOfChild(dir, name);
  }

  /** Appending a row with the next id and an unseen fingerprint, with well-formed folders, keeps the database valid. */
  lemma AppendKeepsValid(db: Db, after: Db)
    requires Valid(db) && WellFormed(after.folders)
    requires after.nextAudioId == db.nextAudioId + 1
    requires |after.audioFiles| == |db.audioFiles| + 1 && after.audioFiles[..|db.audioFiles|] == db.audioFiles
    requires after.audioFiles[|db.audioFiles|].id == db.nextAudioId
    requires !Fingerprinted(db.audioFiles, after.audioFiles[|db.audioFiles|].fingerprint)
    ensures Valid(after)
  {
    var n := |db.audioFiles|;
    forall i | 0 <= i < n
      ensures after.audioFiles[i] == db.audioFiles[i]
    {
      assert after.audioFiles[..n][i] == after.audioFiles[i];
    }
  }

  /** Processing keeps the database valid; in particular no two rows ever share a fingerprint. */
  lemma ProcessKeepsValid(db: Db, item: Received, metadata: Metadata)
    requires Valid(db)
    ensures Valid(ProcessFile(db, item, metadata).db)
  {
    var s := ProcessFile(db, item, metadata);
    if s.result.Uploaded? {
      var folderPath := FolderArgument(metadata.path).value;
      WalkKeepsWellFormed(db.folders, Segments(folderPath, NodePath.SEP), None);
      UploadedRow(db, item, metadata);
      AppendKeepsValid(db, s.db);
    } else {
      DuplicateWritesNothing(db, item, metadata);
      FailureWritesNothing(db, item, metadata);
    }
  }

  /** Once a file is in, the same fingerprint (after truncation) is a duplicate from then on. */
  lemma SecondIngestIsDuplicate(db: Db, first: Received, second: Received, m1: Metadata, m2: Metadata)
    requires ProcessFile(db, first, m1).result.Uploaded?
    requires second.fingerprint.Some?
    requires TruncateFingerprint(second.fingerprint.value) == TruncateFingerprint(first.fingerprint.value)
    ensures ProcessFile(ProcessFile(db, first, m1).db, second, m2) ==
      Step(ProcessFile(db, first, m1).db, Duplicate(second.file.originalname))
  {
    var rows := ProcessFile(db, first, m1).db.audioFiles;
    assert rows[|rows| - 1].fingerprint == TruncateFingerprint(first.fingerprint.value);
  }

  /** How the batch ends: every file processed, or the error of the first file that throws. */
  datatype BatchOutcome =
    | Completed(uploaded: seq<UploadRecord>, duplicates: seq<string>)
    | Aborted(error: string)

  datatype BatchState = BatchState(db: Db, outcome: BatchOutcome)

  /**
   * `for (const file of req.files)`: files in request order, each with the same metadata;
   * a duplicate's name goes to `duplicates`, a record to `uploadedFiles`; the first error
   * ends the loop. Nothing is undone: the writes go through the pool, not the transaction.
   */
  function ProcessBatch(db: Db, items: seq<Received>, metadata: Metadata): BatchState
    decreases |items|
  {
    if |items| == 0 then BatchState(db, Completed([], []))
    else
      var before := ProcessBatch(db, items[..|items| - 1], metadata);
      if before.outcome.Aborted? then before
      else
        Record(before.outcome.uploaded, before.outcome.duplicates, ProcessFile(before.db, items[|items| - 1], metadata))
  }

  /** One more file of a batch that has not aborted: its name or record is appended, or its error ends the batch. */
  function Record(uploaded: seq<UploadRecord>, duplicates: seq<string>, step: Step): BatchState {
    match step.result
    case Failed(e) => BatchState(step.db, Aborted(e))
    case Duplicate(name) => BatchState(step.db, Completed(uploaded, duplicates + [name]))
    case Uploaded(record) => BatchState(step.db, Completed(uploaded + [record], duplicates))
  }

  /** The batch after `i + 1` files is the batch after `i` with the `i`-th file recorded. */
  lemma BatchStep(db: Db, items: seq<Received>, metadata: Metadata, i: nat)
    requires i < |items|
    requires ProcessBatch(db, items[..i], metadata).outcome.Completed?
    ensures var before := ProcessBatch(db, items[..i], metadata);
      ProcessBatch(db, items[..i + 1], metadata) ==
        Record(before.outcome.uploaded, before.outcome.duplicates, ProcessFile(before.db, items[i], metadata))
  {
    assert items[..i + 1][..i] == items[..i];
  }

  /** The database before the `i`-th file is processed, and what processing it gives. */
  function StepAt(db: Db, items: seq<Received>, metadata: Metadata, i: nat): Step
    requires i < |items|
  {
    ProcessFile(ProcessBatch(db, items[..i], metadata).db, items[i], metadata)
  }

  /**
   * When the `j`-th file throws, the batch ends there with its error: no later file is
   * processed, and what the earlier files wrote stays in the database.
   */
  lemma BatchStopsAtFirstFailure(db: Db, items: seq<Received>, metadata: Metadata, j: nat, n: nat)
    requires j < n <= |items|
    requires ProcessBatch(db, items[..j], metadata).outcome.Completed?
    requires StepAt(db, items, metadata, j).result.Failed?
    ensures ProcessBatch(db, items[..n], metadata) ==
      BatchState(ProcessBatch(db, items[..j], metadata).db, Aborted(StepAt(db, items, metadata, j).result.error))
  {
    BatchStep(db, items, metadata, j);
    FailureWritesNothing(ProcessBatch(db, items[..j], metadata).db, items[j], metadata);
    var prefix := items[..n];
    assert prefix[..j + 1] == items[..j + 1];
    AbortedPrefixIsFinal(db, prefix, metadata, j + 1);
  }

  /** A batch whose files but the last have aborted it ignores the last one. */
  lemma AbortedStays(db: Db, items: seq<Received>, metadata: Metadata)
    requires |items| > 0
    requires ProcessBatch(db, items[..|items| - 1], metadata).outcome.Aborted?
    ensures ProcessBatch(db, items, metadata) == ProcessBatch(db, items[..|items| - 1], metadata)
  {
  }

  /** Once a prefix of the batch has aborted, the files after it change nothing. */
  lemma {:induction false} AbortedPrefixIsFinal(db: Db, items: seq<Received>, metadata: Metadata, n: nat)
    requires n <= |items|
    requires ProcessBatch(db, items[..n], metadata).outcome.Aborted?
    ensures ProcessBatch(db, items, metadata) == ProcessBatch(db, items[..n], metadata)
    decreases |items| - n
  {
    if n < |items| {
      var init := items[..|items| - 1];
      assert init[..n] == items[..n];
      AbortedPrefixIsFinal(db, init, metadata, n);
      AbortedStays(db, items, metadata);
    } else {
      assert items[..n] == items;
    }
  }

  /** The steps of a batch do not depend on the files after them. */
  lemma StepAtPrefix(db: Db, items: seq<Received>, metadata: Metadata, i: nat, n: nat)
    requires i < n <= |items|
    ensures StepAt(db, items[..n], metadata, i) == StepAt(db, items, metadata, i)
  {
    assert items[..n][..i] == items[..i];
  }

  /** A completed batch had a completed prefix, and its last file did not throw. */
  lemma CompletedLastStep(db: Db, items: seq<Received>, metadata: Metadata)
    requires ProcessBatch(db, items, metadata).outcome.Completed?
    requires |items| > 0
    ensures ProcessBatch(db, items[..|items| - 1], metadata).outcome.Completed?
    ensures !StepAt(db, items, metadata, |items| - 1).result.Failed?
  {
  }

  /** A batch completes only when no file throws. */
  lemma {:induction false} CompletedMeansNoFailure(db: Db, items: seq<Received>, metadata: Metadata, i: nat)
    requires ProcessBatch(db, items, metadata).outcome.Completed?
    requires i < |items|
    ensures !StepAt(db, items, metadata, i).result.Failed?
    decreases |items|
  {
    CompletedLastStep(db, items, metadata);
    if i < |items| - 1 {
      CompletedMeansNoFailure(db, items[..|items| - 1], metadata, i);
      StepAtPrefix(db, items, metadata, i, |items| - 1);
    }
  }

  /** When no file throws, the batch completes. */
  lemma {:induction false} NoFailureMeansCompleted(db: Db, items: seq<Received>, metadata: Metadata)
    requires forall i | 0 <= i < |items| :: !StepAt(db, items, metadata, i).result.Failed?
    ensures ProcessBatch(db, items, metadata).outcome.Completed?
    decreases |items|
  {
    if |items| > 0 {
      var init := items[..|items| - 1];
      forall i | 0 <= i < |init|
        ensures !StepAt(db, init, metadata, i).result.Failed?
      {
        StepAtPrefix(db, items, metadata, i, |items| - 1);
      }
      NoFailureMeansCompleted(db, init, metadata);
      assert !StepAt(db, items, metadata, |items| - 1).result.Failed?;
    }
  }

  /** The records of the stored files among the first `n` files of the batch, in request order. */
  function UploadedRecords(db: Db, items: seq<Received>, metadata: Metadata, n: nat): seq<UploadRecord>
    requires n <= |items|
  {
    if n == 0 then []
    else
      var result := StepAt(db, items, metadata, n - 1).result;
      UploadedRecords(db, items, metadata, n - 1) + (if result.Uploaded? then [result.record] else [])
  }

  /** The original names of the duplicates among the first `n` files of the batch, in request order. */
  function DuplicateNames(db: Db, items: seq<Received>, metadata: Metadata, n: nat): seq<string>
    requires n <= |items|
  {
    if n == 0 then []
    else
      var result := StepAt(db, items, metadata, n - 1).result;
      DuplicateNames(db, items, metadata, n - 1) + (if result.Duplicate? then [items[n - 1].file.originalname] else [])
  }

  /** A completed prefix of the batch has listed exactly its stored records and its duplicates' names, in order. */
  lemma {:induction false} BatchListsFiles(db: Db, items: seq<Received>, metadata: Metadata, n: nat)
    requires n <= |items|
    requires ProcessBatch(db, items[..n], metadata).outcome.Completed?
    ensures var o := ProcessBatch(db, items[..n], metadata).outcome;
      o.uploaded == UploadedRecords(db, items, metadata, n) && o.duplicates == DuplicateNames(db, items, metadata, n)
    decreases n
  {
    if n > 0 {
      var prefix := items[..n];
      assert prefix[..n - 1] == items[..n - 1];
      CompletedLastStep(db, prefix, metadata);
      BatchListsFiles(db, items, metadata, n - 1);
      BatchStep(db, items, metadata, n - 1);
      DuplicateWritesNothing(ProcessBatch(db, items[..n - 1], metadata).db, items[n - 1], metadata);
    }
  }

  /**
   * A completed batch accounts for every file once and in request order: `uploadedFiles`
   * holds the records of the stored files, `duplicates` the original names of the others.
   */
  lemma {:induction false} BatchAccountsForEveryFile(db: Db, items: seq<Received>, metadata: Metadata)
    requires ProcessBatch(db, items, metadata).outcome.Completed?
    ensures var o := ProcessBatch(db, items, metadata).outcome;
      && o.uploaded == UploadedRecords(db, items, metadata, |items|)
      && o.duplicates == DuplicateNames(db, items, metadata, |items|)
      && |o.uploaded| + |o.duplicates| == |items|
    decreases |items|
  {
    assert items[..|items|] == items;
    BatchListsFiles(db, items, metadata, |items|);
    if |items| > 0 {
      BatchAccountsForEveryFile(db, items[..|items| - 1], metadata);
    }
  }

  /** The batch keeps the database valid: even within one upload, a repeated fingerprint is stored once. */
  lemma {:induction false} BatchKeepsValid(db: Db, items: seq<Received>, metadata: Metadata)
    requires Valid(db)
    ensures Valid(ProcessBatch(db, items, metadata).db)
    decreases |items|
  {
    if |items| > 0 {
      var before := ProcessBatch(db, items[..|items| - 1], metadata);
      BatchKeepsValid(db, items[..|items| - 1], metadata);
      ProcessKeepsValid(before.db, items[|items| - 1], metadata);
    }
  }
}
