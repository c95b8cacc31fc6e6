/**
 * `class AudioFileProcessor` (backend/server.js:51-206) over tables it holds in its
 * fields, and the `/api/upload` handler that drives it (backend/server.js:253-293).
 * Each method is proved against the function of the same name in Folders, Ingest or
 * Route; the lemmas about those functions are what the methods then promise.
 */
module Processor {
  import opened Wrappers
  import opened JsStrings
  import NodePath
  import F = Folders
  import opened ManufacturerMatch
  import opened UploadFilters
  import opened Ingest
  import R = Route

  class AudioFileProcessor {
    var folderIds: map<F.FolderKey, nat>
    var nextFolderId: nat
    var audioFiles: seq<AudioFileRow>
    var nextAudioId: nat
    var manufacturers: seq<ManufacturerRow>
    /** The temporary paths handed to `deleteFile`, in order. */
    var deletedFiles: seq<string>

    function Folders(): F.FolderTable
      reads this
    {
      F.FolderTable(folderIds, nextFolderId)
    }

    /** The database as the model sees it. */
    function State(): Db
      reads this
    {
      Db(Folders(), audioFiles, nextAudioId, manufacturers)
    }

    constructor(db: Db)
      ensures State() == db && deletedFiles == []
    {
      folderIds := db.folders.ids;
      nextFolderId := db.folders.nextId;
      audioFiles := db.audioFiles;
      nextAudioId := db.nextAudioId;
      manufacturers := db.manufacturers;
      deletedFiles := [];
    }

    /** `deleteFile(filePath)`: the unlink; its failure is logged and swallowed. */
    method DeleteFile(filePath: string)
      modifies this
      ensures deletedFiles == old(deletedFiles) + [filePath]
      ensures State() == old(State())
    {
      deletedFiles := deletedFiles + [filePath];
    }

    /** The insert of one folder row, conflict doing nothing. */
    method InsertFolder(name: string, parentId: Option<nat>) returns (returned: Option<nat>)
      modifies this
      ensures F.Inserted(Folders(), returned) == F.InsertFolder(old(Folders()), name, parentId)
      ensures audioFiles == old(audioFiles) && nextAudioId == old(nextAudioId)
      ensures manufacturers == old(manufacturers) && deletedFiles == old(deletedFiles)
    {
      var key := F.FolderKey(name, parentId);
      if key in folderIds {
        returned := None;
      } else {
        folderIds := folderIds[key := nextFolderId];
        returned := Some(nextFolderId);
        nextFolderId := nextFolderId + 1;
      }
    }

    /** `getOrCreateFolder(folderPath)`: the loop over the segments, advancing `parentId` as it goes. */
    method GetOrCreateFolder(folderPath: string) returns (parentId: Option<nat>)
      modifies this
      ensures F.Walked(Folders(), parentId) == F.GetOrCreateFolder(old(Folders()), folderPath)
      ensures audioFiles == old(audioFiles) && nextAudioId == old(nextAudioId)
      ensures manufacturers == old(manufacturers) && deletedFiles == old(deletedFiles)
    {
      var parts := Segments(folderPath, NodePath.SEP);
      parentId := None;
      var i := 0;
      while i < |parts|
        invariant 0 <= i <= |parts|
        invariant F.WalkFolders(Folders(), parts[i..], parentId) == F.GetOrCreateFolder(old(Folders()), folderPath)
        invariant audioFiles == old(audioFiles) && nextAudioId == old(nextAudioId)
        invariant manufacturers == old(manufacturers) && deletedFiles == old(deletedFiles)
      {
        assert parts[i..][1..] == parts[i + 1..];
        var returned := InsertFolder(parts[i], parentId);
        parentId := F.Advance(returned, parentId);
        i := i + 1;
      }
    }

    /** `isDuplicate(fingerprint)`: whether some stored row has exactly this fingerprint. */
    method IsDuplicate(fingerprint: string) returns (found: bool)
      ensures found <==> Fingerprinted(audioFiles, fingerprint)
    {
      found := false;
      var i := 0;
      while i < |audioFiles| && !found
        invariant 0 <= i <= |audioFiles|
        invariant found <==> exists k | 0 <= k < i :: audioFiles[k].fingerprint == fingerprint
      {
        found := audioFiles[i].fingerprint == fingerprint;
        i := i + 1;
      }
    }

    /** `processFile(file, metadata)`, each step against the tables the object holds. */
    method ProcessFile(item: Received, metadata: Metadata) returns (result: Processed)
      modifies this
      ensures Step(State(), result) == Ingest.ProcessFile(old(State()), item, metadata)
      ensures deletedFiles == old(deletedFiles)
    {
      if item.fingerprint.None? {
        return Failed(FINGERPRINT_ERROR);
      }
      var fingerprint := TruncateFingerprint(item.fingerprint.value);
      var duplicate := IsDuplicate(fingerprint);
      if duplicate {
        return Duplicate(item.file.originalname);
      }
      if metadata.NullMetadata? {
        return Failed(NULL_METADATA_ERROR);
      }
      var manufacturerId := DetectManufacturer(manufacturers, item.file.originalname, metadata.path);
      var folderPath := FolderArgument(metadata.path);
      if folderPath.None? {
        return Failed(PATH_TYPE_ERROR);
      }
      var folderId := GetOrCreateFolder(folderPath.value);
      var row := NewRow(State(), item, fingerprint, manufacturerId, folderId);
      audioFiles := audioFiles + [row];
      nextAudioId := nextAudioId + 1;
      result := Uploaded(UploadRecord(row.id, row.filename, item.file.originalname, row.filepath));
    }
  }

  /** `for (const file of req.files)`: each file in turn, until the first one that throws. */
  method RunBatch(processor: AudioFileProcessor, items: seq<Received>, metadata: Metadata) returns (outcome: BatchOutcome)
    modifies processor
    ensures BatchState(processor.State(), outcome) == ProcessBatch(old(processor.State()), items, metadata)
    ensures processor.deletedFiles == old(processor.deletedFiles)
  {
    ghost var db0 := processor.State();
    var uploaded: seq<UploadRecord> := [];
    var duplicates: seq<string> := [];
    var error: Option<string> := None;
    var i := 0;
    while i < |items| && error.None?
      invariant 0 <= i <= |items|
      invariant ProcessBatch(db0, items[..i], metadata) ==
        BatchState(processor.State(), if error.Some? then Aborted(error.value) else Completed(uploaded, duplicates))
      invariant processor.deletedFiles == old(processor.deletedFiles)
    {
      BatchStep(db0, items, metadata, i);
      var result := processor.ProcessFile(items[i], metadata);
      match result {
        case Duplicate(name) => duplicates := duplicates + [name];
        case Uploaded(record) => uploaded := uploaded + [record];
        case Failed(e) => error := Some(e);
      }
      i := i + 1;
    }
    if error.Some? {
      AbortedPrefixIsFinal(db0, items, metadata, i);
      outcome := Aborted(error.value);
    } else {
      assert items[..i] == items;
      outcome := Completed(uploaded, duplicates);
    }
  }

  /** The `finally` loop: `deleteFile` on every file of `req.files`, in order. */
  method DeleteAll(processor: AudioFileProcessor, items: seq<Received>)
    modifies processor
    ensures processor.deletedFiles == old(processor.deletedFiles) + R.TempPaths(items)
    ensures processor.State() == old(processor.State())
  {
    var k := 0;
    while k < |items|
      invariant 0 <= k <= |items|
      invariant processor.deletedFiles == old(processor.deletedFiles) + R.TempPaths(items[..k])
      invariant processor.State() == old(processor.State())
    {
      assert R.TempPaths(items[..k + 1]) == R.TempPaths(items[..k]) + [items[k].file.path];
      processor.DeleteFile(items[k].file.path);
      k := k + 1;
    }
    assert items[..k] == items;
  }

  /**
   * The `/api/upload` request: multer's filter and the validation first, then the handler:
   * the batch, the response, and the `finally` cleanup. The transaction opened on the
   * client is left out: it covers none of the writes, which go through the pool.
   */
  method HandleUpload(processor: AudioFileProcessor, items: seq<Received>, field: MetadataField) returns (response: R.Response)
    modifies processor
    ensures |processor.deletedFiles| >= |old(processor.deletedFiles)|
    ensures processor.deletedFiles[..|old(processor.deletedFiles)|] == old(processor.deletedFiles)
    ensures R.RouteResult(processor.State(), response, processor.deletedFiles[|old(processor.deletedFiles)|..]) ==
      R.HandleUpload(old(processor.State()), items, field)
  {
    var rejected := R.FirstRejected(items);
    if rejected.Some? {
      return R.UploadError(FileFilter(items[rejected.value].file.mimetype).message);
    }
    var verdict := ValidateUploadRequest(|items|, field);
    if verdict.Fail? {
      return R.UploadError(verdict.message);
    }
    var outcome := RunBatch(processor, items, RequestMetadata(field).value);
    response := R.BatchResponse(outcome);
    DeleteAll(processor, items);
  }
}
