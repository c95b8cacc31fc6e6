/**
 * The `/api/upload` route (backend/server.js:253-293) as a function of the database,
 * the files multer received and the `metadata` field: multer's filter, the validation
 * middleware, the batch loop, the response, and the temporary files the `finally`
 * block deletes.
 */
module Route {
  import opened Wrappers
  import opened JsArrays
  import opened JsStrings
  import opened UploadFilters
  import opened Ingest

  const SUCCESS_MESSAGE: string := "Files processed successfully."

  /** The JSON body: `{success: true, message, files, duplicates}` or the error handler's `{success: false, message}`. */
  datatype Response =
    | UploadSuccess(message: string, files: seq<UploadRecord>, duplicates: seq<string>)
    | UploadError(message: string)

  /** The database after the request, the response, and the temporary files deleted, in the order deleted. */
  datatype RouteResult = RouteResult(db: Db, response: Response, deleted: seq<string>)

  /** The first file the multer `fileFilter` refuses, if any. */
  function FirstRejected(items: seq<Received>): (r: Option<nat>)
    ensures r.None? <==> forall i | 0 <= i < |items| :: items[i].file.mimetype in ALLOWED_FILE_TYPES
    ensures r.Some? ==> r.value < |items| && items[r.value].file.mimetype !in ALLOWED_FILE_TYPES
  {
    FindIndex(items, (item: Received) => FileFilter(item.file.mimetype).Reject?)
  }

  /** The temporary path of every received file, in request order. */
  function TempPaths(items: seq<Received>): (paths: seq<string>)
    ensures |paths| == |items| && forall i | 0 <= i < |items| :: paths[i] == items[i].file.path
  {
    seq(|items|, i requires 0 <= i < |items| => items[i].file.path)
  }

  /** What the batch's outcome makes of the response. */
  function BatchResponse(outcome: BatchOutcome): (r: Response)
    ensures outcome.Completed? <==> r.UploadSuccess?
    ensures outcome.Completed? ==> r == UploadSuccess(SUCCESS_MESSAGE, outcome.uploaded, outcome.duplicates)
    ensures outcome.Aborted? ==> r == UploadError(outcome.error)
  {
    match outcome
    case Completed(uploaded, duplicates) => UploadSuccess(SUCCESS_MESSAGE, uploaded, duplicates)
    case Aborted(error) => UploadError(error)
  }

  /**
   * One request. A refused MIME type or a failed validation ends it before the handler
   * runs, so its `finally` block does not run either. Otherwise the batch runs and, however
   * it ends, every temporary file is deleted once, in order.
   */
  function HandleUpload(db: Db, items: seq<Received>, field: MetadataField): RouteResult {
    if FirstRejected(items).Some? then
      RouteResult(db, UploadError(FileFilter(items[FirstRejected(items).value].file.mimetype).message), [])
    else
      match ValidateUploadRequest(|items|, field)
      case Fail(message) => RouteResult(db, UploadError(message), [])
      case Pass =>
        var batch := ProcessBatch(db, items, RequestMetadata(field).value);
        RouteResult(batch.db, BatchResponse(batch.outcome), TempPaths(items))
  }

  /** A refused file type writes nothing, deletes nothing, and answers with the filter's message. */
  lemma RejectedTypeStopsRequest(db: Db, items: seq<Received>, field: MetadataField, i: nat)
    requires i < |items| && items[i].file.mimetype !in ALLOWED_FILE_TYPES
    ensures HandleUpload(db, items, field) ==
      RouteResult(db, UploadError("Invalid file type. Allowed types: " + Join(ALLOWED_FILE_TYPES, ", ")), [])
  {
    var r := FirstRejected(items);
    assert r.Some?;
  }

  /**
   * A request that fails validation writes nothing and answers with the validation
   * message; its temporary files are left on disk.
   */
  lemma FailedValidationLeavesFiles(db: Db, items: seq<Received>, field: MetadataField)
    requires forall i | 0 <= i < |items| :: items[i].file.mimetype in ALLOWED_FILE_TYPES
    requires ValidateUploadRequest(|items|, field).Fail?
    ensures HandleUpload(db, items, field) ==
      RouteResult(db, UploadError(ValidateUploadRequest(|items|, field).message), [])
  {
  }

  /** Once the handler runs, every temporary file is deleted exactly once, in request order, on success and on error alike. */
  lemma HandlerDeletesEveryFile(db: Db, items: seq<Received>, field: MetadataField)
    requires forall i | 0 <= i < |items| :: items[i].file.mimetype in ALLOWED_FILE_TYPES
    requires ValidateUploadRequest(|items|, field) == Pass
    ensures var r := HandleUpload(db, items, field);
      |r.deleted| == |items| && forall i | 0 <= i < |items| :: r.deleted[i] == items[i].file.path
  {
  }

  /**
   * The handler answers with success exactly when no file throws; the error answer carries
   * the message of the first file that does, and earlier files stay written.
   */
  lemma HandlerResponse(db: Db, items: seq<Received>, field: MetadataField)
    requires forall i | 0 <= i < |items| :: items[i].file.mimetype in ALLOWED_FILE_TYPES
    requires ValidateUploadRequest(|items|, field) == Pass
    ensures var metadata := RequestMetadata(field).value;
      HandleUpload(db, items, field).response.UploadSuccess? <==>
        forall i | 0 <= i < |items| :: !StepAt(db, items, metadata, i).result.Failed?
  {
    var metadata := RequestMetadata(field).value;
    if ProcessBatch(db, items, metadata).outcome.Completed? {
      forall i | 0 <= i < |items|
        ensures !StepAt(db, items, metadata, i).result.Failed?
      {
        CompletedMeansNoFailure(db, items, metadata, i);
      }
    }
    if forall i | 0 <= i < |items| :: !StepAt(db, items, metadata, i).result.Failed? {
      NoFailureMeansCompleted(db, items, metadata);
    }
  }
}
