# PackShackDB ingestion core in Dafny

PackShackDB catalogues audio samples. The browser component `AudioFileUploader` checks a picked
folder of audio files, keeps a record per file and posts them to the server. The Express
server's `/api/upload` route filters and validates the request. It fingerprints each file,
skips duplicates, guesses the manufacturer and the folder chain, reads BPM and key from the
file name, stores a row, and deletes the temporary uploads. The `DownloadButton` component
fetches a file and names the download from the `Content-Disposition` header.

The model follows that structure:

- `Folders`, `ManufacturerMatch`, `FilenameTags`, `UploadFilters`, `Ingest` and `Route` are
  pure functions on a database value (a folders table, an `audio_files` row list, the
  manufacturer rows and the id counters). Lemmas state what the server promises about them.
- `Processor.AudioFileProcessor` is a class holding those tables as fields. Its methods
  `InsertFolder`, `GetOrCreateFolder` (a loop over the segments), `IsDuplicate` (a scan),
  `ProcessFile` and `DeleteFile` change the fields. The route's batch loop (`RunBatch`), its
  `finally` loop (`DeleteAll`) and the whole request (`HandleUpload`) are methods too. Each
  method with a pure counterpart is proved equal, state and result, to it: the function of
  the same name, or `Ingest.Fingerprinted` for `IsDuplicate`. `DeleteFile` has none; its
  contract states the new list of stored files directly.
- `Uploader` holds the browser checks and the per-file record as functions. The form built
  by the `forEach` is a loop method (`BuildFormData`). `Uploader.UploaderState` is a class
  whose methods are the component's state transitions.
- `Download` holds the regular-expression match `filename="(.+)"`, modelled position by
  position, and the class `Download.DownloadButton`.
- `JsStrings`, `JsArrays`, `NodePath` and `Wrappers` model the pieces of JavaScript and Node
  the core depends on, as the code uses them: `toLowerCase`, `split`, `join`,
  `filter(Boolean)`, `find`, `filter`, `path.dirname`, `path.extname` and `path.basename`.

Inputs the code gets from outside are parameters:

- the fingerprint chromaprint produced, or its failure;
- the record music-metadata produced;
- the multer upload suffix;
- the parsed `metadata` field;
- the outcome of each `fetch`;
- what the browser reports about a file.

Where the code and its design description differ, the model follows the code:

- A folder-name conflict does not move the walk into the existing folder.
- The first file that throws ends the batch; the files written before it stay written,
  since those writes go through the pool and not the transaction's client.
- A request refused by `validateUploadRequest` leaves its temporary files on disk. The
  `finally` block that deletes them belongs to the handler, which never runs.
- "Snare_128BPM.wav" gets no BPM (no `\b` between `_` and `1`).

## Model

| member | source | states |
|---|---|---|
| Folders.InsertFolder | backend/server.js:83-89 | a taken (name, parent) key returns no row and leaves the table as it is; a new key gets the next id, the key set grows by that key alone, and every old row is kept |
| Folders.InsertAddsOneRow | backend/server.js:83-89 | an insert without a conflict adds exactly one row |
| Folders.Advance | backend/server.js:90 | the walk goes on under the returned id when there is one and it is not 0, and otherwise stays under the current parent |
| Folders.GetOrCreateFolder | backend/server.js:77-97 | the walk runs over the non-empty segments of the path from the root |
| Folders.EmptyPathCreatesNothing | backend/server.js:79-92 | an empty or all-separator path inserts nothing and returns null |
| Folders.ConflictKeepsParent | backend/server.js:82-91 | a segment whose key is taken leaves the table unchanged, and the walk continues under the same parent |
| Folders.WalkKeepsRows | backend/server.js:82-91 | a walk never changes or drops a row and never lowers the id counter |
| Folders.WalkKeepsWellFormed | backend/server.js:82-92 | a walk keeps ids positive and handed out, and returns null or a handed-out id |
| Folders.FreshStep | backend/server.js:82-91 | after a fresh insert the walk continues under the new row, and the next segment is fresh too |
| Folders.FreshChain | backend/server.js:82-92 | when the first segment is new, every segment becomes a row with consecutive ids, and the last id is returned |
| Folders.FreshChainKeys | backend/server.js:82-91 | the rows a fresh walk adds are exactly the chain's (name, parent) keys |
| Folders.FreshChainIds | backend/server.js:82-91 | the i-th folder of a fresh chain gets id next+i and lies under folder next+i-1 (the root for i = 0) |
| Folders.EmptyTableChain | backend/server.js:77-97 | on an empty table, a path of n segments creates an n-row parent chain and returns its last id |
| Folders.RewalkCreatesStrayFolder | backend/server.js:90 | walking A/B twice over an empty table returns folder 2, then a new root folder B with id 3 |
| Folders.FoundId | backend/server.js:90 | the corrected walk continues under the new row's id, or under the existing row's id on a conflict |
| Folders.ReusingKeepsRows | backend/server.js:82-91 | the corrected walk, too, keeps every existing row |
| Folders.ReusingIdempotent | backend/server.js:77-97 | walking the same path again with the corrected walk changes nothing and returns the same folder |
| Folders.ReusingAgreesWhenFresh | backend/server.js:82-91 | where no segment conflicts, the corrected walk does what the code does |
| Folders.RewalkReusing | backend/server.js:90 | on the same two walks of A/B, the corrected walk returns folder 2 both times and creates nothing the second time |
| ManufacturerMatch.ParentFolderOfChild | backend/server.js:104 | for folder/name the parent folder is folder, lower-cased |
| ManufacturerMatch.ParentFolderOfPlainName | backend/server.js:104 | for a name without a slash the parent folder is "." |
| ManufacturerMatch.ParentFolderOfNestedFile | backend/server.js:104 | for up/folder/name the parent folder is folder, lower-cased |
| ManufacturerMatch.PrefixTierImpliesSubstringTier | backend/server.js:106-116 | every row the prefix pass accepts, the substring pass accepts too |
| ManufacturerMatch.DetectManufacturer | backend/server.js:100-122 | a path that is absent or not a string gives null; a result is never id 0 |
| ManufacturerMatch.PrefixTierWins | backend/server.js:106-109 | the first row passing the prefix pass wins, whatever the substring pass says |
| ManufacturerMatch.SubstringTierWhenNoPrefix | backend/server.js:111-118 | when no row passes the prefix pass, the first row passing the substring pass wins |
| ManufacturerMatch.NoMatchIsNull | backend/server.js:106-118 | no row matching either pass gives null |
| ManufacturerMatch.LongerPrefixWins | backend/server.js:106-109 | with "Vengeance" listed before "Vengeance Sound", "Vengeance Sound - Kick.wav" goes to "Vengeance Sound" |
| FilenameTags.BpmAtSound | backend/server.js:169 | the greedy attempt at a position succeeds only where the BPM pattern matches |
| FilenameTags.BpmAtComplete | backend/server.js:169 | the greedy attempt succeeds wherever the BPM pattern matches, with the longest digit run |
| FilenameTags.FirstHitNone | backend/server.js:169-170 | the scan of a match over the positions finds nothing exactly when the attempt fails at every position |
| FilenameTags.FirstHitLeftmost | backend/server.js:169-170 | where the scan stops, the attempt failed at every earlier position |
| FilenameTags.FirstHitStops | backend/server.js:169-170 | the scan stops at the first position whose attempt succeeds |
| FilenameTags.FindBpm | backend/server.js:169 | a BPM capture is a non-empty string of decimal digits |
| FilenameTags.FindBpmIsLeftmostMatch | backend/server.js:169 | the BPM capture is the digits of the leftmost match, and there is none exactly when the pattern matches nowhere |
| FilenameTags.StoredBpm | backend/server.js:188 | a non-empty tag is used first; otherwise the digits the pattern of line 169 captured, read as a whole number; otherwise null |
| FilenameTags.KeyAtSound | backend/server.js:170 | the greedy attempt at a position succeeds only where the key pattern matches |
| FilenameTags.KeyAtComplete | backend/server.js:170 | the greedy attempt succeeds wherever the key pattern matches |
| FilenameTags.FindKeyIsLeftmostMatch | backend/server.js:170 | the key is the text of the leftmost match, and there is none when the pattern matches nowhere |
| FilenameTags.BpmWithSpace | backend/server.js:169 | "Kick 128 BPM.wav" is stored with tempo 128 |
| FilenameTags.BpmAfterUnderscore | backend/server.js:169 | "Snare_128BPM.wav" gets no tempo |
| FilenameTags.KeyKeepsCase | backend/server.js:170 | the key keeps the letter case and inner white space of the name |
| FilenameTags.KeyNeedsBoundary | backend/server.js:170 | "maj" followed by a word character is not a key |
| UploadFilters.FileFilter | backend/server.js:224-230 | a file is accepted exactly when its MIME type is one of the four allowed at line 23; otherwise the error names them |
| UploadFilters.RejectionMessage | backend/server.js:228 | the rejection message lists audio/wav, audio/mp3, audio/flac and audio/aiff, in order, separated by ", " |
| UploadFilters.ValidateUploadRequest | backend/server.js:234-247 | "No files received" exactly when there is no file; otherwise "Invalid metadata format" exactly when a non-empty field does not parse |
| UploadFilters.RequestMetadata | backend/server.js:262 | a missing or empty field reads as {}, and otherwise as its parse |
| UploadFilters.ValidatedMetadataParses | backend/server.js:240-242 | whatever passes validation, the route's own parse at line 262 cannot throw |
| UploadFilters.StoredFilenameKeepsBase | backend/server.js:211-216 | read back with path.basename and path.extname, the stored name gives the original base name, a dash and the suffix, and has no slash |
| UploadFilters.StoredFilenameKeepsExtension | backend/server.js:211-216 | the stored name has the original extension, for a suffix with no dot or slash |
| UploadFilters.StoredFilenameInjective | backend/server.js:211-216 | distinct suffixes give distinct stored names |
| Ingest.TruncateFingerprint | backend/server.js:159 | the result is the first min(512, length) units of the fingerprint |
| Ingest.TruncateIdempotent | backend/server.js:159 | truncating twice is the same as truncating once |
| Ingest.FolderArgument | backend/server.js:167 | an absent path gives the empty folder path; a string path gives its directory; a truthy path that is not a string throws |
| Ingest.DuplicateWritesNothing | backend/server.js:161-163 | a file is a duplicate exactly when its truncated fingerprint is stored; a duplicate returns its original name and writes nothing |
| Ingest.FailureWritesNothing | backend/server.js:156-167 | a file fails exactly when chromaprint throws, or the file is new and the metadata is null or has a truthy non-string path; a failure writes nothing |
| Ingest.UploadedRow | backend/server.js:165-200 | a new file's row gets the next id, the path under audio-files/, the truncated fingerprint, the detected manufacturer, the walked folder, the BPM and the key; it is appended after the old rows |
| Ingest.StoredFingerprintIsTruncated | backend/server.js:158-159 | the fingerprint stored by the insert (line 183) is the first min(512, length) units of chromaprint's output |
| Ingest.NoPathNoFolder | backend/server.js:167 | without a metadata path the file goes in no folder, and no folder is created |
| Ingest.PathFilesUnderDirectory | backend/server.js:167 | a file sent as dir/name is filed by the walk over dir |
| Ingest.AppendKeepsValid | backend/server.js:174-195 | inserting a row with the next id and a fingerprint not yet stored, with well-formed folders, keeps the database valid |
| Ingest.ProcessKeepsValid | backend/server.js:155-205 | processing keeps ids increasing and no two rows sharing a fingerprint |
| Ingest.SecondIngestIsDuplicate | backend/server.js:146-163 | once a file is stored, any file with the same truncated fingerprint is a duplicate |
| Ingest.BatchStep | backend/server.js:266-274 | the batch after i + 1 files is the batch after i files with the i-th file's name, record or error added |
| Ingest.AbortedStays | backend/server.js:266-285 | once the files before the last have aborted the batch, the last file changes nothing |
| Ingest.BatchStopsAtFirstFailure | backend/server.js:266-285 | when the j-th file throws, the batch ends with its error, no later file runs, and earlier writes stay |
| Ingest.AbortedPrefixIsFinal | backend/server.js:266-285 | once a prefix of the batch has aborted, the later files change nothing |
| Ingest.StepAtPrefix | backend/server.js:266-274 | each file is processed against the database the earlier files left, regardless of later files |
| Ingest.CompletedMeansNoFailure | backend/server.js:266-285 | a completed batch had no file that threw |
| Ingest.NoFailureMeansCompleted | backend/server.js:266-285 | a batch in which no file throws completes |
| Ingest.BatchListsFiles | backend/server.js:263-274 | after each completed prefix of the batch, uploadedFiles and duplicates hold that prefix's stored records and duplicate names, in request order |
| Ingest.BatchAccountsForEveryFile | backend/server.js:263-274 | a completed batch lists, in request order, the record of every stored file in uploadedFiles and the original name of every duplicate in duplicates, one entry per file |
| Ingest.BatchKeepsValid | backend/server.js:266-274 | the batch keeps the database valid, so a fingerprint repeated within one upload is stored once |
| Route.FirstRejected | backend/server.js:224-230 | the first file whose MIME type is not allowed, or none when all are allowed |
| Route.TempPaths | backend/server.js:287-289 | the temporary path of each received file, in request order |
| Route.BatchResponse | backend/server.js:277-284 | success with the message, records and duplicates exactly when the batch completed; otherwise the first error's message |
| Route.RejectedTypeStopsRequest | backend/server.js:224-230 | a refused type stops the request before the handler of line 255: it writes nothing, deletes nothing and answers with the filter's message |
| Route.FailedValidationLeavesFiles | backend/server.js:234-247 | a request failing validation writes nothing, answers with the validation message and deletes no file |
| Route.HandlerDeletesEveryFile | backend/server.js:286-290 | once the handler runs, every temporary file is deleted exactly once, in request order, on success and on error |
| Route.HandlerResponse | backend/server.js:266-285 | the handler answers with success exactly when no file throws |
| Processor.AudioFileProcessor.constructor | backend/server.js:52-54 | the object holds the given database |
| Processor.AudioFileProcessor.DeleteFile | backend/server.js:57-64 | the path is added to the deleted files and nothing else changes |
| Processor.AudioFileProcessor.InsertFolder | backend/server.js:83-89 | the folders table moves as the pure insert says, and returns its row id or nothing |
| Processor.AudioFileProcessor.GetOrCreateFolder | backend/server.js:77-97 | the loop leaves the folders table and the result as the pure walk over the path's segments says; other tables are unchanged |
| Processor.AudioFileProcessor.IsDuplicate | backend/server.js:146-152 | the result is true exactly when some stored row has this fingerprint |
| Processor.AudioFileProcessor.ProcessFile | backend/server.js:155-205 | the new state and the result are those of the pure processFile |
| Processor.RunBatch | backend/server.js:266-274 | the loop leaves the database and the outcome as the pure batch says |
| Processor.DeleteAll | backend/server.js:286-290 | the deleted files gain the temporary path of every received file, in order |
| Processor.HandleUpload | backend/server.js:253-293 | the database, the response and the files deleted by this request are those of the pure route |
| Uploader.ValidateFileSizeInBytes | frontend/src/components/AudioFileUploader.js:22-24 | the size check holds exactly when the size is at most 524288000 bytes (500 MiB) |
| Uploader.ServerTypesPassBrowserCheck | frontend/src/components/AudioFileUploader.js:17-20 | every MIME type the server allows passes the browser's type check |
| Uploader.BrowserCheckIsWider | frontend/src/components/AudioFileUploader.js:17-20 | an audio/ogg file passes the browser check, yet the server's filter refuses it |
| Uploader.FileMetadata | frontend/src/components/AudioFileUploader.js:43-55 | the type is file.type, or audio/wav when that is empty; the path is webkitRelativePath, or the name when that is empty |
| Uploader.SelectFiles | frontend/src/components/AudioFileUploader.js:63-81 | a pick is accepted exactly when every file passes both checks; type errors come first and list every invalid name; the size error comes only when all types pass; an accepted pick becomes one record per file, in order |
| Uploader.TypeErrorNamesTheInvalidFiles | frontend/src/components/AudioFileUploader.js:66-69 | a file is listed in the type error exactly when it fails the type check |
| Uploader.SizeErrorNamesTheOversizedFiles | frontend/src/components/AudioFileUploader.js:72-75 | a file is listed in the size error exactly when it is over 500 MiB |
| Uploader.SentMetadata | frontend/src/components/AudioFileUploader.js:106-111 | a missing or empty duration is sent as "unknown"; type, date and path are sent as recorded |
| Uploader.BuildFormData | frontend/src/components/AudioFileUploader.js:103-112 | the forEach builds the form layout: for each file, its file part and then its metadata part |
| Uploader.FormCarriesEveryFileInOrder | frontend/src/components/AudioFileUploader.js:104-112 | part 2i is the i-th file under "files", and part 2i+1 its metadata under "metadata" followed by i |
| Uploader.MetadataFieldNamesDistinct | frontend/src/components/AudioFileUploader.js:106 | two files never share a metadata field name |
| Uploader.FormHasNoPlainMetadataField | frontend/src/components/AudioFileUploader.js:104-112 | no part of the form is named plain metadata |
| Uploader.UploadError | frontend/src/components/AudioFileUploader.js:123-135 | no error exactly on an ok response; otherwise a non-empty message: the server's message, or the status text, or "Upload cancelled", or the thrown message or a generic one |
| Uploader.UploaderState.constructor | frontend/src/components/AudioFileUploader.js:10-13 | no files, not loading, no error, no success flag |
| Uploader.UploaderState.HandleFolderSelect | frontend/src/components/AudioFileUploader.js:57-88 | an accepted pick replaces the list and clears the error; a refused one keeps the list and shows its message; loading ends and the success flag is down |
| Uploader.UploaderState.RemoveFile | frontend/src/components/AudioFileUploader.js:90-92 | the element at the index is removed and the rest keep their order; an out-of-range index changes nothing |
| Uploader.UploaderState.HandleUpload | frontend/src/components/AudioFileUploader.js:94-142 | the form sent is the layout of the list; success empties the list and raises the flag; a failure keeps the list and shows its error |
| JsArrays.WithoutIndexInRange | frontend/src/components/AudioFileUploader.js:91 | filtering out index i of a list is the list without its i-th element |
| JsArrays.WithoutIndexOutOfRange | frontend/src/components/AudioFileUploader.js:91 | filtering out an index outside the list keeps the list |
| Download.MatchEndAt | frontend/src/components/DownloadButton.js:22 | with the label at p, the match ends at the last double quote on its line after at least one character, or there is none |
| Download.MatchFilenameIsLeftmostGreedy | frontend/src/components/DownloadButton.js:22 | the capture starts after the leftmost label with a closing quote on its line and runs to that line's last quote |
| Download.MatchFilenameNone | frontend/src/components/DownloadButton.js:22 | there is no match exactly when no label has a closing quote on its line |
| Download.ExtractFileName | frontend/src/components/DownloadButton.js:20-22 | with no header or no match the given default is used; otherwise the capture |
| Download.QuotedNameExtracted | frontend/src/components/DownloadButton.js:21-22 | a header before + filename="X" + after, with no quote in before or after and no line break in X, yields X, quotes in X included |
| Download.GreedyCaptureRunsToLastQuote | frontend/src/components/DownloadButton.js:22 | filename="a"; b="c" yields a"; b="c |
| Download.UnquotedHeaderKeepsDefault | frontend/src/components/DownloadButton.js:20-22 | a header with no double quote, such as filename=kick.wav, keeps the default name |
| Download.EmptyQuotedNameKeepsDefault | frontend/src/components/DownloadButton.js:22 | filename="" does not match, so the default name is kept |
| Download.DownloadButton.constructor | frontend/src/components/DownloadButton.js:4-6 | the file name defaults to audio-file.wav when none is given |
| Download.DownloadButton.HandleDownload | frontend/src/components/DownloadButton.js:8-43 | an ok response clicks one link named from the header or the default; anything else shows the fixed error and creates no link; loading ends |
| JsStrings.SplitJoin | backend/server.js:79 | joining the pieces of a split with its separator gives back the string |
| JsStrings.SegmentsEmptyIff | backend/server.js:79 | a path has no segments exactly when it is empty or only separators |
| JsStrings.SegmentsAreNames | backend/server.js:79 | every segment is non-empty and free of separators |
| JsStrings.DecimalRoundTrip | backend/server.js:188 | reading back a printed natural number gives the number |
| JsStrings.NatToStringInjective | frontend/src/components/AudioFileUploader.js:106 | distinct numbers print as distinct strings |
| NodePath.DirnameOfChild | backend/server.js:167 | the directory of dir/name is dir |
| NodePath.DirnameOfPlainName | backend/server.js:104 | a name without a slash lies in "." |
| NodePath.BasenameWithoutExt | backend/server.js:213-214 | the base name followed by the extension is the name |

## Left out

- Letter case: `toLowerCase` is modelled for ASCII letters only; other Unicode case mappings are not.
- Floating point: durations, sample rates and the tag BPM are stored as given. `parseFloat` is modelled only on the digit strings the BPM pattern captures. `toFixed` and the size text of the browser record are not modelled.
- JSON: `JSON.parse` of the metadata field is an input (the parse or its failure). `JSON.stringify` of the sent metadata is a structured value.
- SQL and Postgres: the SQL text, the pool and the connections are abstract. A NULL parent id is compared as a value, whereas Postgres never counts NULLs as a conflict. Ids come from counters, and a conflicting insert uses none, whereas a Postgres sequence would consume a value.
- Database failures other than those modelled (a lost connection, a constraint other than the folder key) are not modelled.
- Transactions: BEGIN, COMMIT and ROLLBACK on the route's client are left out. They cover none of the writes, which go through the pool.
- External engines: chromaprint and music-metadata are inputs. `getAudioMetadata` returns `{}` on error, which is represented by a record with no values.
- Server plumbing: Express, CORS, morgan, rate limiting, multer's disk storage and its file-size limit, the health endpoint, the error middleware and shutdown are not modelled. So is multer's own deletion of already stored files when its filter refuses one.
- Errors: the TypeError messages are modelled by their leading text, not by their full text.
- Browser work: React rendering, `useState` scheduling, the three-second reset of the success flag, `cancelUpload` and the AbortController are not modelled; an abort is one of the fetch outcomes. `getAudioDuration` and the locale date text are per-file inputs.
- Metadata field names: the browser sends `metadata0`, `metadata1` and so on, while the server reads only `metadata`. Each side is modelled on its own terms.
- Download DOM: the fetch, the Blob, the object URL and the anchor element are not modelled. A clicked link is recorded as its name.
- Other front-end files: `App.js`, `index.js`, `ErrorBoundary.js`, the presentational components, `music-metadata-browser.js` and the webpack configuration are not part of this model.
- UploadFilters.StoredFilenameKeepsBase: it excludes the name "..", whose stored name ends in a dot-separated suffix that path.basename reads as an extension.
- FilenameTags.StoredBpm: the captured digits are read as an exact whole number; `parseFloat` rounds numbers above 2^53 to the nearest double and gives Infinity for about 309 digits or more.
- UploadFilters.StoredFilenameKeepsExtension: it excludes the name "..", whose stored name gains an extension that the original does not have.
- ManufacturerMatch.DetectManufacturer: the query of the manufacturer rows is an input; its failure, which the code also turns into null, is not modelled.

## Findings

| source | as written | input that shows it | evidently intended | confidence | as-written member | corrected member |
|---|---|---|---|---|---|---|
| backend/server.js:90 | on a folder-name conflict the walk keeps the old parent id, so later segments are inserted under the wrong parent | on an empty table, processing two files each with path A/B/x.wav: the second walk conflicts on A, stays at the root, and creates a root folder B (id 3) instead of finding folder 2 | on a conflict, go on under the existing row, so walking a path twice finds the same folder. Under Postgres's own NULL rule the root insert never conflicts, so the second walk instead creates a fresh chain A (id 3) and B (id 4); the walk is not idempotent either way | not executed | Folders.RewalkCreatesStrayFolder | Folders.ReusingIdempotent |

The corrected walk is `Folders.WalkFoldersReusing`. `Ingest.ProcessFile` and
`Processor.AudioFileProcessor.GetOrCreateFolder` keep the walk as written, so the rest of the
model describes the code's behaviour.
