# FileShareImageBuilder core, modelled in Dafny

This project models the data-image pipeline of the UKHO ADDS Search file share
emulator and proves properties of the model.

The `FileShareImageBuilder` tool does the following:
- copies the file share catalog database into the emulator's database (`MetadataImporter`);
- downloads the batch zips under a byte budget, paging through the `Batch` table with a keyset cursor (`ContentImporter`);
- reconciles the catalog with what was downloaded (`DataCleaner`);
- loads the resulting docker image, replacing the previous one (`ImageLoader`).

All of them read their settings through `ConfigurationReader`. The emulator
seeds its database at start-up from the bacpac (`BacpacImporter`) and records
that in `BacpacImportState`, which only that seeding writes.

Modules, one per source file, plus three shared ones:

- `Wrappers`: `Option` and `Result`.
- `Text`: these .NET string operations:
  - `string.IsNullOrWhiteSpace`;
  - `Trim`;
  - ordinal case-insensitive comparison;
  - the single-character `Replace` used for quoting.
- `Guids`: a GUID as its 16 bytes in .NET's layout, and the format "D" text both ways. The first field is little-endian, so `bytes[0]` is characters 7–8 of the text.
- `Catalog`: the emulator's tables (`Batch`, `File`, `FileAttribute`, `BatchReadGroup`, `BatchReadUser`, `BatchAttribute`) and the per-batch cascade delete.
- `Paging`: the keyset page query as `TopN` over the rows. It is ordered by `(CreatedOn DESC, Id DESC)`, with SQL Server's `uniqueidentifier` order left abstract as an injective ranking of ids.
- `ConfigurationReader`, `ContentImporter`, `DataCleaner`, `MetadataImporter`, `ImageLoader`, `BacpacImporter`.

Everything outside the process is a parameter:
- SQL Server is modelled as table values and the answer to `SELECT DB_NAME()`.
- The file share service is a function from batch id to a download outcome.
- Docker is the exit code and captured output of the k-th command.
- The file system is a set of paths plus a few existence flags.
- The JSON document is a map from property names to values.
- The environment is a map from variable names to values.

State that the source updates in place is imperative code here:
- `ProgressDataReader` and `BacpacImportState` are classes.
- The import loops and the clean-up's phase 1 are methods with loop invariants.
- The delete phases are set filters, proved against the table functions.

## Model

| member | source | states |
|---|---|---|
| ConfigurationReader.ReadOverrideConfiguration | src/FileShareImageBuilder/ConfigurationReader.cs:104-112 | A missing `configuration.override.json` fails with the file-not-found error, an unparsable one with the parse error, and otherwise the parsed root is returned |
| ConfigurationReader.GetOptionalStringProperty | src/FileShareImageBuilder/ConfigurationReader.cs:85-91 | Null exactly when the property is missing or its value is null or blank; otherwise the string unchanged |
| ConfigurationReader.GetRequiredStringProperty | src/FileShareImageBuilder/ConfigurationReader.cs:93-102 | Succeeds exactly when the property is present with a non-blank string, and then returns it unchanged. A missing property and a null or blank value give their two different `InvalidOperationException`s |
| ConfigurationReader.GetPositiveInt32Property | src/FileShareImageBuilder/ConfigurationReader.cs:59-70 | Succeeds exactly when the property is a JSON integer in `1 .. int.MaxValue`, and then returns it. A missing property gives the "missing" error |
| ConfigurationReader.GetRequiredSetting | src/FileShareImageBuilder/ConfigurationReader.cs:53-57 | A config-backed required getter: the override file must exist, and any value returned is non-blank |
| ConfigurationReader.GetOptionalSetting | src/FileShareImageBuilder/ConfigurationReader.cs:41-51 | A config-backed optional getter (`tenantId`, `clientId`): the override file must exist, and any value returned is non-blank |
| ConfigurationReader.GetEnvironmentName | src/FileShareImageBuilder/ConfigurationReader.cs:13-20 | A non-blank `environment` variable wins; otherwise the required `environment` property is used. The result is never blank |
| ConfigurationReader.GetTargetDatabaseConnectionString | src/FileShareImageBuilder/ConfigurationReader.cs:28-39 | A blank name gives `ArgumentException`; a blank or missing `ConnectionStrings__<name>` gives `InvalidOperationException`; otherwise that variable's value |
| ConfigurationReader.MissingOverrideFileFails | src/FileShareImageBuilder/ConfigurationReader.cs:104-112 | With no override file, every config-backed getter fails with `FileNotFoundException`, and so does `GetEnvironmentName` when the variable is unset or blank |
| Guids.HexValue | src/FileShareImageBuilder/ContentImporter.cs:159 | A hex digit's value is below 16, and the lower- and upper-case digit tables map it back to the digit |
| Guids.HexValueOfDigit | src/FileShareImageBuilder/ContentImporter.cs:159 | Every digit of the tables is a hex digit that reads back as its own value |
| Guids.HighDigitPositionOf | src/FileShareImageBuilder/DataCleaner.cs:91 | Each non-hyphen character position of the "D" text is one of the two digits of exactly one byte |
| Guids.ParseFormatD | src/FileShareImageBuilder/DataCleaner.cs:91 | `TryParseExact(g.ToString("D"), "D")` gives back `g` |
| Guids.ParsedIsFormatD | src/FileShareImageBuilder/DataCleaner.cs:91 | Text the strict "D" parser accepts as `g` is `g`'s "D" text, up to letter case (the .NET fallback forms are listed under Left out) |
| Guids.FormatDParses | src/FileShareImageBuilder/DataCleaner.cs:91 | Any text equal to `g`'s "D" text up to letter case parses as `g` |
| Guids.ParseDExactly | src/FileShareImageBuilder/DataCleaner.cs:91 | Text parses as `g` under the strict "D" parser if and only if it is `g`'s "D" text up to letter case (the .NET fallback forms are listed under Left out) |
| Guids.ShardDigits | src/FileShareImageBuilder/ContentImporter.cs:151-160 | The shard is two upper-case hex digits whose value is `bytes[0]`. These are characters 7–8 of the "D" text, upper-cased, not the first two |
| ContentImporter.ArtifactPath | src/FileShareImageBuilder/ContentImporter.cs:55-61 | An artifact is written at `bin/<two-character shard>/<Id "D">.zip` |
| ContentImporter.MaxBytesFitsInt64 | src/FileShareImageBuilder/ContentImporter.cs:23 | For every positive int32 size in GB, `GB * 1024^3` is positive and fits in a `long` |
| Paging.PrecedesTotal | src/FileShareImageBuilder/ContentImporter.cs:119-122 | Two different rows are ordered one way or the other by `(CreatedOn DESC, Id DESC)`, even when `CreatedOn` ties |
| Paging.Rows | src/FileShareImageBuilder/ContentImporter.cs:113-115 | The query reads one `(Id, CreatedOn)` row per `Batch` row, whatever its `Status` |
| Paging.RowsCardinality | src/FileShareImageBuilder/ContentImporter.cs:113-115 | There are as many rows as batches |
| Paging.First | src/FileShareImageBuilder/ContentImporter.cs:113-115 | The row the order puts first is in the set and precedes every other row |
| Paging.TopNSpec | src/FileShareImageBuilder/ContentImporter.cs:113-115 | `TOP (n)` returns `min(n, rows)` rows of the table, strictly descending, and every row it leaves out comes after every row it returns |
| Paging.TopNLength | src/FileShareImageBuilder/ContentImporter.cs:113 | `TOP (n)` returns `min(n, rows)` rows |
| Paging.TopNMembers | src/FileShareImageBuilder/ContentImporter.cs:113-114 | Every returned row is a row of the table |
| Paging.TopNDescending | src/FileShareImageBuilder/ContentImporter.cs:115 | The returned rows are strictly descending, and so free of duplicates |
| Paging.TopNNoGaps | src/FileShareImageBuilder/ContentImporter.cs:113-115 | No row left out precedes a returned row |
| Paging.TopNPrefix | src/FileShareImageBuilder/ContentImporter.cs:113-115 | A smaller `TOP` returns a prefix of a larger one |
| Paging.TopNAll | src/FileShareImageBuilder/ContentImporter.cs:113-115 | A `TOP` at least the table's size returns every row |
| Paging.After | src/FileShareImageBuilder/ContentImporter.cs:121 | The `WHERE` clause keeps exactly the rows strictly after the cursor `(lastCreatedOn, lastId)` |
| Paging.AfterFirst | src/FileShareImageBuilder/ContentImporter.cs:121 | The rows after the first row are all the others |
| Paging.NextPageContinues | src/FileShareImageBuilder/ContentImporter.cs:119-122 | The page after the last row of `TOP (n)` is the next `m` rows: together they are `TOP (n + m)`, so pages are disjoint and leave no gap, even with `CreatedOn` ties |
| ContentImporter.CatalogOrderSpec | src/FileShareImageBuilder/ContentImporter.cs:113-122 | The order the pages visit holds every batch exactly once, whatever its `Status`, strictly descending |
| ContentImporter.GetBatchIdsPage | src/FileShareImageBuilder/ContentImporter.cs:97-139 | The read loop returns the page query's rows, in order |
| ContentImporter.PageQuerySpec | src/FileShareImageBuilder/ContentImporter.cs:111-126 | A page has at most `pageSize` rows of the `Batch` table, strictly descending, all after the cursor when there is one |
| ContentImporter.OrderPrefix | src/FileShareImageBuilder/ContentImporter.cs:113-115 | The first `n` rows of the visiting order are what `TOP (n)` returns |
| ContentImporter.PageExtendsTop | src/FileShareImageBuilder/ContentImporter.cs:91-93 | The rows fetched so far plus the page after their last row are `TOP (fetched + 1000)` |
| ContentImporter.FetchedAdvance | src/FileShareImageBuilder/ContentImporter.cs:38-49 | The pages fetched so far are always a prefix of the visiting order, and a page comes back empty only once every batch has been fetched |
| ContentImporter.TotalLengthMonotone | src/FileShareImageBuilder/ContentImporter.cs:75-77 | The running total of bytes never decreases |
| ContentImporter.AppendUnderBudget | src/FileShareImageBuilder/ContentImporter.cs:34 | A download started while the total is below `maxBytes` keeps "each download started under the budget" |
| ContentImporter.EveryDownloadStartedUnderBudget | src/FileShareImageBuilder/ContentImporter.cs:84-88 | If the last download of a run started below `maxBytes`, every download did: each started with `totalBytesDownloaded < maxBytes` |
| ContentImporter.AppendDownload | src/FileShareImageBuilder/ContentImporter.cs:63-77 | A successful download of the next row in the visiting order keeps the artifacts equal to the downloads of the first rows, in that order |
| ContentImporter.DownloadPage | src/FileShareImageBuilder/ContentImporter.cs:53-89 | The inner loop downloads the page's batches in order, adding each length and 1 to the counters. It stops after the download that reaches `maxBytes`, or at a failed download, which it reports with the batch's id |
| ContentImporter.DownloadBatches | src/FileShareImageBuilder/ContentImporter.cs:34-94 | The outer loop downloads a prefix of the visiting order, in order, each download starting under the budget. It ends after every batch, after the download that reached `maxBytes`, or at the first failed download, which aborts the run |
| ContentImporter.ImportAsync | src/FileShareImageBuilder/ContentImporter.cs:17-95 | Settings are read in the source's order, and any failure stops the run with no download; otherwise the run is the one `DownloadBatches` states for `GB * 1024^3` |
| DataCleaner.ReadInvalidIds | src/FileShareImageBuilder/DataCleaner.cs:65-77 | A missing `invalid.json` or a null list gives the empty set. A list gives exactly its ids, with duplicates collapsed. Anything else fails |
| DataCleaner.ZipId | src/FileShareImageBuilder/DataCleaner.cs:88-94 | A file counts exactly when it lies under the scanned directory, its name ends in `.zip`, and its base name parses as a "D" GUID |
| DataCleaner.ZipIdIsFormatD | src/FileShareImageBuilder/DataCleaner.cs:90-91 | A counted file's name is its id's "D" text plus `.zip`, up to letter case, for the strict "D" parser (the .NET fallback forms are listed under Left out) |
| DataCleaner.DownloadedIds | src/FileShareImageBuilder/DataCleaner.cs:79-98 | The downloaded set is exactly the ids of the counted files; with no such file it is empty |
| DataCleaner.GetDownloadedBatchIds | src/FileShareImageBuilder/DataCleaner.cs:87-97 | The enumeration loop computes `DownloadedIds` |
| Catalog.DeleteBatches | src/FileShareImageBuilder/DataCleaner.cs:107-125 | The cascade deletes exactly these rows, and keeps the rest unchanged: the batches, their files, the attributes of those files, and their read-group, read-user and attribute rows |
| Catalog.DeleteBatchesRemovesAll | src/FileShareImageBuilder/DataCleaner.cs:107-125 | After the cascade no row of any table refers to a deleted batch |
| Catalog.DeleteBatchesTwice | src/FileShareImageBuilder/DataCleaner.cs:31-40 | Deleting one set of batches and then another is deleting their union |
| Catalog.DeleteAbsentBatches | src/FileShareImageBuilder/DataCleaner.cs:124-125 | Deleting batches that have no rows changes nothing |
| Catalog.DeleteBatchesKeepsNoOrphans | src/FileShareImageBuilder/DataCleaner.cs:107-125 | A catalog without orphan rows has none after the cascade |
| Catalog.NoRowsNoCascade | src/FileShareImageBuilder/DataCleaner.cs:130 | Deleting batches that have no rows affects no rows |
| Catalog.CascadeRowsAdd | src/FileShareImageBuilder/DataCleaner.cs:39 | Summing the rows each cascade affects, one id after the other, gives the rows of one cascade over all the ids |
| DataCleaner.DeleteBatch | src/FileShareImageBuilder/DataCleaner.cs:102-143 | One id's cascade, with the rows it affected. The `BatchDeleted` probe runs after the cascade has already removed the row, so it is always false |
| DataCleaner.DeleteInvalidBatches | src/FileShareImageBuilder/DataCleaner.cs:29-40 | Phase 1 deletes exactly the invalid batches with their dependents, and absent ids are no-ops. `deletedInvalidBatchIds` stays 0, and `deletedInvalidRows` is the cascade's row count |
| DataCleaner.DeleteCommittedBatchesNotDownloaded | src/FileShareImageBuilder/DataCleaner.cs:145-226 | Phase 2 keeps exactly the batches that are not committed or are downloaded (so all committed ones go when the set is empty), plus their dependents. With more downloaded ids than the server takes parameters (one `@idN` each), it fails and deletes nothing |
| DataCleaner.DeleteNonCommittedBatches | src/FileShareImageBuilder/DataCleaner.cs:228-264 | Phase 3 keeps exactly the committed batches and leaves no row of a removed one |
| DataCleaner.CleanPostcondition | src/FileShareImageBuilder/DataCleaner.cs:58-62 | After the three phases, a batch remains if and only if it was committed, downloaded and not invalid. It remains unchanged, no row of a removed batch remains, and a catalog without orphans stays so |
| DataCleaner.CleanFixesClean | src/FileShareImageBuilder/DataCleaner.cs:154-264 | A catalog holding only committed, downloaded batches and no row of an invalid id is left unchanged, and each phase's statements match no row |
| DataCleaner.CleanIdempotent | src/FileShareImageBuilder/DataCleaner.cs:10-63 | A second clean with the same files on disk and the same or fewer invalid ids leaves the catalog as it is, and its statements match no row |
| DataCleaner.CleanAsync | src/FileShareImageBuilder/DataCleaner.cs:10-63 | Configuration and `invalid.json` errors stop the run before any delete. Otherwise phase 1 runs with the source's counters, and `invalid.json` is deleted only when it listed ids (a failed delete is swallowed). Then phase 2 either is refused for too many parameters, leaving phase 3 unrun, or phases 2 and 3 run. The downloaded ids are scanned under `bin/content`, as written |
| DataCleaner.ZipIdOfArtifact | src/FileShareImageBuilder/DataCleaner.cs:81 | An artifact path `bin/<shard>/<id>.zip` counts as `id` when `bin` is scanned, and never when `bin/content` is |
| DataCleaner.RunListing | src/FileShareImageBuilder/ContentImporter.cs:58-61 | The files an import run writes are the artifact paths of the batches it downloaded |
| DataCleaner.ScanFindsImport | src/FileShareImageBuilder/ContentImporter.cs:58-61 | Scanning `bin` after an import finds exactly the imported ids |
| DataCleaner.ScanAsWrittenMissesImport | src/FileShareImageBuilder/DataCleaner.cs:81 | Scanning `bin/content` after an import finds nothing |
| DataCleaner.CleanAsyncAfterImport | src/FileShareImageBuilder/DataCleaner.cs:10-63 | A `CleanAsync` run after an import never hits the parameter limit, and leaves no batch at all |
| DataCleaner.CleanAfterImportAsWritten | src/FileShareImageBuilder/DataCleaner.cs:79-98 | With the scan as written, cleaning after an import deletes every batch |
| DataCleaner.CleanAfterImport | src/FileShareImageBuilder/DataCleaner.cs:58-62 | With the corrected scan, a batch survives exactly when it was imported, committed and not invalid |
| Text.TrimStartSpec | src/FileShareImageBuilder/ImageLoader.cs:28-29 | `TrimStart` drops a blank prefix and nothing more |
| Text.TrimEndSpec | src/FileShareImageBuilder/ImageLoader.cs:28-29 | `TrimEnd` drops a blank suffix and nothing more |
| Text.TrimmedEnds | src/FileShareImageBuilder/ImageLoader.cs:28-29 | `Trim` is empty exactly on blank text, and otherwise neither starts nor ends with white space |
| Text.DoubleLength | src/FileShareImageBuilder/MetadataImporter.cs:134 | Doubling a character adds one character per occurrence |
| Text.UndoubleDouble | src/FileShareImageBuilder/MetadataImporter.cs:134 | Un-doubling a doubled text gives the text back |
| Text.DoubleUndouble | src/FileShareImageBuilder/MetadataImporter.cs:134 | A text that un-doubles to `s` is `s` doubled: every occurrence inside is part of a pair |
| MetadataImporter.EscapeSqlIdentifier | src/FileShareImageBuilder/MetadataImporter.cs:131-135 | The length is the input's + 2 + the number of `]`, and T-SQL reads the bracket-quoted text back as exactly the input |
| MetadataImporter.EscapeSqlIdentifierInverse | src/FileShareImageBuilder/MetadataImporter.cs:131-135 | A bracket-quoted text reads as `s` if and only if it is `EscapeSqlIdentifier(s)` |
| MetadataImporter.NLiteral | src/FileShareImageBuilder/MetadataImporter.cs:116 | The `DB_ID(N'...')` literal doubles every `'`: its length is the name's + 3 + the number of `'`, and it reads back as the name |
| MetadataImporter.NLiteralInverse | src/FileShareImageBuilder/MetadataImporter.cs:116 | An `N'...'` literal reads as `s` if and only if it is `NLiteral(s)` |
| MetadataImporter.DropAndRecreateSql | src/FileShareImageBuilder/MetadataImporter.cs:114-122 | The batch drops the database if it exists, then creates it, and both statements act on exactly the given database whatever quotes or brackets its name holds |
| MetadataImporter.ExportAndImportBacpac | src/FileShareImageBuilder/MetadataImporter.cs:37-90 | An existing bacpac is deleted first. A blank source name or a target other than `fileshare-emulator-db` (ignoring case) throws before any export; otherwise export, drop and recreate, and import run in that order. No SQL touches any other database |
| MetadataImporter.ImportAsync | src/FileShareImageBuilder/MetadataImporter.cs:13-35 | The source connection string, the target connection string and the data image path are read in that order, and a failure of any of them stops the run before any step. Otherwise the directory is created, then an existing `<dataImagePath>/metadata.bacpac` is deleted. Then either the source or target name check fails, or export, drop and recreate, and import follow in that order |
| MetadataImporter.AdvanceConsistent | src/FileShareImageBuilder/MetadataImporter.cs:149-168 | One `Read` keeps the counter in `[0, 1000)`, every reported value in `(0, 1000]`, and reports plus counter equal to rows read |
| MetadataImporter.ReplayInvariant | src/FileShareImageBuilder/MetadataImporter.cs:151-166 | After any sequence of reads, the counter is in `[0, 1000)`, no report is 0 or above 1000, and the reports plus the counter add up to the rows read |
| MetadataImporter.ReplayAtEnd | src/FileShareImageBuilder/MetadataImporter.cs:161-165 | After the end of data the counter is 0, and the reports alone add up to the rows read |
| MetadataImporter.ReplayRows | src/FileShareImageBuilder/MetadataImporter.cs:154-159 | After `n` rows there is one report of 1000 per full thousand, and the counter holds `n % 1000` |
| MetadataImporter.ReadToEnd | src/FileShareImageBuilder/MetadataImporter.cs:149-168 | `n` rows then the end of data give one report of 1000 per full thousand, then the remainder when it is not 0 |
| MetadataImporter.ProgressDataReader.constructor | src/FileShareImageBuilder/MetadataImporter.cs:143-147 | A new reader has counted nothing and reported nothing |
| MetadataImporter.ProgressDataReader.Read | src/FileShareImageBuilder/MetadataImporter.cs:149-168 | `Read` returns the inner reader's answer and advances the state as the replay of all answers says, keeping the counter and report invariant |
| ImageLoader.SplitNewLinesPieces | src/FileShareImageBuilder/ImageLoader.cs:54-55 | Splitting on `\r\n` and `\n` gives at least one piece, and no piece holds a line break |
| ImageLoader.TrimNonEmptyLines | src/FileShareImageBuilder/ImageLoader.cs:54-55 | Trimming and dropping blank entries keeps at most as many pieces, each non-empty with no edge white space |
| ImageLoader.LinesAreLines | src/FileShareImageBuilder/ImageLoader.cs:28-29 | Every line of captured docker output is non-empty, holds no line break, and has no white space at either end |
| ImageLoader.SplitPipe | src/FileShareImageBuilder/ImageLoader.cs:58-59 | A line splits exactly when it holds a `|`. The part before it has no `|`, and the two parts with the `|` between them give back the line |
| ImageLoader.SplitPipeUnique | src/FileShareImageBuilder/ImageLoader.cs:58 | The split is at the first `|`, and the id part keeps any further `|` |
| ImageLoader.TryGetImageIdFirst | src/FileShareImageBuilder/ImageLoader.cs:56-62 | The id returned is the text after the first `|` of the first line whose repository equals the name, ignoring case |
| ImageLoader.TryGetImageIdNone | src/FileShareImageBuilder/ImageLoader.cs:56-64 | Null is returned if and only if no line matches, lines with no `|` never matching |
| ImageLoader.NeverRemoveLoaded | src/FileShareImageBuilder/ImageLoader.cs:37-39 | The previous image is removed only when both ids are non-blank and differ ignoring case, so never the image just loaded |
| ImageLoader.CombinePath | src/FileShareImageBuilder/ImageLoader.cs:12 | An empty second part gives the directory back; joining a directory and a relative name puts exactly one `/` between them |
| ImageLoader.SuccessfulCommandsShape | src/FileShareImageBuilder/ImageLoader.cs:17-47 | A run that gets through issues: list ids, `load -i`, list repositories, list ids, then `image rm -f <previous>` only when the previous image should go, then prune |
| ImageLoader.RemovesOnlyPrevious | src/FileShareImageBuilder/ImageLoader.cs:37-43 | In any prefix of that run, an `image rm` is the fifth command, removes the previously tagged id, and happens only when that image should go |
| ImageLoader.LoadAndVerify | src/FileShareImageBuilder/ImageLoader.cs:17-32 | The first three commands run in order, and a non-zero exit stops the run with that command's exit code. A repository list without the image name (ignoring case) throws |
| ImageLoader.ReplacePrevious | src/FileShareImageBuilder/ImageLoader.cs:36-47 | The remaining commands are a prefix of: list ids, remove the previous image if it should go, prune. A non-zero exit ends the run |
| ImageLoader.LoadAndReplaceImage | src/FileShareImageBuilder/ImageLoader.cs:17-47 | The commands issued are a prefix of the successful run's, and all before the last exited 0. The run succeeds if and only if it issued all of them and the last exited 0. Otherwise the error names the failed command and its exit code, or the missing repository |
| ImageLoader.LoadAsync | src/FileShareImageBuilder/ImageLoader.cs:7-48 | Configuration errors, and a missing `<dataImagePath>/fss-data-<env>.tar`, stop the run before any docker command. Otherwise the run is `LoadAndReplaceImage`'s for that tar and image name: no error if and only if every command of the successful run was issued and the last exited 0; any error is either the failed command with its exit code or the image missing after the load |
| BacpacImporter.BacpacImportState.constructor | src/UKHO.ADDS.Search.FileShareEmulator/Infrastructure/BacpacImportState.cs:5-7 | The flag starts false |
| BacpacImporter.BacpacImportState.MarkCompleted | src/UKHO.ADDS.Search.FileShareEmulator/Infrastructure/BacpacImportState.cs:9-12 | After marking, the flag is set |
| BacpacImporter.EnsureDatabaseExistsSql | src/UKHO.ADDS.Search.FileShareEmulator/Infrastructure/BacpacImporter.cs:69-72 | The `CREATE DATABASE` batch doubles `'` in the literal and `]` in the bracketed name, so it acts on exactly the given database |
| BacpacImporter.EnsureDatabaseSeeded | src/UKHO.ADDS.Search.FileShareEmulator/Infrastructure/BacpacImporter.cs:10-41 | An existing `Batch` table marks the state completed and imports nothing. Otherwise a missing bacpac throws and leaves the flag alone; otherwise the database is created if missing, then imported, and only a finished import marks the state completed. The flag never goes back to false |

## Left out

- Docker process handling (starting the process, the output and error event handlers, the waits) is not modelled. A process that fails to start is not modelled; each command is given as its exit code and captured output.
- SQL Server, DacFx and the file share client are parameters, not modelled code. DacFx export and import in `MetadataImporter.ExportAndImportBacpac` are taken to succeed, and the bacpac import in `BacpacImporter.EnsureDatabaseSeeded` is a success-or-failure parameter.
- The text of the SQL batches, including their line breaks, is modelled as `Statement` values that carry the quoted parts.
- SQL Server's `uniqueidentifier` sort order is left abstract: any injective ranking of ids.
- DeleteCommittedBatchesNotDownloaded: the parameter limit is a parameter of the run. SQL Server documents 2100 parameters per request, and whether the driver's own parameters count against that is left to the server.
- ContentImporter.Download: folds the download and the copy to disk into one outcome. If `CopyToAsync` throws after the `FileStream` has created the zip (ContentImporter.cs:70-73), the source aborts with that exception and leaves a partial `bin/<shard>/<id>.zip`, which a later scan of `bin` would count. Neither is modelled: `Failed` writes no file, and every abort is `DownloadFailed`.
- The file system is not modelled: directories are recreated, enumerated and copied to in the source, but here a directory listing is a set of paths, and existence checks and a failing `File.Delete` are flags. JSON parsing is an already-parsed value.
- Guids.ParseD: accepts exactly the 36-character hyphenated form in either letter case. .NET's `TryParseExact` also trims surrounding white space, and it has a fallback that accepts components carrying a `0x`/`0X` or `+` prefix inside the same hyphen frame (`0x123456-1234-…` parses as `00123456-1234-…`). Neither is modelled.
- ParsedIsFormatD: weaker than `TryParseExact`, because text with a `0x` or `+` prefix in a component, or with surrounding white space, parses in .NET but is not the "D" text of its result.
- ParseDExactly: holds of the modelled parser only; for the .NET parser the "only if" half fails on the `0x`/`+` prefixed and white-space-padded forms.
- ZipIdIsFormatD: a zip whose base name uses the `0x`/`+` prefixed form counts in the source, and is neither counted by the model nor covered by this lemma.
- Text.EqualsIgnoreCase: folds only ASCII letters; ordinal case-insensitive comparison of other letters is not modelled.
- ImageLoader.CombinePath: follows `Path.Combine` on Unix only; Windows separators and drive roots are not modelled.
- `GetDataImageCount` is modelled as a getter; no core operation reads it, so no cap on the number of items is modelled.
- `BacpacImportState` is a static `volatile` field in the source and a class instance here; only its monotone flag is modelled.
- Console and Spectre logging, progress messages and cancellation tokens are not modelled.
- `GetRemoteServiceBaseAddress`, `GetTenantId` and `GetClientId` are modelled as getters only; the file share client and the authentication that use them are not part of this model.
- `ProgressDataReader` passes every other `IDataReader` member to the inner reader; only `Read` is modelled.
- `DateTime` values (`CreatedOn`) are integers; only their order matters.

## Findings

| source | as written | input that shows it | evidently intended | confidence | as-written member | corrected member |
|---|---|---|---|---|---|---|
| src/FileShareImageBuilder/DataCleaner.cs:81 | `GetDownloadedBatchIds` scans `bin/content`, but `ContentImporter` writes every zip under `bin/<shard>/` (ContentImporter.cs:20, 58) | an import that downloaded any committed batch, followed by `CleanAsync`: no zip lies under `bin/content`, so the downloaded set is empty and phase 2 deletes every committed batch | scan the directory the importer writes, `bin`, so that downloaded committed batches survive the clean | not executed | DataCleaner.CleanAsyncAfterImport | DataCleaner.CleanAfterImport |
