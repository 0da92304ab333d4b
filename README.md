# Document ingestion and status store, modelled in Dafny

This project models the core of a document-summarising system made of two programs.

**BlobUploadDetector** is a blob-triggered function. It:
- takes an uploaded file and dispatches it on its extension;
- skips a PDF whose file name is already registered in the document store;
- extracts the text of every page, normalises its whitespace and cuts it into chunks of at most 7500 characters at sentence ends;
- for every chunk:
  - creates a status record;
  - obtains an embedding, with up to three attempts;
  - inserts a vector row;
  - walks the record through its status sequence.

**PDF-Summarizer** is the maintenance side. It lists the completed and the unfinished records, lists the file names, and deletes every record of some files.

## Modules

| module | file | models |
|---|---|---|
| `Model` | `model.dfy` | The status record, the six status values and the id-keyed store. A store call ends in `Success`, `Error` or `Timeout`. `Replay` gives the store a log of writes leaves behind. |
| `TextChunker` | `text_chunker.dfy` | `splitText`, `findSplitIndex`, `isPunctuation`, the page normalisation and the assembly of the (page, chunk) list in `extractPDFtoTextByPage`. |
| `StatusTracker` | `status_tracker.dfy` | The class `CosmosDBUtil` of BlobUploadDetector: `isRegisteredDocument`, `createDocument`, `updateStatus`. |
| `Ingestion` | `ingestion.dfy` | The class `Function`: `invokeTextEmbedding`, `insertDataToPostgreSQL`, `analyzePdf` and `run`. |
| `Maintenance` | `maintenance.dfy` | The class `CosmosDBUtil` of PDF-Summarizer: the two list queries, `getDocumentFileNames` and `deleteDocuments`. |

## How the environment enters the model

Everything outside the program becomes a parameter:
- **Store calls.** The outcome of each bridged store call is a parameter. The function ignores the outcomes of its status writes, so those are left open (`*`) and recorded, with their outcomes, in a ghost log of the tracker. The container is always `Replay` of the old container over the calls added to the log.
- **Embedding service.** It is a map from the attempt number to an answer: a failure, or a list of embedding items.
- **Per-chunk environment.** Each chunk's `ChunkOracle` gives:
  - the random UUID;
  - the service;
  - whether the insert and the commit succeed;
  - whether the wait of the final COMPLETED write is interrupted.
- **PDF library.** It is the optional list of optional page texts.
- **Database connection.** Whether it opens is a flag.

## Behaviour of the code worth knowing

- The split index is the position of the punctuation mark itself, and `substring(0, splitIndex)` leaves that mark at the start of the next chunk, not at the end of the chunk before it (`Function.java:316-318`).
- The comment above `findSplitIndex` (`Function.java:325-326`) says a text without a suitable mark is cut every 7500 characters. As written, the backward scan stops at `maxLength - 300`, so such a text is cut at 7200; the fallback `splitIndex == 0` can only fire when `maxLength <= 300`. The model follows the code: `TextChunker.SplitPointIsLastPunctuation` proves both facts for every `maxLength > 300`.
- When all three embedding attempts fail, three RETRY_OAI_INVOCATION writes are issued, one per failed attempt, including the last.
- FINISH_OAI_INVOCATION is written and the insert is still attempted when the embedding is empty; whether that insert succeeds is up to the database.

## Model

| member | source | states |
|---|---|---|
| TextChunker.IsPunctuation | BlobUploadDetector/src/main/java/com/yoshio3/Function.java:345-348 | Holds exactly for the eight sentence-ending marks: ASCII `.` `;` `!` `?` and full-width `。` `；` `！` `？`. |
| TextChunker.ScanBack | BlobUploadDetector/src/main/java/com/yoshio3/Function.java:329-337 | The backward scan stops at the largest index in (start, i] that holds one of `. 。 ; ； ! ！ ? ？`, or at `start` when there is none. |
| TextChunker.SplitPoint | BlobUploadDetector/src/main/java/com/yoshio3/Function.java:327-342 | The split index lies in [maxLength - 300, maxLength] and is positive, so every `charAt` stays in bounds and every chunk but the last is non-empty. |
| TextChunker.SplitPointIsLastPunctuation | BlobUploadDetector/src/main/java/com/yoshio3/Function.java:329-341 | For maxLength > 300 the scan never reaches 0, so the fallback is dead. The split is the last punctuation position in (maxLength - 300, maxLength], and it is maxLength - 300 exactly when that window holds none. |
| TextChunker.FindSplitIndex | BlobUploadDetector/src/main/java/com/yoshio3/Function.java:327-342 | The decrementing loop returns the split point specified above. |
| TextChunker.Chunks | BlobUploadDetector/src/main/java/com/yoshio3/Function.java:311-323 | The chunk list: the text itself when it fits, otherwise the text up to the split point followed by the chunks of the rest. What it guarantees is stated by ChunksConcat, ChunksLengths and ChunkBoundaries. |
| TextChunker.SplitText | BlobUploadDetector/src/main/java/com/yoshio3/Function.java:311-323 | The loop produces exactly the cut-until-it-fits chunk list `Chunks`, whose properties are the lemmas below. |
| TextChunker.ChunksConcat | BlobUploadDetector/src/main/java/com/yoshio3/Function.java:311-323 | Put back together in order, the chunks are the input text: nothing is lost, duplicated or reordered. |
| TextChunker.ChunksLengths | BlobUploadDetector/src/main/java/com/yoshio3/Function.java:315-321 | A text of at most maxLength characters (maxLength itself included) is one chunk equal to the text. A longer text gives at least two chunks. Every chunk but the last has between maxLength - 300 and maxLength characters. The last has at most maxLength and is empty only for the empty text. |
| TextChunker.ChunkBoundaries | BlobUploadDetector/src/main/java/com/yoshio3/Function.java:316-318 | Every chunk after the first starts with the punctuation mark the cut was made at, unless the chunk before it is exactly maxLength - 300 long (the cut made when the window held no mark). |
| TextChunker.ChunksHead | BlobUploadDetector/src/main/java/com/yoshio3/Function.java:317 | The first chunk of a non-empty text is non-empty and starts with the text's first character. |
| TextChunker.ReplaceNewlines | BlobUploadDetector/src/main/java/com/yoshio3/Function.java:207 | Every line feed becomes a space; every other character stays where it is. |
| TextChunker.CollapseWhitespace | BlobUploadDetector/src/main/java/com/yoshio3/Function.java:208 | Scanning left to right, every maximal run of two or more `\s` characters (space, tab, line feed, vertical tab, form feed, carriage return) becomes one space; a lone whitespace character is kept as it is. |
| TextChunker.NormalizePageText | BlobUploadDetector/src/main/java/com/yoshio3/Function.java:207-208 | The page text as chunked: line feeds replaced, then whitespace runs collapsed. Its properties are NormalizePageTextSpec. |
| TextChunker.NormalizePageTextSpec | BlobUploadDetector/src/main/java/com/yoshio3/Function.java:207-208 | The normalised page text holds no line feed and no two adjacent whitespace characters. It keeps the non-whitespace characters in order, is no longer than the raw text, and is a fixpoint of normalisation. |
| TextChunker.CollapseNoAdjacentWhitespace | BlobUploadDetector/src/main/java/com/yoshio3/Function.java:208 | After runs of two or more whitespace characters are replaced by one space, no two neighbours are both whitespace. |
| TextChunker.CollapseKeepsNonWhitespace | BlobUploadDetector/src/main/java/com/yoshio3/Function.java:208 | Collapsing keeps the non-whitespace characters, in order. |
| TextChunker.CollapseShortens | BlobUploadDetector/src/main/java/com/yoshio3/Function.java:208 | Collapsing never lengthens the text. |
| TextChunker.CollapseFixpoint | BlobUploadDetector/src/main/java/com/yoshio3/Function.java:208 | Collapsing a text with no adjacent whitespace changes nothing. |
| TextChunker.ExtractPDFtoTextByPage | BlobUploadDetector/src/main/java/com/yoshio3/Function.java:193-230 | The page loop returns the assembled list `ExtractedDocument`. A document that cannot be loaded gives the empty list. |
| TextChunker.PageText | BlobUploadDetector/src/main/java/com/yoshio3/Function.java:207-221 | One read page contributes its normalised text split into chunks when it is longer than 7500, otherwise one entry. Every entry is tagged with the page number. |
| TextChunker.ShortPageIsOneEntry | BlobUploadDetector/src/main/java/com/yoshio3/Function.java:218-221 | A page whose normalised text fits the bound contributes exactly one entry holding that text. |
| TextChunker.PageEntriesFacts | BlobUploadDetector/src/main/java/com/yoshio3/Function.java:211-224 | A page contributes entries only if its text was read. Each entry carries the page's number and at most 7500 characters. |
| TextChunker.ExtractedPagesOrdered | BlobUploadDetector/src/main/java/com/yoshio3/Function.java:200-225 | Along the assembled list, page numbers never decrease. Each entry names a page in 1..n whose text was extracted, and each fits the chunk bound. |
| TextChunker.ExtractedPagesPerPage | BlobUploadDetector/src/main/java/com/yoshio3/Function.java:200-225 | The entries tagged with page p are exactly that page's chunks in split order. A page whose extraction failed has none, and the other pages keep theirs. |
| TextChunker.PageTextRecovered | BlobUploadDetector/src/main/java/com/yoshio3/Function.java:200-225 | Joined, the texts of the entries tagged with page p give back the page's normalised text, or the empty text when the page could not be read. |
| StatusTracker.CosmosDBUtil.IsRegisteredDocument | BlobUploadDetector/src/main/java/com/yoshio3/CosmosDBUtil.java:45-68 | The result is true exactly when the query succeeds and some record has the file name. It is false on an error or a timeout. The store is only read. |
| StatusTracker.CosmosDBUtil.CreateDocument | BlobUploadDetector/src/main/java/com/yoshio3/CosmosDBUtil.java:70-92 | On success with a free id, the method adds exactly (id, fileName, status, pageNumber) and returns it. Otherwise it returns nothing and the store is unchanged. The write is logged. |
| StatusTracker.CosmosDBUtil.UpdateStatus | BlobUploadDetector/src/main/java/com/yoshio3/CosmosDBUtil.java:94-137 | The result is true exactly when the read finds the id and the replace succeeds. Then the record keeps its id, file name and page, takes the new status, and nothing else changes. On an unknown id or a failed read there is no write and no record is created. |
| StatusTracker.UpdateKeepsRecord | BlobUploadDetector/src/main/java/com/yoshio3/CosmosDBUtil.java:104-124 | An update never adds or removes a record and leaves the other records alone. When it lands, the record is (id, same fileName, new status, same pageNumber). |
| StatusTracker.UpdateIdempotent | BlobUploadDetector/src/main/java/com/yoshio3/CosmosDBUtil.java:107-124 | Writing the same status twice leaves the same store as writing it once. |
| StatusTracker.CreateAddsRecord | BlobUploadDetector/src/main/java/com/yoshio3/CosmosDBUtil.java:80-91 | A create that lands adds exactly the given record. One that does not land changes nothing. Afterwards the file is registered iff it was before or the create landed. |
| Model.Apply | BlobUploadDetector/src/main/java/com/yoshio3/CosmosDBUtil.java:82-133 | The store after one write: a create lands only when it succeeds on an id not yet present; a status update lands only when both its read and its replace succeed on an existing id, and then changes only that record's status. |
| Model.ReplayOnlyAddsAndRestatuses | BlobUploadDetector/src/main/java/com/yoshio3/CosmosDBUtil.java:70-137 | Across any log of creates and updates, no record disappears and no record's id, file name or page changes. A new record is one a create asked for, with its status possibly changed since. |
| Model.ReplayOnlyTouches | BlobUploadDetector/src/main/java/com/yoshio3/CosmosDBUtil.java:94-137 | A log whose writes all address one id leaves every other record, present or absent, as it was. |
| Model.ReplayWellKeyed | BlobUploadDetector/src/main/java/com/yoshio3/CosmosDBUtil.java:122-124 | Every record stays stored under its own id. |
| Model.ReplayKeepsRegistration | BlobUploadDetector/src/main/java/com/yoshio3/CosmosDBUtil.java:94-137 | Once a file is registered, no sequence of creates and status updates unregisters it, so the dedup gate stays closed for it. |
| Model.ReplayLifecycle | BlobUploadDetector/src/main/java/com/yoshio3/CosmosDBUtil.java:94-137 | Suppose a record is created on a free id and then receives only successful updates. It ends with the status of the last write and the id, file name and page it was created with, and every other record is unchanged. |
| Ingestion.FailedAttemptsFrom | BlobUploadDetector/src/main/java/com/yoshio3/Function.java:284-305 | The number of attempts that fail before the first answer is at most 3. Every counted attempt failed, and the attempt after them, if any, answered. |
| Ingestion.EmbeddingSpec | BlobUploadDetector/src/main/java/com/yoshio3/Function.java:283-306 | At most three attempts are made, all failures before the answer. There are three retries iff all three attempts fail. The embedding is empty iff all attempts fail or the answer's first item is missing or empty. |
| Ingestion.Function.InvokeTextEmbedding | BlobUploadDetector/src/main/java/com/yoshio3/Function.java:276-307 | The loop returns `EmbeddingOf(service)`. It issues exactly one RETRY_OAI_INVOCATION update for the chunk's id per failed attempt and no other write. |
| Ingestion.ChunkWritesLifecycle | BlobUploadDetector/src/main/java/com/yoshio3/Function.java:239-269 | A chunk's writes all address its one id. They run PAGE_SEPARATE_FINISHED, then k retries (k ≤ 3, right after the creation), then FINISH_OAI_INVOCATION, then FINISH_DB_INSERTION or FAILED_DB_INSERTION, then COMPLETED, and follow the lifecycle's transitions. FAILED_DB_INSERTION appears iff the insert failed. |
| Ingestion.Function.InsertDataToPostgreSQL | BlobUploadDetector/src/main/java/com/yoshio3/Function.java:233-270 | The calls issued request exactly those writes. The first call creates the record with the file name and page, and the rest are updates. The table gains the row (same UUID, embedding, text, file, page) iff insert and commit succeed. An interrupt escapes iff the final wait is interrupted. |
| Ingestion.ChunkEndsCompleted | BlobUploadDetector/src/main/java/com/yoshio3/Function.java:242-269 | When every store call of a chunk succeeds on a fresh id, its record ends COMPLETED with the chunk's file name and page, whether or not the insert failed. No other record is touched. |
| Ingestion.ProcessedCountSpec | BlobUploadDetector/src/main/java/com/yoshio3/Function.java:177-187 | The chunks processed are those up to and including the first one whose interrupt escapes, or all of them when none does. |
| Ingestion.Function.InsertChunks | BlobUploadDetector/src/main/java/com/yoshio3/Function.java:177-184 | The loop leaves the log, the store and the table as the chunk-by-chunk composition of the processed chunks' calls and rows, in list order. |
| Ingestion.Function.AnalyzePdf | BlobUploadDetector/src/main/java/com/yoshio3/Function.java:167-191 | For a file the lookup finds registered, there is no write and no row. Otherwise the processed chunks' calls and rows follow in order: none without a connection, and processing stops after an interrupted chunk. |
| Ingestion.DocumentEndsCompleted | BlobUploadDetector/src/main/java/com/yoshio3/Function.java:177-184 | Assume every store call succeeds and the UUIDs are distinct and fresh. Then each processed chunk ends as a COMPLETED record with the file name and its page, earlier records are untouched, no other record appears, and the file is registered afterwards. |
| Ingestion.Dispatch | BlobUploadDetector/src/main/java/com/yoshio3/Function.java:119-127 | The handling chosen by extension: "pdf" is analysed; doc/docx, xls/xlsx and ppt/pptx are converted as Word, Excel and PowerPoint; anything else is ignored. Its properties are DispatchSpec. |
| Ingestion.DispatchSpec | BlobUploadDetector/src/main/java/com/yoshio3/Function.java:119-127 | Only the exact extension "pdf" is analysed; "PDF" is ignored. The six Office extensions are converted, each by its family, and every other extension is ignored. |
| Ingestion.Function.Run | BlobUploadDetector/src/main/java/com/yoshio3/Function.java:104-128 | A "pdf" upload has the effect of analysing `base + "." + ext`. Any other extension issues no store write and adds no row. |
| Maintenance.SortedList | PDF-Summarizer/src/main/java/com/yoshio3/CosmosDBUtil.java:47 | The ordered list holds exactly the records of the set, each once, in ascending (fileName, pageNumber) order. |
| Maintenance.GetAllRegisteredDocuments | PDF-Summarizer/src/main/java/com/yoshio3/CosmosDBUtil.java:67-74 | The result of the COMPLETED query: the COMPLETED records in (fileName, pageNumber) order. Its properties are RegisteredDocumentsSpec. |
| Maintenance.GetAllFailedDocuments | PDF-Summarizer/src/main/java/com/yoshio3/CosmosDBUtil.java:77-84 | The result of the not-COMPLETED query, in the same order. Its properties are FailedDocumentsSpec. |
| Maintenance.RegisteredDocumentsSpec | PDF-Summarizer/src/main/java/com/yoshio3/CosmosDBUtil.java:67-74 | The registered list holds each COMPLETED record of the store exactly once and nothing else, ordered by file name, then page. |
| Maintenance.FailedDocumentsSpec | PDF-Summarizer/src/main/java/com/yoshio3/CosmosDBUtil.java:77-84 | The failed list holds each record that is not COMPLETED exactly once and nothing else, in the same order. |
| Maintenance.ListsPartitionStore | PDF-Summarizer/src/main/java/com/yoshio3/CosmosDBUtil.java:47-49 | Every record is in exactly one of the two lists, and their lengths add up to the number of records. |
| Maintenance.CosmosDBUtil.GetDocumentFileNames | PDF-Summarizer/src/main/java/com/yoshio3/CosmosDBUtil.java:87-107 | Each page overwrites the result, so the method returns the last page's names, or nothing when no page arrived. |
| Maintenance.LastPageFileNames | PDF-Summarizer/src/main/java/com/yoshio3/CosmosDBUtil.java:96-106 | A result is returned iff at least one page arrived. |
| Maintenance.FileNamesLostAcrossPages | PDF-Summarizer/src/main/java/com/yoshio3/CosmosDBUtil.java:96-98 | Suppose a grouped result spans two or more pages and its first page is not empty. Then a file name in the store is missing from what the method returns. |
| Maintenance.AllDocumentFileNames | PDF-Summarizer/src/main/java/com/yoshio3/CosmosDBUtil.java:87-107 | The accumulated names are present iff at least one page arrived. |
| Maintenance.AllDocumentFileNamesSpec | PDF-Summarizer/src/main/java/com/yoshio3/CosmosDBUtil.java:51 | When the store delivers its grouped names in pages that repeat no name and together hold its file names, the names of all pages, accumulated, list every file name of the store exactly once and nothing else. |
| Maintenance.FlattenPages | PDF-Summarizer/src/main/java/com/yoshio3/CosmosDBUtil.java:51 | Pages that repeat no name, within a page or across pages, join into a list holding each of their names exactly once. |
| Maintenance.CosmosDBUtil.CollectDocumentFileNames | PDF-Summarizer/src/main/java/com/yoshio3/CosmosDBUtil.java:87-107 | The corrected method, which appends each page's names instead of replacing the result, returns the names of all pages in order, or nothing when no page arrived. |
| Maintenance.CollectIds | PDF-Summarizer/src/main/java/com/yoshio3/CosmosDBUtil.java:124-128 | The ids appended for one query are exactly the ids of its rows. |
| Maintenance.SelectedCoversListedFiles | PDF-Summarizer/src/main/java/com/yoshio3/CosmosDBUtil.java:121-156 | When every id query succeeds, removing the selected ids leaves no record of a listed file and every record of another file unchanged. |
| Maintenance.CosmosDBUtil.DeleteDocuments | PDF-Summarizer/src/main/java/com/yoshio3/CosmosDBUtil.java:109-158 | A missing or empty list issues no query and no delete. Otherwise there is one query per name, and the collected ids are exactly the ids of records of a listed file whose query succeeded. No collected id means no change. Exactly the records whose delete succeeded are removed, so when all deletes succeed the listed files' records are gone and the rest are unchanged. |

## Left out

- Asynchronous bridging (executors, latches, the 60-second waits): every store call is one outcome. A timed-out call is taken to change nothing, so a write that lands after its wait has given up is not modelled.
- Interrupts:
  - The only interrupt modelled is the one on the wait of a chunk's final COMPLETED write. An interrupt there escapes `insertDataToPostgreSQL` and ends the chunk loop.
  - Interrupts of the other waits are not modelled. Those inside the try block of `insertDataToPostgreSQL` are caught there. Those in `invokeTextEmbedding` and `isRegisteredDocument`, and `retrySleep`'s re-interrupt, are also left out.
- PDF text extraction, and the conversion of Office files to PDF. These are foreign libraries. Page texts are an input. Conversion is taken to make no store change and add no row, because it only writes the converted blob.
- `retrySleep`: it only waits.
- The UUID generator: each chunk's UUID is an input.
- Configuration, logging and the sneaky-throw helpers. `DeleteFileNameItem` is a bean with no behaviour.
- PostgreSQL:
  - The embedding is an opaque sequence of reals, and the insert with its commit is one success-or-failure input.
  - A connection left in an aborted transaction after a failure, and a row from a failed commit that lands with a later commit, are not modelled.
  - The connection's opening is a flag, and its closing is not modelled.
- Errors of the two list queries: they are modelled over a store that answers.
- The order among records with equal (fileName, pageNumber): any order is allowed.
- Maintenance.SortedList: string order is character-code lexicographic, which is taken to be the store's ordering of file names.
- StatusTracker.CosmosDBUtil.CreateDocument: a create on an id already present is taken to fail (the store's conflict error). Fresh UUIDs make it unreachable.
- Ingestion.DocumentEndsCompleted: assumes the chunks' UUIDs are distinct and absent from the store, which random UUIDs give only with high probability.
- A Java `char` is taken to be one Dafny `char`. UTF-16 surrogate pairs are not modelled.

## Findings

| source | as written | input that shows it | evidently intended | confidence | as-written member | corrected member |
|---|---|---|---|---|---|---|
| PDF-Summarizer/src/main/java/com/yoshio3/CosmosDBUtil.java:96-98 | Every page of the grouped file-name query replaces the result, so only the last page's names are returned | A store whose grouped result comes back in two pages, the first holding "a.pdf" and the second "b.pdf": the method returns only "b.pdf" | The names of all pages, each file name of the store once | medium, not executed | Maintenance.FileNamesLostAcrossPages | Maintenance.AllDocumentFileNamesSpec |
