# Chunked file store: a Dafny model of the file service

This project models the file service of a small distributed file store. The
service cuts an uploaded buffer into 1 MiB chunks. For each chunk it asks a
load balancer for a node twice and saves two chunk records, a primary and a
replica, each tagged with the file id, the chunk's sequence number and the
node. When every chunk save succeeds (`Promise.all`), it saves a file record
listing the chunk ids in issue order. When a chunk save fails, `Promise.all`
rejects and no file record is saved. A download looks the file record
up, fetches every chunk record of the file sorted by sequence and
concatenates their payloads. A delete removes the file record and then every
chunk record of the file.

Modules, in dependency order:

- `Chunker`: bytes, the reference chunking `Chunks(b, c)`, and
  `SplitFileIntoChunks`, the imperative loop proved equal to it.
- `LoadBalancer`: `NodeSelector`, the load balancer as the service sees it.
  It is an object whose `Next` call answers a node and advances its state.
  Its policy is an arbitrary `schedule`, so no proof depends on round-robin
  order or on the two copies landing on distinct nodes.
- `Catalog`: file and chunk records, and the queries the service runs on the
  chunk collection. These are `Chunk.find({ fileId })` (`ForFile`),
  `.sort("sequence")` (`SortBySequence`, a stable insertion sort) and
  `Chunk.deleteMany({ fileId })` (`WithoutFile`). It also holds reassembly
  (`Reassemble`).
- `Placement`: what one upload writes. `Plan` fixes the file id, the chunks,
  the selector's answers and the first record id. `Records(n)` lists the
  planned records in issue order, and `Kept(n, rejected)` lists those the
  store accepted. `All` models `Promise.all`.
- `FileService`: `Store`, the in-memory catalog (files by id, chunk records
  in insertion order, the next record id), with `DistributeChunkToNode`,
  `UploadFile`, `DownloadFile` and `DeleteFile`. Its invariant `Valid` is
  `Replicated`: every file record sits under its own id, and its file has
  exactly two chunk records per chunk index. `UploadFile` and `DeleteFile`
  keep it.

How the environment enters the model:

- The uuid of a new file is the `fileId` parameter of `UploadFile`. Its
  freshness is the precondition `FreshId` (no file record or chunk record
  uses it).
- A store answer is a parameter. `rejected` holds the numbers of the chunk
  saves (0 to 2N - 1, in issue order) that the store refuses, and
  `fileSaveRejected` is its answer to the file record's save.
- A chunk record's `_id` comes from the counter `nextChunkId`. Every save
  attempt takes one, as a Mongoose document gets its `_id` when it is built.

## Model

| member | source | states |
|---|---|---|
| Chunker.SplitFileIntoChunks | backend/services/fileService.js:8-14 | the loop that steps `i` by the chunk size and pushes the clamped slice `[i, i + chunkSize)` returns exactly the reference chunking `Chunks(fileBuffer, chunkSize)` |
| Chunker.FlattenChunks | backend/services/fileService.js:8-14 | concatenating the chunks in order gives the buffer back exactly |
| Chunker.ChunkBounds | backend/services/fileService.js:10-11 | with n chunks of size c, (n - 1)·c < size <= n·c; there are no chunks exactly when the buffer is empty |
| Chunker.ChunkCount | backend/services/fileService.js:31-32 | at the 1 MiB chunk size, the number of chunks is the ceiling of size / 1048576 |
| Chunker.ChunkAt | backend/services/fileService.js:10-11 | chunk k starts inside the buffer at k·c and is the slice `[k·c, min((k + 1)·c, size))` |
| Chunker.ChunkLengths | backend/services/fileService.js:10-11 | every chunk but the last holds exactly c bytes; the last holds between 1 and c bytes |
| Chunker.TwoAndAHalfMiB | backend/services/fileService.js:31-32 | a 2.5 MiB buffer gives three chunks of 1 MiB, 1 MiB and 0.5 MiB |
| LoadBalancer.NodeSelector.Next | backend/services/fileService.js:49 | getNextNode answers the policy's node for the current call number and advances the call count by one |
| FileService.Store.DistributeChunkToNode | backend/services/fileService.js:17-26 | builds a record with the next id and the given data, sequence, file id and node; appends it and returns its id when the store accepts the save; otherwise returns a store failure and adds nothing; the id counter advances either way; files are unchanged |
| FileService.Store.SaveCopies | backend/services/fileService.js:46-62 | one loop iteration: two selector calls and two saves; the primary of chunk i goes to the first node and the replica to the second; each copy is appended if accepted; the two answers are those of saves 2i and 2i + 1 |
| FileService.Store.PlaceChunks | backend/services/fileService.js:43-63 | after the loop the selector has advanced 2N times and 2N ids were taken; the chunk collection gained exactly the accepted planned records in issue order; the collected answers are those of saves 0 to 2N - 1 in order; files are unchanged |
| FileService.Store.UploadFile | backend/services/fileService.js:29-72 | the upload succeeds exactly when every chunk save and the file save are accepted; the file record gets the id, name, buffer length, type and the 2N record ids in issue order; on failure no file record is saved but the accepted chunk records stay; on success the file has two records per chunk index, downloadFile returns each chunk twice, and the one-copy reading returns the buffer; either way the download of every other file is unchanged and the replication invariant is kept |
| FileService.Store.DownloadFile | backend/services/fileService.js:75-101 | "File not found" exactly when there is no file record; otherwise the record's name and type and the concatenated payloads of ALL the file's chunk records in ascending sequence |
| FileService.Store.DeleteFile | backend/services/fileService.js:104-114 | "File not found" with nothing changed exactly when there is no file record; otherwise it removes that record and every chunk record of the file, returns the success message, and leaves the id fresh; the download of every other file is unchanged and the replication invariant is kept |
| Placement.Plan.Records | backend/services/fileService.js:45-62 | the planned records of the first n chunks in issue order; its contract is their count, 2n. Placement.RecordsAt, RecordIds, RecordsCarryTheirChunk, RecordsSorted and RecordsCopies carry the content |
| Placement.Plan.Kept | backend/services/fileService.js:45-62 | the records of the first n chunks that the store accepted; its contract is only the bound 2n. Placement.KeptIsSurviving states which records they are |
| Placement.KeptFileIds | backend/services/fileService.js:53-61 | every record an upload keeps carries the new file id |
| Placement.OtherFileUnaffected | backend/services/fileService.js:45-63 | whatever an upload keeps, the query and the per-sequence copy counts of every other file are as before |
| Placement.Outcomes | backend/services/fileService.js:53-61 | the 2N answers in issue order: answer k is the id id0 + k when save k is accepted and a store failure otherwise |
| Placement.Handles | backend/services/fileService.js:65-68 | the ids of the records in order, which become the file record's `chunks` list |
| FileService.UploadKeepsReplicated | backend/services/fileService.js:29-72 | the records an upload keeps, whether or not it succeeds, preserve the replication invariant of every file already catalogued |
| FileService.DeleteKeepsReplicated | backend/services/fileService.js:104-113 | removing a file record and its chunk records preserves the replication invariant of the other files |
| Placement.All | backend/services/fileService.js:65 | Promise.all is a success exactly when every answer is; then its values are the answers' values in input order; otherwise its error is one of the answers' errors |
| Placement.AllOutcomes | backend/services/fileService.js:65-68 | the upload's answers combine to a success exactly when no save was rejected, and then to the planned record ids in issue order |
| Placement.RecordIds | backend/services/fileService.js:53-61 | save number k of an upload creates the record with id id0 + k |
| Placement.RecordsAt | backend/services/fileService.js:45-62 | save 2i is the primary of chunk i on the node of selector call 2i; save 2i + 1 is its replica on the node of call 2i + 1 |
| Placement.RecordsCarryTheirChunk | backend/services/fileService.js:53-61 | every record of an upload has the new file id, a sequence below the chunk count and the payload of the chunk with that sequence |
| Placement.RecordsSorted | backend/services/fileService.js:45-62 | the records of an upload are issued in ascending sequence order |
| Placement.RecordsCopies | backend/services/fileService.js:45-62 | an upload writes exactly two records for each chunk index below N and none for any other index |
| Placement.KeptIsSurviving | backend/services/fileService.js:24 | the records kept are the planned records filtered by whether the store accepted their save number |
| Placement.KeptAll | backend/services/fileService.js:24 | when every save is accepted, every planned record is kept |
| Placement.CopiesAfterUpload | backend/services/fileService.js:45-62 | appended to a catalog that has no record of the new id, an upload leaves two records with sequence s when s < N and none otherwise |
| Placement.TwoCopiesAfterUpload | backend/services/fileService.js:45-62 | the same for every sequence at once: the replication invariant of the new file |
| Placement.ReadBackPlanned | backend/services/fileService.js:84 | querying the new id and sorting by sequence returns the upload's records exactly, in issue order |
| Placement.ReassemblePlanned | backend/services/fileService.js:84-87 | reassembling after an upload gives c0 c0 c1 c1 …: every chunk twice |
| Placement.ReassembleFirstCopiesPlanned | backend/services/fileService.js:84-87 | taking one record per sequence instead gives every chunk once, in order |
| Catalog.ForFileMembers | backend/services/fileService.js:84 | the query by file id returns exactly the records of that file |
| Catalog.WithoutFileMembers | backend/services/fileService.js:111 | the deletion keeps exactly the records of the other files |
| Catalog.ForFileWithout | backend/services/fileService.js:111 | after deleting a file's records, querying that file gives nothing and querying any other file gives what it gave before, in the same order |
| Catalog.ReassembleWithout | backend/services/fileService.js:104-113 | after deleting a file's records, that file reassembles to nothing and every other file reassembles as before |
| Catalog.SortIsSorted | backend/services/fileService.js:84 | the sort returns records in ascending sequence order |
| Catalog.SortPermutes | backend/services/fileService.js:84 | the sort returns a permutation of its input |
| Catalog.SortSorted | backend/services/fileService.js:84 | sorting records already in sequence order leaves them as they are |
| Chunker.Flatten | backend/services/fileService.js:87 | `Buffer.concat` as a function: the result starts with the first piece, and a single piece concatenates to itself; Chunker.FlattenAppend carries the law for joined lists |
| Chunker.FlattenAppend | backend/services/fileService.js:87 | concatenating two lists of pieces joined is the first list's concatenation followed by the second's |
| Catalog.ForFile | backend/services/fileService.js:84 | `Chunk.find({ fileId })`; its contract is only the bound: no more records than stored. Catalog.ForFileMembers carries the membership law and Catalog.ForFileAppend its behaviour on joined collections |
| Catalog.ForFileAppend | backend/services/fileService.js:84 | querying a joined collection gives the query of the first part followed by the query of the second |
| Catalog.ForFileNone | backend/services/fileService.js:84 | querying a file none of whose records are stored gives nothing |
| Catalog.WithoutFile | backend/services/fileService.js:111 | `Chunk.deleteMany({ fileId })`; its contract is only the bound: no more records than before. Catalog.WithoutFileMembers carries the membership law |
| Catalog.CopiesWithout | backend/services/fileService.js:111 | deleting a file's records leaves every other file's count of records per sequence unchanged |
| Catalog.Insert | backend/services/fileService.js:84 | one step of the sort adds exactly one record; Catalog.InsertSorted and Catalog.InsertPermutes carry its order and content laws |
| Catalog.SortBySequence | backend/services/fileService.js:84 | `.sort("sequence")`; its contract is only that the length is kept. Catalog.SortIsSorted and Catalog.SortPermutes carry the laws: ascending order and a permutation |
| Catalog.Datas | backend/services/fileService.js:87 | `chunks.map((chunk) => chunk.data)`: one payload per record, the k-th being the k-th record's data |
| Catalog.Reassemble | backend/services/fileService.js:84-87 | the bytes downloadFile returns: a file with no chunk records reassembles to nothing; Placement.ReassemblePlanned and Catalog.ReassembleWithout carry its behaviour after an upload and after a delete |
| Catalog.FirstPerSequenceSorted | backend/services/fileService.js:84-87 | on sorted records, the one-copy reading keeps records of the input only, with strictly ascending sequences, and covers exactly the sequence numbers of the input: one record per sequence value |
| Catalog.DoubledLength | backend/services/fileService.js:87 | the concatenation of every chunk twice is twice as long as the buffer's chunks concatenated once |
| FileService.Store.DownloadOneCopyEach | backend/services/fileService.js:75-101 | downloadFile as evidently intended: the same error for a missing file record, the same name and type, and the payload of one record per sequence |
| FileService.DownloadIsNotThePayload | backend/services/fileService.js:84-87 | after an upload of a non-empty buffer, what downloadFile returns is twice as long as the buffer and so differs from it |
| FileService.UploadFirstCopiesRoundTrip | backend/services/fileService.js:84-87 | reading back one record per sequence after an upload returns the uploaded buffer exactly |

## Left out

- Persistence: the two Mongoose collections become the `files` map and the `chunks` sequence of `Store`. Queries, sorting and deletion are modelled on those values. `populate("chunks")` (line 77) is left out, because its result is never used.
- The `File` and `Chunk` schemas are not part of this model. Their fields are taken from how the service uses them.
- The load balancer's own policy (`loadBalancer.js`) is not part of this model. The selector answers an arbitrary schedule. A `getNextNode` that answers no node, which would make `node.id` throw, is not modelled.
- The uuid generator is left out. The file id is a parameter with a freshness precondition.
- Concurrency: the 2N saves run concurrently in the source. `Promise.all` (line 65) rejects at the first failed save and does not wait for the others. The model issues the saves in order. On failure, `UploadFile`'s chunk collection is the state reached once every issued save has finished: it holds every accepted record, including those whose saves were still in flight when the source gave up. On success the two readings agree. The model does not capture another request interleaving with an upload. It also does not capture the order in which concurrent saves land in the collection: the chunk collection gets the records in issue order.
- Mongo's order among records with equal `sequence` is not specified by the query. The model uses a stable sort, which keeps the stored order among ties.
- Store failures in `deleteFile` (`findByIdAndDelete` or `deleteMany` failing) and in the lookups of `downloadFile` are not modelled: those calls always answer.
- Logging (`console.log`, lines 50 and 57) and the commented-out local write in `downloadFile` (lines 89-94) are left out.
- Buffers are byte sequences. `fileData` is taken apart into its three fields as parameters.
- Chunker.SplitFileIntoChunks: takes the chunk size as a `nat` and requires it to be positive. For a size of 0 or less, the loop at line 10 never ends on a non-empty buffer. uploadFile always passes 1048576 (line 31). Chunker.Chunks, FlattenChunks, ChunkBounds, ChunkAt and ChunkLengths carry the same precondition.
- Chunker.ChunkCount: states the ceiling division only at the 1 MiB size that uploadFile uses. For every other chunk size, Chunker.ChunkBounds states the same count as (n - 1)·c < size <= n·c.

## Findings

| source | as written | input that shows it | evidently intended | confidence | as-written member | corrected member |
|---|---|---|---|---|---|---|
| backend/services/fileService.js:84-87 | the download fetches every chunk record of the file, primaries and replicas, and concatenates all their payloads in sequence order | any non-empty upload, e.g. a 1-byte buffer `[7]`: it stores two records with sequence 0, and the download returns `[7, 7]` | the download returns the uploaded buffer, reading one copy of each chunk | not executed | FileService.DownloadIsNotThePayload | FileService.UploadFirstCopiesRoundTrip |

`FileService.Store.DownloadFile` models the code as written.
`FileService.Store.DownloadOneCopyEach` is the corrected download. It uses
`Catalog.ReassembleFirstCopies`, which reads the first record of each
sequence after the sort. `UploadFile`'s contract states both: the download as
written returns every chunk twice, and the corrected download returns the
uploaded buffer.
