/** The file service: upload, download and delete over an in-memory
    catalog of file records and chunk records. */
module FileService {
  import opened Chunker
  import opened LoadBalancer
  import opened Catalog
  import opened Placement

  /** The message deleteFile answers on success. */
  const DeletedMessage: string := "File deleted successfully"

  class Store {
    /** The file collection, by id. */
    var files: map<FileId, FileRecord>
    /** The chunk collection, in insertion order. */
    var chunks: seq<ChunkRecord>
    /** The id the next chunk record created will get. */
    var nextChunkId: ChunkId

    /** Each file record sits under its own id and its file is replicated. */
    ghost predicate Valid()
      reads this
    {
      Replicated(files, chunks)
    }

    /** An id that no file record and no chunk record uses: what a new uuid gives. */
    ghost predicate FreshId(fid: FileId)
      reads this
    {
      fid !in files && ForFile(chunks, fid) == []
    }

    constructor ()
      ensures Valid()
      ensures files == map[] && chunks == [] && nextChunkId == 0
    {
      files := map[];
      chunks := [];
      nextChunkId := 0;
    }

    /** distributeChunkToNode: creates a chunk record (taking the next id) and
        saves it; `accepted` is the store's answer to the save. */
    method DistributeChunkToNode(chunkData: Bytes, fileId: FileId, sequence: nat, nodeId: NodeId, accepted: bool)
      returns (r: Result<ChunkId>)
      modifies this
      ensures nextChunkId == old(nextChunkId) + 1
      ensures files == old(files)
      ensures r == if accepted then Ok(old(nextChunkId)) else Err(StoreFailure)
      ensures chunks == old(chunks) + if accepted then [ChunkRecord(old(nextChunkId), fileId, sequence, nodeId, chunkData)] else []
    {
      var id := nextChunkId;
      nextChunkId := nextChunkId + 1;
      if accepted {
        chunks := chunks + [ChunkRecord(id, fileId, sequence, nodeId, chunkData)];
        r := Ok(id);
      } else {
        r := Err(StoreFailure);
      }
    }

    /** downloadFile: "File not found" when there is no file record;
        otherwise the record's name and type and the payloads of all chunk
        records of the file, in ascending sequence order. */
    function DownloadFile(fileId: FileId): (r: Result<Downloaded>)
      reads this
      ensures r.Err? <==> fileId !in files
      ensures r.Err? ==> r.error == NotFound
      ensures r.Ok? ==> r.value.filename == files[fileId].filename && r.value.mimeType == files[fileId].mimeType
      ensures r.Ok? ==> r.value.fileBuffer == Reassemble(chunks, fileId)
    {
      if fileId !in files then Err(NotFound)
      else
        var fileMetadata := files[fileId];
        Ok(Downloaded(fileMetadata.filename, fileMetadata.mimeType, Reassemble(chunks, fileId)))
    }

    /** One iteration of uploadFile's placement loop: the primary of chunk
        i on the node of one selector call, then its replica on the node of
        the next. */
    method SaveCopies(lb: NodeSelector, fileId: FileId, chunkData: Bytes, i: nat, rejected: set<nat>, ghost p: Plan)
      returns (primary: Result<ChunkId>, replica: Result<ChunkId>)
      requires i < |p.chunks| && fileId == p.fid && chunkData == p.chunks[i]
      requires lb.schedule == p.nodes && lb.calls == p.call0 + 2 * i && nextChunkId == p.id0 + 2 * i
      modifies this, lb
      ensures files == old(files)
      ensures lb.calls == old(lb.calls) + 2 && nextChunkId == old(nextChunkId) + 2
      ensures chunks == old(chunks)
        + (if 2 * i in rejected then [] else [p.Copy(i, 0)])
        + (if 2 * i + 1 in rejected then [] else [p.Copy(i, 1)])
      ensures primary == Outcome(2 * i, rejected, p.id0) && replica == Outcome(2 * i + 1, rejected, p.id0)
    {
      var node := lb.Next();
      primary := DistributeChunkToNode(chunkData, fileId, i, node, 2 * i !in rejected);
      assert ChunkRecord(p.id0 + 2 * i, p.fid, i, node, chunkData) == p.Copy(i, 0);
      var replicaNode := lb.Next();
      replica := DistributeChunkToNode(chunkData, fileId, i, replicaNode, 2 * i + 1 !in rejected);
      assert ChunkRecord(p.id0 + 2 * i + 1, p.fid, i, replicaNode, chunkData) == p.Copy(i, 1);
    }

    /** downloadFile as evidently intended: the same lookup and error, but
        one copy of each chunk (the first record per sequence after sorting). */
    function DownloadOneCopyEach(fileId: FileId): (r: Result<Downloaded>)
      reads this
      ensures r.Err? <==> fileId !in files
      ensures r.Err? ==> r.error == NotFound
      ensures r.Ok? ==> r.value.filename == files[fileId].filename && r.value.mimeType == files[fileId].mimeType
      ensures r.Ok? ==> r.value.fileBuffer == ReassembleFirstCopies(chunks, fileId)
    {
      if fileId !in files then Err(NotFound)
      else
        var fileMetadata := files[fileId];
        Ok(Downloaded(fileMetadata.filename, fileMetadata.mimeType, ReassembleFirstCopies(chunks, fileId)))
    }

    /** The placement loop of uploadFile: for each chunk in index order, a
        primary save on the node of one selector call, then a replica save on
        the node of the next one. Save number 2i + r is rejected by the store
        exactly when it is in `rejected`. The answers are collected in issue
        order. */
    method PlaceChunks(lb: NodeSelector, fileId: FileId, fileChunks: seq<Bytes>, rejected: set<nat>)
      returns (chunkPromises: seq<Result<ChunkId>>)
      modifies this, lb
      ensures files == old(files)
      ensures lb.calls == old(lb.calls) + 2 * |fileChunks|
      ensures nextChunkId == old(nextChunkId) + 2 * |fileChunks|
      ensures chunks == old(chunks) + Plan(fileId, fileChunks, lb.schedule, old(lb.calls), old(nextChunkId)).Kept(|fileChunks|, rejected)
      ensures chunkPromises == Outcomes(2 * |fileChunks|, rejected, old(nextChunkId))
    {
      ghost var p := Plan(fileId, fileChunks, lb.schedule, lb.calls, nextChunkId);
      chunkPromises := [];
      var i := 0;
      while i < |fileChunks|
        invariant 0 <= i <= |fileChunks|
        invariant lb.calls == p.call0 + 2 * i
        invariant nextChunkId == p.id0 + 2 * i
        invariant files == old(files)
        invariant chunks == old(chunks) + p.Kept(i, rejected)
        invariant chunkPromises == Outcomes(2 * i, rejected, p.id0)
      {
        var primary, replica := SaveCopies(lb, fileId, fileChunks[i], i, rejected, p);
        KeptExtend(p, i, rejected, old(chunks));
        OutcomesStep(i, rejected, p.id0);
        chunkPromises := chunkPromises + [primary, replica];
        i := i + 1;
      }
    }

    /** uploadFile: splits the buffer into 1 MiB chunks, saves a primary and a
        replica record per chunk on two successive selector nodes, and once
        every save has succeeded saves the file record with the 2N ids in
        issue order. `rejected` holds the numbers of the chunk saves (0 to
        2N - 1, in issue order) the store rejects and `fileSaveRejected` its
        answer to the file record's save. */
    method UploadFile(lb: NodeSelector, fileId: FileId, filename: string, mimeType: string, fileBuffer: Bytes,
                      rejected: set<nat>, fileSaveRejected: bool)
      returns (r: Result<FileRecord>)
      requires Valid() && FreshId(fileId)
      modifies this, lb
      ensures Valid()
      ensures var p := Plan(fileId, Chunks(fileBuffer, ChunkSize), lb.schedule, old(lb.calls), old(nextChunkId));
        && lb.calls == old(lb.calls) + 2 * |p.chunks|
        && nextChunkId == old(nextChunkId) + 2 * |p.chunks|
        && chunks == old(chunks) + p.Kept(|p.chunks|, rejected)
        && (r.Ok? <==> AllAccepted(2 * |p.chunks|, rejected) && !fileSaveRejected)
        && (r.Ok? ==> r.value == FileRecord(fileId, filename, |fileBuffer|, mimeType, Handles(p.Records(|p.chunks|))))
        && (r.Ok? ==> files == old(files)[fileId := r.value])
        && (r.Err? ==> r.error == StoreFailure && files == old(files))
      ensures r.Ok? ==> TwoCopiesEach(chunks, fileId, |Chunks(fileBuffer, ChunkSize)|)
      ensures r.Ok? ==> DownloadFile(fileId) == Ok(Downloaded(filename, mimeType, Flatten(Doubled(Chunks(fileBuffer, ChunkSize)))))
      ensures r.Ok? ==> DownloadOneCopyEach(fileId) == Ok(Downloaded(filename, mimeType, fileBuffer))
      ensures forall g :: g != fileId ==> DownloadFile(g) == old(DownloadFile(g))
      ensures forall g :: g != fileId ==> DownloadOneCopyEach(g) == old(DownloadOneCopyEach(g))
    {
      var fileChunks := SplitFileIntoChunks(fileBuffer, ChunkSize);
      var fileMetadata := FileRecord(fileId, filename, |fileBuffer|, mimeType, []);
      ghost var p := Plan(fileId, fileChunks, lb.schedule, lb.calls, nextChunkId);
      var chunkPromises := PlaceChunks(lb, fileId, fileChunks, rejected);
      UploadKeepsReplicated(old(files), old(chunks), p, rejected);
      forall g | g != fileId
        ensures ForFile(chunks, g) == ForFile(old(chunks), g)
      {
        OtherFileUnaffected(old(chunks), p, rejected, g);
      }
      AllOutcomes(p, rejected);
      var all := All(chunkPromises);
      if all.Err? {
        r := Err(StoreFailure);
        return;
      }
      fileMetadata := fileMetadata.(chunks := all.value);
      if fileSaveRejected {
        r := Err(StoreFailure);
        return;
      }
      files := files[fileId := fileMetadata];
      r := Ok(fileMetadata);

      KeptAll(p, |fileChunks|, rejected);
      ReassemblePlanned(old(chunks), p);
      ReassembleFirstCopiesPlanned(old(chunks), p);
      FlattenChunks(fileBuffer, ChunkSize);
      TwoCopiesAfterUpload(old(chunks), p);
      assert |fileMetadata.chunks| / 2 == |fileChunks|;
    }

    /** deleteFile: "File not found" when there is no file record; otherwise
        removes the file record and then every chunk record of the file. */
    method DeleteFile(fileId: FileId) returns (r: Result<string>)
      requires Valid()
      modifies this
      ensures Valid()
      ensures nextChunkId == old(nextChunkId)
      ensures r.Err? <==> fileId !in old(files)
      ensures r.Err? ==> r.error == NotFound && files == old(files) && chunks == old(chunks)
      ensures r.Ok? ==> r.value == DeletedMessage
      ensures r.Ok? ==> files == old(files) - {fileId} && chunks == WithoutFile(old(chunks), fileId)
      ensures r.Ok? ==> DownloadFile(fileId) == Err(NotFound) && FreshId(fileId)
      ensures forall g :: g != fileId ==> DownloadFile(g) == old(DownloadFile(g))
    {
      if fileId !in files {
        r := Err(NotFound);
        return;
      }
      files := files - {fileId};
      chunks := WithoutFile(chunks, fileId);
      r := Ok(DeletedMessage);
      ForFileWithout(old(chunks), fileId, fileId);
      DeleteKeepsReplicated(old(files), old(chunks), fileId);
      forall g | g != fileId ensures Reassemble(chunks, g) == Reassemble(old(chunks), g) {
        ReassembleWithout(old(chunks), fileId, g);
      }
    }
  }

  /** The catalog invariant: each file record sits under its own id, and its
      file has exactly two chunk records per chunk index, where the number
      of chunks is half the record's id list. */
  ghost predicate Replicated(files: map<FileId, FileRecord>, chunks: seq<ChunkRecord>)
  {
    forall f :: f in files ==> files[f].id == f && TwoCopiesEach(chunks, f, |files[f].chunks| / 2)
  }

  /** The records an upload keeps, whether or not it succeeds, leave the
      invariant of every file already catalogued intact. */
  lemma UploadKeepsReplicated(files: map<FileId, FileRecord>, before: seq<ChunkRecord>, p: Plan, rejected: set<nat>)
    requires p.fid !in files && Replicated(files, before)
    ensures Replicated(files, before + p.Kept(|p.chunks|, rejected))
  {
    forall f | f in files
      ensures TwoCopiesEach(before + p.Kept(|p.chunks|, rejected), f, |files[f].chunks| / 2)
    {
      OtherFileUnaffected(before, p, rejected, f);
    }
  }

  /** Deleting a file and its chunk records keeps the invariant of the rest. */
  lemma DeleteKeepsReplicated(files: map<FileId, FileRecord>, chunks: seq<ChunkRecord>, fid: FileId)
    requires Replicated(files, chunks)
    ensures Replicated(files - {fid}, WithoutFile(chunks, fid))
  {
    forall f | f in files - {fid}
      ensures TwoCopiesEach(WithoutFile(chunks, fid), f, |files[f].chunks| / 2)
    {
      forall s: nat ensures Copies(WithoutFile(chunks, fid), f, s) == Copies(chunks, f, s) {
        CopiesWithout(chunks, fid, f, s);
      }
    }
  }

  /** For a non-empty payload, what downloadFile returns after a successful
      upload is not the payload: it is twice as long. */
  lemma DownloadIsNotThePayload(before: seq<ChunkRecord>, fid: FileId, fileBuffer: Bytes, nodes: nat -> NodeId, call0: nat, id0: ChunkId)
    requires ForFile(before, fid) == []
    requires |fileBuffer| > 0
    ensures var p := Plan(fid, Chunks(fileBuffer, ChunkSize), nodes, call0, id0);
      |Reassemble(before + p.Records(|p.chunks|), fid)| == 2 * |fileBuffer|
      && Reassemble(before + p.Records(|p.chunks|), fid) != fileBuffer
  {
    var p := Plan(fid, Chunks(fileBuffer, ChunkSize), nodes, call0, id0);
    ReassemblePlanned(before, p);
    DoubledLength(p.chunks);
    FlattenChunks(fileBuffer, ChunkSize);
  }

  /** Reading one copy per sequence instead gives the payload back exactly. */
  lemma UploadFirstCopiesRoundTrip(before: seq<ChunkRecord>, fid: FileId, fileBuffer: Bytes, nodes: nat -> NodeId, call0: nat, id0: ChunkId)
    requires ForFile(before, fid) == []
    ensures var p := Plan(fid, Chunks(fileBuffer, ChunkSize), nodes, call0, id0);
      ReassembleFirstCopies(before + p.Records(|p.chunks|), fid) == fileBuffer
  {
    var p := Plan(fid, Chunks(fileBuffer, ChunkSize), nodes, call0, id0);
    ReassembleFirstCopiesPlanned(before, p);
    FlattenChunks(fileBuffer, ChunkSize);
  }
}
