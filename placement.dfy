/** What one uploadFile call writes: for each chunk a primary and a replica
    record, on the nodes of two successive selector calls, collected in
    index order the way `Promise.all` collects its results. */
module Placement {
  import opened Chunker
  import opened LoadBalancer
  import opened Catalog

  /** One upload: the new file id, its chunks, the selector's answers, the
      selector's call count and the next free record id when it starts. */
  datatype Plan = Plan(fid: FileId, chunks: seq<Bytes>, nodes: nat -> NodeId, call0: nat, id0: ChunkId)
  {
    /** Copy r of chunk i (0: primary, 1: replica). It is save number
        2i + r of the upload, so it takes the node of selector call
        call0 + 2i + r and the record id id0 + 2i + r. */
    function Copy(i: nat, r: nat): ChunkRecord
      requires i < |chunks| && r < 2
    {
      ChunkRecord(id0 + 2 * i + r, fid, i, nodes(call0 + 2 * i + r), chunks[i])
    }

    /** The records of the first n chunks, in the order the saves are issued:
        primary 0, replica 0, primary 1, replica 1, ... */
    function Records(n: nat): (p: seq<ChunkRecord>)
      requires n <= |chunks|
      ensures |p| == 2 * n
    {
      if n == 0 then [] else Records(n - 1) + [Copy(n - 1, 0), Copy(n - 1, 1)]
    }

    /** The records of the first n chunks that the store keeps: each copy
        whose save number is not in `rejected`, in issue order. */
    function Kept(n: nat, rejected: set<nat>): (ks: seq<ChunkRecord>)
      requires n <= |chunks|
      ensures |ks| <= 2 * n
    {
      if n == 0 then []
      else
        Kept(n - 1, rejected)
        + (if 2 * (n - 1) in rejected then [] else [Copy(n - 1, 0)])
        + (if 2 * (n - 1) + 1 in rejected then [] else [Copy(n - 1, 1)])
    }
  }

  /** The ids of the records, in order. */
  function Handles(rs: seq<ChunkRecord>): (hs: seq<ChunkId>)
    ensures |hs| == |rs| && forall k :: 0 <= k < |rs| ==> hs[k] == rs[k].id
  {
    seq(|rs|, k requires 0 <= k < |rs| => rs[k].id)
  }

  /** No save among the first `n` is rejected by the store. */
  ghost predicate AllAccepted(n: nat, rejected: set<nat>)
  {
    forall k :: 0 <= k < n ==> k !in rejected
  }

  /** The records whose save the store accepted; `from` is the save number of rs[0]. */
  function Surviving(rs: seq<ChunkRecord>, rejected: set<nat>, from: nat): (r: seq<ChunkRecord>)
    ensures |r| <= |rs|
  {
    if rs == [] then []
    else (if from in rejected then [] else [rs[0]]) + Surviving(rs[1..], rejected, from + 1)
  }

  /** `Promise.all`: every value in input order when all succeed, otherwise
      the error of one that failed. */
  function All(results: seq<Result<ChunkId>>): (r: Result<seq<ChunkId>>)
    ensures r.Ok? <==> forall k :: 0 <= k < |results| ==> results[k].Ok?
    ensures r.Ok? ==> |r.value| == |results| && forall k :: 0 <= k < |results| ==> r.value[k] == results[k].value
    ensures r.Err? ==> exists k :: 0 <= k < |results| && results[k] == Err(r.error)
  {
    if results == [] then Ok([])
    else if results[0].Err? then Err(results[0].error)
    else
      match All(results[1..])
      case Ok(rest) => Ok([results[0].value] + rest)
      case Err(e) => Err(e)
  }

  lemma {:induction false} SurvivingAppend(a: seq<ChunkRecord>, b: seq<ChunkRecord>, rejected: set<nat>, from: nat)
    ensures Surviving(a + b, rejected, from) == Surviving(a, rejected, from) + Surviving(b, rejected, from + |a|)
  {
    if a == [] {
      assert a + b == b;
    } else {
      var head := if from in rejected then [] else [a[0]];
      assert (a + b)[1..] == a[1..] + b;
      SurvivingAppend(a[1..], b, rejected, from + 1);
      assert Surviving(a + b, rejected, from)
          == head + (Surviving(a[1..], rejected, from + 1) + Surviving(b, rejected, from + |a|));
      assert Surviving(a, rejected, from) == head + Surviving(a[1..], rejected, from + 1);
    }
  }

  /** The surviving records of one more chunk: those of the previous chunks,
      then the primary and the replica of this one, each if the store
      accepted its save. */
  lemma SurvivingStep(p: Plan, i: nat, rejected: set<nat>)
    requires i < |p.chunks|
    ensures Surviving(p.Records(i + 1), rejected, 0)
         == Surviving(p.Records(i), rejected, 0)
            + (if 2 * i in rejected then [] else [p.Copy(i, 0)])
            + (if 2 * i + 1 in rejected then [] else [p.Copy(i, 1)])
  {
    var before := p.Records(i);
    assert p.Records(i + 1) == before + [p.Copy(i, 0), p.Copy(i, 1)];
    SurvivingAppend(before, [p.Copy(i, 0), p.Copy(i, 1)], rejected, 0);
    assert [p.Copy(i, 0), p.Copy(i, 1)][1..] == [p.Copy(i, 1)];
  }

  /** The records kept are exactly the planned records filtered by their
      save number. */
  lemma {:induction false} KeptIsSurviving(p: Plan, n: nat, rejected: set<nat>)
    requires n <= |p.chunks|
    ensures p.Kept(n, rejected) == Surviving(p.Records(n), rejected, 0)
  {
    if n > 0 {
      KeptIsSurviving(p, n - 1, rejected);
      SurvivingStep(p, n - 1, rejected);
    }
  }

  /** Keeping one more chunk's records appends the copies of that chunk the
      store accepted. */
  lemma KeptExtend(p: Plan, i: nat, rejected: set<nat>, base: seq<ChunkRecord>)
    requires i < |p.chunks|
    ensures base + p.Kept(i + 1, rejected)
         == base + p.Kept(i, rejected)
            + (if 2 * i in rejected then [] else [p.Copy(i, 0)])
            + (if 2 * i + 1 in rejected then [] else [p.Copy(i, 1)])
  {
    var a := if 2 * i in rejected then [] else [p.Copy(i, 0)];
    var b := if 2 * i + 1 in rejected then [] else [p.Copy(i, 1)];
    assert p.Kept(i + 1, rejected) == p.Kept(i, rejected) + a + b;
    assert base + (p.Kept(i, rejected) + a + b) == base + p.Kept(i, rejected) + a + b;
  }

  /** When the store accepts every save, every planned record is kept. */
  lemma {:induction false} KeptAll(p: Plan, n: nat, rejected: set<nat>)
    requires n <= |p.chunks| && AllAccepted(2 * n, rejected)
    ensures p.Kept(n, rejected) == p.Records(n)
  {
    if n > 0 {
      KeptAll(p, n - 1, rejected);
    }
  }

  /** Every record an upload keeps carries the new file id. */
  lemma {:induction false} KeptFileIds(p: Plan, n: nat, rejected: set<nat>)
    requires n <= |p.chunks|
    ensures forall k :: 0 <= k < |p.Kept(n, rejected)| ==> p.Kept(n, rejected)[k].fileId == p.fid
  {
    if n > 0 {
      KeptFileIds(p, n - 1, rejected);
    }
  }

  /** What an upload keeps, accepted saves or not, is invisible to every
      other file: its query and its copy counts are as before. */
  lemma OtherFileUnaffected(before: seq<ChunkRecord>, p: Plan, rejected: set<nat>, g: FileId)
    requires g != p.fid
    ensures ForFile(before + p.Kept(|p.chunks|, rejected), g) == ForFile(before, g)
    ensures forall s: nat :: Copies(before + p.Kept(|p.chunks|, rejected), g, s) == Copies(before, g, s)
  {
    var ks := p.Kept(|p.chunks|, rejected);
    KeptFileIds(p, |p.chunks|, rejected);
    ForFileAppend(before, ks, g);
    ForFileNone(ks, g);
    forall s: nat ensures Copies(before + ks, g, s) == Copies(before, g, s) {
      CopiesAppend(before, ks, g, s);
    }
  }

  /** Save number 2i is the primary of chunk i and save 2i + 1 its replica. */
  lemma {:induction false} RecordsAt(p: Plan, n: nat, i: nat)
    requires n <= |p.chunks| && i < n
    ensures p.Records(n)[2 * i] == p.Copy(i, 0)
    ensures p.Records(n)[2 * i + 1] == p.Copy(i, 1)
  {
    if i < n - 1 {
      RecordsAt(p, n - 1, i);
    }
  }

  /** Save number k of an upload gets record id id0 + k. */
  lemma {:induction false} RecordIds(p: Plan, n: nat)
    requires n <= |p.chunks|
    ensures forall k :: 0 <= k < 2 * n ==> p.Records(n)[k].id == p.id0 + k
  {
    if n > 0 {
      RecordIds(p, n - 1);
    }
  }

  /** Every record of an upload belongs to the new file and carries the chunk
      of its own sequence number, which is below the chunk count. */
  lemma {:induction false} RecordsCarryTheirChunk(p: Plan, n: nat)
    requires n <= |p.chunks|
    ensures forall k :: 0 <= k < 2 * n ==>
      var r := p.Records(n)[k]; r.fileId == p.fid && r.sequence < n && r.data == p.chunks[r.sequence]
  {
    if n > 0 {
      RecordsCarryTheirChunk(p, n - 1);
    }
  }

  /** The records of an upload are in ascending sequence order. */
  lemma {:induction false} RecordsSorted(p: Plan, n: nat)
    requires n <= |p.chunks|
    ensures SortedBySequence(p.Records(n))
  {
    if n > 0 {
      RecordsSorted(p, n - 1);
      RecordsCarryTheirChunk(p, n - 1);
      var r := p.Records(n);
      assert r == p.Records(n - 1) + [p.Copy(n - 1, 0), p.Copy(n - 1, 1)];
      forall k | 0 < k < |r| ensures r[k - 1].sequence <= r[k].sequence {
        if k < 2 * n - 2 {
          assert r[k - 1] == p.Records(n - 1)[k - 1] && r[k] == p.Records(n - 1)[k];
        } else if k == 2 * n - 2 {
          assert r[k - 1] == p.Records(n - 1)[k - 1];
        }
      }
    }
  }

  /** For each chunk index i below n there are exactly two records with
      sequence i, and for no other index is there any. */
  lemma {:induction false} RecordsCopies(p: Plan, n: nat, i: nat)
    requires n <= |p.chunks|
    ensures Copies(p.Records(n), p.fid, i) == if i < n then 2 else 0
  {
    if n > 0 {
      RecordsCopies(p, n - 1, i);
      CopiesAppend(p.Records(n - 1), [p.Copy(n - 1, 0), p.Copy(n - 1, 1)], p.fid, i);
    }
  }

  /** The payloads of an upload's records are its chunks, each twice. */
  lemma {:induction false} RecordsData(p: Plan, n: nat)
    requires n <= |p.chunks|
    ensures Datas(p.Records(n)) == Doubled(p.chunks[..n])
  {
    if n > 0 {
      RecordsData(p, n - 1);
      assert p.chunks[..n][..n - 1] == p.chunks[..n - 1];
      DatasAppend(p.Records(n - 1), [p.Copy(n - 1, 0), p.Copy(n - 1, 1)]);
    }
  }

  /** The first record per sequence of one more chunk's records: those of
      the previous chunks, then the primary of this one. */
  lemma FirstPerSequenceStep(p: Plan, n: nat)
    requires 0 < n <= |p.chunks|
    ensures FirstPerSequence(p.Records(n)) == FirstPerSequence(p.Records(n - 1)) + [p.Copy(n - 1, 0)]
  {
    var prev := p.Records(n - 1);
    var withPrimary := prev + [p.Copy(n - 1, 0)];
    var r := p.Records(n);
    assert r[..|r| - 1] == withPrimary;
    assert withPrimary[..|withPrimary| - 1] == prev;
    if n > 1 {
      RecordsAt(p, n - 1, n - 2);
    }
  }

  /** Taking the first record of each sequence from an upload's records
      keeps the primaries, whose payloads are the chunks once each. */
  lemma {:induction false} FirstPerSequenceRecords(p: Plan, n: nat)
    requires n <= |p.chunks|
    ensures Datas(FirstPerSequence(p.Records(n))) == p.chunks[..n]
  {
    if n > 0 {
      FirstPerSequenceRecords(p, n - 1);
      FirstPerSequenceStep(p, n);
      DatasSnoc(FirstPerSequence(p.Records(n - 1)), p.Copy(n - 1, 0));
      TakeLast(p.chunks, n);
    }
  }

  /** Querying by the new id after an upload gives back exactly its records,
      already in sequence order. */
  lemma ReadBackPlanned(before: seq<ChunkRecord>, p: Plan)
    requires ForFile(before, p.fid) == []
    ensures SortBySequence(ForFile(before + p.Records(|p.chunks|), p.fid)) == p.Records(|p.chunks|)
  {
    var rs := p.Records(|p.chunks|);
    ForFileAppend(before, rs, p.fid);
    RecordsCarryTheirChunk(p, |p.chunks|);
    ForFileAll(rs, p.fid);
    assert ForFile(before + rs, p.fid) == rs;
    RecordsSorted(p, |p.chunks|);
    SortSorted(rs);
  }

  /** The records of one upload, read back by their file id and concatenated
      in sequence order, give each chunk twice: c0 c0 c1 c1 ... */
  lemma ReassemblePlanned(before: seq<ChunkRecord>, p: Plan)
    requires ForFile(before, p.fid) == []
    ensures Reassemble(before + p.Records(|p.chunks|), p.fid) == Flatten(Doubled(p.chunks))
  {
    ReadBackPlanned(before, p);
    RecordsData(p, |p.chunks|);
    assert p.chunks[..|p.chunks|] == p.chunks;
  }

  /** Read back one copy per sequence, the same records give the chunks once each. */
  lemma ReassembleFirstCopiesPlanned(before: seq<ChunkRecord>, p: Plan)
    requires ForFile(before, p.fid) == []
    ensures ReassembleFirstCopies(before + p.Records(|p.chunks|), p.fid) == Flatten(p.chunks)
  {
    ReadBackPlanned(before, p);
    FirstPerSequenceRecords(p, |p.chunks|);
    assert p.chunks[..|p.chunks|] == p.chunks;
  }

  /** The answer to save number k, whose record would get id id0 + k. */
  function Outcome(k: nat, rejected: set<nat>, id0: ChunkId): Result<ChunkId>
  {
    if k in rejected then Err(StoreFailure) else Ok(id0 + k)
  }

  /** The answers to the first n saves of an upload, in issue order. */
  function Outcomes(n: nat, rejected: set<nat>, id0: ChunkId): (os: seq<Result<ChunkId>>)
    ensures |os| == n
    ensures forall k :: 0 <= k < n ==> os[k] == Outcome(k, rejected, id0)
  {
    if n == 0 then [] else Outcomes(n - 1, rejected, id0) + [Outcome(n - 1, rejected, id0)]
  }

  /** The answers to one more chunk's saves: those before, then the
      primary's, then the replica's. */
  lemma OutcomesStep(i: nat, rejected: set<nat>, id0: ChunkId)
    ensures Outcomes(2 * i + 2, rejected, id0)
         == Outcomes(2 * i, rejected, id0) + [Outcome(2 * i, rejected, id0), Outcome(2 * i + 1, rejected, id0)]
  {
  }

  /** What `Promise.all` makes of the answers of an upload's saves: the ids
      in issue order exactly when the store rejected none of them. */
  lemma AllOutcomes(p: Plan, rejected: set<nat>)
    ensures var results := Outcomes(2 * |p.chunks|, rejected, p.id0);
      && (All(results).Ok? <==> AllAccepted(2 * |p.chunks|, rejected))
      && (All(results).Ok? ==> All(results).value == Handles(p.Records(|p.chunks|)))
  {
    var results := Outcomes(2 * |p.chunks|, rejected, p.id0);
    if forall k :: 0 <= k < |results| ==> results[k].Ok? {
      forall k | 0 <= k < 2 * |p.chunks| ensures k !in rejected {
        assert results[k].Ok?;
      }
    }
    RecordIds(p, |p.chunks|);
  }

  /** After an upload the new file has exactly two records per chunk index. */
  lemma CopiesAfterUpload(before: seq<ChunkRecord>, p: Plan, s: nat)
    requires ForFile(before, p.fid) == []
    ensures Copies(before + p.Records(|p.chunks|), p.fid, s) == if s < |p.chunks| then 2 else 0
  {
    CopiesAppend(before, p.Records(|p.chunks|), p.fid, s);
    RecordsCopies(p, |p.chunks|, s);
    ForFileMembers(before, p.fid);
    assert forall x :: x in before ==> x.fileId != p.fid;
  }

  /** After an upload the replication invariant holds for the new file. */
  lemma TwoCopiesAfterUpload(before: seq<ChunkRecord>, p: Plan)
    requires ForFile(before, p.fid) == []
    ensures TwoCopiesEach(before + p.Records(|p.chunks|), p.fid, |p.chunks|)
  {
    forall s: nat ensures Copies(before + p.Records(|p.chunks|), p.fid, s) == if s < |p.chunks| then 2 else 0 {
      CopiesAfterUpload(before, p, s);
    }
  }
}
