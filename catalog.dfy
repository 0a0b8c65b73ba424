/** The catalog the file service keeps: file records and chunk records, the
    queries it runs on the chunk collection (by file id, sorted by sequence)
    and the reassembly of a file's bytes from its chunk records. */
module Catalog {
  import opened Chunker
  import opened LoadBalancer

  type FileId = string

  /** The `_id` the store gives a chunk record. */
  type ChunkId = nat

  datatype Error = NotFound | StoreFailure

  datatype Result<T> = Ok(value: T) | Err(error: Error)

  datatype ChunkRecord = ChunkRecord(id: ChunkId, fileId: FileId, sequence: nat, nodeId: NodeId, data: Bytes)

  datatype FileRecord = FileRecord(id: FileId, filename: string, size: nat, mimeType: string, chunks: seq<ChunkId>)

  /** What downloadFile returns. */
  datatype Downloaded = Downloaded(filename: string, mimeType: string, fileBuffer: Bytes)

  /** The chunk records of file `fid`, in stored order (`Chunk.find({ fileId })`). */
  function ForFile(rs: seq<ChunkRecord>, fid: FileId): (r: seq<ChunkRecord>)
    ensures |r| <= |rs|
  {
    if rs == [] then []
    else (if rs[0].fileId == fid then [rs[0]] else []) + ForFile(rs[1..], fid)
  }

  /** The chunk records of every other file, in stored order (what is left
      after `Chunk.deleteMany({ fileId })`). */
  function WithoutFile(rs: seq<ChunkRecord>, fid: FileId): (r: seq<ChunkRecord>)
    ensures |r| <= |rs|
  {
    if rs == [] then []
    else (if rs[0].fileId != fid then [rs[0]] else []) + WithoutFile(rs[1..], fid)
  }

  /** Number of chunk records of file `fid` with sequence `s`. */
  function Copies(rs: seq<ChunkRecord>, fid: FileId, s: nat): (n: nat)
    ensures n <= |rs|
    ensures n == 0 <==> forall k :: 0 <= k < |rs| ==> rs[k].fileId != fid || rs[k].sequence != s
  {
    if rs == [] then 0
    else (if rs[0].fileId == fid && rs[0].sequence == s then 1 else 0) + Copies(rs[1..], fid, s)
  }

  /** The query returns exactly the records of `fid`. */
  lemma {:induction false} ForFileMembers(rs: seq<ChunkRecord>, fid: FileId)
    ensures forall x :: x in ForFile(rs, fid) <==> x in rs && x.fileId == fid
  {
    if rs != [] {
      ForFileMembers(rs[1..], fid);
      assert rs == [rs[0]] + rs[1..];
    }
  }

  /** The deletion keeps exactly the records of the other files. */
  lemma {:induction false} WithoutFileMembers(rs: seq<ChunkRecord>, fid: FileId)
    ensures forall x :: x in WithoutFile(rs, fid) <==> x in rs && x.fileId != fid
  {
    if rs != [] {
      WithoutFileMembers(rs[1..], fid);
      assert rs == [rs[0]] + rs[1..];
    }
  }

  /** File `fid` has exactly two records for each sequence below n and
      none for any other. */
  ghost predicate TwoCopiesEach(rs: seq<ChunkRecord>, fid: FileId, n: nat)
  {
    forall s: nat :: Copies(rs, fid, s) == if s < n then 2 else 0
  }

  lemma {:induction false} ForFileAppend(a: seq<ChunkRecord>, b: seq<ChunkRecord>, fid: FileId)
    ensures ForFile(a + b, fid) == ForFile(a, fid) + ForFile(b, fid)
  {
    if a == [] {
      assert a + b == b;
    } else {
      var head := if a[0].fileId == fid then [a[0]] else [];
      assert (a + b)[1..] == a[1..] + b;
      ForFileAppend(a[1..], b, fid);
      assert ForFile(a + b, fid) == head + (ForFile(a[1..], fid) + ForFile(b, fid));
      assert ForFile(a, fid) == head + ForFile(a[1..], fid);
    }
  }

  lemma {:induction false} CopiesAppend(a: seq<ChunkRecord>, b: seq<ChunkRecord>, fid: FileId, s: nat)
    ensures Copies(a + b, fid, s) == Copies(a, fid, s) + Copies(b, fid, s)
  {
    if a == [] {
      assert a + b == b;
    } else {
      assert (a + b)[1..] == a[1..] + b;
      CopiesAppend(a[1..], b, fid, s);
    }
  }

  /** When every record belongs to `fid`, the query returns them all, in order. */
  lemma {:induction false} ForFileAll(rs: seq<ChunkRecord>, fid: FileId)
    requires forall k :: 0 <= k < |rs| ==> rs[k].fileId == fid
    ensures ForFile(rs, fid) == rs
  {
    if rs != [] {
      ForFileAll(rs[1..], fid);
    }
  }

  /** Deleting the chunk records of `fid` leaves none of them and leaves the
      records of every other file exactly as they were, in the same order. */
  lemma {:induction false} ForFileWithout(rs: seq<ChunkRecord>, fid: FileId, g: FileId)
    ensures ForFile(WithoutFile(rs, fid), g) == if g == fid then [] else ForFile(rs, g)
  {
    if rs != [] {
      ForFileWithout(rs[1..], fid, g);
      var head := if rs[0].fileId != fid then [rs[0]] else [];
      ForFileAppend(head, WithoutFile(rs[1..], fid), g);
      assert ForFile(head, g) == (if rs[0].fileId != fid && rs[0].fileId == g then [rs[0]] else []);
    }
  }

  /** A query for a file none of whose records are present returns nothing. */
  lemma {:induction false} ForFileNone(rs: seq<ChunkRecord>, fid: FileId)
    requires forall k :: 0 <= k < |rs| ==> rs[k].fileId != fid
    ensures ForFile(rs, fid) == []
  {
    if rs != [] {
      ForFileNone(rs[1..], fid);
    }
  }

  /** Deleting the records of `fid` leaves the copy count of every other
      file unchanged. */
  lemma {:induction false} CopiesWithout(rs: seq<ChunkRecord>, fid: FileId, g: FileId, s: nat)
    requires g != fid
    ensures Copies(WithoutFile(rs, fid), g, s) == Copies(rs, g, s)
  {
    if rs != [] {
      CopiesWithout(rs[1..], fid, g, s);
      var head := if rs[0].fileId != fid then [rs[0]] else [];
      CopiesAppend(head, WithoutFile(rs[1..], fid), g, s);
    }
  }

  /** Records in ascending `sequence` order: each is no smaller than the one before. */
  ghost predicate SortedBySequence(rs: seq<ChunkRecord>)
  {
    forall i :: 0 < i < |rs| ==> rs[i - 1].sequence <= rs[i].sequence
  }

  /** Inserts `x` before the first record whose sequence is not smaller. */
  function Insert(x: ChunkRecord, rs: seq<ChunkRecord>): (r: seq<ChunkRecord>)
    ensures |r| == |rs| + 1
  {
    if rs == [] || x.sequence <= rs[0].sequence then [x] + rs
    else [rs[0]] + Insert(x, rs[1..])
  }

  /** Inserting into a sorted sequence keeps it sorted. */
  lemma {:induction false} InsertSorted(x: ChunkRecord, rs: seq<ChunkRecord>)
    requires SortedBySequence(rs)
    ensures SortedBySequence(Insert(x, rs))
    ensures |Insert(x, rs)| == |rs| + 1
    ensures Insert(x, rs)[0] == x || Insert(x, rs)[0] == rs[0]
  {
    if rs != [] && x.sequence > rs[0].sequence {
      var tail := Insert(x, rs[1..]);
      InsertSorted(x, rs[1..]);
      var r := [rs[0]] + tail;
      forall i | 0 < i < |r| ensures r[i - 1].sequence <= r[i].sequence {
        if i > 1 { assert r[i - 1] == tail[i - 2] && r[i] == tail[i - 1]; }
      }
    }
  }

  /** Inserting adds exactly `x` to the records. */
  lemma {:induction false} InsertPermutes(x: ChunkRecord, rs: seq<ChunkRecord>)
    ensures multiset(Insert(x, rs)) == multiset(rs) + multiset{x}
  {
    if rs != [] && x.sequence > rs[0].sequence {
      InsertPermutes(x, rs[1..]);
      assert rs == [rs[0]] + rs[1..];
    }
  }

  /** The order `.sort("sequence")` delivers: ascending by sequence, records
      with equal sequence kept in stored order. */
  function SortBySequence(rs: seq<ChunkRecord>): (r: seq<ChunkRecord>)
    ensures |r| == |rs|
  {
    if rs == [] then [] else Insert(rs[0], SortBySequence(rs[1..]))
  }

  /** The sort delivers its records in ascending sequence order. */
  lemma {:induction false} SortIsSorted(rs: seq<ChunkRecord>)
    ensures SortedBySequence(SortBySequence(rs))
  {
    if rs != [] {
      SortIsSorted(rs[1..]);
      InsertSorted(rs[0], SortBySequence(rs[1..]));
    }
  }

  /** The sort returns the same records: a permutation. */
  lemma {:induction false} SortPermutes(rs: seq<ChunkRecord>)
    ensures multiset(SortBySequence(rs)) == multiset(rs)
  {
    if rs != [] {
      SortPermutes(rs[1..]);
      InsertPermutes(rs[0], SortBySequence(rs[1..]));
      assert rs == [rs[0]] + rs[1..];
    }
  }

  /** Sorting records that are already in sequence order changes nothing. */
  lemma {:induction false} SortSorted(rs: seq<ChunkRecord>)
    requires SortedBySequence(rs)
    ensures SortBySequence(rs) == rs
  {
    if rs != [] {
      SortSorted(rs[1..]);
      assert rs == [rs[0]] + rs[1..];
    }
  }

  /** The payloads of the records, in order (`chunks.map((chunk) => chunk.data)`). */
  function Datas(rs: seq<ChunkRecord>): (ds: seq<Bytes>)
    ensures |ds| == |rs| && forall k :: 0 <= k < |rs| ==> ds[k] == rs[k].data
  {
    seq(|rs|, k requires 0 <= k < |rs| => rs[k].data)
  }

  lemma DatasAppend(a: seq<ChunkRecord>, b: seq<ChunkRecord>)
    ensures Datas(a + b) == Datas(a) + Datas(b)
  {
    assert forall k :: 0 <= k < |a + b| ==> (a + b)[k].data == (Datas(a) + Datas(b))[k];
  }

  lemma DatasSnoc(rs: seq<ChunkRecord>, x: ChunkRecord)
    ensures Datas(rs + [x]) == Datas(rs) + [x.data]
  {
    assert Datas([x]) == [x.data];
    DatasAppend(rs, [x]);
  }

  /** The bytes downloadFile returns for `fid`: the payloads of ALL its
      chunk records, primary and replica alike, in ascending sequence. */
  function Reassemble(rs: seq<ChunkRecord>, fid: FileId): (b: Bytes)
    ensures ForFile(rs, fid) == [] ==> b == []
  {
    Flatten(Datas(SortBySequence(ForFile(rs, fid))))
  }

  /** After deleting file `fid`'s records, `fid` reassembles to nothing and
      every other file reassembles as before. */
  lemma ReassembleWithout(rs: seq<ChunkRecord>, fid: FileId, g: FileId)
    ensures Reassemble(WithoutFile(rs, fid), g) == if g == fid then [] else Reassemble(rs, g)
  {
    ForFileWithout(rs, fid, g);
  }

  /** Each chunk of `cs` twice in a row: c0 c0 c1 c1 ... */
  function Doubled(cs: seq<Bytes>): (d: seq<Bytes>)
    ensures |d| == 2 * |cs|
    ensures forall k :: 0 <= k < |d| ==> d[k] == cs[k / 2]
  {
    if cs == [] then []
    else Doubled(cs[..|cs| - 1]) + [cs[|cs| - 1], cs[|cs| - 1]]
  }

  /** The doubled concatenation is twice as long as the plain one. */
  lemma {:induction false} DoubledLength(cs: seq<Bytes>)
    ensures |Flatten(Doubled(cs))| == 2 * |Flatten(cs)|
  {
    if cs != [] {
      var init, last := cs[..|cs| - 1], cs[|cs| - 1];
      DoubledLength(init);
      FlattenAppend(Doubled(init), [last, last]);
      assert cs == init + [last];
      FlattenAppend(init, [last]);
      assert Flatten([last, last]) == last + last;
      assert Flatten([last]) == last;
    }
  }

  /** The records that start a run of equal sequences, in order: one record
      per sequence, the first of its run. */
  function FirstPerSequence(rs: seq<ChunkRecord>): (r: seq<ChunkRecord>)
    ensures |r| <= |rs|
  {
    if |rs| <= 1 then rs
    else if rs[|rs| - 2].sequence == rs[|rs| - 1].sequence then FirstPerSequence(rs[..|rs| - 1])
    else FirstPerSequence(rs[..|rs| - 1]) + [rs[|rs| - 1]]
  }

  /** Reassembly from one copy per sequence: the first after sorting. */
  function ReassembleFirstCopies(rs: seq<ChunkRecord>, fid: FileId): Bytes
  {
    Flatten(Datas(FirstPerSequence(SortBySequence(ForFile(rs, fid)))))
  }

  /** Records in strictly ascending `sequence` order. */
  ghost predicate StrictlyAscending(rs: seq<ChunkRecord>)
  {
    forall i :: 0 < i < |rs| ==> rs[i - 1].sequence < rs[i].sequence
  }

  /** The sequence numbers that occur among the records. */
  ghost function Sequences(rs: seq<ChunkRecord>): set<nat>
  {
    set x | x in rs :: x.sequence
  }

  lemma SequencesSnoc(rs: seq<ChunkRecord>, x: ChunkRecord)
    ensures Sequences(rs + [x]) == Sequences(rs) + {x.sequence}
  {
    assert forall y :: y in rs + [x] <==> y in rs || y == x;
  }

  lemma SortedInit(rs: seq<ChunkRecord>)
    requires SortedBySequence(rs) && rs != []
    ensures SortedBySequence(rs[..|rs| - 1])
  {
    var init := rs[..|rs| - 1];
    forall i | 0 < i < |init| ensures init[i - 1].sequence <= init[i].sequence {
      assert init[i - 1] == rs[i - 1] && init[i] == rs[i];
    }
  }

  /** Appending a record with a larger sequence keeps the order strict. */
  lemma AscendingSnoc(r: seq<ChunkRecord>, x: ChunkRecord)
    requires StrictlyAscending(r) && r != [] && r[|r| - 1].sequence < x.sequence
    ensures StrictlyAscending(r + [x])
  {
    var r1 := r + [x];
    forall i | 0 < i < |r1| ensures r1[i - 1].sequence < r1[i].sequence {
      if i < |r1| - 1 { assert r1[i - 1] == r[i - 1] && r1[i] == r[i]; }
    }
  }

  /** On sorted records, taking the first of each run keeps one record of
      the input per sequence number that occurs, in strictly ascending
      order, and ends on the input's last sequence number. */
  lemma {:induction false} FirstPerSequenceSorted(rs: seq<ChunkRecord>)
    requires SortedBySequence(rs)
    ensures StrictlyAscending(FirstPerSequence(rs))
    ensures Sequences(FirstPerSequence(rs)) == Sequences(rs)
    ensures forall x :: x in FirstPerSequence(rs) ==> x in rs
    ensures rs != [] ==>
      FirstPerSequence(rs) != [] && FirstPerSequence(rs)[|FirstPerSequence(rs)| - 1].sequence == rs[|rs| - 1].sequence
  {
    if |rs| > 1 {
      var init, last := rs[..|rs| - 1], rs[|rs| - 1];
      assert rs == init + [last];
      SortedInit(rs);
      FirstPerSequenceSorted(init);
      var r0 := FirstPerSequence(init);
      assert init[|init| - 1] == rs[|rs| - 2];
      SequencesSnoc(init, last);
      if rs[|rs| - 2].sequence == last.sequence {
        assert init[|init| - 1] in init;
      } else {
        assert FirstPerSequence(rs) == r0 + [last];
        AscendingSnoc(r0, last);
        SequencesSnoc(r0, last);
      }
    }
  }
}
