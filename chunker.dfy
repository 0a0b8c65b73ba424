/** The chunker of the file service: cutting a byte buffer into consecutive
    fixed-size slices, the last of which may be shorter. */
module Chunker {

  newtype Byte = x: int | 0 <= x < 256

  type Bytes = seq<Byte>

  /** The chunk size uploadFile uses: 1 MiB. */
  const ChunkSize: nat := 1048576

  function Min(a: int, b: int): int
  {
    if a <= b then a else b
  }

  /** The reference definition of the chunking: the first `c` bytes (or all of
      them, when fewer remain), followed by the chunks of the rest. */
  function Chunks(b: Bytes, c: nat): seq<Bytes>
    requires c > 0
    decreases |b|
  {
    if |b| == 0 then []
    else [b[..Min(c, |b|)]] + Chunks(b[Min(c, |b|)..], c)
  }

  /** Concatenation of a sequence of byte strings, in order. */
  function Flatten(cs: seq<Bytes>): (b: Bytes)
    ensures cs != [] ==> cs[0] <= b
    ensures |cs| == 1 ==> b == cs[0]
  {
    if cs == [] then [] else cs[0] + Flatten(cs[1..])
  }

  /** splitFileIntoChunks: the loop advances `i` by the chunk size and pushes
      the slice [i, i + chunkSize), clamped to the buffer's end. */
  method SplitFileIntoChunks(fileBuffer: Bytes, chunkSize: nat) returns (chunks: seq<Bytes>)
    requires chunkSize > 0
    ensures chunks == Chunks(fileBuffer, chunkSize)
  {
    chunks := [];
    var i := 0;
    while i < |fileBuffer|
      invariant 0 <= i
      invariant chunks + Chunks(fileBuffer[Min(i, |fileBuffer|)..], chunkSize) == Chunks(fileBuffer, chunkSize)
    {
      var end := Min(i + chunkSize, |fileBuffer|);
      ChunksFrom(fileBuffer, chunkSize, i);
      chunks := chunks + [fileBuffer[i..end]];
      i := i + chunkSize;
    }
    assert fileBuffer[|fileBuffer|..] == [];
  }

  /** The chunks of the suffix from i: the slice [i, i + c), clamped, then
      the chunks of what follows it. */
  lemma ChunksFrom(b: Bytes, c: nat, i: nat)
    requires c > 0 && i < |b|
    ensures Chunks(b[i..], c) == [b[i..Min(i + c, |b|)]] + Chunks(b[Min(i + c, |b|)..], c)
  {
    var rest := b[i..];
    assert rest[..Min(c, |rest|)] == b[i..Min(i + c, |b|)];
    assert rest[Min(c, |rest|)..] == b[Min(i + c, |b|)..];
  }

  lemma TakeLast<T>(s: seq<T>, n: nat)
    requires 0 < n <= |s|
    ensures s[..n] == s[..n - 1] + [s[n - 1]]
  {
  }

  lemma {:induction false} FlattenAppend(a: seq<Bytes>, b: seq<Bytes>)
    ensures Flatten(a + b) == Flatten(a) + Flatten(b)
  {
    if a == [] {
      assert a + b == b;
    } else {
      assert (a + b)[1..] == a[1..] + b;
      FlattenAppend(a[1..], b);
    }
  }

  /** Concatenating the chunks gives back the buffer exactly. */
  lemma {:induction false} FlattenChunks(b: Bytes, c: nat)
    requires c > 0
    ensures Flatten(Chunks(b, c)) == b
    decreases |b|
  {
    if |b| > 0 {
      var m := Min(c, |b|);
      FlattenChunks(b[m..], c);
      assert b[..m] + b[m..] == b;
    }
  }

  /** The chunks cover the buffer: n - 1 full chunks are too few and n
      chunks of `c` bytes are enough. */
  lemma {:induction false} ChunkBounds(b: Bytes, c: nat)
    requires c > 0
    ensures (|Chunks(b, c)| - 1) * c < |b| <= |Chunks(b, c)| * c
    ensures |Chunks(b, c)| == 0 <==> |b| == 0
    decreases |b|
  {
    if |b| > 0 {
      var m := Min(c, |b|);
      var t := |Chunks(b[m..], c)|;
      ChunkBounds(b[m..], c);
      MulShift(t, c);
    }
  }

  lemma MulShift(t: int, c: int)
    ensures (t - 1) * c == t * c - c && (t + 1) * c == t * c + c
  {
  }

  /** At the chunk size uploadFile uses, the chunk count is the ceiling of
      |b| / 1 MiB. */
  lemma ChunkCount(b: Bytes)
    ensures |Chunks(b, ChunkSize)| == (|b| + ChunkSize - 1) / ChunkSize
  {
    ChunkBounds(b, ChunkSize);
  }

  /** Chunk k is the slice [k * c, min((k + 1) * c, |b|)). */
  lemma {:induction false} ChunkAt(b: Bytes, c: nat, k: nat)
    requires c > 0 && k < |Chunks(b, c)|
    ensures k * c < |b|
    ensures Chunks(b, c)[k] == b[k * c .. Min((k + 1) * c, |b|)]
    decreases |b|
  {
    var m := Min(c, |b|);
    if k > 0 {
      var rest := b[m..];
      ChunkAt(rest, c, k - 1);
      assert m == c;
      var lo, hi := (k - 1) * c, Min(k * c, |rest|);
      SliceOfSuffix(b, c, lo, hi);
      MulShift(k, c);
    }
  }

  /** A slice of a suffix is a slice of the whole, shifted. */
  lemma SliceOfSuffix(b: Bytes, m: nat, lo: nat, hi: nat)
    requires m <= |b| && lo <= hi <= |b| - m
    ensures b[m..][lo..hi] == b[m + lo .. m + hi]
  {
  }

  /** Every chunk but the last holds exactly `c` bytes, and the last holds
      between 1 and `c`. */
  lemma {:induction false} ChunkLengths(b: Bytes, c: nat)
    requires c > 0
    ensures forall k :: 0 <= k < |Chunks(b, c)| - 1 ==> |Chunks(b, c)[k]| == c
    ensures |Chunks(b, c)| > 0 ==> 0 < |Chunks(b, c)[|Chunks(b, c)| - 1]| <= c
    decreases |b|
  {
    if |b| > 0 {
      var m := Min(c, |b|);
      var cs := Chunks(b, c);
      var tail := Chunks(b[m..], c);
      ChunkLengths(b[m..], c);
      assert cs == [b[..m]] + tail;
      if |tail| > 0 {
        ChunkBounds(b[m..], c);
        assert m == c;
      }
      forall k | 0 <= k < |cs| - 1 ensures |cs[k]| == c {
        if k > 0 { assert cs[k] == tail[k - 1]; }
      }
    }
  }

  /** A 2.5 MiB payload gives three chunks of 1 MiB, 1 MiB and 0.5 MiB. */
  lemma TwoAndAHalfMiB(b: Bytes)
    requires |b| == 2621440
    ensures |Chunks(b, ChunkSize)| == 3
    ensures |Chunks(b, ChunkSize)[0]| == ChunkSize
    ensures |Chunks(b, ChunkSize)[1]| == ChunkSize
    ensures |Chunks(b, ChunkSize)[2]| == 524288
  {
    ChunkBounds(b, ChunkSize);
    ChunkAt(b, ChunkSize, 0);
    ChunkAt(b, ChunkSize, 1);
    ChunkAt(b, ChunkSize, 2);
  }
}
