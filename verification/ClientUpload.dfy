/** The browser's slicer: a file is cut into numbered parts, which are sent in
    batches, the parts of a batch at the same time (frontend/src/api.ts). */
module ClientUpload {
  import opened Lists
  import opened PartPlan

  const DEFAULT_PART_SIZE := 16 * 1024 * 1024

  datatype Piece = Piece(partNumber: nat, chunk: seq<byte>)

  /** The first `n` pieces of the file, numbered from one. */
  ghost function Pieces(file: seq<byte>, partSize: nat, n: nat): seq<Piece>
    requires partSize > 0 && n <= PartCount(|file|, partSize)
  {
    if n == 0 then [] else Pieces(file, partSize, n - 1) + [Piece(n, Part(file, partSize, n - 1))]
  }

  lemma {:induction false} PieceAt(file: seq<byte>, partSize: nat, n: nat)
    requires partSize > 0 && n <= PartCount(|file|, partSize)
    ensures |Pieces(file, partSize, n)| == n
    ensures forall i :: 0 <= i < n ==> Pieces(file, partSize, n)[i] == Piece(i + 1, Part(file, partSize, i))
  {
    if n > 0 {
      PieceAt(file, partSize, n - 1);
    }
  }

  lemma MorePartsToCome(size: nat, partSize: nat, n: nat)
    requires partSize > 0 && n <= PartCount(size, partSize) && Covered(size, partSize, n) < size
    ensures n < PartCount(size, partSize) && Covered(size, partSize, n) == n * partSize
  {
    PartCountBounds(size, partSize);
  }

  lemma NextPart(file: seq<byte>, partSize: nat, n: nat)
    requires partSize > 0 && n < PartCount(|file|, partSize)
    ensures var offset := Covered(|file|, partSize, n);
            var end := if offset + partSize < |file| then offset + partSize else |file|;
            && offset < end == Covered(|file|, partSize, n + 1) <= |file|
            && file[offset..end] == Part(file, partSize, n)
  {
    PartsTile(|file|, partSize, n);
    PartIsCovered(file, partSize, n);
    assert (n + 1) * partSize == n * partSize + partSize;
  }

  /** The inner loop: the next pieces, as many as may be sent at a time. */
  method NextBatch(file: seq<byte>, partSize: nat, concurrency: nat, from: nat)
    returns (batch: seq<Piece>, offset: nat, partNumber: nat)
    requires partSize > 0 && concurrency > 0
    requires 0 < from <= PartCount(|file|, partSize) + 1 && Covered(|file|, partSize, from - 1) < |file|
    ensures from < partNumber <= PartCount(|file|, partSize) + 1
    ensures offset == Covered(|file|, partSize, partNumber - 1)
    ensures Pieces(file, partSize, from - 1) + batch == Pieces(file, partSize, partNumber - 1)
    ensures 0 < |batch| <= concurrency && (|batch| < concurrency ==> offset >= |file|)
  {
    batch := [];
    offset, partNumber := Covered(|file|, partSize, from - 1), from;
    while |batch| < concurrency && offset < |file|
      invariant from <= partNumber <= PartCount(|file|, partSize) + 1
      invariant |batch| == partNumber - from && |batch| <= concurrency
      invariant offset == Covered(|file|, partSize, partNumber - 1)
      invariant Pieces(file, partSize, from - 1) + batch == Pieces(file, partSize, partNumber - 1)
      decreases |file| - offset
    {
      MorePartsToCome(|file|, partSize, partNumber - 1);
      NextPart(file, partSize, partNumber - 1);
      var end := if offset + partSize < |file| then offset + partSize else |file|;
      var chunk := file[offset..end];
      batch := batch + [Piece(partNumber, chunk)];
      offset := offset + |chunk|;
      partNumber := partNumber + 1;
    }
  }

  /** Batches hold one to `concurrency` pieces; all but the last are full. */
  ghost predicate Batched(batches: seq<seq<Piece>>, concurrency: nat) {
    forall b :: 0 <= b < |batches| ==>
      0 < |batches[b]| <= concurrency && (b < |batches| - 1 ==> |batches[b]| == concurrency)
  }

  ghost predicate LastFull(batches: seq<seq<Piece>>, concurrency: nat) {
    batches == [] || |batches[|batches| - 1]| == concurrency
  }

  method SliceAll(file: seq<byte>, partSize: nat, concurrency: nat) returns (batches: seq<seq<Piece>>)
    requires partSize > 0 && concurrency > 0
    ensures Flatten(batches) == Pieces(file, partSize, PartCount(|file|, partSize))
    ensures Batched(batches, concurrency)
  {
    batches := [];
    var offset := 0;
    var partNumber := 1;
    while offset < |file|
      invariant 0 < partNumber <= PartCount(|file|, partSize) + 1
      invariant offset == Covered(|file|, partSize, partNumber - 1)
      invariant Flatten(batches) == Pieces(file, partSize, partNumber - 1)
      invariant Batched(batches, concurrency)
      invariant offset < |file| ==> LastFull(batches, concurrency)
      decreases PartCount(|file|, partSize) - partNumber
    {
      var batch;
      batch, offset, partNumber := NextBatch(file, partSize, concurrency, partNumber);
      FlattenLast(batches, batch);
      batches := batches + [batch];
    }
    EndReached(|file|, partSize, partNumber - 1);
  }

  /** All pieces in order, with the fallbacks for settings that are not positive. */
  method Slice(file: seq<byte>, partSize: int, concurrency: int) returns (batches: seq<seq<Piece>>)
    ensures partSize > 0 ==> Flatten(batches) == Pieces(file, partSize, PartCount(|file|, partSize))
    ensures partSize <= 0 ==> Flatten(batches) == Pieces(file, 16_777_216, PartCount(|file|, 16_777_216))
    ensures Batched(batches, if concurrency > 0 then concurrency else 1)
  {
    var configuredPartSize := if partSize > 0 then partSize else DEFAULT_PART_SIZE;
    var configuredConcurrency := if concurrency > 0 then concurrency else 1;
    batches := SliceAll(file, configuredPartSize, configuredConcurrency);
  }

  lemma EndReached(size: nat, partSize: nat, n: nat)
    requires partSize > 0 && n <= PartCount(size, partSize) && Covered(size, partSize, n) >= size
    ensures n == PartCount(size, partSize)
  {
    PartCountBounds(size, partSize);
    if n < PartCount(size, partSize) {
      PartsTile(size, partSize, n);
    }
  }

  /** `sent` is some order of arrival: batch after batch, each in any order. */
  ghost predicate BatchOrder(batches: seq<seq<Piece>>, arrived: seq<seq<Piece>>) {
    |arrived| == |batches| && forall b :: 0 <= b < |batches| ==> multiset(arrived[b]) == multiset(batches[b])
  }

  /** Whatever the order inside the batches, the same pieces arrive. */
  lemma {:induction false} BatchOrderKeepsPieces(batches: seq<seq<Piece>>, arrived: seq<seq<Piece>>)
    requires BatchOrder(batches, arrived)
    ensures multiset(Flatten(arrived)) == multiset(Flatten(batches))
  {
    if batches != [] {
      var last := |batches| - 1;
      BatchOrderKeepsPieces(batches[..last], arrived[..last]);
    }
  }
}
