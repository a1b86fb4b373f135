/** How both uploaders cut a file into parts: part `i` holds the bytes from
    i * partSize, at most partSize of them. */
module PartPlan {
  import opened Lists
  import opened Wrappers

  newtype byte = b: int | 0 <= b < 256

  /** What S3 keeps of an uploaded part. */
  datatype Stored = Stored(etag: string, bytes: seq<byte>)

  /** What is recorded of an uploaded part and named again at completion. */
  datatype CompletedPart<K> = CompletedPart(etag: string, partNumber: K)

  /** The object S3 makes of a part list: the stored bytes in list order, if each
      part is there under its ETag. */
  function Assembled<K>(remote: map<K, Stored>, parts: seq<CompletedPart<K>>): Option<seq<byte>> {
    if parts == [] then Some([])
    else
      var before := Assembled(remote, parts[..|parts| - 1]);
      var last := parts[|parts| - 1];
      if before.Some? && last.partNumber in remote && remote[last.partNumber].etag == last.etag
      then Some(before.value + remote[last.partNumber].bytes) else None
  }

  lemma AssembledOneMore<K>(remote: map<K, Stored>, parts: seq<CompletedPart<K>>, last: CompletedPart<K>)
    ensures Assembled(remote, parts + [last])
            == (var before := Assembled(remote, parts);
                if before.Some? && last.partNumber in remote && remote[last.partNumber].etag == last.etag
                then Some(before.value + remote[last.partNumber].bytes) else None)
  {
    assert (parts + [last])[..|parts|] == parts;
  }

  /** ceil(size / partSize), as the program computes it. */
  function PartCount(size: nat, partSize: nat): nat
    requires partSize > 0
  {
    (size + partSize - 1) / partSize
  }

  function PartLength(size: nat, partSize: nat, i: nat): int {
    var offset := i * partSize;
    if size - offset < partSize then size - offset else partSize
  }

  lemma PartCountBounds(size: nat, partSize: nat)
    requires partSize > 0
    ensures PartCount(size, partSize) * partSize >= size
    ensures size > 0 ==> 0 < PartCount(size, partSize) && (PartCount(size, partSize) - 1) * partSize < size
    ensures size == 0 ==> PartCount(size, partSize) == 0
  {
    var a := size + partSize - 1;
    var n := a / partSize;
    assert a == n * partSize + a % partSize;
    assert (n - 1) * partSize == n * partSize - partSize;
    if size > 0 {
      assert n >= 1;
    } else {
      assert a < partSize;
    }
  }

  lemma MultiplyMonotone(a: nat, b: nat, c: nat)
    requires a <= b
    ensures a * c <= b * c
  {
  }

  /** Part `i` is non-empty, and the next one (or the end) starts where it stops. */
  lemma PartsTile(size: nat, partSize: nat, i: nat)
    requires partSize > 0 && i < PartCount(size, partSize)
    ensures i * partSize < size && 0 < PartLength(size, partSize, i) <= partSize
    ensures i * partSize + PartLength(size, partSize, i)
            == if i + 1 < PartCount(size, partSize) then (i + 1) * partSize else size
  {
    var n := PartCount(size, partSize);
    PartCountBounds(size, partSize);
    MultiplyMonotone(i, n - 1, partSize);
    assert (i + 1) * partSize == i * partSize + partSize;
    if i + 1 < n {
      MultiplyMonotone(i + 1, n - 1, partSize);
    } else {
      assert n * partSize == i * partSize + partSize;
    }
  }

  ghost function Part(file: seq<byte>, partSize: nat, i: nat): seq<byte>
    requires partSize > 0 && i < PartCount(|file|, partSize)
  {
    PartsTile(|file|, partSize, i);
    file[i * partSize..i * partSize + PartLength(|file|, partSize, i)]
  }

  ghost function Parts(file: seq<byte>, partSize: nat, n: nat): seq<seq<byte>>
    requires partSize > 0 && n <= PartCount(|file|, partSize)
  {
    if n == 0 then [] else Parts(file, partSize, n - 1) + [Part(file, partSize, n - 1)]
  }

  /** Where the first `n` parts end. */
  function Covered(size: nat, partSize: nat, n: nat): nat {
    if n * partSize < size then n * partSize else size
  }

  lemma PartIsCovered(file: seq<byte>, partSize: nat, i: nat)
    requires partSize > 0 && i < PartCount(|file|, partSize)
    ensures Covered(|file|, partSize, i) <= Covered(|file|, partSize, i + 1) <= |file|
    ensures Part(file, partSize, i) == file[Covered(|file|, partSize, i)..Covered(|file|, partSize, i + 1)]
  {
    PartCountBounds(|file|, partSize);
    PartsTile(|file|, partSize, i);
    assert (i + 1) * partSize == i * partSize + partSize;
  }

  /** The first `n` parts, put together, are a leading piece of the file. */
  lemma {:induction false} PartsReassemble(file: seq<byte>, partSize: nat, n: nat)
    requires partSize > 0 && n <= PartCount(|file|, partSize)
    ensures Covered(|file|, partSize, n) <= |file|
    ensures Flatten(Parts(file, partSize, n)) == file[..Covered(|file|, partSize, n)]
  {
    if n > 0 {
      var k := n - 1;
      PartsReassemble(file, partSize, k);
      FlattenLast(Parts(file, partSize, k), Part(file, partSize, k));
      PartIsCovered(file, partSize, k);
      SliceOneMore(file, Covered(|file|, partSize, k), Covered(|file|, partSize, k + 1));
    }
  }

  lemma AllPartsAreTheFile(file: seq<byte>, partSize: nat)
    requires partSize > 0
    ensures Flatten(Parts(file, partSize, PartCount(|file|, partSize))) == file
  {
    PartsReassemble(file, partSize, PartCount(|file|, partSize));
    PartCountBounds(|file|, partSize);
  }

  lemma SliceOneMore(file: seq<byte>, a: nat, b: nat)
    requires a <= b <= |file|
    ensures file[..a] + file[a..b] == file[..b]
  {
  }

  lemma {:induction false} PartsLength(file: seq<byte>, partSize: nat, n: nat)
    requires partSize > 0 && n <= PartCount(|file|, partSize)
    ensures |Parts(file, partSize, n)| == n
    ensures forall i :: 0 <= i < n ==> Parts(file, partSize, n)[i] == Part(file, partSize, i)
  {
    if n > 0 {
      PartsLength(file, partSize, n - 1);
    }
  }
}
