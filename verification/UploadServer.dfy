/** The server's side of the browser-driven multipart upload: uploadInit,
    uploadPart, uploadComplete, uploadAbort (internal/httpapi/server.go). */
module UploadServer {
  import opened Lists
  import opened Wrappers
  import opened PartPlan
  import opened TempNames
  import opened ClientUpload

  newtype int32 = x: int | -0x8000_0000 <= x < 0x8000_0000

  const MAX_INT32 := 0x7fff_ffff

  type UploadedPart = CompletedPart<int32>

  // ------------------------------------------------------- ordered parts

  ghost predicate Contiguous<T>(m: map<int32, T>) {
    forall k: int32 :: k in m <==> 1 <= k as int <= |m|
  }

  ghost function FirstNumbers(n: nat): (s: set<int32>)
    requires n <= MAX_INT32
    ensures forall k: int32 :: k in s <==> 1 <= k as int <= n
  {
    if n == 0 then {} else FirstNumbers(n - 1) + {n as int32}
  }

  lemma {:induction false} FirstNumbersSize(n: nat)
    requires n <= MAX_INT32
    ensures |FirstNumbers(n)| == n
  {
    if n > 0 {
      FirstNumbersSize(n - 1);
    }
  }

  lemma {:induction false} SameSizeSubset<T>(a: set<T>, b: set<T>)
    requires a <= b && |a| == |b|
    ensures a == b
  {
    if x :| x in b && x !in a {
      SubsetSize(a, b - {x});
    }
  }

  lemma {:induction false} SubsetSize<T>(a: set<T>, b: set<T>)
    requires a <= b
    ensures |a| <= |b|
  {
    if x :| x in a {
      SubsetSize(a - {x}, b - {x});
    }
  }

  /** A map with the keys 1..n, n its size, has no other keys. */
  lemma FirstKeysAreAll<T>(m: map<int32, T>)
    requires |m| <= MAX_INT32
    requires forall k: int32 :: 1 <= k as int <= |m| ==> k in m
    ensures Contiguous(m)
  {
    FirstNumbersSize(|m|);
    assert FirstNumbers(|m|) <= m.Keys;
    assert |m.Keys| == |m|;
    SameSizeSubset(FirstNumbers(|m|), m.Keys);
    forall k: int32 ensures k in m <==> 1 <= k as int <= |m| {
      assert k in m <==> k in FirstNumbers(|m|);
    }
  }

  /** Succeeds exactly on the keys 1..n, n > 0, and then lists the parts by key. */
  method OrderedUploadParts(uploaded: map<int32, UploadedPart>) returns (parts: Option<seq<UploadedPart>>)
    requires |uploaded| < MAX_INT32
    ensures parts.Some? <==> uploaded != map[] && Contiguous(uploaded)
    ensures parts.Some? ==>
              |parts.value| == |uploaded|
              && forall i :: 0 <= i < |uploaded| ==> parts.value[i] == uploaded[(i + 1) as int32]
  {
    if |uploaded| == 0 {
      return None;
    }
    var list: seq<UploadedPart> := [];
    var partNumber: int32 := 1;
    while partNumber <= |uploaded| as int32
      invariant 1 <= partNumber as int <= |uploaded| + 1 && |list| == partNumber as int - 1
      invariant forall k: int32 :: 1 <= k < partNumber ==> k in uploaded
      invariant forall i :: 0 <= i < |list| ==> (i + 1) as int32 in uploaded && list[i] == uploaded[(i + 1) as int32]
    {
      if partNumber !in uploaded {
        return None;
      }
      list := list + [uploaded[partNumber]];
      partNumber := partNumber + 1;
    }
    FirstKeysAreAll(uploaded);
    return Some(list);
  }

  // --------------------------------------------------- one upload's progress

  /** The temporary file of part `n`; the server only uses positive numbers. */
  function Path(dir: string, n: int32): string {
    PartPath(dir, if n >= 0 then n as nat else 0)
  }

  /** The maps kept for an upload, the temporary files, and the parts at S3. */
  datatype Progress = Progress(
    parts: map<int32, UploadedPart>,
    partPaths: map<int32, string>,
    files: map<string, seq<byte>>,
    remote: map<int32, Stored>)

  /** The three effects of a part request, in their order in the handler. */
  datatype Effect =
    | Send(n: int32, body: seq<byte>, etag: string)
    | Write(n: int32, body: seq<byte>)
    | Record(n: int32, etag: string)

  function Apply(dir: string, p: Progress, e: Effect): Progress {
    match e
    case Send(n, body, etag) => p.(remote := p.remote[n := Stored(etag, body)])
    case Write(n, body) => p.(files := p.files[Path(dir, n) := body])
    case Record(n, etag) =>
      if n in p.parts then p
      else p.(parts := p.parts[n := CompletedPart(etag, n)], partPaths := p.partPaths[n := Path(dir, n)])
  }

  function ApplyAll(dir: string, p: Progress, effects: seq<Effect>): Progress {
    if effects == [] then p
    else Apply(dir, ApplyAll(dir, p, effects[..|effects| - 1]), effects[|effects| - 1])
  }

  function PartEffects(n: int32, body: seq<byte>, etag: string): seq<Effect> {
    [Send(n, body, etag), Write(n, body), Record(n, etag)]
  }

  /** Each part number comes with one body and one ETag: no number is used for two parts. */
  ghost predicate Agrees(sent: map<int32, Stored>, e: Effect) {
    && e.n in sent && e.n >= 1
    && match e
       case Send(n, body, etag) => sent[n] == Stored(etag, body)
       case Write(n, body) => sent[n].bytes == body
       case Record(n, etag) => sent[n].etag == etag
  }

  ghost predicate RecordsReflect(dir: string, sent: map<int32, Stored>, effects: seq<Effect>, p: Progress) {
    && (forall n :: n in p.parts <==> n in sent && Record(n, sent[n].etag) in effects)
    && (forall n :: n in p.parts ==> p.parts[n] == CompletedPart(sent[n].etag, n))
    && (forall n :: n in p.parts ==> n in p.partPaths && p.partPaths[n] == Path(dir, n))
  }

  ghost predicate FilesReflect(dir: string, sent: map<int32, Stored>, effects: seq<Effect>, p: Progress) {
    forall n :: n in sent && n >= 1 && Write(n, sent[n].bytes) in effects ==>
      Path(dir, n) in p.files && p.files[Path(dir, n)] == sent[n].bytes
  }

  ghost predicate RemoteReflects(sent: map<int32, Stored>, effects: seq<Effect>, p: Progress) {
    forall n :: n in sent && Send(n, sent[n].bytes, sent[n].etag) in effects ==>
      n in p.remote && p.remote[n] == sent[n]
  }

  ghost predicate Reflects(dir: string, sent: map<int32, Stored>, effects: seq<Effect>, p: Progress) {
    RecordsReflect(dir, sent, effects, p) && FilesReflect(dir, sent, effects, p) && RemoteReflects(sent, effects, p)
  }

  lemma RecordsApply(dir: string, sent: map<int32, Stored>, effects: seq<Effect>, p: Progress, e: Effect)
    requires RecordsReflect(dir, sent, effects, p) && Agrees(sent, e)
    ensures RecordsReflect(dir, sent, effects + [e], Apply(dir, p, e))
  {
  }

  lemma FilesApply(dir: string, sent: map<int32, Stored>, effects: seq<Effect>, p: Progress, e: Effect)
    requires FilesReflect(dir, sent, effects, p) && Agrees(sent, e)
    ensures FilesReflect(dir, sent, effects + [e], Apply(dir, p, e))
  {
    forall n | n in sent && n >= 1 && Path(dir, n) == Path(dir, e.n) ensures n == e.n {
      PartPathInjective(dir, n as nat, e.n as nat);
    }
  }

  lemma RemoteApply(dir: string, sent: map<int32, Stored>, effects: seq<Effect>, p: Progress, e: Effect)
    requires RemoteReflects(sent, effects, p) && Agrees(sent, e)
    ensures RemoteReflects(sent, effects + [e], Apply(dir, p, e))
  {
  }

  /** However the effects of the part requests interleave, the maps, files and
      stored parts end up as the parts that were sent. */
  lemma {:induction false} InterleavingReflects(dir: string, sent: map<int32, Stored>, effects: seq<Effect>,
                                                files: map<string, seq<byte>>)
    requires forall e :: e in effects ==> Agrees(sent, e)
    ensures Reflects(dir, sent, effects, ApplyAll(dir, Progress(map[], map[], files, map[]), effects))
  {
    if effects != [] {
      var last := |effects| - 1;
      InterleavingReflects(dir, sent, effects[..last], files);
      assert effects == effects[..last] + [effects[last]];
      var p := ApplyAll(dir, Progress(map[], map[], files, map[]), effects[..last]);
      RecordsApply(dir, sent, effects[..last], p, effects[last]);
      FilesApply(dir, sent, effects[..last], p, effects[last]);
      RemoteApply(dir, sent, effects[..last], p, effects[last]);
    }
  }

  // ------------------------------------------------------------ completion

  /** The bytes hashed for parts 1..n, if their files can be read. */
  function Hashed(p: Progress, n: nat): Option<seq<byte>>
    requires n <= MAX_INT32
  {
    if n == 0 then Some([])
    else
      var before := Hashed(p, n - 1);
      var k := n as int32;
      if before.Some? && k in p.partPaths && p.partPaths[k] in p.files
      then Some(before.value + p.files[p.partPaths[k]]) else None
  }

  lemma {:induction false} HashedMonotone(p: Progress, m: nat, n: nat)
    requires m <= n <= MAX_INT32 && Hashed(p, m) == None
    ensures Hashed(p, n) == None
  {
    if m < n {
      HashedMonotone(p, m, n - 1);
    }
  }

  ghost function Listed(parts: map<int32, UploadedPart>, n: nat): seq<UploadedPart>
    requires n <= MAX_INT32 && forall k: int32 :: 1 <= k as int <= n ==> k in parts
  {
    if n == 0 then [] else Listed(parts, n - 1) + [parts[n as int32]]
  }

  lemma {:induction false} ListedAt(parts: map<int32, UploadedPart>, n: nat, list: seq<UploadedPart>)
    requires n <= MAX_INT32 && forall k: int32 :: 1 <= k as int <= n ==> k in parts
    requires |list| == n && forall i :: 0 <= i < n ==> list[i] == parts[(i + 1) as int32]
    ensures list == Listed(parts, n)
  {
    if n > 0 {
      ListedAt(parts, n - 1, list[..n - 1]);
    }
  }

  /** What was sent as parts 1..n. */
  ghost function SentBytes(sent: map<int32, Stored>, n: nat): seq<byte>
    requires n <= MAX_INT32 && forall k: int32 :: 1 <= k as int <= n ==> k in sent
  {
    if n == 0 then [] else SentBytes(sent, n - 1) + sent[n as int32].bytes
  }

  ghost predicate FullyArrived(sent: map<int32, Stored>, effects: seq<Effect>) {
    && (forall e :: e in effects ==> Agrees(sent, e))
    && forall n :: n in sent ==>
         Send(n, sent[n].bytes, sent[n].etag) in effects && Write(n, sent[n].bytes) in effects
         && Record(n, sent[n].etag) in effects
  }

  lemma {:induction false} ReflectedFiles(dir: string, sent: map<int32, Stored>, effects: seq<Effect>, p: Progress,
                                          n: nat)
    requires Reflects(dir, sent, effects, p) && FullyArrived(sent, effects)
    requires n <= MAX_INT32 && forall k: int32 :: 1 <= k as int <= n ==> k in sent
    ensures Hashed(p, n) == Some(SentBytes(sent, n))
  {
    if n > 0 {
      ReflectedFiles(dir, sent, effects, p, n - 1);
      var k := n as int32;
      assert k in sent && Record(k, sent[k].etag) in effects;
    }
  }

  lemma {:induction false} ReflectedObject(dir: string, sent: map<int32, Stored>, effects: seq<Effect>, p: Progress,
                                           n: nat)
    requires Reflects(dir, sent, effects, p) && FullyArrived(sent, effects)
    requires n <= MAX_INT32 && forall k: int32 :: 1 <= k as int <= n ==> k in sent
    ensures forall k: int32 :: 1 <= k as int <= n ==> k in p.parts
    ensures Assembled(p.remote, Listed(p.parts, n)) == Some(SentBytes(sent, n))
  {
    if n > 0 {
      ReflectedObject(dir, sent, effects, p, n - 1);
      var k := n as int32;
      assert k in sent && Record(k, sent[k].etag) in effects;
      AssembledOneMore(p.remote, Listed(p.parts, n - 1), p.parts[k]);
    }
  }

  // ----------------------------------------------- the client's file arrives

  /** `sent` are the first `k` pieces of the file, under any ETags. */
  ghost predicate SendsPieces(sent: map<int32, Stored>, file: seq<byte>, partSize: nat, k: nat)
    requires partSize > 0 && k <= PartCount(|file|, partSize)
  {
    && (forall n :: n in sent <==> 1 <= n as int <= k)
    && (forall n :: n in sent ==> sent[n].bytes == Part(file, partSize, n as nat - 1))
  }

  lemma {:induction false} SentPiecesBytes(sent: map<int32, Stored>, file: seq<byte>, partSize: nat, k: nat, n: nat)
    requires partSize > 0 && n <= k <= PartCount(|file|, partSize) && k <= MAX_INT32
    requires SendsPieces(sent, file, partSize, k)
    ensures SentBytes(sent, n) == Flatten(Parts(file, partSize, n))
  {
    if n > 0 {
      SentPiecesBytes(sent, file, partSize, k, n - 1);
      FlattenLast(Parts(file, partSize, n - 1), Part(file, partSize, n - 1));
    }
  }

  /** When the first `k` pieces have arrived, in any interleaving, completion
      hashes and assembles exactly the leading bytes they cover: the server
      cannot tell a missing tail, and with all pieces it is the file. */
  lemma PiecesReassemble(dir: string, sent: map<int32, Stored>, effects: seq<Effect>, files: map<string, seq<byte>>,
                         file: seq<byte>, partSize: nat, k: nat)
    requires partSize > 0 && k <= PartCount(|file|, partSize) && k <= MAX_INT32
    requires SendsPieces(sent, file, partSize, k) && FullyArrived(sent, effects)
    ensures var p := ApplyAll(dir, Progress(map[], map[], files, map[]), effects);
            && p.parts.Keys == FirstNumbers(k) && |p.parts| == k && Contiguous(p.parts)
            && Covered(|file|, partSize, k) <= |file|
            && Hashed(p, k) == Some(file[..Covered(|file|, partSize, k)])
            && Assembled(p.remote, Listed(p.parts, k)) == Some(file[..Covered(|file|, partSize, k)])
    ensures k == PartCount(|file|, partSize) ==> Covered(|file|, partSize, k) == |file|
  {
    var p := ApplyAll(dir, Progress(map[], map[], files, map[]), effects);
    InterleavingReflects(dir, sent, effects, files);
    ReflectedFiles(dir, sent, effects, p, k);
    ReflectedObject(dir, sent, effects, p, k);
    SentPiecesBytes(sent, file, partSize, k, k);
    PartsReassemble(file, partSize, k);
    PartCountBounds(|file|, partSize);
    FirstNumbersSize(k);
    assert p.parts.Keys == FirstNumbers(k);
    assert |p.parts.Keys| == |p.parts|;
  }

  /** Every piece is one that was sent under its number. */
  ghost predicate Deliverable(pieces: seq<Piece>, sent: map<int32, Stored>) {
    forall piece :: piece in pieces ==>
      1 <= piece.partNumber <= MAX_INT32 && piece.partNumber as int32 in sent
      && sent[piece.partNumber as int32].bytes == piece.chunk
  }

  ghost predicate DeliversAll(pieces: seq<Piece>, sent: map<int32, Stored>) {
    forall n :: n in sent ==> n >= 1 && Piece(n as nat, sent[n].bytes) in pieces
  }

  /** The effects of part requests handled one after another. */
  ghost function Requests(pieces: seq<Piece>, sent: map<int32, Stored>): seq<Effect>
    requires Deliverable(pieces, sent)
  {
    if pieces == [] then []
    else
      var last := |pieces| - 1;
      var piece := pieces[last];
      assert piece in pieces;
      Requests(pieces[..last], sent)
      + PartEffects(piece.partNumber as int32, piece.chunk, sent[piece.partNumber as int32].etag)
  }

  lemma {:induction false} RequestsAgree(pieces: seq<Piece>, sent: map<int32, Stored>)
    requires Deliverable(pieces, sent)
    ensures forall e :: e in Requests(pieces, sent) ==> Agrees(sent, e)
  {
    if pieces != [] {
      var last := |pieces| - 1;
      assert pieces[last] in pieces;
      RequestsAgree(pieces[..last], sent);
    }
  }

  lemma {:induction false} RequestsCover(pieces: seq<Piece>, sent: map<int32, Stored>, n: int32)
    requires Deliverable(pieces, sent) && n in sent && n >= 1 && Piece(n as nat, sent[n].bytes) in pieces
    ensures Send(n, sent[n].bytes, sent[n].etag) in Requests(pieces, sent)
    ensures Write(n, sent[n].bytes) in Requests(pieces, sent)
    ensures Record(n, sent[n].etag) in Requests(pieces, sent)
  {
    var last := |pieces| - 1;
    var before := Requests(pieces[..last], sent);
    if pieces[last] == Piece(n as nat, sent[n].bytes) {
      var three := PartEffects(n, sent[n].bytes, sent[n].etag);
      assert Requests(pieces, sent) == before + three;
      assert three[0] in three && three[1] in three && three[2] in three;
    } else {
      assert pieces == pieces[..last] + [pieces[last]];
      RequestsCover(pieces[..last], sent, n);
    }
  }

  /** Batch by batch, each batch in any order, all pieces of the file arrive. */
  lemma BatchesFullyArrive(sent: map<int32, Stored>, file: seq<byte>, partSize: nat,
                           batches: seq<seq<Piece>>, arrived: seq<seq<Piece>>)
    requires partSize > 0 && PartCount(|file|, partSize) <= MAX_INT32
    requires SendsPieces(sent, file, partSize, PartCount(|file|, partSize))
    requires Flatten(batches) == Pieces(file, partSize, PartCount(|file|, partSize)) && BatchOrder(batches, arrived)
    ensures Deliverable(Flatten(arrived), sent)
    ensures FullyArrived(sent, Requests(Flatten(arrived), sent))
  {
    var pieces := Pieces(file, partSize, PartCount(|file|, partSize));
    BatchOrderKeepsPieces(batches, arrived);
    forall piece ensures piece in Flatten(arrived) <==> piece in pieces {
      assert piece in Flatten(arrived) <==> piece in multiset(Flatten(arrived));
      assert piece in pieces <==> piece in multiset(pieces);
    }
    PiecesDeliver(sent, file, partSize);
    RequestsAgree(Flatten(arrived), sent);
    forall n | n in sent
      ensures Send(n, sent[n].bytes, sent[n].etag) in Requests(Flatten(arrived), sent)
              && Write(n, sent[n].bytes) in Requests(Flatten(arrived), sent)
              && Record(n, sent[n].etag) in Requests(Flatten(arrived), sent)
    {
      RequestsCover(Flatten(arrived), sent, n);
    }
  }

  lemma PiecesDeliver(sent: map<int32, Stored>, file: seq<byte>, partSize: nat)
    requires partSize > 0 && PartCount(|file|, partSize) <= MAX_INT32
    requires SendsPieces(sent, file, partSize, PartCount(|file|, partSize))
    ensures Deliverable(Pieces(file, partSize, PartCount(|file|, partSize)), sent)
    ensures DeliversAll(Pieces(file, partSize, PartCount(|file|, partSize)), sent)
  {
    var count := PartCount(|file|, partSize);
    var pieces := Pieces(file, partSize, count);
    PieceAt(file, partSize, count);
    forall n | n in sent ensures n >= 1 && Piece(n as nat, sent[n].bytes) in pieces {
      assert pieces[n as int - 1] in pieces;
    }
  }

  // -------------------------------------------------------------- the server

  datatype Upload = Upload(
    userID: string, key: string, dir: string, parts: map<int32, UploadedPart>, partPaths: map<int32, string>)

  datatype Reply = Ok | BadRequest | NotFound | TooLarge | Conflict | StorageFailed | DiskFailed

  function AfterPart(dir: string, p: Progress, n: int32, body: seq<byte>, etag: string): Progress {
    Apply(dir, Apply(dir, Apply(dir, p, Send(n, body, etag)), Write(n, body)), Record(n, etag))
  }

  lemma RequestApplies(dir: string, p: Progress, effects: seq<Effect>, n: int32, body: seq<byte>, etag: string)
    ensures ApplyAll(dir, p, effects + PartEffects(n, body, etag))
            == AfterPart(dir, ApplyAll(dir, p, effects), n, body, etag)
  {
    var sent := effects + [Send(n, body, etag)];
    ApplyLast(dir, p, effects, Send(n, body, etag));
    ApplyLast(dir, p, sent, Write(n, body));
    ApplyLast(dir, p, sent + [Write(n, body)], Record(n, etag));
    assert effects + PartEffects(n, body, etag) == sent + [Write(n, body)] + [Record(n, etag)];
  }

  lemma ApplyLast(dir: string, p: Progress, effects: seq<Effect>, e: Effect)
    ensures ApplyAll(dir, p, effects + [e]) == Apply(dir, ApplyAll(dir, p, effects), e)
  {
    assert (effects + [e])[..|effects|] == effects;
  }

  ghost predicate NumberedByKey(parts: map<int32, UploadedPart>) {
    forall n :: n in parts ==> parts[n].partNumber == n
  }

  // ------------------------------------------------------------ directories

  /** The files that lie below a directory. */
  function Under(files: map<string, seq<byte>>, dir: string): map<string, seq<byte>> {
    map name | name in files && dir + "/" <= name :: files[name]
  }

  /** os.RemoveAll. */
  function WithoutDir(files: map<string, seq<byte>>, dir: string): map<string, seq<byte>> {
    map name | name in files && !(dir + "/" <= name) :: files[name]
  }

  /** No file is left below the directory; all others are as they were. */
  ghost predicate Cleared(before: map<string, seq<byte>>, after: map<string, seq<byte>>, dir: string) {
    && (forall name :: name in after <==> name in before && !(dir + "/" <= name))
    && (forall name :: name in after ==> after[name] == before[name])
  }

  /** Neither directory is the other or lies in it. */
  predicate Apart(a: string, b: string) {
    !(a + "/" <= b + "/") && !(b + "/" <= a + "/")
  }

  /** Different directories in one place, as os.MkdirTemp makes them, lie apart. */
  lemma SiblingsApart(parent: string, a: string, b: string)
    requires '/' !in a && '/' !in b && a != b
    ensures Apart(parent + "/" + a, parent + "/" + b)
  {
    var base := parent + "/";
    if base + a + "/" <= base + b + "/" {
      SiblingPrefix(base, a, b);
    }
    if base + b + "/" <= base + a + "/" {
      SiblingPrefix(base, b, a);
    }
  }

  lemma SiblingPrefix(base: string, a: string, b: string)
    requires '/' !in a && '/' !in b && base + a + "/" <= base + b + "/"
    ensures a == b
  {
    var x, y := base + a + "/", base + b + "/";
    assert x[|base|..] == a + "/" && y[|base|..] == b + "/";
    assert (a + "/")[|a|] == '/' && (b + "/")[|a|] == '/';
    forall i | 0 <= i < |b| ensures b[i] != '/' {
      assert b[i] in b;
    }
    assert |a| == |b|;
    assert a == (a + "/")[..|a|] && b == (b + "/")[..|b|];
  }

  lemma PrefixesCompare(x: string, y: string, s: string)
    requires x <= s && y <= s
    ensures x <= y || y <= x
  {
    assert x == s[..|x|] && y == s[..|y|];
    assert if |x| <= |y| then x == y[..|x|] else y == x[..|y|];
  }

  lemma ApartFiles(a: string, b: string, name: string)
    requires Apart(a, b) && a + "/" <= name
    ensures !(b + "/" <= name)
  {
    if b + "/" <= name {
      PrefixesCompare(a + "/", b + "/", name);
    }
  }

  lemma PathIsUnder(dir: string, n: int32)
    ensures dir + "/" <= Path(dir, n)
  {
    var digits := PartPathShape(dir, if n >= 0 then n as nat else 0);
    assert Path(dir, n) == (dir + "/") + (digits + ".part");
  }

  lemma UnderWritten(files: map<string, seq<byte>>, dir: string, n: int32, body: seq<byte>)
    ensures Under(files[Path(dir, n) := body], dir) == Under(files, dir)[Path(dir, n) := body]
  {
    PathIsUnder(dir, n);
  }

  lemma ApartFromWritten(files: map<string, seq<byte>>, dir: string, n: int32, body: seq<byte>, other: string)
    requires Apart(other, dir)
    ensures Under(files[Path(dir, n) := body], other) == Under(files, other)
  {
    PathIsUnder(dir, n);
    ApartFiles(dir, other, Path(dir, n));
  }

  lemma ApartFromCleared(before: map<string, seq<byte>>, after: map<string, seq<byte>>, dir: string, other: string)
    requires Cleared(before, after, dir) && Apart(other, dir)
    ensures Under(after, other) == Under(before, other)
  {
    forall name | other + "/" <= name ensures name in after <==> name in before {
      ApartFiles(other, dir, name);
    }
  }

  /** What is hashed lies below the upload's directory. */
  lemma {:induction false} HashedUnder(p: Progress, dir: string, n: nat)
    requires n <= MAX_INT32 && forall k :: k in p.partPaths ==> dir + "/" <= p.partPaths[k]
    ensures Hashed(p.(files := Under(p.files, dir)), n) == Hashed(p, n)
  {
    if n > 0 {
      HashedUnder(p, dir, n - 1);
    }
  }

  ghost predicate Finishable(p: Progress) {
    && 0 < |p.parts| < MAX_INT32 && Contiguous(p.parts)
    && Hashed(p, |p.parts|).Some? && Assembled(p.remote, Listed(p.parts, |p.parts|)).Some?
  }

  ghost function HashedBytes(p: Progress): seq<byte>
    requires Finishable(p)
  {
    Hashed(p, |p.parts|).value
  }

  ghost function AssembledBytes(p: Progress): seq<byte>
    requires Finishable(p)
  {
    Assembled(p.remote, Listed(p.parts, |p.parts|)).value
  }

  /** Every recorded part is in its file below the upload's directory. */
  ghost predicate Recorded(state: Upload) {
    && NumberedByKey(state.parts) && state.parts.Keys <= state.partPaths.Keys
    && forall n :: n in state.partPaths ==> state.partPaths[n] == Path(state.dir, n)
  }

  lemma RecordedUnder(state: Upload, files: map<string, seq<byte>>, remote: map<int32, Stored>)
    requires Recorded(state) && |state.parts| < MAX_INT32
    ensures var all := Progress(state.parts, state.partPaths, files, remote);
            var own := Progress(state.parts, state.partPaths, Under(files, state.dir), remote);
            && Hashed(all, |state.parts|) == Hashed(own, |state.parts|)
            && (Finishable(all) <==> Finishable(own))
  {
    forall n | n in state.partPaths ensures state.dir + "/" <= state.partPaths[n] {
      PathIsUnder(state.dir, n);
    }
    HashedUnder(Progress(state.parts, state.partPaths, files, remote), state.dir, |state.parts|);
  }

  // -------------------------------------------------------- repeated parts

  ghost predicate FileThere(p: Progress, k: int32) {
    k in p.partPaths && p.partPaths[k] in p.files
  }

  lemma {:induction false} HashedIff(p: Progress, n: nat)
    requires n <= MAX_INT32
    ensures Hashed(p, n).Some? <==> forall k: int32 :: 1 <= k as int <= n ==> FileThere(p, k)
  {
    if n > 0 {
      HashedIff(p, n - 1);
      assert FileThere(p, n as int32) <==> n as int32 in p.partPaths && p.partPaths[n as int32] in p.files;
    }
  }

  ghost predicate Kept(remote: map<int32, Stored>, parts: map<int32, UploadedPart>, k: int32) {
    k in parts && k in remote && remote[k].etag == parts[k].etag
  }

  ghost predicate AllKept(remote: map<int32, Stored>, parts: map<int32, UploadedPart>, n: nat) {
    forall k: int32 :: 1 <= k as int <= n ==> Kept(remote, parts, k)
  }

  lemma OneMoreKept(remote: map<int32, Stored>, parts: map<int32, UploadedPart>, n: nat)
    requires 0 < n <= MAX_INT32
    ensures AllKept(remote, parts, n) <==> AllKept(remote, parts, n - 1) && Kept(remote, parts, n as int32)
  {
  }

  /** S3 can assemble a recorded list exactly when it keeps every part under its recorded ETag. */
  lemma {:induction false} AssembledIff(remote: map<int32, Stored>, parts: map<int32, UploadedPart>, n: nat)
    requires n <= MAX_INT32 && NumberedByKey(parts) && forall k: int32 :: 1 <= k as int <= n ==> k in parts
    ensures Assembled(remote, Listed(parts, n)).Some? <==> AllKept(remote, parts, n)
  {
    if n > 0 {
      var k := n as int32;
      AssembledIff(remote, parts, n - 1);
      AssembledOneMore(remote, Listed(parts, n - 1), parts[k]);
      OneMoreKept(remote, parts, n);
    }
  }

  /** A second request for a part is refused, but only after it has rewritten
      the stored part and the temporary file. */
  lemma RepeatRewrites(dir: string, p: Progress, n: int32, body: seq<byte>, etag: string)
    requires n in p.parts
    ensures var after := AfterPart(dir, p, n, body, etag);
            && after.parts == p.parts && after.partPaths == p.partPaths
            && after.files == p.files[Path(dir, n) := body] && after.remote == p.remote[n := Stored(etag, body)]
  {
  }

  /** After a repeat of part 1 with another body, the bytes hashed are the new
      ones while the recorded ETag is the old one, which S3 no longer has. */
  lemma RepeatBreaksCompletion(dir: string, first: Stored, again: Stored)
    requires first.etag != again.etag
    ensures var p := AfterPart(dir, AfterPart(dir, Progress(map[], map[], map[], map[]), 1, first.bytes, first.etag),
                               1, again.bytes, again.etag);
            && p.parts == map[1 := CompletedPart(first.etag, 1)]
            && Hashed(p, 1) == Some(again.bytes)
            && Assembled(p.remote, [p.parts[1]]) == None
  {
    var p := AfterPart(dir, AfterPart(dir, Progress(map[], map[], map[], map[]), 1, first.bytes, first.etag),
                       1, again.bytes, again.etag);
    assert Hashed(p, 0) == Some([]) && [] + again.bytes == again.bytes;
    assert [p.parts[1]][..0] == [];
  }

  /** A repeat of any recorded part of any upload that could be completed: it
      still can be exactly when S3 answers with the recorded ETag again. */
  lemma RepeatSurvivesIff(dir: string, p: Progress, n: int32, body: seq<byte>, etag: string)
    requires Finishable(p) && NumberedByKey(p.parts) && n in p.parts
    ensures Finishable(AfterPart(dir, p, n, body, etag)) <==> etag == p.parts[n].etag
  {
    var after := AfterPart(dir, p, n, body, etag);
    RepeatRewrites(dir, p, n, body, etag);
    HashedIff(p, |p.parts|);
    HashedIff(after, |p.parts|);
    AssembledIff(p.remote, p.parts, |p.parts|);
    AssembledIff(after.remote, p.parts, |p.parts|);
    assert forall k: int32 :: FileThere(p, k) ==> FileThere(after, k);
    assert Kept(after.remote, p.parts, n) <==> etag == p.parts[n].etag;
    assert forall k: int32 :: k != n ==> (Kept(after.remote, p.parts, k) <==> Kept(p.remote, p.parts, k));
  }

  // -- any number of repeats, interleaved in any way

  /** The ETag that S3 gave the last sending of a part. */
  ghost function LastSent(effects: seq<Effect>, n: int32): Option<string> {
    if effects == [] then None
    else
      var e := effects[|effects| - 1];
      if e.Send? && e.n == n then Some(e.etag) else LastSent(effects[..|effects| - 1], n)
  }

  /** The ETag that came with the first recording of a part. */
  ghost function FirstRecorded(effects: seq<Effect>, n: int32): Option<string> {
    if effects == [] then None
    else
      var before := FirstRecorded(effects[..|effects| - 1], n);
      var e := effects[|effects| - 1];
      if before.None? && e.Record? && e.n == n then Some(e.etag) else before
  }

  ghost predicate Written(effects: seq<Effect>, n: int32) {
    exists e :: e in effects && e.Write? && e.n == n
  }

  /** A handler writes the file before it records the part. */
  ghost predicate WritesRecorded(effects: seq<Effect>) {
    forall e :: e in effects && e.Record? ==> Written(effects, e.n)
  }

  /** What the server and S3 know of one part after the effects. */
  ghost predicate Follows(dir: string, effects: seq<Effect>, p: Progress, n: int32) {
    && RecordFollows(dir, FirstRecorded(effects, n), p, n)
    && RemoteFollows(LastSent(effects, n), p, n)
    && (Written(effects, n) ==> Path(dir, n) in p.files)
  }

  ghost predicate RecordFollows(dir: string, etag: Option<string>, p: Progress, n: int32) {
    if etag.None? then n !in p.parts
    else n in p.parts && p.parts[n] == CompletedPart(etag.value, n)
         && n in p.partPaths && p.partPaths[n] == Path(dir, n)
  }

  ghost predicate RemoteFollows(etag: Option<string>, p: Progress, n: int32) {
    if etag.None? then n !in p.remote else n in p.remote && p.remote[n].etag == etag.value
  }

  lemma LastEffect(effects: seq<Effect>, e: Effect, n: int32)
    ensures LastSent(effects + [e], n) == if e.Send? && e.n == n then Some(e.etag) else LastSent(effects, n)
    ensures FirstRecorded(effects + [e], n)
            == if FirstRecorded(effects, n).None? && e.Record? && e.n == n then Some(e.etag)
               else FirstRecorded(effects, n)
    ensures Written(effects + [e], n) ==> Written(effects, n) || (e.Write? && e.n == n)
  {
    var all := effects + [e];
    assert all[..|all| - 1] == effects && all[|all| - 1] == e;
  }

  lemma FollowsApply(dir: string, effects: seq<Effect>, p: Progress, e: Effect, n: int32)
    requires Follows(dir, effects, p, n)
    ensures Follows(dir, effects + [e], Apply(dir, p, e), n)
  {
    LastEffect(effects, e, n);
  }

  lemma {:induction false} EffectsFollow(dir: string, effects: seq<Effect>, files: map<string, seq<byte>>, n: int32)
    ensures Follows(dir, effects, ApplyAll(dir, Progress(map[], map[], files, map[]), effects), n)
  {
    if effects != [] {
      var last := |effects| - 1;
      EffectsFollow(dir, effects[..last], files, n);
      assert effects == effects[..last] + [effects[last]];
      FollowsApply(dir, effects[..last], ApplyAll(dir, Progress(map[], map[], files, map[]), effects[..last]),
                   effects[last], n);
    }
  }

  lemma {:induction false} RecordedIsWritten(effects: seq<Effect>, n: int32)
    requires FirstRecorded(effects, n).Some?
    ensures exists e :: e in effects && e.Record? && e.n == n
  {
    var last := |effects| - 1;
    if FirstRecorded(effects[..last], n).Some? {
      RecordedIsWritten(effects[..last], n);
      var e :| e in effects[..last] && e.Record? && e.n == n;
      assert e in effects;
    } else {
      assert effects[last] in effects;
    }
  }

  /** What an upload needs to be completed when its part requests, with any
      repeats, have taken effect in any interleaving: parts 1..n were recorded,
      and S3's last answer for each was the one recorded first. */
  ghost predicate Consistent(effects: seq<Effect>, parts: map<int32, CompletedPart<int32>>) {
    && 0 < |parts| < MAX_INT32 && Contiguous(parts)
    && forall n :: n in parts ==> LastSent(effects, n) == FirstRecorded(effects, n)
  }

  lemma FinishableIff(dir: string, effects: seq<Effect>, files: map<string, seq<byte>>)
    requires WritesRecorded(effects)
    ensures var p := ApplyAll(dir, Progress(map[], map[], files, map[]), effects);
            && (forall n :: n in p.parts <==> FirstRecorded(effects, n).Some?)
            && (Finishable(p) <==> Consistent(effects, p.parts))
  {
    var p := ApplyAll(dir, Progress(map[], map[], files, map[]), effects);
    forall n
      ensures n in p.parts <==> FirstRecorded(effects, n).Some?
      ensures n in p.parts ==> p.parts[n].partNumber == n && FileThere(p, n)
      ensures n in p.parts ==> (Kept(p.remote, p.parts, n) <==> LastSent(effects, n) == FirstRecorded(effects, n))
    {
      EffectsFollow(dir, effects, files, n);
      if FirstRecorded(effects, n).Some? {
        RecordedIsWritten(effects, n);
      }
    }
    if 0 < |p.parts| < MAX_INT32 && Contiguous(p.parts) {
      HashedIff(p, |p.parts|);
      AssembledIff(p.remote, p.parts, |p.parts|);
    }
  }

  datatype PartRequest = PartRequest(n: int32, body: seq<byte>, etag: string)

  /** The effects of part requests handled one after another. */
  ghost function EffectsOf(requests: seq<PartRequest>): seq<Effect> {
    if requests == [] then []
    else
      var last := requests[|requests| - 1];
      EffectsOf(requests[..|requests| - 1]) + PartEffects(last.n, last.body, last.etag)
  }

  lemma {:induction false} EffectsOfWrites(requests: seq<PartRequest>)
    ensures WritesRecorded(EffectsOf(requests))
  {
    if requests != [] {
      var r := requests[|requests| - 1];
      var before, three := EffectsOf(requests[..|requests| - 1]), PartEffects(r.n, r.body, r.etag);
      EffectsOfWrites(requests[..|requests| - 1]);
      assert three[1] == Write(r.n, r.body) && three[1] in three;
      forall e | e in before + three && e.Record? ensures Written(before + three, e.n) {
        if e in before {
          var w :| w in before && w.Write? && w.n == e.n;
          assert w in before + three;
        } else {
          assert three[1] in before + three;
        }
      }
    }
  }

  /** The file of each recorded part holds what S3 holds of it. */
  ghost predicate FilesMatch(dir: string, p: Progress) {
    forall n :: n in p.parts ==>
      n >= 1 && n in p.remote && n in p.partPaths && p.partPaths[n] == Path(dir, n) && Path(dir, n) in p.files
      && p.files[Path(dir, n)] == p.remote[n].bytes
  }

  lemma MatchAfterPart(dir: string, p: Progress, n: int32, body: seq<byte>, etag: string)
    requires FilesMatch(dir, p) && n >= 1
    ensures FilesMatch(dir, AfterPart(dir, p, n, body, etag))
  {
    forall k: int32 | k >= 1 && Path(dir, k) == Path(dir, n) ensures k == n {
      PartPathInjective(dir, k as nat, n as nat);
    }
  }

  lemma {:induction false} RequestsMatch(dir: string, requests: seq<PartRequest>, files: map<string, seq<byte>>)
    requires forall r :: r in requests ==> r.n >= 1
    ensures FilesMatch(dir, ApplyAll(dir, Progress(map[], map[], files, map[]), EffectsOf(requests)))
  {
    if requests != [] {
      var last := |requests| - 1;
      var r := requests[last];
      var start := Progress(map[], map[], files, map[]);
      assert r in requests;
      RequestsMatch(dir, requests[..last], files);
      RequestApplies(dir, start, EffectsOf(requests[..last]), r.n, r.body, r.etag);
      MatchAfterPart(dir, ApplyAll(dir, start, EffectsOf(requests[..last])), r.n, r.body, r.etag);
    }
  }

  lemma {:induction false} MatchingBytes(dir: string, p: Progress, n: nat)
    requires FilesMatch(dir, p) && NumberedByKey(p.parts) && n <= MAX_INT32
    requires forall k: int32 :: 1 <= k as int <= n ==> k in p.parts
    requires Hashed(p, n).Some? && Assembled(p.remote, Listed(p.parts, n)).Some?
    ensures Hashed(p, n) == Assembled(p.remote, Listed(p.parts, n))
  {
    if n > 0 {
      AssembledOneMore(p.remote, Listed(p.parts, n - 1), p.parts[n as int32]);
      MatchingBytes(dir, p, n - 1);
    }
  }

  /** Any sequence of part requests, repeats included and other parts still
      missing or not: the upload can be completed exactly when the recorded
      numbers are 1..n and S3 gave the last request of each part the ETag that
      it gave the first; and then what is hashed is what is stored. */
  lemma RequestsFinishableIff(dir: string, requests: seq<PartRequest>, files: map<string, seq<byte>>)
    requires forall r :: r in requests ==> r.n >= 1
    ensures var effects := EffectsOf(requests);
            var p := ApplyAll(dir, Progress(map[], map[], files, map[]), effects);
            && (forall n :: n in p.parts <==> FirstRecorded(effects, n).Some?)
            && (Finishable(p) <==> Consistent(effects, p.parts))
            && (Finishable(p) ==> HashedBytes(p) == AssembledBytes(p))
  {
    var p := ApplyAll(dir, Progress(map[], map[], files, map[]), EffectsOf(requests));
    EffectsOfWrites(requests);
    FinishableIff(dir, EffectsOf(requests), files);
    RequestsMatch(dir, requests, files);
    if Finishable(p) {
      forall n | n in p.parts ensures p.parts[n].partNumber == n {
        EffectsFollow(dir, EffectsOf(requests), files, n);
      }
      MatchingBytes(dir, p, |p.parts|);
    }
  }

  /** Reads the files of the listed parts; the bytes go to the hasher. */
  method HashParts(p: Progress, parts: seq<UploadedPart>) returns (hashed: Option<seq<byte>>)
    requires |parts| <= MAX_INT32
    requires forall i :: 0 <= i < |parts| ==> parts[i].partNumber == (i + 1) as int32
    ensures hashed == Hashed(p, |parts|)
  {
    var bytes := [];
    for i := 0 to |parts|
      invariant Hashed(p, i) == Some(bytes)
    {
      var n := parts[i].partNumber;
      if n !in p.partPaths || p.partPaths[n] !in p.files {
        HashedMonotone(p, i + 1, |parts|);
        return None;
      }
      bytes := bytes + p.files[p.partPaths[n]];
    }
    return Some(bytes);
  }

  /** Completion from the ordered list on: hash the files, then ask S3. */
  method Finish(p: Progress, diskOk: bool, storageOk: bool)
    returns (reply: Reply, hashed: seq<byte>, contents: seq<byte>)
    requires 0 < |p.parts| < MAX_INT32 && NumberedByKey(p.parts)
    ensures reply == if !Contiguous(p.parts) then BadRequest
                     else if !diskOk || Hashed(p, |p.parts|).None? then DiskFailed
                     else if !storageOk || !Finishable(p) then StorageFailed
                     else Ok
    ensures reply == Ok ==> hashed == HashedBytes(p) && contents == AssembledBytes(p)
  {
    var parts := OrderedUploadParts(p.parts);
    if parts.None? {
      return BadRequest, [], [];
    }
    ListedAt(p.parts, |p.parts|, parts.value);
    var read := HashParts(p, parts.value);
    if !diskOk || read.None? {
      return DiskFailed, [], [];
    }
    var made := Assembled(p.remote, parts.value);
    if !storageOk || made.None? {
      return StorageFailed, [], [];
    }
    return Ok, read.value, made.value;
  }

  /** The answer to the owner's completion. */
  ghost function CompletionReply(p: Progress, connectionKnown: bool, diskOk: bool, storageOk: bool): Reply
    requires |p.parts| < MAX_INT32
  {
    if p.parts == map[] || !connectionKnown then NotFound
    else if !Contiguous(p.parts) then BadRequest
    else if !diskOk || Hashed(p, |p.parts|).None? then DiskFailed
    else if !storageOk || !Finishable(p) then StorageFailed
    else Ok
  }

  /** The open uploads, the temporary files and S3's open uploads. */
  datatype Contents = Contents(
    uploads: map<string, Upload>, files: map<string, seq<byte>>, remote: map<string, map<int32, Stored>>)

  ghost predicate Open(s: Contents, id: string) {
    id in s.uploads && id in s.remote
  }

  /** The progress of one upload: its records, the files below its directory, S3's parts of it. */
  ghost function ViewOf(s: Contents, id: string): Progress
    requires Open(s, id)
  {
    Progress(s.uploads[id].parts, s.uploads[id].partPaths, Under(s.files, s.uploads[id].dir), s.remote[id])
  }

  /** Every open upload whose directory lies apart is still open and has made no progress. */
  ghost predicate OthersKept(before: Contents, after: Contents, uploadID: string, dir: string) {
    forall id :: Open(before, id) && id != uploadID && Apart(before.uploads[id].dir, dir) ==>
      Open(after, id) && after.uploads[id] == before.uploads[id] && ViewOf(after, id) == ViewOf(before, id)
  }

  /** A part is received, or only sent on to S3. */
  lemma OthersKeptByPart(before: Contents, after: Contents, uploadID: string, dir: string, n: int32, body: seq<byte>)
    requires uploadID in after.uploads && after.uploads == before.uploads[uploadID := after.uploads[uploadID]]
    requires uploadID in after.remote && after.remote == before.remote[uploadID := after.remote[uploadID]]
    requires after.files == before.files || after.files == before.files[Path(dir, n) := body]
    ensures OthersKept(before, after, uploadID, dir)
  {
    forall id | Open(before, id) && id != uploadID && Apart(before.uploads[id].dir, dir)
      ensures Open(after, id) && after.uploads[id] == before.uploads[id] && ViewOf(after, id) == ViewOf(before, id)
    {
      ApartFromWritten(before.files, dir, n, body, before.uploads[id].dir);
    }
  }

  /** An upload is finished. */
  lemma OthersKeptByEnd(before: Contents, after: Contents, uploadID: string, dir: string)
    requires after.uploads == before.uploads - {uploadID}
    requires after.remote == before.remote || after.remote == before.remote - {uploadID}
    requires after.files == before.files || Cleared(before.files, after.files, dir)
    ensures OthersKept(before, after, uploadID, dir)
  {
    forall id | Open(before, id) && id != uploadID && Apart(before.uploads[id].dir, dir)
      ensures Open(after, id) && after.uploads[id] == before.uploads[id] && ViewOf(after, id) == ViewOf(before, id)
    {
      if after.files != before.files {
        ApartFromCleared(before.files, after.files, dir, before.uploads[id].dir);
      }
    }
  }

  lemma OthersKeptByNothing(s: Contents, uploadID: string, dir: string)
    ensures OthersKept(s, s, uploadID, dir)
  {
  }

  lemma EndKeepsOthers(before: Contents, after: Contents, uploadID: string)
    requires after.uploads == before.uploads - {uploadID}
    requires after.remote == before.remote || after.remote == before.remote - {uploadID}
    requires after.files == before.files
             || (uploadID in before.uploads && Cleared(before.files, after.files, before.uploads[uploadID].dir))
    ensures uploadID in before.uploads ==> OthersKept(before, after, uploadID, before.uploads[uploadID].dir)
  {
    if uploadID in before.uploads {
      OthersKeptByEnd(before, after, uploadID, before.uploads[uploadID].dir);
    }
  }

  /** What receiving a part does to the upload's own view. */
  lemma PartReceived(s: Contents, id: string, n: int32, body: seq<byte>, etag: string)
    requires Open(s, id) && Recorded(s.uploads[id])
    ensures var state := s.uploads[id];
            var files := s.files[Path(state.dir, n) := body];
            var remote := s.remote[id := s.remote[id][n := Stored(etag, body)]];
            var recorded := state.(parts := state.parts[n := CompletedPart(etag, n)],
                                   partPaths := state.partPaths[n := Path(state.dir, n)]);
            && ViewOf(Contents(s.uploads, s.files, remote), id)
               == Apply(state.dir, ViewOf(s, id), Send(n, body, etag))
            && (n in state.parts ==>
                  ViewOf(Contents(s.uploads, files, remote), id) == AfterPart(state.dir, ViewOf(s, id), n, body, etag))
            && (n !in state.parts ==>
                  ViewOf(Contents(s.uploads[id := recorded], files, remote), id)
                  == AfterPart(state.dir, ViewOf(s, id), n, body, etag))
            && Recorded(recorded)
  {
    UnderWritten(s.files, s.uploads[id].dir, n, body);
  }

  /** The upload handlers of one server. `remote` are S3's open multipart
      uploads, `objects` its finished objects. What S3 and the disk answer are
      parameters. */
  class Server {
    const partSize: nat
    var uploads: map<string, Upload>
    var files: map<string, seq<byte>>
    var remote: map<string, map<int32, Stored>>
    var objects: map<string, seq<byte>>

    constructor (partSize: nat)
      ensures this.partSize == partSize && Valid()
      ensures uploads == map[] && files == map[] && remote == map[] && objects == map[]
    {
      this.partSize := partSize;
      uploads, files, remote, objects := map[], map[], map[], map[];
    }

    ghost predicate Valid()
      reads this
    {
      uploads.Keys <= remote.Keys && forall id :: id in uploads ==> Recorded(uploads[id])
    }

    predicate Owns(userID: string, uploadID: string)
      reads this
    {
      uploadID in uploads && uploads[uploadID].userID == userID
    }

    ghost function Now(): Contents
      reads this
    {
      Contents(uploads, files, remote)
    }

    ghost function View(uploadID: string): Progress
      requires Open(Now(), uploadID)
      reads this
    {
      ViewOf(Now(), uploadID)
    }

    /** S3 opens `uploadID`, and the server keeps an empty upload for it. */
    method UploadInit(userID: string, key: string, uploadID: string, dir: string, diskOk: bool) returns (reply: Reply)
      requires Valid() && uploadID !in remote
      modifies this
      ensures Valid() && objects == old(objects) && files == old(files)
      ensures reply == if diskOk then Ok else DiskFailed
      ensures reply != Ok ==> uploads == old(uploads) && remote == old(remote)
      ensures reply == Ok ==> uploads == old(uploads)[uploadID := Upload(userID, key, dir, map[], map[])]
                              && remote == old(remote)[uploadID := map[]]
    {
      remote := remote[uploadID := map[]];
      if !diskOk {
        remote := remote - {uploadID};
        return DiskFailed;
      }
      uploads := uploads[uploadID := Upload(userID, key, dir, map[], map[])];
      return Ok;
    }

    /** S3 has accepted a part under this ETag: keep it there, write the file, record it. */
    method ReceivePart(uploadID: string, n: int32, body: seq<byte>, etag: string, diskOk: bool) returns (reply: Reply)
      requires Valid() && uploadID in uploads
      modifies this`uploads, this`files, this`remote
      ensures Valid() && Open(Now(), uploadID) && Open(old(Now()), uploadID)
      ensures reply == if !diskOk then DiskFailed
                       else if n in old(uploads)[uploadID].parts then Conflict else Ok
      ensures var dir := old(uploads)[uploadID].dir;
              && View(uploadID) == (if reply == DiskFailed then Apply(dir, old(View(uploadID)), Send(n, body, etag))
                                    else AfterPart(dir, old(View(uploadID)), n, body, etag))
              && files == (if reply == DiskFailed then old(files) else old(files)[Path(dir, n) := body])
              && OthersKept(old(Now()), Now(), uploadID, dir)
      ensures uploads == old(uploads)[uploadID := uploads[uploadID]]
              && uploads[uploadID].(parts := map[], partPaths := map[])
                 == old(uploads)[uploadID].(parts := map[], partPaths := map[])
      ensures remote == old(remote)[uploadID := remote[uploadID]]
    {
      var state := uploads[uploadID];
      ghost var before := Now();
      remote := remote[uploadID := remote[uploadID][n := Stored(etag, body)]];
      PartReceived(before, uploadID, n, body, etag);
      if !diskOk {
        OthersKeptByPart(before, Now(), uploadID, state.dir, n, body);
        return DiskFailed;
      }
      var partPath := Path(state.dir, n);
      files := files[partPath := body];
      if n in state.parts {
        OthersKeptByPart(before, Now(), uploadID, state.dir, n, body);
        return Conflict;
      }
      uploads := uploads[uploadID := state.(parts := state.parts[n := CompletedPart(etag, n)],
                                            partPaths := state.partPaths[n := partPath])];
      OthersKeptByPart(before, Now(), uploadID, state.dir, n, body);
      return Ok;
    }

    /** `partNumber` is None when it does not parse as an int32; `etag` is S3's answer, if it accepts. */
    method UploadPart(userID: string, uploadID: string, partNumber: Option<int32>, body: seq<byte>,
                      etag: Option<string>, diskOk: bool)
      returns (reply: Reply)
      requires Valid()
      modifies this
      ensures Valid() && objects == old(objects)
      ensures reply == (
                if uploadID == "" || partNumber.None? || partNumber.value < 1 then BadRequest
                else if !old(Owns(userID, uploadID)) then NotFound
                else if |body| > partSize + 1 then BadRequest
                else if |body| > partSize then TooLarge
                else if etag.None? then StorageFailed
                else if !diskOk then DiskFailed
                else if partNumber.value in old(uploads)[uploadID].parts then Conflict
                else Ok)
      ensures reply == BadRequest || reply == NotFound || reply == TooLarge || reply == StorageFailed ==>
                uploads == old(uploads) && files == old(files) && remote == old(remote)
      ensures reply == DiskFailed || reply == Conflict || reply == Ok ==>
                && Open(Now(), uploadID) && Open(old(Now()), uploadID)
                && View(uploadID) == (
                     if reply == DiskFailed
                     then Apply(old(uploads)[uploadID].dir, old(View(uploadID)),
                                Send(partNumber.value, body, etag.value))
                     else AfterPart(old(uploads)[uploadID].dir, old(View(uploadID)),
                                    partNumber.value, body, etag.value))
                && files == (if reply == DiskFailed then old(files)
                             else old(files)[Path(old(uploads)[uploadID].dir, partNumber.value) := body])
                && uploads == old(uploads)[uploadID := uploads[uploadID]]
                && uploads[uploadID].(parts := map[], partPaths := map[])
                   == old(uploads)[uploadID].(parts := map[], partPaths := map[])
                && remote == old(remote)[uploadID := remote[uploadID]]
                && OthersKept(old(Now()), Now(), uploadID, old(uploads)[uploadID].dir)
    {
      if uploadID == "" || partNumber.None? || partNumber.value < 1 {
        return BadRequest;
      }
      if !Owns(userID, uploadID) {
        return NotFound;
      }
      // http.MaxBytesReader: reading more than one byte beyond a part fails.
      if |body| > partSize + 1 {
        return BadRequest;
      }
      if |body| > partSize {
        return TooLarge;
      }
      if etag.None? {
        return StorageFailed;
      }
      reply := ReceivePart(uploadID, partNumber.value, body, etag.value, diskOk);
    }

    /** The owner's completion, once the record is taken out. */
    method CompleteOwned(state: Upload, uploadID: string, connectionKnown: bool, diskOk: bool, storageOk: bool)
      returns (reply: Reply, hashed: seq<byte>)
      requires Recorded(state) && |state.parts| < MAX_INT32 && uploadID in remote
      modifies this`files, this`remote, this`objects
      ensures var p := Progress(state.parts, state.partPaths, Under(old(files), state.dir), old(remote)[uploadID]);
              && reply == CompletionReply(p, connectionKnown, diskOk, storageOk)
              && (reply == Ok ==> hashed == HashedBytes(p)
                                  && objects == old(objects)[state.key := AssembledBytes(p)])
      ensures reply != Ok ==> objects == old(objects)
      ensures if state.parts == map[] || !connectionKnown then files == old(files)
              else Cleared(old(files), files, state.dir)
      ensures remote == if reply == Ok || reply == StorageFailed then old(remote) - {uploadID} else old(remote)
    {
      if |state.parts| == 0 || !connectionKnown {
        return NotFound, [];
      }
      var contents;
      RecordedUnder(state, files, remote[uploadID]);
      reply, hashed, contents :=
        Finish(Progress(state.parts, state.partPaths, files, remote[uploadID]), diskOk, storageOk);
      files := WithoutDir(files, state.dir);
      if reply == Ok || reply == StorageFailed {
        remote := remote - {uploadID};
      }
      if reply == Ok {
        objects := objects[state.key := contents];
      }
    }

    /** A named upload is forgotten whatever the outcome. `connectionKnown` is what
        connectionValue answers; `diskOk` and `storageOk` whether the disk and S3
        answer at all. */
    method UploadComplete(userID: string, uploadID: string, connectionKnown: bool, diskOk: bool, storageOk: bool)
      returns (reply: Reply, hashed: seq<byte>)
      requires Valid() && (uploadID in uploads ==> |uploads[uploadID].parts| < MAX_INT32)
      modifies this
      ensures Valid()
      ensures uploads == if uploadID == "" then old(uploads) else old(uploads) - {uploadID}
      ensures uploadID == "" || !old(Owns(userID, uploadID)) ==>
                && reply == (if uploadID == "" then BadRequest else NotFound)
                && files == old(files) && remote == old(remote) && objects == old(objects)
      ensures uploadID != "" && old(Owns(userID, uploadID)) ==>
                && reply == CompletionReply(old(View(uploadID)), connectionKnown, diskOk, storageOk)
                && (if old(uploads)[uploadID].parts == map[] || !connectionKnown then files == old(files)
                    else Cleared(old(files), files, old(uploads)[uploadID].dir))
                && remote == (if reply == Ok || reply == StorageFailed then old(remote) - {uploadID} else old(remote))
      ensures uploadID in old(uploads) ==> OthersKept(old(Now()), Now(), uploadID, old(uploads)[uploadID].dir)
      ensures reply != Ok ==> objects == old(objects)
      ensures reply == Ok <==> uploadID != "" && old(Owns(userID, uploadID)) && connectionKnown && diskOk && storageOk
                               && Finishable(old(View(uploadID)))
      ensures reply == Ok ==> hashed == HashedBytes(old(View(uploadID)))
                              && objects == old(objects)[old(uploads)[uploadID].key :=
                                                         AssembledBytes(old(View(uploadID)))]
    {
      ghost var before := Now();
      if uploadID == "" {
        if uploadID in uploads {
          OthersKeptByNothing(before, uploadID, uploads[uploadID].dir);
        }
        return BadRequest, [];
      }
      if !Owns(userID, uploadID) {
        uploads := uploads - {uploadID};
        EndKeepsOthers(before, Now(), uploadID);
        return NotFound, [];
      }
      var state := uploads[uploadID];
      uploads := uploads - {uploadID};
      reply, hashed := CompleteOwned(state, uploadID, connectionKnown, diskOk, storageOk);
      EndKeepsOthers(before, Now(), uploadID);
    }

    method UploadAbort(userID: string, uploadID: string) returns (reply: Reply)
      requires Valid()
      modifies this
      ensures Valid() && reply == Ok && objects == old(objects)
      ensures uploads == old(uploads) - {uploadID}
      ensures if old(Owns(userID, uploadID))
              then remote == old(remote) - {uploadID} && Cleared(old(files), files, old(uploads)[uploadID].dir)
              else remote == old(remote) && files == old(files)
      ensures uploadID in old(uploads) ==>
                OthersKept(old(Now()), Now(), uploadID, old(uploads)[uploadID].dir)
    {
      ghost var before := Now();
      if Owns(userID, uploadID) {
        remote := remote - {uploadID};
        files := WithoutDir(files, uploads[uploadID].dir);
      }
      uploads := uploads - {uploadID};
      EndKeepsOthers(before, Now(), uploadID);
      return Ok;
    }
  }

  /** A completion of the first `k` pieces is accepted, and it yields the
      client's file exactly when they are all the pieces. */
  lemma CompletionYieldsFileIff(dir: string, sent: map<int32, Stored>, effects: seq<Effect>,
                                files: map<string, seq<byte>>, file: seq<byte>, partSize: nat, k: nat)
    requires partSize > 0 && 0 < k <= PartCount(|file|, partSize) && k < MAX_INT32
    requires SendsPieces(sent, file, partSize, k) && FullyArrived(sent, effects)
    ensures var p := ApplyAll(dir, Progress(map[], map[], files, map[]), effects);
            && Finishable(p) && HashedBytes(p) == AssembledBytes(p)
            && (AssembledBytes(p) == file <==> k == PartCount(|file|, partSize))
  {
    PiecesReassemble(dir, sent, effects, files, file, partSize, k);
    if k < PartCount(|file|, partSize) {
      PartsTile(|file|, partSize, k);
    } else {
      assert file[..|file|] == file;
    }
  }

  /** From the browser's slices to the stored object: for every file, part size,
      batching, order of arrival inside each batch, and interleaving of what the
      requests do, a completed upload hashes and stores exactly the file. */
  lemma UploadYieldsTheFile(dir: string, sent: map<int32, Stored>, files: map<string, seq<byte>>, file: seq<byte>,
                            partSize: nat, batches: seq<seq<Piece>>, arrived: seq<seq<Piece>>, effects: seq<Effect>)
    requires partSize > 0 && file != [] && PartCount(|file|, partSize) < MAX_INT32
    requires SendsPieces(sent, file, partSize, PartCount(|file|, partSize))
    requires Flatten(batches) == Pieces(file, partSize, PartCount(|file|, partSize)) && BatchOrder(batches, arrived)
    requires Deliverable(Flatten(arrived), sent) ==> forall e :: e in effects <==> e in Requests(Flatten(arrived), sent)
    ensures var p := ApplyAll(dir, Progress(map[], map[], files, map[]), effects);
            Finishable(p) && HashedBytes(p) == file && AssembledBytes(p) == file
  {
    PartCountBounds(|file|, partSize);
    BatchesFullyArrive(sent, file, partSize, batches, arrived);
    assert FullyArrived(sent, effects);
    CompletionYieldsFileIff(dir, sent, effects, files, file, partSize, PartCount(|file|, partSize));
  }
}
