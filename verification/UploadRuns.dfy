/** Whole uploads: the browser's loop against the server's handlers, with parts
    of a batch arriving in any order and calls that may fail
    (frontend/src/api.ts, internal/httpapi/server.go). */
module UploadRuns {
  import opened ClientUpload
  import opened Lists
  import opened PartPlan
  import opened UploadServer
  import opened Wrappers

  /** The requests of a batch finish in some order. */
  method AnyOrder(batch: seq<Piece>) returns (order: seq<Piece>)
    ensures multiset(order) == multiset(batch)
  {
    order := [];
    var left := batch;
    while left != []
      invariant multiset(order) + multiset(left) == multiset(batch)
      decreases |left|
    {
      var k: int := *;
      if k < 0 || k >= |left| {
        k := 0;
      }
      assert left == left[..k] + [left[k]] + left[k + 1..];
      order, left := order + [left[k]], left[..k] + left[k + 1..];
    }
  }

  method Arrive(batches: seq<seq<Piece>>) returns (arrived: seq<seq<Piece>>)
    ensures BatchOrder(batches, arrived)
  {
    arrived := [];
    for i := 0 to |batches|
      invariant |arrived| == i && forall j :: 0 <= j < i ==> multiset(arrived[j]) == multiset(batches[j])
    {
      var order := AnyOrder(batches[i]);
      arrived := arrived + [order];
    }
  }

  ghost predicate DistinctNumbers(pieces: seq<Piece>) {
    forall i, j :: 0 <= i < j < |pieces| ==> pieces[i].partNumber != pieces[j].partNumber
  }

  ghost predicate Fit(pieces: seq<Piece>, partSize: nat) {
    forall i :: 0 <= i < |pieces| ==> |pieces[i].chunk| <= partSize
  }

  /** An upload of this user that has received nothing yet. */
  ghost predicate Opened(server: Server, userID: string, uploadID: string)
    reads server
  {
    && uploadID != "" && server.Valid() && server.Owns(userID, uploadID)
    && server.uploads[uploadID].parts == map[] && server.uploads[uploadID].partPaths == map[]
    && server.remote[uploadID] == map[]
  }

  function Number(piece: Piece): int32 {
    if piece.partNumber <= MAX_INT32 then piece.partNumber as int32 else 0
  }

  lemma DeliverableFront(pieces: seq<Piece>, i: nat, sent: map<int32, Stored>)
    requires i <= |pieces| && Deliverable(pieces, sent)
    ensures Deliverable(pieces[..i], sent)
  {
  }

  /** What the server has after the first `i` pieces, handled one after another. */
  ghost function Received(dir: string, start: Progress, pieces: seq<Piece>, i: nat, sent: map<int32, Stored>): Progress
    requires i <= |pieces| && Deliverable(pieces, sent)
  {
    DeliverableFront(pieces, i, sent);
    ApplyAll(dir, start, Requests(pieces[..i], sent))
  }

  lemma OneMore(dir: string, start: Progress, pieces: seq<Piece>, i: nat, sent: map<int32, Stored>)
    requires i < |pieces| && Deliverable(pieces, sent)
    ensures var n := Number(pieces[i]);
            && n >= 1 && n in sent && n as nat == pieces[i].partNumber
            && Received(dir, start, pieces, i + 1, sent)
               == AfterPart(dir, Received(dir, start, pieces, i, sent), n, pieces[i].chunk, sent[n].etag)
  {
    var n := Number(pieces[i]);
    assert pieces[i] in pieces;
    DeliverableFront(pieces, i + 1, sent);
    assert pieces[..i + 1][..i] == pieces[..i] && pieces[..i + 1][i] == pieces[i];
    RequestApplies(dir, start, Requests(pieces[..i], sent), n, pieces[i].chunk, sent[n].etag);
  }

  // ------------------------------------------------- other uploads meanwhile

  /** No other open upload has its directory in, around or at this one's. */
  ghost predicate DirectoryAlone(server: Server, uploadID: string)
    requires uploadID in server.uploads
    reads server
  {
    forall id :: id in server.uploads && id != uploadID ==>
      Apart(server.uploads[id].dir, server.uploads[uploadID].dir)
  }

  /** The upload is as it was. */
  ghost predicate Undisturbed(before: Contents, after: Contents, uploadID: string) {
    && Open(before, uploadID) && Open(after, uploadID)
    && after.uploads[uploadID] == before.uploads[uploadID] && ViewOf(after, uploadID) == ViewOf(before, uploadID)
  }

  lemma ApartBothWays(a: string, b: string)
    ensures Apart(a, b) <==> Apart(b, a)
  {
  }

  /** Any request of any user about another upload: it is opened, gets a part,
      is completed or is aborted. */
  method OtherRequest(server: Server, uploadID: string)
    requires server.Valid() && uploadID in server.uploads && DirectoryAlone(server, uploadID)
    modifies server
    ensures server.Valid() && Undisturbed(old(server.Now()), server.Now(), uploadID)
    ensures DirectoryAlone(server, uploadID)
  {
    var id: string := *;
    var user: string := *;
    if id == uploadID {
      return;
    }
    var kind: int := *;
    var diskOk: bool := *;
    var storageOk: bool := *;
    var reply;
    if id in server.uploads {
      ApartBothWays(server.uploads[id].dir, server.uploads[uploadID].dir);
    }
    if kind == 0 {
      var dir: string := *;
      var key: string := *;
      if id !in server.remote && Apart(dir, server.uploads[uploadID].dir) {
        reply := server.UploadInit(user, key, id, dir, diskOk);
      }
    } else if kind == 1 {
      var n: Option<int32> := *;
      var body: seq<byte> := *;
      var etag: Option<string> := *;
      reply := server.UploadPart(user, id, n, body, etag, diskOk);
    } else if kind == 2 && (id in server.uploads ==> |server.uploads[id].parts| < MAX_INT32) {
      var known: bool := *;
      var hashed;
      reply, hashed := server.UploadComplete(user, id, known, diskOk, storageOk);
    } else {
      reply := server.UploadAbort(user, id);
    }
  }

  /** Any number of them, or none. */
  method Meanwhile(server: Server, uploadID: string, others: bool)
    requires server.Valid() && uploadID in server.uploads && (others ==> DirectoryAlone(server, uploadID))
    modifies server
    ensures server.Valid() && Undisturbed(old(server.Now()), server.Now(), uploadID)
    ensures others ==> DirectoryAlone(server, uploadID)
    ensures !others ==> server.objects == old(server.objects) && server.Now() == old(server.Now())
  {
    if !others {
      return;
    }
    var requests: int := *;
    while requests > 0
      invariant server.Valid() && Undisturbed(old(server.Now()), server.Now(), uploadID)
      invariant DirectoryAlone(server, uploadID)
    {
      OtherRequest(server, uploadID);
      requests := requests - 1;
    }
  }

  // ------------------------------------------------------------ one upload

  /** One request for a part; `reliable`: neither S3 nor the disk fails. */
  method SendPiece(server: Server, userID: string, uploadID: string, piece: Piece, etag: string, reliable: bool)
    returns (ok: bool)
    requires uploadID != "" && server.Valid() && server.Owns(userID, uploadID)
    requires 1 <= Number(piece) && |piece.chunk| <= server.partSize
    modifies server
    ensures server.Valid() && server.Owns(userID, uploadID) && server.objects == old(server.objects)
    ensures server.uploads[uploadID].key == old(server.uploads[uploadID].key)
    ensures server.uploads[uploadID].dir == old(server.uploads[uploadID].dir)
    ensures ok ==> server.View(uploadID)
                   == AfterPart(old(server.uploads[uploadID].dir), old(server.View(uploadID)),
                                Number(piece), piece.chunk, etag)
    ensures old(DirectoryAlone(server, uploadID)) ==> DirectoryAlone(server, uploadID)
    ensures reliable && Number(piece) !in old(server.uploads[uploadID].parts) ==> ok
  {
    var accepted: bool := *;
    var written: bool := *;
    var answer := if accepted || reliable then Some(etag) else None;
    var reply := server.UploadPart(userID, uploadID, Some(Number(piece)), piece.chunk, answer, written || reliable);
    ok := reply == Ok;
  }

  /** Sends the pieces, in the order in which they arrive, until one is refused.
      `others`: requests about other uploads are handled in between. */
  method SendAll(server: Server, userID: string, uploadID: string, pieces: seq<Piece>, sent: map<int32, Stored>,
                 reliable: bool, others: bool)
    returns (ok: bool)
    requires Opened(server, userID, uploadID) && Deliverable(pieces, sent) && Fit(pieces, server.partSize)
    requires others ==> DirectoryAlone(server, uploadID)
    modifies server
    ensures server.Valid() && server.Owns(userID, uploadID)
    ensures others ==> DirectoryAlone(server, uploadID)
    ensures !others ==> server.objects == old(server.objects)
    ensures server.uploads[uploadID].key == old(server.uploads[uploadID].key)
    ensures ok ==> server.View(uploadID)
                   == ApplyAll(old(server.uploads[uploadID].dir), old(server.View(uploadID)), Requests(pieces, sent))
    ensures reliable && DistinctNumbers(pieces) ==> ok
  {
    ghost var dir, start := server.uploads[uploadID].dir, server.View(uploadID);
    for i := 0 to |pieces|
      invariant server.Valid() && server.Owns(userID, uploadID)
      invariant others ==> DirectoryAlone(server, uploadID)
      invariant !others ==> server.objects == old(server.objects)
      invariant server.uploads[uploadID].key == old(server.uploads[uploadID].key)
      invariant server.uploads[uploadID].dir == dir
      invariant server.View(uploadID) == Received(dir, start, pieces, i, sent)
      invariant DistinctNumbers(pieces) ==>
                  forall j :: i <= j < |pieces| ==> Number(pieces[j]) !in server.uploads[uploadID].parts
    {
      OneMore(dir, start, pieces, i, sent);
      var n := Number(pieces[i]);
      NumbersDiffer(pieces, sent, i);
      Meanwhile(server, uploadID, others);
      ok := SendPiece(server, userID, uploadID, pieces[i], sent[n].etag, reliable);
      if !ok {
        return;
      }
    }
    assert pieces[..|pieces|] == pieces;
    return true;
  }

  lemma NumbersDiffer(pieces: seq<Piece>, sent: map<int32, Stored>, i: nat)
    requires i < |pieces| && Deliverable(pieces, sent)
    ensures DistinctNumbers(pieces) ==> forall j :: i < j < |pieces| ==> Number(pieces[j]) != Number(pieces[i])
  {
    assert forall j :: 0 <= j < |pieces| ==> pieces[j] in pieces;
  }

  lemma PartFits(file: seq<byte>, partSize: nat, i: nat)
    requires partSize > 0 && i < PartCount(|file|, partSize)
    ensures |Part(file, partSize, i)| <= partSize
  {
    PartsTile(|file|, partSize, i);
  }

  /** The pieces of a file have different numbers and fit the server. */
  lemma FilePieces(file: seq<byte>, partSize: nat)
    requires partSize > 0
    ensures var all := Pieces(file, partSize, PartCount(|file|, partSize));
            DistinctNumbers(all) && Fit(all, partSize)
  {
    var count := PartCount(|file|, partSize);
    var all := Pieces(file, partSize, count);
    PieceAt(file, partSize, count);
    forall i | 0 <= i < |all| ensures |all[i].chunk| <= partSize {
      assert all[i] == Piece(i + 1, Part(file, partSize, i));
      PartFits(file, partSize, i);
    }
  }

  /** So do they in whatever order they arrive. */
  lemma Reordered(pieces: seq<Piece>, all: seq<Piece>, partSize: nat)
    requires multiset(pieces) == multiset(all) && DistinctNumbers(all) && Fit(all, partSize)
    ensures DistinctNumbers(pieces) && Fit(pieces, partSize)
  {
    forall i | 0 <= i < |pieces| ensures pieces[i] in all && |pieces[i].chunk| <= partSize {
      assert pieces[i] in multiset(pieces);
    }
    forall i, j | 0 <= i < j < |pieces| ensures pieces[i].partNumber != pieces[j].partNumber {
      if pieces[i].partNumber == pieces[j].partNumber {
        var k :| 0 <= k < |all| && all[k] == pieces[i];
        Twice(pieces, i, j);
        Once(all, k);
        assert false;
      }
    }
  }

  lemma Twice(s: seq<Piece>, i: nat, j: nat)
    requires i < j < |s| && s[i] == s[j]
    ensures multiset(s)[s[i]] >= 2
  {
    assert s == s[..j] + s[j..];
    assert s[i] in s[..j] && s[i] in s[j..] by {
      assert s[..j][i] == s[i] && s[j..][0] == s[i];
    }
  }

  lemma Once(s: seq<Piece>, k: nat)
    requires k < |s| && forall i, j :: 0 <= i < j < |s| ==> s[i] != s[j]
    ensures multiset(s)[s[k]] == 1
  {
    assert s == s[..k] + [s[k]] + s[k + 1..];
    assert s[k] !in s[..k] && s[k] !in s[k + 1..];
  }

  /** The slices of a file in some order of arrival. */
  method SliceAndArrive(file: seq<byte>, partSize: nat, concurrency: int, sent: map<int32, Stored>)
    returns (pieces: seq<Piece>, ghost batches: seq<seq<Piece>>, ghost arrived: seq<seq<Piece>>)
    requires partSize > 0 && PartCount(|file|, partSize) < MAX_INT32
    requires SendsPieces(sent, file, partSize, PartCount(|file|, partSize))
    ensures Flatten(batches) == Pieces(file, partSize, PartCount(|file|, partSize)) && BatchOrder(batches, arrived)
    ensures pieces == Flatten(arrived) && Deliverable(pieces, sent)
    ensures DistinctNumbers(pieces) && Fit(pieces, partSize)
  {
    var slices := Slice(file, partSize, concurrency);
    var order := Arrive(slices);
    pieces, batches, arrived := Flatten(order), slices, order;
    BatchesFullyArrive(sent, file, partSize, batches, arrived);
    BatchOrderKeepsPieces(batches, arrived);
    FilePieces(file, partSize);
    Reordered(pieces, Flatten(batches), partSize);
  }

  /** uploadComplete of an upload that holds the whole file. */
  method Complete(server: Server, userID: string, uploadID: string, ghost file: seq<byte>, reliable: bool)
    returns (ok: bool, hashed: seq<byte>)
    requires server.Valid() && uploadID != "" && server.Owns(userID, uploadID)
    requires var p := server.View(uploadID); Finishable(p) && HashedBytes(p) == file && AssembledBytes(p) == file
    modifies server
    ensures server.Valid() && uploadID !in server.uploads
    ensures ok ==> hashed == file
                   && server.objects == old(server.objects)[old(server.uploads[uploadID].key) := file]
    ensures !ok ==> server.objects == old(server.objects)
    ensures reliable ==> ok
  {
    var known: bool := *;
    var read: bool := *;
    var answered: bool := *;
    var reply;
    reply, hashed :=
      server.UploadComplete(userID, uploadID, known || reliable, read || reliable, answered || reliable);
    ok := reply == Ok;
  }

  /** uploadInit, all parts in any order inside their batches, uploadComplete;
      after a failure uploadAbort. `sent` says which ETags S3 answers with, and
      `others` that any requests about other uploads are handled in between, as
      opening, filling, completing or aborting them: whatever they do, this
      upload yields its file. */
  method UploadFile(server: Server, userID: string, key: string, uploadID: string, dir: string, file: seq<byte>,
                    concurrency: int, sent: map<int32, Stored>, reliable: bool, others: bool)
    returns (ok: bool, hashed: seq<byte>)
    requires server.Valid() && uploadID != "" && uploadID !in server.remote && server.partSize > 0
    requires others ==> forall id :: id in server.uploads ==> Apart(server.uploads[id].dir, dir)
    requires file != [] && PartCount(|file|, server.partSize) < MAX_INT32
    requires SendsPieces(sent, file, server.partSize, PartCount(|file|, server.partSize))
    modifies server
    ensures server.Valid() && uploadID !in server.uploads
    ensures ok ==> key in server.objects && server.objects[key] == file && hashed == file
    ensures ok && !others ==> server.objects == old(server.objects)[key := file]
    ensures !ok && !others ==> server.objects == old(server.objects)
    ensures reliable ==> ok
  {
    hashed := [];
    var made: bool := *;
    var reply := server.UploadInit(userID, key, uploadID, dir, made || reliable);
    if reply != Ok {
      return false, [];
    }
    ghost var files := Under(server.files, dir);
    var pieces;
    ghost var batches, arrived;
    pieces, batches, arrived := SliceAndArrive(file, server.partSize, concurrency, sent);
    ok := SendAll(server, userID, uploadID, pieces, sent, reliable, others);
    Meanwhile(server, uploadID, others);
    if ok {
      UploadYieldsTheFile(dir, sent, files, file, server.partSize, batches, arrived, Requests(pieces, sent));
      ok, hashed := Complete(server, userID, uploadID, file, reliable);
    }
    if !ok {
      reply := server.UploadAbort(userID, uploadID);
    }
  }

  datatype Naming =
    | PartOf(partNumber: Option<int32>, body: seq<byte>, etag: Option<string>)
    | Completion(connectionKnown: bool)
    | Abortion

  /** Another user's request that names an open upload changes no file, part or
      object, but the owner's record is kept exactly when the request is for a
      part: completion and abort take it out before they look at whose it is.
      Without it the owner's next part is refused. */
  method NamedByAnother(server: Server, owner: string, other: string, uploadID: string, request: Naming,
                        next: seq<byte>, diskOk: bool, storageOk: bool)
    returns (kept: bool, reply: Reply)
    requires server.Valid() && uploadID != "" && server.Owns(owner, uploadID) && other != owner
    requires |server.uploads[uploadID].parts| < MAX_INT32 && |next| <= server.partSize
    modifies server
    ensures server.Valid() && server.objects == old(server.objects)
    ensures kept <==> request.PartOf?
    ensures kept ==> server.Owns(owner, uploadID) && reply != NotFound
    ensures !kept ==> && server.uploads == old(server.uploads) - {uploadID} && server.files == old(server.files)
                      && server.remote == old(server.remote) && reply == NotFound
  {
    match request {
      case PartOf(partNumber, body, etag) =>
        reply := server.UploadPart(other, uploadID, partNumber, body, etag, diskOk);
      case Completion(connectionKnown) =>
        var hashed;
        reply, hashed := server.UploadComplete(other, uploadID, connectionKnown, diskOk, storageOk);
      case Abortion =>
        reply := server.UploadAbort(other, uploadID);
    }
    kept := uploadID in server.uploads;
    reply := server.UploadPart(owner, uploadID, Some(1), next, Some(""), diskOk);
  }
}
