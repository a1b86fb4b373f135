/** The worker pool of the server's multipart upload, as a step system
    (internal/service/s3/service.go, uploadMultipart). A step is one action of
    the producer, of a worker, of S3 or of the caller's context; the unbuffered
    channel makes sending and receiving one step. */
module MultipartPool {
  import opened Lists
  import opened Wrappers
  import opened PartPlan

  const MAX_INT64 := 0x7fff_ffff_ffff_ffff
  const MAX_INT32 := 0x7fff_ffff

  /** int32(x). */
  function Int32(x: int): int {
    (x + 0x8000_0000) % 0x1_0000_0000 - 0x8000_0000
  }

  datatype Config = Config(file: seq<byte>, partSize: nat, concurrency: nat) {
    /** The settings are positive and neither the rounding sum (int64) nor a
        part number (int32) overflows. */
    ghost predicate Valid() {
      partSize > 0 && concurrency > 0 && |file| + partSize - 1 <= MAX_INT64 && Count() <= MAX_INT32
    }

    function Count(): nat
      requires partSize > 0
    {
      PartCount(|file|, partSize)
    }

    function Workers(): nat
      requires partSize > 0
    {
      if Count() < concurrency then Count() else concurrency
    }
  }

  function PartNumber(i: nat): int {
    Int32(i + 1)
  }

  datatype Worker =
    | Idle                                    // at the head of `range jobs`
    | Uploading(part: nat)                    // inside client.UploadPart
    | Uploaded(part: nat, etag: string)       // about to write its slot
    | Failed(error: string)                   // about to call errOnce.Do
    | InOnce                                  // has set firstErr, about to cancel
    | Gone

  datatype Producer =
    | Select(part: nat)                       // at the select statement
    | Check(part: nat)                        // at the test of partCtx.Err()
    | Closing                                 // at close(jobs)
    | Waiting                                 // at workersWG.Wait()
    | Completing                              // at CompleteMultipartUpload
    | MustAbort(error: string)                // at the deferred abort
    | Returned(failure: Option<string>)

  /** `received[i]` is the worker that took part `i`; `writes` are the slot
      writes so far, as pairs of worker and slot. */
  datatype State = State(
    producer: Producer,
    workers: seq<Worker>,
    slots: seq<Option<CompletedPart<int>>>,
    firstError: Option<string>,
    cancelled: bool,
    outerCancelled: bool,
    remote: map<int, Stored>,
    received: seq<nat>,
    writes: seq<(nat, nat)>,
    completes: nat,
    aborts: nat)
  {
    /** partCtx is done. */
    predicate ContextDone() {
      cancelled || outerCancelled
    }
  }

  function Init(c: Config): State
    requires c.partSize > 0
  {
    State(if c.Count() > 0 then Select(0) else Closing,
          seq(c.Workers(), _ => Idle), seq(c.Count(), _ => None),
          None, false, false, map[], [], [], 0, 0)
  }

  datatype Step =
    | HandOff(w: nat)
    | SeeCancel
    | Proceed
    | Close
    | Leave(w: nat)
    | UploadOk(w: nat, etag: string)
    | UploadFail(w: nat, error: string, reached: Option<string>)  // the bytes may have arrived all the same
    | Store(w: nat)
    | EnterOnce(w: nat)
    | SkipOnce(w: nat)
    | CancelRest(w: nat)
    | Join
    | CompleteOk
    | CompleteFail(error: string)
    | Abort
    | OuterCancel

  ghost predicate Enabled(s: State, step: Step) {
    match step
    case HandOff(w) => s.producer.Select? && w < |s.workers| && s.workers[w].Idle?
    case SeeCancel => s.producer.Select? && s.ContextDone()
    case Proceed => s.producer.Check?
    case Close => s.producer.Closing?
    case Leave(w) => s.producer.Waiting? && w < |s.workers| && s.workers[w].Idle?
    case UploadOk(w, _) => w < |s.workers| && s.workers[w].Uploading?
    case UploadFail(w, _, _) => w < |s.workers| && s.workers[w].Uploading?
    case Store(w) => w < |s.workers| && s.workers[w].Uploaded? && s.workers[w].part < |s.slots|
    case EnterOnce(w) => w < |s.workers| && s.workers[w].Failed? && s.firstError.None?
    case SkipOnce(w) => w < |s.workers| && s.workers[w].Failed? && s.firstError.Some? && InOnce !in s.workers
    case CancelRest(w) => w < |s.workers| && s.workers[w].InOnce?
    case Join => s.producer.Waiting? && forall w :: 0 <= w < |s.workers| ==> s.workers[w].Gone?
    case CompleteOk => s.producer.Completing?
    case CompleteFail(_) => s.producer.Completing?
    case Abort => s.producer.MustAbort?
    case OuterCancel => !s.outerCancelled && !s.producer.Returned?
  }

  ghost function Sent(c: Config, i: nat, etag: string): Stored
    requires c.partSize > 0
  {
    Stored(etag, if i < c.Count() then Part(c.file, c.partSize, i) else [])
  }

  ghost function Apply(c: Config, s: State, step: Step): State
    requires c.partSize > 0 && Enabled(s, step)
  {
    match step
    case HandOff(w) =>
      var i := s.producer.part;
      s.(producer := Check(i), workers := s.workers[w := Uploading(i)], received := s.received + [w])
    case SeeCancel => s.(producer := Check(s.producer.part))
    case Proceed =>
      var i := s.producer.part;
      s.(producer := if s.ContextDone() || i + 1 >= c.Count() then Closing else Select(i + 1))
    case Close => s.(producer := Waiting)
    case Leave(w) => s.(workers := s.workers[w := Gone])
    case UploadOk(w, etag) =>
      var i := s.workers[w].part;
      s.(workers := s.workers[w := Uploaded(i, etag)], remote := s.remote[PartNumber(i) := Sent(c, i, etag)])
    case UploadFail(w, error, reached) =>
      var i := s.workers[w].part;
      s.(workers := s.workers[w := Failed(error)],
         remote := if reached.Some? then s.remote[PartNumber(i) := Sent(c, i, reached.value)] else s.remote)
    case Store(w) =>
      var i := s.workers[w].part;
      s.(workers := s.workers[w := Idle], writes := s.writes + [(w, i)],
         slots := s.slots[i := Some(CompletedPart(s.workers[w].etag, PartNumber(i)))])
    case EnterOnce(w) => s.(workers := s.workers[w := InOnce], firstError := Some(s.workers[w].error))
    case SkipOnce(w) => s.(workers := s.workers[w := Gone])
    case CancelRest(w) => s.(workers := s.workers[w := Gone], cancelled := true)
    case Join => s.(producer := if s.firstError.Some? then MustAbort(s.firstError.value) else Completing)
    case CompleteOk => s.(producer := Returned(None), completes := s.completes + 1)
    case CompleteFail(error) => s.(producer := MustAbort(error))
    case Abort => s.(producer := Returned(Some(s.producer.error)), aborts := s.aborts + 1)
    case OuterCancel => s.(outerCancelled := true)
  }

  /** The state after a run, if every step of it was enabled. */
  ghost function Exec(c: Config, steps: seq<Step>): Option<State>
    requires c.partSize > 0
  {
    if steps == [] then Some(Init(c))
    else
      var before := Exec(c, steps[..|steps| - 1]);
      var step := steps[|steps| - 1];
      if before.Some? && Enabled(before.value, step) then Some(Apply(c, before.value, step)) else None
  }

  // ------------------------------------------------------------ invariants

  ghost predicate Holds(worker: Worker, i: nat) {
    (worker.Uploading? || worker.Uploaded?) && worker.part == i
  }

  /** Sizes, and how far the producer has come. */
  ghost predicate Progressed(c: Config, s: State)
    requires c.partSize > 0
  {
    && |s.workers| == c.Workers() && |s.slots| == c.Count() && |s.received| <= c.Count()
    && (forall i :: 0 <= i < |s.received| ==> s.received[i] < |s.workers|)
    && (match s.producer
        case Select(i) => i < c.Count() && |s.received| == i
        case Check(i) => i < c.Count() && (|s.received| == i + 1 || (|s.received| == i && s.ContextDone()))
        case _ => |s.received| == c.Count() || s.ContextDone())
  }

  /** A worker holds only parts it received, whose slot is still empty. */
  ghost predicate Held(s: State) {
    forall w :: 0 <= w < |s.workers| && (s.workers[w].Uploading? || s.workers[w].Uploaded?) ==>
      var i := s.workers[w].part;
      i < |s.received| && s.received[i] == w && i < |s.slots| && s.slots[i].None?
  }

  /** What S3 holds of the parts that a worker or a slot vouches for. */
  ghost predicate RemoteMatches(c: Config, s: State)
    requires c.partSize > 0
  {
    SlotsMatch(c, s.slots, s.remote) && WorkersMatch(c, s.workers, s.remote)
  }

  ghost predicate SlotsMatch(c: Config, slots: seq<Option<CompletedPart<int>>>, remote: map<int, Stored>)
    requires c.partSize > 0
  {
    forall i :: 0 <= i < |slots| && slots[i].Some? ==>
      slots[i].value.partNumber == PartNumber(i)
      && PartNumber(i) in remote && remote[PartNumber(i)] == Sent(c, i, slots[i].value.etag)
  }

  ghost predicate WorkersMatch(c: Config, workers: seq<Worker>, remote: map<int, Stored>)
    requires c.partSize > 0
  {
    forall w :: 0 <= w < |workers| && workers[w].Uploaded? ==>
      var i := workers[w].part;
      PartNumber(i) in remote && remote[PartNumber(i)] == Sent(c, i, workers[w].etag)
  }

  /** A filled slot was written once, by the worker that received the part. */
  ghost predicate WrittenOnce(s: State) {
    && (forall k :: 0 <= k < |s.writes| ==>
          s.writes[k].1 < |s.received| && s.writes[k].0 == s.received[s.writes[k].1]
          && s.writes[k].1 < |s.slots| && s.slots[s.writes[k].1].Some?)
    && (forall k, l :: 0 <= k < l < |s.writes| ==> s.writes[k].1 != s.writes[l].1)
    && (forall i :: 0 <= i < |s.slots| && s.slots[i].Some? ==>
          i < |s.received| && (s.received[i], i) in s.writes)
  }

  ghost predicate Trouble(s: State) {
    s.firstError.Some? || exists w :: 0 <= w < |s.workers| && s.workers[w].Failed?
  }

  /** A received part is stored, or in the hands of its worker, or there was an error. */
  ghost predicate Accounted(s: State) {
    forall i :: 0 <= i < |s.received| && i < |s.slots| && s.slots[i].None? ==>
      Trouble(s) || (s.received[i] < |s.workers| && Holds(s.workers[s.received[i]], i))
  }

  /** Errors, cancellation and departures go together. */
  ghost predicate ErrorsTold(s: State) {
    && (s.cancelled ==> s.firstError.Some?)
    && (InOnce in s.workers ==> s.firstError.Some?)
    && (s.firstError.Some? ==> s.cancelled || InOnce in s.workers)
    && (Gone in s.workers && (s.producer.Select? || s.producer.Check? || s.producer.Closing?) ==> s.cancelled)
  }

  /** Who has left, and what was asked of S3 at the end. */
  ghost predicate Ending(s: State) {
    && (s.producer.Completing? || s.producer.MustAbort? || s.producer.Returned? ==>
          forall w :: 0 <= w < |s.workers| ==> s.workers[w].Gone?)
    && (s.producer.Completing? || s.producer == Returned(None) ==> s.firstError.None?)
    && (s.firstError.Some? ==>
          && (s.producer.MustAbort? ==> s.producer.error == s.firstError.value)
          && (s.producer.Returned? ==> s.producer.failure == s.firstError))
    && (if s.producer.Returned?
        then (if s.producer.failure.None? then s.completes == 1 && s.aborts == 0 else s.completes == 0 && s.aborts == 1)
        else s.completes == 0 && s.aborts == 0)
  }

  ghost predicate Inv(c: Config, s: State)
    requires c.partSize > 0
  {
    && Progressed(c, s) && Held(s) && RemoteMatches(c, s) && WrittenOnce(s)
    && Accounted(s) && ErrorsTold(s) && Ending(s)
  }

  lemma InitInv(c: Config)
    requires c.Valid()
    ensures Inv(c, Init(c))
  {
    PartCountBounds(|c.file|, c.partSize);
  }

  lemma PartNumberExact(i: nat)
    requires i < MAX_INT32
    ensures PartNumber(i) == i + 1
  {
  }

  lemma ProgressedKept(c: Config, s: State, step: Step)
    requires c.Valid() && Progressed(c, s) && Enabled(s, step)
    ensures Progressed(c, Apply(c, s, step))
  {
  }

  lemma HeldKept(c: Config, s: State, step: Step)
    requires c.Valid() && Progressed(c, s) && Held(s) && WrittenOnce(s) && Enabled(s, step)
    ensures Held(Apply(c, s, step))
  {
    match step
    case HandOff(w) => HandOffHeld(c, s, w);
    case Store(w) => StoreHeld(c, s, w);
    case Leave(w) => StillHeld(s, Apply(c, s, step), w);
    case UploadOk(w, _) => StillHeld(s, Apply(c, s, step), w);
    case UploadFail(w, _, _) => StillHeld(s, Apply(c, s, step), w);
    case EnterOnce(w) => StillHeld(s, Apply(c, s, step), w);
    case SkipOnce(w) => StillHeld(s, Apply(c, s, step), w);
    case CancelRest(w) => StillHeld(s, Apply(c, s, step), w);
    case _ =>
  }

  /** A worker that holds nothing new leaves all as it was. */
  lemma StillHeld(s: State, after: State, w: nat)
    requires Held(s) && w < |s.workers| && after.received == s.received && after.slots == s.slots
    requires |after.workers| == |s.workers| && after.workers == s.workers[w := after.workers[w]]
    requires after.workers[w].Uploading? || after.workers[w].Uploaded? ==>
               s.workers[w].Uploading? && after.workers[w].part == s.workers[w].part
    ensures Held(after)
  {
  }

  lemma HandOffHeld(c: Config, s: State, w: nat)
    requires c.Valid() && Progressed(c, s) && Held(s) && WrittenOnce(s) && Enabled(s, HandOff(w))
    ensures Held(Apply(c, s, HandOff(w)))
  {
    assert s.slots[s.producer.part].None?;
  }

  lemma StoreHeld(c: Config, s: State, w: nat)
    requires c.Valid() && Progressed(c, s) && Held(s) && Enabled(s, Store(w))
    ensures Held(Apply(c, s, Store(w)))
  {
  }

  /** A part sent again under its number leaves every other part as it was. */
  lemma RemoteKept(c: Config, s: State, step: Step)
    requires c.Valid() && Progressed(c, s) && Held(s) && RemoteMatches(c, s) && Enabled(s, step)
    ensures RemoteMatches(c, Apply(c, s, step))
  {
    match step
    case UploadOk(w, etag) => SendKept(c, s, w, etag, Uploaded(s.workers[w].part, etag));
    case UploadFail(w, error, reached) =>
      if reached.Some? {
        SendKept(c, s, w, reached.value, Failed(error));
      }
    case _ =>
  }

  lemma SendKept(c: Config, s: State, w: nat, etag: string, worker: Worker)
    requires c.Valid() && Progressed(c, s) && Held(s) && RemoteMatches(c, s)
    requires w < |s.workers| && s.workers[w].Uploading?
    requires worker.Failed? || worker == Uploaded(s.workers[w].part, etag)
    ensures var i := s.workers[w].part;
            RemoteMatches(c, s.(workers := s.workers[w := worker],
                                remote := s.remote[PartNumber(i) := Sent(c, i, etag)]))
  {
    var i := s.workers[w].part;
    var remote := s.remote[PartNumber(i) := Sent(c, i, etag)];
    PartNumberExact(i);
    forall j | 0 <= j < |s.slots| && s.slots[j].Some? ensures PartNumber(j) != PartNumber(i) {
      PartNumberExact(j);
    }
    assert SlotsMatch(c, s.slots, remote);
    forall v | 0 <= v < |s.workers| && s.workers[v].Uploaded? && v != w
      ensures PartNumber(s.workers[v].part) != PartNumber(i)
    {
      PartNumberExact(s.workers[v].part);
    }
    WorkerSent(c, s.workers, s.remote, w, worker, etag);
  }

  lemma WorkerSent(c: Config, workers: seq<Worker>, remote: map<int, Stored>, w: nat, worker: Worker, etag: string)
    requires c.Valid() && WorkersMatch(c, workers, remote) && w < |workers| && workers[w].Uploading?
    requires worker.Failed? || worker == Uploaded(workers[w].part, etag)
    requires forall v :: 0 <= v < |workers| && workers[v].Uploaded? && v != w ==>
               PartNumber(workers[v].part) != PartNumber(workers[w].part)
    ensures var i := workers[w].part;
            WorkersMatch(c, workers[w := worker], remote[PartNumber(i) := Sent(c, i, etag)])
  {
  }

  lemma WritesKept(c: Config, s: State, step: Step)
    requires c.Valid() && Progressed(c, s) && Held(s) && WrittenOnce(s) && Enabled(s, step)
    ensures WrittenOnce(Apply(c, s, step))
  {
    match step
    case HandOff(w) =>
    case Store(w) => StoreWrites(c, s, w);
    case _ =>
  }

  lemma StoreWrites(c: Config, s: State, w: nat)
    requires c.Valid() && Progressed(c, s) && Held(s) && WrittenOnce(s) && Enabled(s, Store(w))
    ensures WrittenOnce(Apply(c, s, Store(w)))
  {
    var i := s.workers[w].part;
    var after := Apply(c, s, Store(w));
    assert after.writes == s.writes + [(w, i)] && after.received == s.received;
    assert after.slots == s.slots[i := after.slots[i]] && after.slots[i].Some?;
    OneMoreWrite(s, after, w, i);
  }

  lemma OneMoreWrite(s: State, after: State, w: nat, i: nat)
    requires WrittenOnce(s) && i < |s.slots| && s.slots[i].None? && i < |s.received| && s.received[i] == w
    requires after.writes == s.writes + [(w, i)] && after.received == s.received
    requires |after.slots| == |s.slots| && after.slots == s.slots[i := after.slots[i]] && after.slots[i].Some?
    ensures WrittenOnce(after)
  {
    assert after.writes[|s.writes|] == (w, i);
    forall j | 0 <= j < |after.slots| && after.slots[j].Some?
      ensures j < |after.received| && (after.received[j], j) in after.writes
    {
      assert j != i ==> s.slots[j].Some? && (s.received[j], j) in s.writes;
    }
  }

  lemma TroubleKept(c: Config, s: State, step: Step)
    requires c.partSize > 0 && Trouble(s) && Enabled(s, step)
    ensures Trouble(Apply(c, s, step))
  {
    if s.firstError.None? {
      var w :| 0 <= w < |s.workers| && s.workers[w].Failed?;
      var after := Apply(c, s, step);
      assert |after.workers| == |s.workers|;
      assert after.firstError.Some? || after.workers[w].Failed?;
    }
  }

  lemma AccountedKept(c: Config, s: State, step: Step)
    requires c.Valid() && Progressed(c, s) && Held(s) && Accounted(s) && Enabled(s, step)
    ensures Accounted(Apply(c, s, step))
  {
    var after := Apply(c, s, step);
    if Trouble(s) {
      TroubleKept(c, s, step);
    } else if step.UploadFail? {
      assert after.workers[step.w].Failed?;
    }
  }

  lemma ErrorsKept(c: Config, s: State, step: Step)
    requires c.Valid() && ErrorsTold(s) && Enabled(s, step)
    ensures ErrorsTold(Apply(c, s, step))
  {
    var after := Apply(c, s, step);
    if step.EnterOnce? {
      assert after.workers[step.w] == InOnce;
    }
    if InOnce in s.workers {
      var k :| 0 <= k < |s.workers| && s.workers[k] == InOnce;
      assert step.CancelRest? || after.workers[k] == InOnce;
    }
  }

  lemma EndingKept(c: Config, s: State, step: Step)
    requires c.Valid() && Ending(s) && Enabled(s, step)
    ensures Ending(Apply(c, s, step))
  {
  }

  lemma InvKept(c: Config, s: State, step: Step)
    requires c.Valid() && Inv(c, s) && Enabled(s, step)
    ensures Inv(c, Apply(c, s, step))
  {
    ProgressedKept(c, s, step);
    HeldKept(c, s, step);
    RemoteKept(c, s, step);
    WritesKept(c, s, step);
    AccountedKept(c, s, step);
    ErrorsKept(c, s, step);
    EndingKept(c, s, step);
  }

  lemma {:induction false} ReachableInv(c: Config, steps: seq<Step>)
    requires c.Valid() && Exec(c, steps).Some?
    ensures Inv(c, Exec(c, steps).value)
  {
    if steps == [] {
      InitInv(c);
    } else {
      var last := |steps| - 1;
      ReachableInv(c, steps[..last]);
      InvKept(c, Exec(c, steps[..last]).value, steps[last]);
    }
  }

  // ---------------------------------------------------------------- safety

  ghost predicate AllFilled(slots: seq<Option<CompletedPart<int>>>) {
    forall i :: 0 <= i < |slots| ==> slots[i].Some?
  }

  /** The part list that S3 is asked to complete. */
  ghost function PartList(slots: seq<Option<CompletedPart<int>>>): (list: seq<CompletedPart<int>>)
    requires AllFilled(slots)
    ensures |list| == |slots| && forall i :: 0 <= i < |slots| ==> list[i] == slots[i].value
  {
    seq(|slots|, i requires 0 <= i < |slots| => slots[i].value)
  }

  /** S3 has every listed part, with the bytes of its range. */
  ghost predicate ListMatches(c: Config, list: seq<CompletedPart<int>>, remote: map<int, Stored>)
    requires c.partSize > 0
  {
    forall i :: 0 <= i < |list| ==>
      list[i].partNumber in remote && remote[list[i].partNumber] == Sent(c, i, list[i].etag)
  }

  lemma {:induction false} AssembleParts(c: Config, list: seq<CompletedPart<int>>, remote: map<int, Stored>, n: nat)
    requires c.partSize > 0 && ListMatches(c, list, remote) && n <= |list| == c.Count()
    ensures Assembled(remote, list[..n]) == Some(Flatten(Parts(c.file, c.partSize, n)))
  {
    if n > 0 {
      assert list[..n][..n - 1] == list[..n - 1];
      AssembleParts(c, list, remote, n - 1);
      FlattenLast(Parts(c.file, c.partSize, n - 1), Part(c.file, c.partSize, n - 1));
    }
  }

  ghost predicate Reachable(c: Config, s: State)
    requires c.partSize > 0
  {
    exists steps :: Exec(c, steps) == Some(s)
  }

  lemma ReachableKeepsInv(c: Config, s: State)
    requires c.Valid() && Reachable(c, s)
    ensures Inv(c, s)
  {
    var steps :| Exec(c, steps) == Some(s);
    ReachableInv(c, steps);
  }

  ghost predicate FilledBelow(slots: seq<Option<CompletedPart<int>>>, n: nat) {
    forall i :: 0 <= i < |slots| ==> (slots[i].Some? <==> i < n)
  }

  /** When CompleteMultipartUpload is called, exactly the parts handed out are
      filled in. So the part list is whole exactly when every part was handed
      out, as it always is unless the caller's context was cancelled. */
  lemma CompleteListsPartsHandedOut(c: Config, s: State)
    requires c.Valid() && Reachable(c, s) && s.producer == Completing
    ensures |s.slots| == c.Count() && FilledBelow(s.slots, |s.received|)
    ensures AllFilled(s.slots) <==> |s.received| == c.Count()
    ensures !s.outerCancelled ==> AllFilled(s.slots)
  {
    ReachableKeepsInv(c, s);
    forall i | 0 <= i < |s.received| ensures s.slots[i].Some? {
      if s.slots[i].None? {
        assert s.workers[s.received[i]].Gone?;
      }
    }
    if |s.received| < c.Count() {
      assert s.slots[|s.received|].None?;
    }
  }

  /** A whole part list is assembled into the file. */
  lemma CompleteAssemblesTheFile(c: Config, s: State)
    requires c.Valid() && Reachable(c, s) && s.producer == Completing && AllFilled(s.slots)
    ensures Assembled(s.remote, PartList(s.slots)) == Some(c.file)
  {
    ReachableKeepsInv(c, s);
    assert PartList(s.slots)[..c.Count()] == PartList(s.slots);
    AssembleParts(c, PartList(s.slots), s.remote, c.Count());
    AllPartsAreTheFile(c.file, c.partSize);
  }

  lemma SlotHolds(c: Config, s: State, i: nat)
    requires c.Valid() && RemoteMatches(c, s) && i < |s.slots| == c.Count() && s.slots[i].Some?
    ensures s.slots[i].value.partNumber == i + 1 && i + 1 in s.remote
    ensures s.remote[i + 1] == Stored(s.slots[i].value.etag, Part(c.file, c.partSize, i))
  {
    PartNumberExact(i);
  }

  /** Every write to a slot is the only one, by the one worker that received
      the part, and the slot names part i+1 with the bytes read for it. */
  lemma SlotsWrittenOnce(c: Config, s: State)
    requires c.Valid() && Reachable(c, s)
    ensures |s.slots| == c.Count()
    ensures forall k, l :: 0 <= k < l < |s.writes| ==> s.writes[k].1 != s.writes[l].1
    ensures forall w, i :: (w, i) in s.writes ==> i < |s.received| && s.received[i] == w
    ensures forall i :: 0 <= i < c.Count() && s.slots[i].Some? ==>
              i < |s.received| && (s.received[i], i) in s.writes
              && s.slots[i].value.partNumber == i + 1 && i + 1 in s.remote
              && s.remote[i + 1] == Stored(s.slots[i].value.etag, Part(c.file, c.partSize, i))
  {
    ReachableKeepsInv(c, s);
    forall i | 0 <= i < c.Count() && s.slots[i].Some?
      ensures s.slots[i].value.partNumber == i + 1 && i + 1 in s.remote
              && s.remote[i + 1] == Stored(s.slots[i].value.etag, Part(c.file, c.partSize, i))
    {
      SlotHolds(c, s, i);
    }
  }

  /** An upload that has returned has either completed once and not aborted, or
      aborted once and not completed; a part's first error is the one returned,
      and all workers have left. */
  lemma EndsInOneOutcome(c: Config, s: State)
    requires c.Valid() && Reachable(c, s) && s.producer.Returned?
    ensures (s.completes, s.aborts) == (if s.producer.failure.None? then (1, 0) else (0, 1))
    ensures s.firstError.Some? ==> s.producer.failure == s.firstError
    ensures forall w :: 0 <= w < |s.workers| ==> s.workers[w].Gone?
  {
    ReachableKeepsInv(c, s);
  }

  lemma ExecOne(c: Config, steps: seq<Step>, s: State, step: Step)
    requires c.partSize > 0 && Exec(c, steps) == Some(s) && Enabled(s, step)
    ensures Exec(c, steps + [step]) == Some(Apply(c, s, step))
  {
    assert (steps + [step])[..|steps|] == steps;
  }

  /** If the caller's context is cancelled, S3 can be asked to complete an
      upload with an empty slot. */
  lemma OuterCancelExample(c: Config)
    requires c == Config([7], 1, 1)
    ensures c.Valid()
    ensures exists s :: Reachable(c, s) && s.producer == Completing && s.slots == [None]
  {
    assert c.Count() == 1 && c.Workers() == 1;
    var s0 := Init(c);
    ExecOne(c, [], s0, OuterCancel);
    var s1 := Apply(c, s0, OuterCancel);
    ExecOne(c, [] + [OuterCancel], s1, SeeCancel);
    var s2 := Apply(c, s1, SeeCancel);
    var run2 := [] + [OuterCancel] + [SeeCancel];
    ExecOne(c, run2, s2, Proceed);
    var s3 := Apply(c, s2, Proceed);
    var run3 := run2 + [Proceed];
    ExecOne(c, run3, s3, Close);
    var s4 := Apply(c, s3, Close);
    var run4 := run3 + [Close];
    ExecOne(c, run4, s4, Leave(0));
    var s5 := Apply(c, s4, Leave(0));
    var run5 := run4 + [Leave(0)];
    ExecOne(c, run5, s5, Join);
    var s6 := Apply(c, s5, Join);
    assert s6.producer == Completing && s6.slots == [None];
    assert Reachable(c, s6);
  }

  // ----------------------------------------------------------- concurrency

  /** How many workers have a part in their hands. */
  function Busy(workers: seq<Worker>): nat {
    if workers == [] then 0
    else
      var last := workers[|workers| - 1];
      Busy(workers[..|workers| - 1]) + if last.Uploading? || last.Uploaded? then 1 else 0
  }

  lemma {:induction false} BusyAtMost(workers: seq<Worker>)
    ensures Busy(workers) <= |workers|
  {
    if workers != [] {
      BusyAtMost(workers[..|workers| - 1]);
    }
  }

  lemma {:induction false} AllBusy(workers: seq<Worker>)
    requires forall w :: 0 <= w < |workers| ==> workers[w].Uploading?
    ensures Busy(workers) == |workers|
  {
    if workers != [] {
      AllBusy(workers[..|workers| - 1]);
    }
  }

  /** As many workers run as the concurrency allows and there are parts for; no
      more than that are ever busy with a part. */
  lemma WorkersRunning(c: Config, s: State)
    requires c.Valid() && Reachable(c, s)
    ensures |s.workers| <= c.Count() && |s.workers| <= c.concurrency
    ensures |s.workers| == c.Count() || |s.workers| == c.concurrency
    ensures Busy(s.workers) <= c.Count() && Busy(s.workers) <= c.concurrency
  {
    ReachableKeepsInv(c, s);
    BusyAtMost(s.workers);
  }

  /** The first `k` workers have the first `k` parts and nothing else has happened. */
  ghost predicate HandedOut(c: Config, s: State, k: nat)
    requires c.partSize > 0
  {
    && |s.workers| == c.Workers() && k <= |s.workers| && !s.ContextDone()
    && s.producer == (if k < c.Count() then Select(k) else Closing)
    && forall w: nat :: w < |s.workers| ==> s.workers[w] == if w < k then Uploading(w) else Idle
  }

  lemma HandOutOne(c: Config, s: State, k: nat)
    requires c.Valid() && HandedOut(c, s, k) && k < c.Workers()
    ensures Enabled(s, HandOff(k)) && Enabled(Apply(c, s, HandOff(k)), Proceed)
    ensures HandedOut(c, Apply(c, Apply(c, s, HandOff(k)), Proceed), k + 1)
  {
  }

  lemma {:induction false} HandOut(c: Config, k: nat) returns (steps: seq<Step>)
    requires c.Valid() && k <= c.Workers()
    ensures Exec(c, steps).Some? && HandedOut(c, Exec(c, steps).value, k)
  {
    if k == 0 {
      steps := [];
    } else {
      var before := HandOut(c, k - 1);
      var s := Exec(c, before).value;
      HandOutOne(c, s, k - 1);
      var taken := Apply(c, s, HandOff(k - 1));
      ExecOne(c, before, s, HandOff(k - 1));
      ExecOne(c, before + [HandOff(k - 1)], taken, Proceed);
      steps := before + [HandOff(k - 1)] + [Proceed];
    }
  }

  /** That many workers can be uploading at the same time. */
  lemma FullyBusyRun(c: Config) returns (steps: seq<Step>)
    requires c.Valid()
    ensures Exec(c, steps).Some?
    ensures Busy(Exec(c, steps).value.workers) == if c.Count() < c.concurrency then c.Count() else c.concurrency
  {
    steps := HandOut(c, c.Workers());
    AllBusy(Exec(c, steps).value.workers);
  }

  // ----------------------------------------------------------- failed parts

  /** The last step of a longer run. */
  lemma ExecLast(c: Config, steps: seq<Step>, more: seq<Step>)
    requires c.partSize > 0 && more != [] && Exec(c, steps + more).Some?
    ensures var front, step := steps + more[..|more| - 1], more[|more| - 1];
            && Exec(c, front).Some? && Enabled(Exec(c, front).value, step)
            && Exec(c, steps + more).value == Apply(c, Exec(c, front).value, step)
  {
    FrontOfConcat(steps, more);
  }

  lemma FrontOfConcat<T>(a: seq<T>, b: seq<T>)
    requires b != []
    ensures (a + b)[..|a + b| - 1] == a + b[..|b| - 1] && (a + b)[|a + b| - 1] == b[|b| - 1]
  {
  }

  lemma {:induction false} TroubleStays(c: Config, steps: seq<Step>, more: seq<Step>)
    requires c.partSize > 0 && Exec(c, steps).Some? && Trouble(Exec(c, steps).value) && Exec(c, steps + more).Some?
    ensures Trouble(Exec(c, steps + more).value)
  {
    if more == [] {
      assert steps + more == steps;
    } else {
      var front := more[..|more| - 1];
      ExecLast(c, steps, more);
      TroubleStays(c, steps, front);
      TroubleKept(c, Exec(c, steps + front).value, more[|more| - 1]);
    }
  }

  lemma {:induction false} ExecFront(c: Config, steps: seq<Step>, more: seq<Step>)
    requires c.partSize > 0 && Exec(c, steps + more).Some?
    ensures Exec(c, steps).Some?
  {
    if more == [] {
      assert steps + more == steps;
    } else {
      ExecLast(c, steps, more);
      ExecFront(c, steps, more[..|more| - 1]);
    }
  }

  lemma TroubledNeverCompletes(c: Config, s: State)
    requires c.partSize > 0 && Inv(c, s) && Trouble(s)
    ensures s.producer != Completing
    ensures s.producer.Returned? ==> s.producer.failure.Some? && s.completes == 0 && s.aborts == 1
  {
  }

  /** A run in which the upload of a part failed never completes: when it
      returns it has aborted, with an error. */
  lemma FailedPartIsReported(c: Config, before: seq<Step>, failed: Step, more: seq<Step>)
    requires c.Valid() && failed.UploadFail? && Exec(c, before + [failed] + more).Some?
    ensures var s := Exec(c, before + [failed] + more).value;
            && s.producer != Completing
            && (s.producer.Returned? ==> s.producer.failure.Some? && s.completes == 0 && s.aborts == 1)
  {
    ExecFront(c, before + [failed], more);
    ExecLast(c, before, [failed]);
    assert [failed][..0] == [] && before + [] == before;
    FailureIsTrouble(c, Exec(c, before).value, failed);
    TroubleStays(c, before + [failed], more);
    ReachableInv(c, before + [failed] + more);
    TroubledNeverCompletes(c, Exec(c, before + [failed] + more).value);
  }

  lemma FailureIsTrouble(c: Config, s: State, failed: Step)
    requires c.partSize > 0 && failed.UploadFail? && Enabled(s, failed)
    ensures Trouble(Apply(c, s, failed))
  {
    assert Apply(c, s, failed).workers[failed.w].Failed?;
  }

  // -------------------------------------------------------------- liveness

  /** A worker that is neither waiting for a part nor gone can always go on. */
  lemma BusyWorkerCanStep(s: State, w: nat) returns (step: Step)
    requires Held(s) && w < |s.workers| && InOnce !in s.workers
    requires !s.workers[w].Idle? && !s.workers[w].Gone?
    ensures Enabled(s, step) && step != OuterCancel
  {
    assert s.workers[w] in s.workers;
    match s.workers[w]
    case Uploading(_) => step := UploadOk(w, "");
    case Uploaded(_, _) => step := Store(w);
    case Failed(_) => step := if s.firstError.None? then EnterOnce(w) else SkipOnce(w);
  }

  /** No deadlock: until the upload has returned, the program or S3 can take a step. */
  lemma CanStep(c: Config, s: State) returns (step: Step)
    requires c.Valid() && Inv(c, s) && !s.producer.Returned?
    ensures Enabled(s, step) && step != OuterCancel
  {
    if w: nat :| w < |s.workers| && s.workers[w] == InOnce {
      return CancelRest(w);
    }
    if w: nat :| w < |s.workers| && !s.workers[w].Idle? && !s.workers[w].Gone? {
      step := BusyWorkerCanStep(s, w);
      return;
    }
    match s.producer
    case Select(i) =>
      if w: nat :| w < |s.workers| && s.workers[w] == Idle {
        step := HandOff(w);
      } else {
        AllGoneIsCancelled(c, s);
        step := SeeCancel;
      }
    case Check(_) => step := Proceed;
    case Closing => step := Close;
    case Waiting =>
      if w: nat :| w < |s.workers| && s.workers[w] == Idle {
        step := Leave(w);
      } else {
        step := Join;
      }
    case Completing => step := CompleteOk;
    case MustAbort(_) => step := Abort;
  }

  lemma AllGoneIsCancelled(c: Config, s: State)
    requires c.Valid() && Inv(c, s) && s.producer.Select?
    requires forall w: nat :: w < |s.workers| ==> s.workers[w].Gone?
    ensures s.cancelled
  {
    PartCountBounds(|c.file|, c.partSize);
    assert s.workers[0] == Gone;
    assert s.workers[0] in s.workers;
  }

  /** When every worker has left on error, the producer's cancel branch is open. */
  lemma DesertedProducerSeesCancel(c: Config, s: State)
    requires c.Valid() && Reachable(c, s) && s.producer.Select?
    requires forall w: nat :: w < |s.workers| ==> s.workers[w].Gone?
    ensures Enabled(s, SeeCancel)
  {
    ReachableKeepsInv(c, s);
    AllGoneIsCancelled(c, s);
  }

  function WorkerWeight(worker: Worker): nat {
    match worker
    case Idle => 1
    case Uploading(_) => 5
    case Uploaded(_, _) => 2
    case Failed(_) => 4
    case InOnce => 3
    case Gone => 0
  }

  function WorkersWeight(workers: seq<Worker>): nat {
    if workers == [] then 0 else WorkersWeight(workers[..|workers| - 1]) + WorkerWeight(workers[|workers| - 1])
  }

  function ProducerWeight(n: nat, producer: Producer): int {
    match producer
    case Select(i) => 6 * (n - i) + 5
    case Check(i) => 6 * (n - i)
    case Closing => 4
    case Waiting => 3
    case Completing => 2
    case MustAbort(_) => 1
    case Returned(_) => 0
  }

  function Measure(c: Config, s: State): int
    requires c.partSize > 0
  {
    ProducerWeight(c.Count(), s.producer) + WorkersWeight(s.workers) + if s.outerCancelled then 0 else 1
  }

  lemma {:induction false} WeightOfUpdate(workers: seq<Worker>, w: nat, worker: Worker)
    requires w < |workers|
    ensures WorkersWeight(workers[w := worker])
            == WorkersWeight(workers) - WorkerWeight(workers[w]) + WorkerWeight(worker)
  {
    var last := |workers| - 1;
    if w < last {
      WeightOfUpdate(workers[..last], w, worker);
      assert workers[w := worker][..last] == workers[..last][w := worker];
    } else {
      assert workers[w := worker][..last] == workers[..last];
    }
  }

  /** Every step brings the upload nearer to its end. */
  lemma StepDecreases(c: Config, s: State, step: Step)
    requires c.Valid() && Progressed(c, s) && Enabled(s, step)
    ensures 0 <= Measure(c, Apply(c, s, step)) < Measure(c, s)
  {
    MeasureIsNat(c, Apply(c, s, step));
    if step.HandOff? || step.Leave? || step.UploadOk? || step.UploadFail? || step.Store? || step.EnterOnce?
       || step.SkipOnce? || step.CancelRest? {
      WorkerStepDecreases(c, s, step, step.w);
    }
  }

  lemma MeasureIsNat(c: Config, s: State)
    requires c.partSize > 0 && (s.producer.Select? || s.producer.Check? ==> s.producer.part < c.Count())
    ensures Measure(c, s) >= 0
  {
  }

  lemma WorkerStepDecreases(c: Config, s: State, step: Step, w: nat)
    requires c.Valid() && Progressed(c, s) && Enabled(s, step) && w < |s.workers|
    requires var after := Apply(c, s, step);
             |after.workers| == |s.workers| && after.workers == s.workers[w := after.workers[w]]
    requires var after := Apply(c, s, step);
             WorkerWeight(after.workers[w]) + ProducerWeight(c.Count(), after.producer)
             < WorkerWeight(s.workers[w]) + ProducerWeight(c.Count(), s.producer)
    requires Apply(c, s, step).outerCancelled == s.outerCancelled
    ensures Measure(c, Apply(c, s, step)) < Measure(c, s)
  {
    WeightOfUpdate(s.workers, w, Apply(c, s, step).workers[w]);
  }

  lemma {:induction false} IdleWeight(n: nat)
    ensures WorkersWeight(seq(n, _ => Idle)) == n
  {
    if n > 0 {
      IdleWeight(n - 1);
      assert seq(n, _ => Idle)[..n - 1] == seq(n - 1, _ => Idle);
    }
  }

  /** No run is longer than six steps a part, one a worker and six more. */
  lemma {:induction false} RunsEnd(c: Config, steps: seq<Step>)
    requires c.Valid() && Exec(c, steps).Some?
    ensures |steps| + Measure(c, Exec(c, steps).value) <= 6 * c.Count() + c.Workers() + 6
    ensures Measure(c, Exec(c, steps).value) >= 0
  {
    if steps == [] {
      IdleWeight(c.Workers());
    } else {
      var last := |steps| - 1;
      RunsEnd(c, steps[..last]);
      ReachableInv(c, steps[..last]);
      StepDecreases(c, Exec(c, steps[..last]).value, steps[last]);
    }
  }

  /** Any run can be carried on until the upload returns. */
  lemma {:induction false} RunsReturn(c: Config, steps: seq<Step>) returns (whole: seq<Step>)
    requires c.Valid() && Exec(c, steps).Some?
    ensures steps <= whole && Exec(c, whole).Some? && Exec(c, whole).value.producer.Returned?
    decreases 6 * c.Count() + c.Workers() + 6 - |steps|
  {
    ReachableInv(c, steps);
    RunsEnd(c, steps);
    var s := Exec(c, steps).value;
    if s.producer.Returned? {
      whole := steps;
    } else {
      var step := CanStep(c, s);
      var longer := steps + [step];
      assert longer[..|longer| - 1] == steps;
      RunsEnd(c, longer);
      whole := RunsReturn(c, longer);
    }
  }

  lemma FirstErrorKept(c: Config, s: State, step: Step)
    requires c.partSize > 0 && Enabled(s, step) && s.firstError.Some?
    ensures Apply(c, s, step).firstError == s.firstError
  {
  }

  lemma {:induction false} FirstErrorStays(c: Config, steps: seq<Step>, more: seq<Step>, error: string)
    requires c.partSize > 0 && Exec(c, steps).Some? && Exec(c, steps + more).Some?
    requires Exec(c, steps).value.firstError == Some(error)
    ensures Exec(c, steps + more).value.firstError == Some(error)
  {
    if more == [] {
      assert steps + more == steps;
    } else {
      var front := more[..|more| - 1];
      ExecLast(c, steps, more);
      FirstErrorStays(c, steps, front, error);
      FirstErrorKept(c, Exec(c, steps + front).value, more[|more| - 1]);
    }
  }

  /** S3 may refuse any part, and then that very error is what comes back. */
  lemma FailureRun(c: Config, error: string) returns (steps: seq<Step>)
    requires c.Valid() && c.Count() > 0
    ensures Exec(c, steps).Some? && Exec(c, steps).value.producer == Returned(Some(error))
  {
    var first := HandOut(c, 1);
    var s := Exec(c, first).value;
    var failed := Apply(c, s, UploadFail(0, error, None));
    ExecOne(c, first, s, UploadFail(0, error, None));
    ReachableInv(c, first);
    assert s.firstError.None?;
    ExecOne(c, first + [UploadFail(0, error, None)], failed, EnterOnce(0));
    var told := first + [UploadFail(0, error, None)] + [EnterOnce(0)];
    steps := RunsReturn(c, told);
    assert steps == told + steps[|told|..];
    FirstErrorStays(c, told, steps[|told|..], error);
    ReachableInv(c, steps);
  }
}
