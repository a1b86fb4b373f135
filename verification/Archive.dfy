/** Downloading everything below a prefix as one archive of bounded size
    (internal/service/s3/service.go, DownloadArchive and safeArchivePath). */
module Archive {
  import opened Wrappers
  import opened Text
  import opened Paths

  newtype int64 = x: int | -0x8000_0000_0000_0000 <= x < 0x8000_0000_0000_0000

  /** A listed object; `body` is None when reading or copying it fails. */
  datatype Object = Object(key: string, size: int64, body: Option<string>)

  datatype Entry = Entry(name: string, contents: string)

  datatype Stop = UnsafeName | TooLarge | ReadFailed

  datatype Result = Done | BadLimit | BadFormat | ListFailed | Stopped(stop: Stop)

  // ------------------------------------------------------------ safe names

  predicate SafeName(name: string) {
    name != "" && !("/" <= name) && ".." !in Split(name)
  }

  /** Safe are exactly the names that do not start with a slash, are not empty
      and have no parent segment; any other joined segments are. */
  lemma SafeNameIff(parts: seq<string>)
    requires parts != [] && Segments(parts)
    ensures SafeName(Join(parts)) <==> parts[0] != "" && ".." !in parts
  {
    SplitJoin(parts);
    var rest := if |parts| == 1 then "" else "/" + Join(parts[1..]);
    assert Join(parts) == parts[0] + rest;
    if parts[0] != "" {
      assert parts[0][0] in parts[0] && parts[0] in parts;
      assert Join(parts)[0] == parts[0][0];
    }
  }

  method SafeArchivePath(name: string) returns (ok: bool)
    ensures ok <==> SafeName(name)
  {
    if name == "" || "/" <= name {
      return false;
    }
    var parts := Split(name);
    for i := 0 to |parts|
      invariant ".." !in parts[..i]
    {
      if parts[i] == ".." {
        return false;
      }
    }
    assert parts[..|parts|] == parts;
    return true;
  }

  /** The directory an extractor reaches from `dir` by following the segments. */
  function Follow(dir: seq<string>, segments: seq<string>): seq<string> {
    if segments == [] then dir
    else
      var before := Follow(dir, segments[..|segments| - 1]);
      var last := segments[|segments| - 1];
      if last == "" || last == "." then before
      else if last == ".." then (if before == [] then [] else before[..|before| - 1])
      else before + [last]
  }

  /** A safe name is never resolved outside the directory it is unpacked in. */
  lemma {:induction false} SafeNamesStayInside(dir: seq<string>, segments: seq<string>)
    requires ".." !in segments
    ensures dir <= Follow(dir, segments)
  {
    if segments != [] {
      SafeNamesStayInside(dir, segments[..|segments| - 1]);
    }
  }

  // ------------------------------------------------------ what is asked for

  /** The name of an object below the prefix; a key that does not start with the
      prefix is its own name. */
  function NameIn(key: string, prefix: string): (name: string)
    ensures prefix <= key ==> prefix + name == key
    ensures !(prefix <= key) ==> name == key
  {
    if prefix <= key then key[|prefix|..] else key
  }

  /** The objects to archive: all but the prefix itself, in listing order. */
  function Inside(listing: seq<Object>, prefix: string): seq<Object> {
    if listing == [] then []
    else
      var last := listing[|listing| - 1];
      var before := Inside(listing[..|listing| - 1], prefix);
      if NameIn(last.key, prefix) == "" then before else before + [last]
  }

  function TotalSize(objects: seq<Object>): int {
    if objects == [] then 0
    else TotalSize(objects[..|objects| - 1]) + objects[|objects| - 1].size as int
  }

  /** The entry holds the object under the rest of its key. */
  ghost predicate EntryFor(entry: Entry, o: Object, prefix: string) {
    entry.name == NameIn(o.key, prefix) && SafeName(entry.name) && Some(entry.contents) == o.body
  }

  ghost predicate EntriesFor(entries: seq<Entry>, objects: seq<Object>, prefix: string) {
    |entries| == |objects| && forall i :: 0 <= i < |entries| ==> EntryFor(entries[i], objects[i], prefix)
  }

  /** Why an object cannot be archived when `before` has been: its name is
      unsafe, or it is too large for what is left, or it cannot be read. */
  ghost predicate Refused(o: Object, before: seq<Object>, prefix: string, max: int, stop: Stop) {
    match stop
    case UnsafeName => !SafeName(NameIn(o.key, prefix))
    case TooLarge => SafeName(NameIn(o.key, prefix)) && TotalSize(before) + o.size as int > max
    case ReadFailed =>
      SafeName(NameIn(o.key, prefix)) && TotalSize(before) + o.size as int <= max && o.body.None?
  }

  /** The entries are the first objects, and the next one is refused. */
  ghost predicate StoppedAt(entries: seq<Entry>, objects: seq<Object>, prefix: string, max: int, stop: Stop) {
    && |entries| < |objects| && EntriesFor(entries, objects[..|entries|], prefix)
    && TotalSize(objects[..|entries|]) <= max
    && Refused(objects[|entries|], objects[..|entries|], prefix, max, stop)
  }

  ghost predicate Sizes(listing: seq<Object>) {
    forall i :: 0 <= i < |listing| ==> listing[i].size >= 0
  }

  // -------------------------------------------------------------- archiving

  /** What has been archived, its declared size, and why archiving stopped, if it did. */
  datatype Progress = Progress(entries: seq<Entry>, total: int, stop: Option<Stop>)

  /** One more object, with sums as unbounded integers. */
  function Step(p: Progress, o: Object, prefix: string, max: int): Progress {
    var name, total := TrimPrefix(o.key, prefix), p.total + o.size as int;
    if p.stop.Some? || name == "" then p
    else if !SafeName(name) then p.(stop := Some(UnsafeName))
    else if total > max then p.(stop := Some(TooLarge))
    else if o.body.None? then p.(total := total, stop := Some(ReadFailed))
    else Progress(p.entries + [Entry(name, o.body.value)], total, None)
  }

  const EMPTY := Progress([], 0, None)

  /** The archive after `n` more objects. */
  function After(p: Progress, more: seq<Object>, n: nat, prefix: string, max: int): Progress
    requires n <= |more|
  {
    if n == 0 then p else Step(After(p, more, n - 1, prefix, max), more[n - 1], prefix, max)
  }

  lemma {:induction false} AfterAfter(p: Progress, all: seq<Object>, from: nat, next: nat, prefix: string, max: int)
    requires from <= next <= |all|
    ensures After(p, all, next, prefix, max)
            == After(After(p, all, from, prefix, max), all[from..next], next - from, prefix, max)
  {
    if from < next {
      AfterAfter(p, all, from, next - 1, prefix, max);
      SliceGrows(all, from, next);
      SamePlaces(After(p, all, from, prefix, max), all[from..next - 1], all[from..next], next - 1 - from, prefix, max);
    }
  }

  lemma SliceGrows(all: seq<Object>, from: nat, next: nat)
    requires from < next <= |all|
    ensures all[from..next - 1] <= all[from..next] && all[from..next][next - 1 - from] == all[next - 1]
  {
    assert all[from..next] == all[from..next - 1] + [all[next - 1]];
  }

  lemma {:induction false} SamePlaces(p: Progress, a: seq<Object>, b: seq<Object>, n: nat, prefix: string, max: int)
    requires n <= |a| && a <= b
    ensures After(p, a, n, prefix, max) == After(p, b, n, prefix, max)
  {
    if n > 0 {
      SamePlaces(p, a, b, n - 1, prefix, max);
    }
  }

  lemma {:induction false} TotalBounded(p: Progress, all: seq<Object>, n: nat, prefix: string, max: int)
    requires n <= |all| && Sizes(all) && 0 <= p.total <= max
    ensures p.total <= After(p, all, n, prefix, max).total <= max
  {
    if n > 0 {
      TotalBounded(p, all, n - 1, prefix, max);
    }
  }

  /** Once archiving has stopped, later objects change nothing. */
  lemma {:induction false} StopStays(p: Progress, all: seq<Object>, m: nat, n: nat, prefix: string, max: int)
    requires m <= n <= |all| && After(p, all, m, prefix, max).stop.Some?
    ensures After(p, all, n, prefix, max) == After(p, all, m, prefix, max)
  {
    if m < n {
      StopStays(p, all, m, n - 1, prefix, max);
    }
  }

  // ------------------------------------------------------ what success means

  /** Done so far with all objects, or stopped at one of them. */
  ghost predicate Outcome(p: Progress, objects: seq<Object>, prefix: string, max: int) {
    match p.stop
    case None => EntriesFor(p.entries, objects, prefix) && p.total == TotalSize(objects) <= max
    case Some(stop) => StoppedAt(p.entries, objects, prefix, max, stop)
  }

  lemma NameIsRest(key: string, prefix: string)
    ensures TrimPrefix(key, prefix) == NameIn(key, prefix)
  {
    if prefix <= key {
      DropIsSlice(key, |prefix|);
    }
  }

  lemma StepArchives(p: Progress, objects: seq<Object>, o: Object, prefix: string, max: int)
    requires Outcome(p, objects, prefix, max) && p.stop.None? && NameIn(o.key, prefix) != "" && o.size >= 0
    ensures Outcome(Step(p, o, prefix, max), objects + [o], prefix, max)
  {
    var after := Step(p, o, prefix, max);
    NameIsRest(o.key, prefix);
    TotalOneMore(objects, o);
    if after.stop.None? {
      OneMoreEntry(p.entries, objects, after.entries[|objects|], o, prefix);
    } else {
      assert (objects + [o])[..|objects|] == objects;
    }
  }

  lemma TotalOneMore(objects: seq<Object>, o: Object)
    ensures TotalSize(objects + [o]) == TotalSize(objects) + o.size as int
  {
    assert (objects + [o])[..|objects|] == objects;
  }

  lemma OneMoreEntry(entries: seq<Entry>, objects: seq<Object>, entry: Entry, o: Object, prefix: string)
    requires EntriesFor(entries, objects, prefix) && EntryFor(entry, o, prefix)
    ensures EntriesFor(entries + [entry], objects + [o], prefix)
  {
  }

  lemma StoppedStays(entries: seq<Entry>, objects: seq<Object>, o: Object, prefix: string, max: int, stop: Stop)
    requires StoppedAt(entries, objects, prefix, max, stop)
    ensures StoppedAt(entries, objects + [o], prefix, max, stop)
  {
    assert (objects + [o])[..|entries|] == objects[..|entries|];
  }

  /** The objects to archive, with one more listed. */
  function WithNext(objects: seq<Object>, o: Object, prefix: string): seq<Object> {
    if NameIn(o.key, prefix) == "" then objects else objects + [o]
  }

  lemma StepOutcome(p: Progress, objects: seq<Object>, o: Object, prefix: string, max: int)
    requires Outcome(p, objects, prefix, max) && o.size >= 0
    ensures Outcome(Step(p, o, prefix, max), WithNext(objects, o, prefix), prefix, max)
  {
    NameIsRest(o.key, prefix);
    if NameIn(o.key, prefix) != "" {
      if p.stop.None? {
        StepArchives(p, objects, o, prefix, max);
      } else {
        StoppedStays(p.entries, objects, o, prefix, max, p.stop.value);
      }
    }
  }

  lemma InsideOneMore(listing: seq<Object>, n: nat, prefix: string)
    requires 0 < n <= |listing|
    ensures Inside(listing[..n], prefix) == WithNext(Inside(listing[..n - 1], prefix), listing[n - 1], prefix)
  {
    assert listing[..n][..n - 1] == listing[..n - 1];
  }

  /** After the first `n` objects of a listing: all of those below the prefix are
      archived within the limit, or archiving has stopped at the first of them
      that is unsafe, too large for the rest, or unreadable. */
  lemma {:induction false} ArchiveOutcome(listing: seq<Object>, n: nat, prefix: string, max: int)
    requires n <= |listing| && Sizes(listing) && max >= 0
    ensures Outcome(After(EMPTY, listing, n, prefix, max), Inside(listing[..n], prefix), prefix, max)
  {
    if n > 0 {
      ArchiveOutcome(listing, n - 1, prefix, max);
      StepOutcome(After(EMPTY, listing, n - 1, prefix, max), Inside(listing[..n - 1], prefix), listing[n - 1],
                  prefix, max);
      InsideOneMore(listing, n, prefix);
    }
  }

  ghost predicate Archivable(objects: seq<Object>, prefix: string) {
    forall i :: 0 <= i < |objects| ==> SafeName(NameIn(objects[i].key, prefix)) && objects[i].body.Some?
  }

  lemma {:induction false} TotalGrows(objects: seq<Object>, n: nat)
    requires n <= |objects| && Sizes(objects)
    ensures TotalSize(objects[..n]) <= TotalSize(objects)
  {
    if n == |objects| {
      assert objects[..n] == objects;
    } else {
      var last := |objects| - 1;
      TotalGrows(objects[..last], n);
      assert objects[..last][..n] == objects[..n];
    }
  }

  lemma {:induction false} InsideSizes(listing: seq<Object>, prefix: string)
    requires Sizes(listing)
    ensures Sizes(Inside(listing, prefix))
  {
    if listing != [] {
      InsideSizes(listing[..|listing| - 1], prefix);
    }
  }

  /** Archiving succeeds exactly when every object below the prefix has a safe
      name and can be read and their declared sizes sum to no more than the limit. */
  lemma ArchiveSucceedsIff(listing: seq<Object>, prefix: string, max: int)
    requires Sizes(listing) && max >= 0
    ensures var objects := Inside(listing, prefix);
            After(EMPTY, listing, |listing|, prefix, max).stop.None?
            <==> Archivable(objects, prefix) && TotalSize(objects) <= max
  {
    var p, objects := After(EMPTY, listing, |listing|, prefix, max), Inside(listing, prefix);
    WholeOutcome(listing, prefix, max);
    if p.stop.None? {
      ArchivedIsArchivable(p.entries, objects, prefix);
    } else {
      InsideSizes(listing, prefix);
      RefusedIsNotArchivable(p.entries, objects, prefix, max, p.stop.value);
    }
  }

  lemma WholeOutcome(listing: seq<Object>, prefix: string, max: int)
    requires Sizes(listing) && max >= 0
    ensures Outcome(After(EMPTY, listing, |listing|, prefix, max), Inside(listing, prefix), prefix, max)
  {
    ArchiveOutcome(listing, |listing|, prefix, max);
    assert listing[..|listing|] == listing;
  }

  lemma ArchivedIsArchivable(entries: seq<Entry>, objects: seq<Object>, prefix: string)
    requires EntriesFor(entries, objects, prefix)
    ensures Archivable(objects, prefix)
  {
    assert forall i :: 0 <= i < |objects| ==> EntryFor(entries[i], objects[i], prefix);
  }

  lemma RefusedIsNotArchivable(entries: seq<Entry>, objects: seq<Object>, prefix: string, max: int, stop: Stop)
    requires Sizes(objects) && StoppedAt(entries, objects, prefix, max, stop)
    ensures !(Archivable(objects, prefix) && TotalSize(objects) <= max)
  {
    var k := |entries|;
    TotalGrows(objects, k + 1);
    assert objects[..k + 1][..k] == objects[..k];
  }

  /** An object is archived under the rest of its key, which never leads out of
      the directory it is unpacked in. */
  lemma FileNames(entry: Entry, o: Object, prefix: string)
    requires EntryFor(entry, o, prefix)
    ensures prefix <= o.key ==> prefix + entry.name == o.key
    ensures ".." !in Split(entry.name) && forall dir :: dir <= Follow(dir, Split(entry.name))
  {
    forall dir ensures dir <= Follow(dir, Split(entry.name)) {
      SafeNamesStayInside(dir, Split(entry.name));
    }
  }

  // ---------------------------------------------------------------- the code

  /** The body of the loop over a page's objects. The int64 test neither
      overflows nor differs from the test on unbounded sums. */
  method ArchiveObject(o: Object, prefix: string, maxBytes: int64, entries: seq<Entry>, totalBytes: int64)
    returns (stop: Option<Stop>, entries': seq<Entry>, totalBytes': int64)
    requires o.size >= 0 && 0 <= totalBytes <= maxBytes
    ensures Progress(entries', totalBytes' as int, stop)
            == Step(Progress(entries, totalBytes as int, None), o, prefix, maxBytes as int)
  {
    stop, entries', totalBytes' := None, entries, totalBytes;
    var relative := TrimPrefix(o.key, prefix);
    if relative == "" {
      return;
    }
    var safe := SafeArchivePath(relative);
    if !safe {
      return Some(UnsafeName), entries, totalBytes;
    }
    var objectSize := o.size;
    if totalBytes > maxBytes - objectSize {
      return Some(TooLarge), entries, totalBytes;
    }
    totalBytes' := totalBytes + objectSize;
    if o.body.None? {
      return Some(ReadFailed), entries, totalBytes';
    }
    entries' := entries + [Entry(relative, o.body.value)];
  }

  /** A page of a listing, and where the next page starts. */
  datatype Page = Page(contents: seq<Object>, truncated: bool, next: nat)

  /** A page of any size; a truncated page makes progress. None: the call failed. */
  method ListObjects(listing: seq<Object>, from: nat, reliable: bool) returns (page: Option<Page>)
    requires from <= |listing|
    ensures page.Some? ==> IsPage(listing, from, page.value)
    ensures reliable ==> page.Some?
  {
    var next: nat := *;
    var failed: bool := *;
    if failed && !reliable {
      return None;
    }
    if from < next < |listing| {
      return Some(Page(listing[from..next], true, next));
    }
    return Some(Page(listing[from..], false, |listing|));
  }

  ghost predicate IsPage(listing: seq<Object>, from: nat, page: Page) {
    && from <= page.next <= |listing|
    && page.contents == listing[from..page.next]
    && (if page.truncated then from < page.next else page.next == |listing|)
  }

  method ArchivePage(page: seq<Object>, prefix: string, maxBytes: int64,
                     entries: seq<Entry>, totalBytes: int64)
    returns (stop: Option<Stop>, entries': seq<Entry>, totalBytes': int64)
    requires 0 <= totalBytes <= maxBytes && Sizes(page)
    ensures After(Progress(entries, totalBytes as int, None), page, |page|, prefix, maxBytes as int)
            == Progress(entries', totalBytes' as int, stop)
  {
    ghost var start := Progress(entries, totalBytes as int, None);
    stop, entries', totalBytes' := None, entries, totalBytes;
    for i := 0 to |page|
      invariant stop == None && 0 <= totalBytes' <= maxBytes
      invariant After(start, page, i, prefix, maxBytes as int) == Progress(entries', totalBytes' as int, None)
    {
      stop, entries', totalBytes' := ArchiveObject(page[i], prefix, maxBytes, entries', totalBytes');
      TotalBounded(start, page, i + 1, prefix, maxBytes as int);
      if stop.Some? {
        StopStays(start, page, i + 1, |page|, prefix, maxBytes as int);
        return;
      }
    }
  }

  /** The archive after the objects of the listing before place `from`. */
  function Upto(listing: seq<Object>, from: nat, prefix: string, max: int): Progress
    requires from <= |listing|
  {
    After(EMPTY, listing, from, prefix, max)
  }

  /** Lists and archives the page that starts at `from`; None: it could not be listed. */
  method ArchiveFrom(listing: seq<Object>, from: nat, prefix: string, maxBytes: int64,
                     entries: seq<Entry>, totalBytes: int64, reliable: bool)
    returns (next: Option<nat>, more: bool, stop: Option<Stop>, entries': seq<Entry>, totalBytes': int64)
    requires maxBytes > 0 && Sizes(listing) && from <= |listing|
    requires Upto(listing, from, prefix, maxBytes as int) == Progress(entries, totalBytes as int, None)
    ensures next.Some? ==>
              from <= next.value <= |listing| && (if more then from < next.value else next.value == |listing|)
    ensures next.Some? ==>
              Upto(listing, next.value, prefix, maxBytes as int) == Progress(entries', totalBytes' as int, stop)
    ensures reliable ==> next.Some?
  {
    var page := ListObjects(listing, from, reliable);
    if page.None? {
      return None, false, None, entries, totalBytes;
    }
    next, more := Some(page.value.next), page.value.truncated;
    TotalBounded(EMPTY, listing, from, prefix, maxBytes as int);
    AfterAfter(EMPTY, listing, from, page.value.next, prefix, maxBytes as int);
    stop, entries', totalBytes' := ArchivePage(page.value.contents, prefix, maxBytes, entries, totalBytes);
  }

  /** The loop over the pages; not `listed`: a page could not be listed. */
  method ArchivePages(listing: seq<Object>, prefix: string, maxBytes: int64, reliable: bool)
    returns (listed: bool, stop: Option<Stop>, entries: seq<Entry>)
    requires maxBytes > 0 && Sizes(listing)
    ensures listed ==> Upto(listing, |listing|, prefix, maxBytes as int).stop == stop
    ensures listed ==> Upto(listing, |listing|, prefix, maxBytes as int).entries == entries
    ensures reliable ==> listed
  {
    listed, stop, entries := true, None, [];
    var totalBytes: int64 := 0;
    var from := 0;
    while true
      invariant listed && stop == None && from <= |listing|
      invariant Upto(listing, from, prefix, maxBytes as int) == Progress(entries, totalBytes as int, None)
      decreases |listing| - from
    {
      var next, more;
      next, more, stop, entries, totalBytes :=
        ArchiveFrom(listing, from, prefix, maxBytes, entries, totalBytes, reliable);
      if next.None? {
        return false, None, entries;
      }
      if stop.Some? {
        StopStays(EMPTY, listing, next.value, |listing|, prefix, maxBytes as int);
        return;
      }
      if !more {
        return;
      }
      from := next.value;
    }
  }

  /** However the listing is paged: done means that every object below the
      prefix is in the archive under the rest of its key, in order, and that
      their sizes together are within the limit; stopped names the first of them
      for which that was impossible. `reliable`: every page can be listed. */
  method DownloadArchive(listing: seq<Object>, prefix: string, format: string, maxBytes: int64, reliable: bool)
    returns (result: Result, entries: seq<Entry>)
    requires Sizes(listing)
    ensures result == BadLimit <==> maxBytes <= 0
    ensures result == BadFormat <==> maxBytes > 0 && format != "zip" && format != "tgz"
    ensures result == Done ==>
              EntriesFor(entries, Inside(listing, prefix), prefix)
              && TotalSize(Inside(listing, prefix)) <= maxBytes as int
    ensures result.Stopped? ==> StoppedAt(entries, Inside(listing, prefix), prefix, maxBytes as int, result.stop)
    ensures reliable && maxBytes > 0 && (format == "zip" || format == "tgz") ==>
              (result == Done <==> Archivable(Inside(listing, prefix), prefix)
                                   && TotalSize(Inside(listing, prefix)) <= maxBytes as int)
    ensures reliable ==> result != ListFailed
  {
    if maxBytes <= 0 {
      return BadLimit, [];
    }
    if format != "zip" && format != "tgz" {
      return BadFormat, [];
    }
    var listed, stop;
    listed, stop, entries := ArchivePages(listing, prefix, maxBytes, reliable);
    if !listed {
      return ListFailed, entries;
    }
    WholeOutcome(listing, prefix, maxBytes as int);
    ArchiveSucceedsIff(listing, prefix, maxBytes as int);
    return if stop.Some? then Stopped(stop.value) else Done, entries;
  }
}
