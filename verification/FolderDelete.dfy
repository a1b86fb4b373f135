/** Deleting everything under a folder key: list, then delete in batches, with
    a page-by-page fallback for stores without version listings
    (internal/service/s3/service.go, DeleteFile and deleteObjects). */
module FolderDelete {
  import opened Lists
  import opened Wrappers
  import opened Text

  const BATCH_SIZE := 1000

  /** A stored version or delete marker. */
  datatype Version = Version(key: string, id: string, marker: bool)

  /** An entry of a version listing; a store without versions may leave the id out. */
  datatype Item = Item(key: Option<string>, id: Option<string>, marker: bool)

  datatype Identifier = Identifier(key: string, id: Option<string>)

  datatype VersionPage = VersionPage(items: seq<Item>, truncated: bool, next: nat)
  datatype ObjectPage = ObjectPage(keys: seq<string>, truncated: bool, token: Option<string>)

  // ------------------------------------------------------------- filtering

  function KeepVersions(versions: seq<Version>, gone: set<Identifier>): seq<Version> {
    if versions == [] then []
    else
      var last := |versions| - 1;
      var before := KeepVersions(versions[..last], gone);
      if Identifier(versions[last].key, Some(versions[last].id)) in gone then before else before + [versions[last]]
  }

  lemma {:induction false} KeptVersions(versions: seq<Version>, gone: set<Identifier>)
    ensures forall v :: v in KeepVersions(versions, gone) <==> v in versions && Identifier(v.key, Some(v.id)) !in gone
  {
    if versions != [] {
      var last := |versions| - 1;
      KeptVersions(versions[..last], gone);
      assert versions == versions[..last] + [versions[last]];
    }
  }

  function KeepKeys(keys: seq<string>, gone: set<Identifier>): seq<string> {
    if keys == [] then []
    else
      var last := |keys| - 1;
      var before := KeepKeys(keys[..last], gone);
      if Identifier(keys[last], None) in gone then before else before + [keys[last]]
  }

  lemma {:induction false} KeptKeys(keys: seq<string>, gone: set<Identifier>)
    ensures forall k :: k in KeepKeys(keys, gone) <==> k in keys && Identifier(k, None) !in gone
    ensures |KeepKeys(keys, gone)| <= |keys|
  {
    if keys != [] {
      var last := |keys| - 1;
      KeptKeys(keys[..last], gone);
      assert keys == keys[..last] + [keys[last]];
    }
  }

  lemma {:induction false} KeepVersionsTwice(versions: seq<Version>, a: set<Identifier>, b: set<Identifier>)
    ensures KeepVersions(KeepVersions(versions, a), b) == KeepVersions(versions, a + b)
  {
    if versions != [] {
      var last := |versions| - 1;
      KeepVersionsTwice(versions[..last], a, b);
      var before := KeepVersions(versions[..last], a);
      assert (before + [versions[last]])[..|before|] == before;
    }
  }

  lemma {:induction false} KeepKeysTwice(keys: seq<string>, a: set<Identifier>, b: set<Identifier>)
    ensures KeepKeys(KeepKeys(keys, a), b) == KeepKeys(keys, a + b)
  {
    if keys != [] {
      var last := |keys| - 1;
      KeepKeysTwice(keys[..last], a, b);
      var before := KeepKeys(keys[..last], a);
      assert (before + [keys[last]])[..|before|] == before;
    }
  }

  lemma {:induction false} KeepAllVersions(versions: seq<Version>)
    ensures KeepVersions(versions, {}) == versions
  {
    if versions != [] {
      KeepAllVersions(versions[..|versions| - 1]);
    }
  }

  lemma {:induction false} KeepAllKeys(keys: seq<string>)
    ensures KeepKeys(keys, {}) == keys
  {
    if keys != [] {
      KeepAllKeys(keys[..|keys| - 1]);
    }
  }

  lemma {:induction false} KeepKeysAscending(keys: seq<string>, gone: set<Identifier>)
    requires Ascending(keys)
    ensures Ascending(KeepKeys(keys, gone))
  {
    if keys != [] {
      var last := |keys| - 1;
      KeepKeysAscending(keys[..last], gone);
      KeptKeys(keys[..last], gone);
      var before := KeepKeys(keys[..last], gone);
      forall i | 0 <= i < |before| ensures Less(before[i], keys[last]) {
        assert before[i] in before;
        assert before[i] in keys[..last];
      }
    }
  }

  lemma {:induction false} KeepKeysShrinks(keys: seq<string>, gone: set<Identifier>)
    requires exists k :: k in keys && Identifier(k, None) in gone
    ensures |KeepKeys(keys, gone)| < |keys|
  {
    var last := |keys| - 1;
    KeptKeys(keys[..last], gone);
    if Identifier(keys[last], None) !in gone {
      assert keys == keys[..last] + [keys[last]];
      KeepKeysShrinks(keys[..last], gone);
    }
  }

  function OutsideVersions(versions: seq<Version>, prefix: string): (r: seq<Version>)
    ensures forall v :: v in r <==> v in versions && !(prefix <= v.key)
  {
    if versions == [] then []
    else
      var last := |versions| - 1;
      assert versions == versions[..last] + [versions[last]];
      var before := OutsideVersions(versions[..last], prefix);
      if prefix <= versions[last].key then before else before + [versions[last]]
  }

  function OutsideKeys(keys: seq<string>, prefix: string): (r: seq<string>)
    ensures forall k :: k in r <==> k in keys && !(prefix <= k)
  {
    if keys == [] then []
    else
      var last := |keys| - 1;
      assert keys == keys[..last] + [keys[last]];
      var before := OutsideKeys(keys[..last], prefix);
      if prefix <= keys[last] then before else before + [keys[last]]
  }

  ghost predicate AllUnder(gone: set<Identifier>, prefix: string) {
    forall id :: id in gone ==> prefix <= id.key
  }

  lemma {:induction false} OutsideVersionsKept(versions: seq<Version>, gone: set<Identifier>, prefix: string)
    requires AllUnder(gone, prefix)
    ensures OutsideVersions(KeepVersions(versions, gone), prefix) == OutsideVersions(versions, prefix)
  {
    if versions != [] {
      var last := |versions| - 1;
      OutsideVersionsKept(versions[..last], gone, prefix);
      var before := KeepVersions(versions[..last], gone);
      assert (before + [versions[last]])[..|before|] == before;
    }
  }

  lemma {:induction false} OutsideKeysKept(keys: seq<string>, gone: set<Identifier>, prefix: string)
    requires AllUnder(gone, prefix)
    ensures OutsideKeys(KeepKeys(keys, gone), prefix) == OutsideKeys(keys, prefix)
  {
    if keys != [] {
      var last := |keys| - 1;
      OutsideKeysKept(keys[..last], gone, prefix);
      var before := KeepKeys(keys[..last], gone);
      assert (before + [keys[last]])[..|before|] == before;
    }
  }

  function VersionsUnder(versions: seq<Version>, prefix: string): (r: seq<Item>)
    ensures forall i :: i in r <==>
              exists v :: v in versions && prefix <= v.key && i == Item(Some(v.key), Some(v.id), v.marker)
  {
    if versions == [] then []
    else
      var last := |versions| - 1;
      assert versions == versions[..last] + [versions[last]];
      var before := VersionsUnder(versions[..last], prefix);
      if prefix <= versions[last].key
      then before + [Item(Some(versions[last].key), Some(versions[last].id), versions[last].marker)] else before
  }

  function Unidentified(keys: seq<string>, prefix: string): (r: seq<Item>)
    ensures forall i :: i in r ==> i.id.None?
  {
    if keys == [] then []
    else
      var last := |keys| - 1;
      var before := Unidentified(keys[..last], prefix);
      if prefix <= keys[last] then before + [Item(Some(keys[last]), None, false)] else before
  }

  /** Keys under the prefix after the token, as a listing resumes there. */
  function KeysAfter(keys: seq<string>, prefix: string, token: Option<string>): (r: seq<string>)
    ensures forall k :: k in r <==> k in keys && prefix <= k && (token.Some? ==> Less(token.value, k))
  {
    if keys == [] then []
    else
      var last := |keys| - 1;
      assert keys == keys[..last] + [keys[last]];
      var before := KeysAfter(keys[..last], prefix, token);
      if prefix <= keys[last] && (token.Some? ==> Less(token.value, keys[last])) then before + [keys[last]] else before
  }

  lemma {:induction false} KeysAfterAscending(keys: seq<string>, prefix: string, token: Option<string>)
    requires Ascending(keys)
    ensures Ascending(KeysAfter(keys, prefix, token))
  {
    if keys != [] {
      var last := |keys| - 1;
      KeysAfterAscending(keys[..last], prefix, token);
      var before := KeysAfter(keys[..last], prefix, token);
      forall i | 0 <= i < |before| ensures Less(before[i], keys[last]) {
        assert before[i] in before;
        assert before[i] in keys[..last];
      }
    }
  }

  function IdSet(ids: seq<Identifier>): set<Identifier> {
    set id | id in ids
  }

  /** No identifier without a version names a key that has versions. */
  ghost predicate NoClash(ids: seq<Identifier>, versions: seq<Version>) {
    forall id, v :: id in ids && id.id.None? && v in versions ==> v.key != id.key
  }

  // ---------------------------------------------------------------- bucket

  /** A bucket with no other writers. `versions` are listed by version listings
      in order; `plain` are objects a store keeps without versions, in key order. */
  class Bucket {
    const listsPlain: bool
    var versions: seq<Version>
    var plain: seq<string>
    ghost var calls: seq<seq<Identifier>>

    constructor (versions: seq<Version>, plain: seq<string>, listsPlain: bool)
      ensures this.versions == versions && this.plain == plain && this.listsPlain == listsPlain && calls == []
    {
      this.versions, this.plain, this.listsPlain, this.calls := versions, plain, listsPlain, [];
    }

    function VersionListing(prefix: string): seq<Item>
      reads this
    {
      VersionsUnder(versions, prefix) + if listsPlain then Unidentified(plain, prefix) else []
    }

    /** A page of any size; a truncated page makes progress. None: the call failed. */
    method ListObjectVersions(prefix: string, from: nat, reliable: bool) returns (page: Option<VersionPage>)
      requires from <= |VersionListing(prefix)|
      ensures reliable ==> page.Some?
      ensures page.Some? ==>
                && from <= page.value.next <= |VersionListing(prefix)|
                && page.value.items == VersionListing(prefix)[from..page.value.next]
                && (if page.value.truncated then from < page.value.next
                    else page.value.next == |VersionListing(prefix)|)
    {
      var all := VersionListing(prefix);
      var next: nat := *;
      var failed: bool := *;
      if failed && !reliable {
        return None;
      }
      if from < next < |all| {
        return Some(VersionPage(all[from..next], true, next));
      }
      return Some(VersionPage(all[from..], false, |all|));
    }

    method ListObjects(prefix: string, token: Option<string>, reliable: bool) returns (page: Option<ObjectPage>)
      ensures reliable ==> page.Some?
      ensures page.Some? ==>
                var all := KeysAfter(plain, prefix, token);
                && page.value.keys <= all
                && (if page.value.truncated
                    then page.value.keys != [] && page.value.token == Some(page.value.keys[|page.value.keys| - 1])
                    else page.value.keys == all)
    {
      var all := KeysAfter(plain, prefix, token);
      var size: nat := *;
      var failed: bool := *;
      if failed && !reliable {
        return None;
      }
      if 0 < size < |all| {
        return Some(ObjectPage(all[..size], true, Some(all[size - 1])));
      }
      return Some(ObjectPage(all, false, None));
    }

    /** One DeleteObjects call. When it fails or S3 rejects some deletions, any
        part of the batch may be gone. An identifier without a version must not
        name a versioned key: S3 would put a delete marker there. */
    method DeleteObjects(batch: seq<Identifier>, reliable: bool) returns (ok: bool, ghost gone: set<Identifier>)
      requires NoClash(batch, versions)
      modifies this
      ensures gone <= IdSet(batch) && (ok ==> gone == IdSet(batch)) && (reliable ==> ok)
      ensures versions == KeepVersions(old(versions), gone) && plain == KeepKeys(old(plain), gone)
      ensures calls == old(calls) + [batch]
    {
      var done := {};
      var accepted: bool := *;
      ok := accepted || reliable;
      for i := 0 to |batch|
        invariant done <= IdSet(batch) && (ok ==> forall j :: 0 <= j < i ==> batch[j] in done)
        invariant versions == old(versions) && plain == old(plain) && calls == old(calls)
      {
        var hit: bool := *;
        if ok || hit {
          done := done + {batch[i]};
        }
      }
      versions, plain := KeepVersions(versions, done), KeepKeys(plain, done);
      calls := calls + [batch];
      gone := done;
    }
  }

  // -------------------------------------------------------------- deleting

  /** Batches of 1000, but for a last one that may hold fewer. */
  ghost predicate Batches(batches: seq<seq<Identifier>>) {
    forall b :: 0 <= b < |batches| ==> 1 <= |batches[b]| <= 1000 && (b < |batches| - 1 ==> |batches[b]| == 1000)
  }

  ghost predicate AllFull(batches: seq<seq<Identifier>>) {
    forall b :: 0 <= b < |batches| ==> |batches[b]| == 1000
  }

  lemma NextBatch(batches: seq<seq<Identifier>>, objects: seq<Identifier>, start: nat, end: nat)
    requires start < end <= |objects| && end - start <= BATCH_SIZE
    requires AllFull(batches) && Flatten(batches) == objects[..start]
    ensures end - start == BATCH_SIZE ==> AllFull(batches + [objects[start..end]])
    ensures Batches(batches + [objects[start..end]]) && Flatten(batches + [objects[start..end]]) == objects[..end]
    ensures objects[..end] <= objects
  {
    FlattenLast(batches, objects[start..end]);
    assert objects[..end] == objects[..start] + objects[start..end];
  }

  lemma IdSetSplit(objects: seq<Identifier>, start: nat, end: nat)
    requires start <= end <= |objects|
    ensures IdSet(objects[..start]) + IdSet(objects[start..end]) == IdSet(objects[..end])
    ensures IdSet(objects[..end]) <= IdSet(objects)
  {
    assert objects[..end] == objects[..start] + objects[start..end];
  }

  /** What is gone after one more batch. */
  lemma BatchGone(objects: seq<Identifier>, start: nat, end: nat, part: set<Identifier>)
    requires start <= end <= |objects| && part <= IdSet(objects[start..end])
    ensures IdSet(objects[..start]) + part <= IdSet(objects)
    ensures part == IdSet(objects[start..end]) ==> IdSet(objects[..start]) + part == IdSet(objects[..end])
  {
    IdSetSplit(objects, start, end);
  }

  lemma BatchNoClash(objects: seq<Identifier>, start: nat, end: nat, versions: seq<Version>, gone: set<Identifier>)
    requires start <= end <= |objects| && NoClash(objects, versions)
    ensures NoClash(objects[start..end], KeepVersions(versions, gone))
  {
    KeptVersions(versions, gone);
  }

  /** What holds after one more batch. */
  lemma BatchDone(objects: seq<Identifier>, versions: seq<Version>, plain: seq<string>, start: nat, end: nat,
                  gone: set<Identifier>, part: set<Identifier>, batches: seq<seq<Identifier>>)
    requires start < end <= |objects| && end - start <= BATCH_SIZE
    requires gone == IdSet(objects[..start]) && part <= IdSet(objects[start..end])
    requires AllFull(batches) && Flatten(batches) == objects[..start]
    ensures KeepVersions(KeepVersions(versions, gone), part) == KeepVersions(versions, gone + part)
    ensures KeepKeys(KeepKeys(plain, gone), part) == KeepKeys(plain, gone + part)
    ensures gone + part <= IdSet(objects)
    ensures part == IdSet(objects[start..end]) ==> gone + part == IdSet(objects[..end])
    ensures Batches(batches + [objects[start..end]])
    ensures end - start == BATCH_SIZE ==> AllFull(batches + [objects[start..end]])
    ensures Flatten(batches + [objects[start..end]]) == objects[..end] && objects[..end] <= objects
  {
    KeepVersionsTwice(versions, gone, part);
    KeepKeysTwice(plain, gone, part);
    NextBatch(batches, objects, start, end);
    BatchGone(objects, start, end, part);
  }

  /** deleteObjects: batches of 1000, and a last one of at least one, that cover
      the list in order, once. */
  method DeleteAll(bucket: Bucket, objects: seq<Identifier>, reliable: bool)
    returns (ok: bool, ghost gone: set<Identifier>, ghost batches: seq<seq<Identifier>>)
    requires NoClash(objects, bucket.versions)
    modifies bucket
    ensures gone <= IdSet(objects) && (ok ==> gone == IdSet(objects)) && (reliable ==> ok)
    ensures bucket.versions == KeepVersions(old(bucket.versions), gone)
    ensures bucket.plain == KeepKeys(old(bucket.plain), gone)
    ensures bucket.calls == old(bucket.calls) + batches && Batches(batches)
    ensures Flatten(batches) <= objects && (ok ==> Flatten(batches) == objects)
  {
    gone, batches := {}, [];
    KeepAllVersions(bucket.versions);
    KeepAllKeys(bucket.plain);
    var start := 0;
    while start < |objects|
      invariant 0 <= start <= |objects|
      invariant gone == IdSet(objects[..start])
      invariant bucket.versions == KeepVersions(old(bucket.versions), gone)
      invariant bucket.plain == KeepKeys(old(bucket.plain), gone)
      invariant bucket.calls == old(bucket.calls) + batches
      invariant Batches(batches) && (start < |objects| ==> AllFull(batches))
      invariant Flatten(batches) == objects[..start]
    {
      var end := start + BATCH_SIZE;
      if end > |objects| {
        end := |objects|;
      }
      ghost var part;
      BatchNoClash(objects, start, end, old(bucket.versions), gone);
      ok, part := bucket.DeleteObjects(objects[start..end], reliable);
      BatchDone(objects, old(bucket.versions), old(bucket.plain), start, end, gone, part, batches);
      gone, batches := gone + part, batches + [objects[start..end]];
      if !ok {
        return;
      }
      start := end;
    }
    assert objects[..|objects|] == objects;
    ok := true;
  }

  ghost predicate Names(item: Item, id: Identifier) {
    id.id.Some? && item.key == Some(id.key) && item.id == id.id
  }

  ghost predicate Collected(ids: seq<Identifier>, items: seq<Item>) {
    forall id :: id in ids <==> exists i :: i in items && Names(i, id)
  }

  /** One loop of the collection: the identified items of one kind. */
  method CollectKind(items: seq<Item>, marker: bool) returns (ids: seq<Identifier>)
    ensures forall id :: id in ids <==> exists i :: i in items && i.marker == marker && Names(i, id)
  {
    ids := [];
    for n := 0 to |items|
      invariant forall id :: id in ids <==> exists i :: i in items[..n] && i.marker == marker && Names(i, id)
    {
      var item := items[n];
      assert items[..n + 1] == items[..n] + [item];
      if item.marker == marker && item.key.Some? && item.id.Some? {
        assert Names(item, Identifier(item.key.value, item.id));
        ids := ids + [Identifier(item.key.value, item.id)];
      }
    }
    assert items[..|items|] == items;
  }

  /** The identified versions of a page, then its identified delete markers. */
  method CollectPage(items: seq<Item>) returns (ids: seq<Identifier>)
    ensures Collected(ids, items)
  {
    var versions := CollectKind(items, false);
    var markers := CollectKind(items, true);
    ids := versions + markers;
  }

  /** Every identified version and delete marker that a listing shows, over all its pages. */
  method CollectVersions(bucket: Bucket, prefix: string, reliable: bool) returns (ids: Option<seq<Identifier>>)
    ensures reliable ==> ids.Some?
    ensures ids.Some? ==> Collected(ids.value, bucket.VersionListing(prefix))
  {
    var found: seq<Identifier> := [];
    var from := 0;
    while true
      invariant from <= |bucket.VersionListing(prefix)|
      invariant Collected(found, bucket.VersionListing(prefix)[..from])
      decreases |bucket.VersionListing(prefix)| - from
    {
      var page := bucket.ListObjectVersions(prefix, from, reliable);
      if page.None? {
        return None;
      }
      var more := CollectPage(page.value.items);
      ghost var all := bucket.VersionListing(prefix);
      assert all[..page.value.next] == all[..from] + page.value.items;
      found := found + more;
      if !page.value.truncated {
        assert all[..page.value.next] == all;
        return Some(found);
      }
      from := page.value.next;
    }
  }

  ghost predicate NoneUnder(versions: seq<Version>, prefix: string) {
    forall v :: v in versions ==> !(prefix <= v.key)
  }

  ghost predicate NoKeyUnder(keys: seq<string>, prefix: string) {
    forall k :: k in keys ==> !(prefix <= k)
  }

  ghost predicate Identifies(v: Version, id: Identifier) {
    v.key == id.key && Some(v.id) == id.id
  }

  /** What is collected is exactly what is stored with a version under the prefix. */
  lemma CollectedVersions(ids: seq<Identifier>, bucket: Bucket, prefix: string)
    requires Collected(ids, bucket.VersionListing(prefix))
    ensures forall id :: id in ids <==> prefix <= id.key && exists v :: v in bucket.versions && Identifies(v, id)
  {
    var listing := bucket.VersionListing(prefix);
    forall id: Identifier
      ensures id in ids <==> prefix <= id.key && exists v :: v in bucket.versions && Identifies(v, id)
    {
      if v :| v in bucket.versions && Identifies(v, id) && prefix <= id.key {
        assert Item(Some(v.key), Some(v.id), v.marker) in listing;
        assert Names(Item(Some(v.key), Some(v.id), v.marker), id);
      }
      if id in ids {
        var i :| i in listing && Names(i, id);
        assert i in VersionsUnder(bucket.versions, prefix);
        var v :| v in bucket.versions && prefix <= v.key && i == Item(Some(v.key), Some(v.id), v.marker);
        assert Identifies(v, id);
      }
    }
  }

  /** Of the keys under the prefix, only those after the token are left. */
  ghost predicate OnlyAfter(plain: seq<string>, prefix: string, token: Option<string>) {
    token.Some? ==> forall k :: k in plain && prefix <= k ==> Less(token.value, k)
  }

  datatype PageResult = PageFailed | LastPage | MorePages(token: Option<string>)

  /** One round of the fallback: list a page, delete its objects. */
  method DeletePage(bucket: Bucket, prefix: string, token: Option<string>, reliable: bool)
    returns (result: PageResult, ghost gone: set<Identifier>)
    requires NoneUnder(bucket.versions, prefix) && Ascending(bucket.plain) && OnlyAfter(bucket.plain, prefix, token)
    modifies bucket
    ensures AllUnder(gone, prefix)
    ensures bucket.versions == KeepVersions(old(bucket.versions), gone)
    ensures bucket.plain == KeepKeys(old(bucket.plain), gone)
    ensures reliable ==> !result.PageFailed?
    ensures result.LastPage? ==> NoKeyUnder(bucket.plain, prefix)
    ensures result.MorePages? ==> OnlyAfter(bucket.plain, prefix, result.token) && |bucket.plain| < |old(bucket.plain)|
  {
    var page := bucket.ListObjects(prefix, token, reliable);
    if page.None? {
      KeepAllVersions(bucket.versions);
      KeepAllKeys(bucket.plain);
      return PageFailed, {};
    }
    var keys := page.value.keys;
    PageIsUnder(bucket.plain, bucket.versions, prefix, token, keys);
    var ok;
    ghost var batches;
    ok, gone, batches := DeleteAll(bucket, Objects(keys), reliable);
    if !ok {
      return PageFailed, gone;
    }
    RestIsAfter(old(bucket.plain), prefix, token, keys, gone);
    if !page.value.truncated {
      return LastPage, gone;
    }
    assert keys[|keys| - 1] in keys;
    KeepKeysShrinks(old(bucket.plain), gone);
    return MorePages(page.value.token), gone;
  }

  /** The fallback: delete the listed objects page by page while the token advances. */
  method DeleteByPages(bucket: Bucket, prefix: string, reliable: bool)
    returns (ok: bool, ghost gone: set<Identifier>)
    requires NoneUnder(bucket.versions, prefix) && Ascending(bucket.plain)
    modifies bucket
    ensures AllUnder(gone, prefix) && bucket.versions == KeepVersions(old(bucket.versions), gone)
    ensures bucket.plain == KeepKeys(old(bucket.plain), gone)
    ensures ok ==> NoKeyUnder(bucket.plain, prefix)
    ensures reliable ==> ok
  {
    gone := {};
    KeepAllVersions(bucket.versions);
    KeepAllKeys(bucket.plain);
    var token: Option<string> := None;
    while true
      invariant AllUnder(gone, prefix) && bucket.versions == KeepVersions(old(bucket.versions), gone)
      invariant bucket.plain == KeepKeys(old(bucket.plain), gone)
      invariant OnlyAfter(bucket.plain, prefix, token)
      decreases |bucket.plain|
    {
      NoneUnderKept(old(bucket.versions), gone, prefix);
      KeepKeysAscending(old(bucket.plain), gone);
      ghost var part;
      var result;
      result, part := DeletePage(bucket, prefix, token, reliable);
      KeepVersionsTwice(old(bucket.versions), gone, part);
      KeepKeysTwice(old(bucket.plain), gone, part);
      gone := gone + part;
      match result
      case PageFailed => return false, gone;
      case LastPage => return true, gone;
      case MorePages(next) => token := next;
    }
  }

  function Objects(keys: seq<string>): (r: seq<Identifier>)
    ensures |r| == |keys| && forall i :: 0 <= i < |r| ==> r[i] == Identifier(keys[i], None)
  {
    seq(|keys|, i requires 0 <= i < |keys| => Identifier(keys[i], None))
  }

  lemma PageIsUnder(plain: seq<string>, versions: seq<Version>, prefix: string, token: Option<string>,
                    keys: seq<string>)
    requires keys <= KeysAfter(plain, prefix, token) && NoneUnder(versions, prefix)
    ensures NoClash(Objects(keys), versions) && AllUnder(IdSet(Objects(keys)), prefix)
  {
    forall id | id in Objects(keys) ensures prefix <= id.key {
      var i :| 0 <= i < |keys| && Objects(keys)[i] == id;
      assert keys[i] == KeysAfter(plain, prefix, token)[i];
      assert keys[i] in KeysAfter(plain, prefix, token);
    }
  }

  /** Deleting a page leaves, under the prefix, only keys beyond its last one. */
  lemma RestIsAfter(plain: seq<string>, prefix: string, token: Option<string>, keys: seq<string>, part: set<Identifier>)
    requires Ascending(plain) && keys <= KeysAfter(plain, prefix, token)
    requires part == IdSet(Objects(keys))
    requires token.Some? ==> forall k :: k in plain && prefix <= k ==> Less(token.value, k)
    ensures forall k :: k in KeepKeys(plain, part) && prefix <= k ==>
              k in KeysAfter(plain, prefix, token) && k !in keys && (keys != [] ==> Less(keys[|keys| - 1], k))
    ensures forall k :: k in keys ==> k in plain && prefix <= k && Identifier(k, None) in part
  {
    var all := KeysAfter(plain, prefix, token);
    KeysAfterAscending(plain, prefix, token);
    KeptKeys(plain, part);
    forall k | k in keys ensures k in plain && prefix <= k && Identifier(k, None) in part {
      var i :| 0 <= i < |keys| && keys[i] == k;
      assert Objects(keys)[i] in Objects(keys);
      assert all[i] in all;
    }
    forall k | k in KeepKeys(plain, part) && prefix <= k
      ensures k in all && k !in keys && (keys != [] ==> Less(keys[|keys| - 1], k))
    {
      var i :| 0 <= i < |all| && all[i] == k;
      assert i >= |keys|;
    }
  }

  /** The first half: all versions and delete markers under the prefix. */
  method DeleteVersions(bucket: Bucket, prefix: string, reliable: bool) returns (ok: bool, found: nat)
    modifies bucket
    ensures reliable ==> ok
    ensures OutsideVersions(bucket.versions, prefix) == OutsideVersions(old(bucket.versions), prefix)
    ensures bucket.plain == old(bucket.plain)
    ensures ok ==> NoneUnder(bucket.versions, prefix) && (found == 0 <==> NoneUnder(old(bucket.versions), prefix))
  {
    var versionObjects := CollectVersions(bucket, prefix, reliable);
    if versionObjects.None? {
      return false, 0;
    }
    var ids := versionObjects.value;
    CollectedVersions(ids, bucket, prefix);
    ghost var versions := bucket.versions;
    if ids != [] {
      assert ids[0] in ids;
    }
    ghost var gone;
    ghost var batches;
    ok, gone, batches := DeleteAll(bucket, ids, reliable);
    found := |ids|;
    OutsideVersionsKept(versions, gone, prefix);
    PlainKept(old(bucket.plain), gone);
    if ok {
      VersionsGone(versions, gone, prefix);
      forall v | v in versions && prefix <= v.key ensures Identifier(v.key, Some(v.id)) in ids {
        assert Identifies(v, Identifier(v.key, Some(v.id)));
      }
    }
  }

  /** DeleteFile on a folder key. On success nothing with a version is left
      under it, and no plain object either unless the store had both kinds
      there; outside it nothing changes, successful or not. `reliable`: no call
      to S3 fails; then the deletion succeeds. */
  method DeleteFolder(bucket: Bucket, prefix: string, reliable: bool) returns (ok: bool)
    requires Ascending(bucket.plain)
    modifies bucket
    ensures reliable ==> ok
    ensures OutsideVersions(bucket.versions, prefix) == OutsideVersions(old(bucket.versions), prefix)
    ensures OutsideKeys(bucket.plain, prefix) == OutsideKeys(old(bucket.plain), prefix)
    ensures ok ==> NoneUnder(bucket.versions, prefix)
    ensures ok ==> (NoKeyUnder(bucket.plain, prefix)
                    <==> NoneUnder(old(bucket.versions), prefix) || NoKeyUnder(old(bucket.plain), prefix))
  {
    var found;
    ok, found := DeleteVersions(bucket, prefix, reliable);
    if ok && found == 0 {
      ghost var versions := bucket.versions;
      ghost var gone;
      ok, gone := DeleteByPages(bucket, prefix, reliable);
      OutsideVersionsKept(versions, gone, prefix);
      OutsideKeysKept(old(bucket.plain), gone, prefix);
      NoneUnderKept(versions, gone, prefix);
    }
  }

  lemma NoneUnderKept(versions: seq<Version>, gone: set<Identifier>, prefix: string)
    requires NoneUnder(versions, prefix)
    ensures NoneUnder(KeepVersions(versions, gone), prefix)
  {
    KeptVersions(versions, gone);
  }

  lemma VersionsGone(versions: seq<Version>, gone: set<Identifier>, prefix: string)
    requires forall id :: id in gone <==> prefix <= id.key && exists v :: v in versions && Identifies(v, id)
    ensures NoneUnder(KeepVersions(versions, gone), prefix)
  {
    KeptVersions(versions, gone);
    forall v | v in versions && prefix <= v.key ensures Identifier(v.key, Some(v.id)) in gone {
      assert Identifies(v, Identifier(v.key, Some(v.id)));
    }
  }

  lemma {:induction false} PlainKept(plain: seq<string>, gone: set<Identifier>)
    requires forall i :: 0 <= i < |plain| ==> Identifier(plain[i], None) !in gone
    ensures KeepKeys(plain, gone) == plain
  {
    if plain != [] {
      var last := |plain| - 1;
      PlainKept(plain[..last], gone);
      assert Identifier(plain[last], None) !in gone;
      assert plain == plain[..last] + [plain[last]];
    }
  }
}
