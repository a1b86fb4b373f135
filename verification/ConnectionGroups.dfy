/** Connection groups: trees kept as flat lists of slash-separated paths
    (internal/httpapi/server.go, internal/model/connection.go). */
module ConnectionGroups {
  import opened Connections
  import opened Text
  import opened Paths

  // ---------------------------------------------------------------- paths

  const MAX_DEPTH := 5

  datatype Validity = Valid | TooDeep | UnsafeName | InvalidCharacters

  predicate ContainsAny(s: string, chars: string) {
    s != "" && (s[0] in chars || ContainsAny(s[1..], chars))
  }

  function SegmentValidity(segment: string): (v: Validity)
    ensures v != TooDeep
  {
    var part := TrimSpace(segment);
    if part == "" || part == "." || part == ".." then UnsafeName
    else if ContainsAny(part, "\\\r\n\t") then InvalidCharacters
    else Valid
  }

  predicate ValidSegments(parts: seq<string>) {
    forall i :: 0 <= i < |parts| ==> SegmentValidity(parts[i]) == Valid
  }

  /** What ValidateConnectionGroupPath accepts. */
  predicate ValidPath(path: string) {
    path == ""
    || (|Split(path)| <= MAX_DEPTH && ValidSegments(Split(path)))
  }

  lemma {:induction false} ContainsAnyIff(s: string, chars: string)
    ensures ContainsAny(s, chars) <==> exists c :: c in s && c in chars
  {
    if s != "" {
      ContainsAnyIff(s[1..], chars);
      assert s == [s[0]] + s[1..];
      assert s[0] in s;
    }
  }

  /** What a name may be, without the blanks around it. */
  ghost predicate SafeSegment(part: string) {
    && part != "" && part != "." && part != ".."
    && forall c :: c in part ==> c != '\\' && c != '\r' && c != '\n' && c != '\t'
  }

  lemma SegmentValidIff(segment: string)
    ensures SegmentValidity(segment) == Valid <==> SafeSegment(TrimSpace(segment))
    ensures SegmentValidity(segment) == UnsafeName <==>
              TrimSpace(segment) == "" || TrimSpace(segment) == "." || TrimSpace(segment) == ".."
  {
    ContainsAnyIff(TrimSpace(segment), "\\\r\n\t");
    Forbidden();
  }

  lemma Forbidden()
    ensures forall c :: c in "\\\r\n\t" <==> c == '\\' || c == '\r' || c == '\n' || c == '\t'
  {
    var chars := "\\\r\n\t";
    assert chars[0] == '\\' && chars[1] == '\r' && chars[2] == '\n' && chars[3] == '\t';
  }

  /** At most five names, each safe. */
  ghost predicate GoodPath(path: string) {
    |Split(path)| <= 5 && forall name :: name in Split(path) ==> SafeSegment(TrimSpace(name))
  }

  lemma ValidPathIff(path: string)
    ensures ValidPath(path) <==> path == "" || GoodPath(path)
  {
    var parts := Split(path);
    forall i | 0 <= i < |parts| ensures SegmentValidity(parts[i]) == Valid <==> SafeSegment(TrimSpace(parts[i])) {
      SegmentValidIff(parts[i]);
    }
    assert forall i :: 0 <= i < |parts| ==> parts[i] in parts;
  }

  ghost predicate FirstFault(parts: seq<string>, v: Validity) {
    exists i :: 0 <= i < |parts| && SegmentValidity(parts[i]) == v
                && forall j :: 0 <= j < i ==> SegmentValidity(parts[j]) == Valid
  }

  method ValidateConnectionGroupPath(path: string) returns (v: Validity)
    ensures v == Valid <==> ValidPath(path)
    ensures v == TooDeep <==> path != "" && |Split(path)| > MAX_DEPTH
    ensures v == UnsafeName || v == InvalidCharacters ==>
              FirstFault(Split(path), v)
  {
    if path == "" {
      return Valid;
    }
    var parts := Split(path);
    if |parts| > MAX_DEPTH {
      return TooDeep;
    }
    for i := 0 to |parts|
      invariant forall j :: 0 <= j < i ==> SegmentValidity(parts[j]) == Valid
    {
      var validity := SegmentValidity(parts[i]);
      if validity != Valid {
        assert FirstFault(parts, validity);
        return validity;
      }
    }
    return Valid;
  }

  /** A path whose segments are all non-empty. */
  predicate Clean(path: string) {
    "" !in Split(path)
  }

  lemma ValidIsClean(path: string)
    requires ValidPath(path) && path != ""
    ensures Clean(path)
  {
    var parts := Split(path);
    forall i | 0 <= i < |parts| ensures parts[i] != "" {
      assert SegmentValidity(parts[i]) == Valid;
    }
  }

  lemma {:induction false} WithinTransitive(a: string, b: string, c: string)
    requires Within(a, b) && Within(b, c)
    ensures Within(a, c)
  {
    WithinIsSegmentPrefix(a, b);
    WithinIsSegmentPrefix(b, c);
    WithinIsSegmentPrefix(a, c);
  }

  lemma WithinClean(a: string, b: string)
    requires Within(a, b) && Clean(b)
    ensures Clean(a)
  {
    WithinIsSegmentPrefix(a, b);
  }

  // ------------------------------------------------- inserting with ancestors

  function NonEmpty(parts: seq<string>): seq<string> {
    if parts == [] then []
    else if parts[|parts| - 1] == "" then NonEmpty(parts[..|parts| - 1])
    else NonEmpty(parts[..|parts| - 1]) + [parts[|parts| - 1]]
  }

  function JoinAll(parts: seq<string>): string {
    if parts == [] then "" else Join(parts)
  }

  /** The paths named by the non-empty leading segments, shortest first. */
  function LeadingPaths(segments: seq<string>): seq<string> {
    if segments == [] then []
    else LeadingPaths(segments[..|segments| - 1]) + [Join(segments)]
  }

  function Ancestors(path: string): seq<string> {
    LeadingPaths(NonEmpty(Split(path)))
  }

  function AppendOne(groups: seq<string>, path: string): seq<string> {
    if path in groups then groups else groups + [path]
  }

  function AppendAll(groups: seq<string>, paths: seq<string>): (r: seq<string>)
    ensures groups <= r
    ensures forall x :: x in r <==> x in groups || x in paths
    ensures Distinct(groups) ==> Distinct(r)
  {
    if paths == [] then groups
    else
      var last := |paths| - 1;
      assert paths == paths[..last] + [paths[last]];
      AppendOne(AppendAll(groups, paths[..last]), paths[last])
  }

  lemma AppendLast(groups: seq<string>, paths: seq<string>, path: string)
    ensures AppendAll(groups, paths + [path]) == AppendOne(AppendAll(groups, paths), path)
  {
    assert (paths + [path])[..|paths|] == paths;
  }

  method ContainsString(values: seq<string>, target: string) returns (found: bool)
    ensures found <==> target in values
  {
    for i := 0 to |values|
      invariant target !in values[..i]
    {
      if values[i] == target {
        return true;
      }
    }
    return false;
  }

  /** One segment deeper: the path grows by it and is appended last. */
  lemma AppendDeeper(groups: seq<string>, before: seq<string>, part: string)
    ensures Join(before + [part]) == if before == [] then part else JoinAll(before) + "/" + part
    ensures AppendAll(groups, LeadingPaths(before + [part]))
            == AppendOne(AppendAll(groups, LeadingPaths(before)), Join(before + [part]))
  {
    var after := before + [part];
    assert after[..|before|] == before;
    if before != [] {
      JoinConcat(before, [part]);
    }
    AppendLast(groups, LeadingPaths(before), Join(after));
  }

  lemma NonEmptyOneMore(parts: seq<string>, i: nat)
    requires i < |parts|
    ensures NonEmpty(parts[..i + 1])
            == if parts[i] == "" then NonEmpty(parts[..i]) else NonEmpty(parts[..i]) + [parts[i]]
  {
    assert parts[..i + 1][..i] == parts[..i];
  }

  method AppendGroupPath(groups: seq<string>, path: string) returns (result: seq<string>)
    ensures result == AppendAll(groups, Ancestors(path))
  {
    result := groups;
    var prefix := "";
    var parts := Split(path);
    for i := 0 to |parts|
      invariant prefix == JoinAll(NonEmpty(parts[..i]))
      invariant prefix == "" <==> NonEmpty(parts[..i]) == []
      invariant result == AppendAll(groups, LeadingPaths(NonEmpty(parts[..i])))
    {
      NonEmptyOneMore(parts, i);
      if parts[i] == "" {
        continue;
      }
      AppendDeeper(groups, NonEmpty(parts[..i]), parts[i]);
      if prefix != "" {
        prefix := prefix + "/";
      }
      prefix := prefix + parts[i];
      var known := ContainsString(result, prefix);
      if !known {
        result := result + [prefix];
      }
    }
    assert parts[..|parts|] == parts;
  }

  lemma {:induction false} NonEmptyIdentity(parts: seq<string>)
    requires "" !in parts
    ensures NonEmpty(parts) == parts
  {
    if parts != [] {
      var last := |parts| - 1;
      assert parts == parts[..last] + [parts[last]];
      NonEmptyIdentity(parts[..last]);
    }
  }

  lemma {:induction false} LeadingPathsMembers(segments: seq<string>, q: string)
    requires Segments(segments)
    ensures q in LeadingPaths(segments) <==> Split(q) <= segments
  {
    if segments != [] {
      var last := |segments| - 1;
      LeadingPathsMembers(segments[..last], q);
      SplitJoin(segments);
      JoinSplit(q);
      if Split(q) <= segments && |Split(q)| <= last {
        assert Split(q) <= segments[..last];
      }
      if Split(q) <= segments && |Split(q)| > last {
        assert Split(q) == segments;
      }
    }
  }

  /** For a path without empty segments, the inserted ancestors are exactly
      the paths it lies within. */
  lemma AncestorsAreWithin(path: string, q: string)
    requires Clean(path)
    ensures q in Ancestors(path) <==> Within(q, path)
  {
    NonEmptyIdentity(Split(path));
    LeadingPathsMembers(Split(path), q);
    WithinIsSegmentPrefix(q, path);
  }

  // ------------------------------------------------------------- searches

  predicate Contains(parent: string, child: string) {
    child == parent || (parent != "" && parent + "/" <= child)
  }

  method HasGroupPath(path: string, groups: seq<string>) returns (found: bool)
    ensures found <==> exists g :: g in groups && Within(path, g)
  {
    for i := 0 to |groups|
      invariant forall j :: 0 <= j < i ==> !Within(path, groups[j])
    {
      if groups[i] == path || path + "/" <= groups[i] {
        assert Within(path, groups[i]);
        return true;
      }
    }
    return false;
  }

  method HasChildGroup(parent: string, groups: seq<string>) returns (found: bool)
    ensures found <==> exists g :: g in groups && g != parent && Contains(parent, g)
  {
    for i := 0 to |groups|
      invariant forall j :: 0 <= j < i ==> groups[j] == parent || !Contains(parent, groups[j])
    {
      if groups[i] != parent && Contains(parent, groups[i]) {
        return true;
      }
    }
    return false;
  }

  method GroupHasConnections(parent: string, connections: seq<Connection>) returns (found: bool)
    ensures found <==> exists c :: c in connections && Contains(parent, c.groupPath)
  {
    for i := 0 to |connections|
      invariant forall j :: 0 <= j < i ==> !Contains(parent, connections[j].groupPath)
    {
      if Contains(parent, connections[i].groupPath) {
        return true;
      }
    }
    return false;
  }

  function Without(groups: seq<string>, target: string): (r: seq<string>)
    ensures forall x :: x in r <==> x in groups && x != target
  {
    if groups == [] then []
    else
      var last := |groups| - 1;
      assert groups == groups[..last] + [groups[last]];
      if groups[last] == target then Without(groups[..last], target)
      else Without(groups[..last], target) + [groups[last]]
  }

  lemma {:induction false} WithoutKeepsOrder(groups: seq<string>, target: string)
    ensures Distinct(groups) ==> Distinct(Without(groups, target))
    ensures Ascending(groups) ==> Ascending(Without(groups, target))
  {
    if groups != [] {
      var last := |groups| - 1;
      WithoutKeepsOrder(groups[..last], target);
      var r := Without(groups[..last], target);
      forall i | 0 <= i < |r|
        ensures Distinct(groups) ==> r[i] != groups[last]
        ensures Ascending(groups) ==> Less(r[i], groups[last])
      {
        assert r[i] in r;
        assert r[i] in groups[..last];
      }
    }
  }

  method RemoveGroupPath(groups: seq<string>, target: string) returns (result: seq<string>)
    ensures result == Without(groups, target)
  {
    result := [];
    for i := 0 to |groups|
      invariant result == Without(groups[..i], target)
    {
      assert groups[..i + 1][..i] == groups[..i];
      if groups[i] != target {
        result := result + [groups[i]];
      }
    }
    assert groups[..|groups|] == groups;
  }

  // ------------------------------------------------------------- renaming

  function RenamePath(path: string, oldPath: string, newPath: string): string {
    if path == oldPath then newPath
    else if oldPath + "/" <= path then newPath + TrimPrefix(path, oldPath)
    else path
  }

  function RenameAll(groups: seq<string>, oldPath: string, newPath: string): (r: seq<string>)
    ensures Distinct(r)
    ensures forall g :: g in groups ==> RenamePath(g, oldPath, newPath) in r
    ensures forall x :: x in r ==> exists g :: g in groups && x == RenamePath(g, oldPath, newPath)
  {
    if groups == [] then []
    else
      var last := |groups| - 1;
      assert groups == groups[..last] + [groups[last]];
      AppendOne(RenameAll(groups[..last], oldPath, newPath), RenamePath(groups[last], oldPath, newPath))
  }

  method RenameGroupPaths(groups: seq<string>, oldPath: string, newPath: string) returns (result: seq<string>)
    ensures result == RenameAll(groups, oldPath, newPath)
  {
    result := [];
    for i := 0 to |groups|
      invariant result == RenameAll(groups[..i], oldPath, newPath)
    {
      assert groups[..i + 1][..i] == groups[..i];
      var updated := RenamePath(groups[i], oldPath, newPath);
      var known := ContainsString(result, updated);
      if !known {
        result := result + [updated];
      }
    }
    assert groups[..|groups|] == groups;
  }

  lemma RenameBelow(oldPath: string, rest: string, newPath: string)
    ensures RenamePath(oldPath + "/" + rest, oldPath, newPath) == newPath + "/" + rest
  {
    var path := oldPath + "/" + rest;
    assert path == oldPath + ("/" + rest);
    TrimPrefixConcat(oldPath, "/" + rest);
    assert newPath + ("/" + rest) == newPath + "/" + rest;
  }

  /** On every string, renaming replaces a leading run of whole segments. */
  lemma RenameReplacesSegments(path: string, oldPath: string, newPath: string)
    ensures Split(RenamePath(path, oldPath, newPath)) ==
            if Split(oldPath) <= Split(path) then Split(newPath) + Split(path)[|Split(oldPath)|..] else Split(path)
  {
    WithinIsSegmentPrefix(oldPath, path);
    if path == oldPath {
      assert Split(newPath) + Split(path)[|Split(oldPath)|..] == Split(newPath);
    } else if oldPath + "/" <= path {
      var rest := path[|oldPath| + 1..];
      assert path == oldPath + "/" + rest;
      RenameBelow(oldPath, rest, newPath);
      SplitConcat(oldPath, rest);
      SplitConcat(newPath, rest);
      assert Split(path)[|Split(oldPath)|..] == Split(rest);
    }
  }

  /** Outside the new subtree, the opposite renaming undoes a renaming. */
  lemma RenameBack(path: string, oldPath: string, newPath: string)
    requires !Within(newPath, path)
    ensures RenamePath(RenamePath(path, oldPath, newPath), newPath, oldPath) == path
  {
    var moved := RenamePath(path, oldPath, newPath);
    RenameReplacesSegments(path, oldPath, newPath);
    RenameReplacesSegments(moved, newPath, oldPath);
    WithinIsSegmentPrefix(newPath, path);
    WithinIsSegmentPrefix(oldPath, path);
    var back := RenamePath(moved, newPath, oldPath);
    assert Split(back) == Split(path) by {
      if Within(oldPath, path) {
        var tail := Split(path)[|Split(oldPath)|..];
        assert Split(path) == Split(oldPath) + tail;
        assert Split(moved)[|Split(newPath)|..] == tail;
      }
    }
    SplitInjective(back, path);
  }

  lemma RenameInjective(p: string, q: string, oldPath: string, newPath: string)
    requires !Within(newPath, p) && !Within(newPath, q)
    requires RenamePath(p, oldPath, newPath) == RenamePath(q, oldPath, newPath)
    ensures p == q
  {
    RenameBack(p, oldPath, newPath);
    RenameBack(q, oldPath, newPath);
  }

  ghost predicate RenamedInPlace(groups: seq<string>, result: seq<string>, oldPath: string, newPath: string) {
    |result| == |groups|
    && forall i :: 0 <= i < |groups| ==> result[i] == RenamePath(groups[i], oldPath, newPath)
  }

  /** With nothing stored in the new subtree the duplicate test drops nothing. */
  lemma {:induction false} RenameDropsNothing(groups: seq<string>, oldPath: string, newPath: string)
    requires Distinct(groups)
    requires forall i :: 0 <= i < |groups| ==> !Within(newPath, groups[i])
    ensures RenamedInPlace(groups, RenameAll(groups, oldPath, newPath), oldPath, newPath)
  {
    if groups != [] {
      var last := |groups| - 1;
      var moved := RenameAll(groups[..last], oldPath, newPath);
      RenameDropsNothing(groups[..last], oldPath, newPath);
      forall i | 0 <= i < last ensures moved[i] != RenamePath(groups[last], oldPath, newPath) {
        assert moved[i] == RenamePath(groups[i], oldPath, newPath);
        if moved[i] == RenamePath(groups[last], oldPath, newPath) {
          RenameInjective(groups[i], groups[last], oldPath, newPath);
        }
      }
      assert RenamePath(groups[last], oldPath, newPath) !in moved;
    }
  }

  /** Renaming a stored list there and back restores it, order included. */
  lemma RenameListBack(groups: seq<string>, oldPath: string, newPath: string)
    requires Distinct(groups)
    requires forall i :: 0 <= i < |groups| ==> !Within(newPath, groups[i])
    requires !Within(oldPath, newPath)
    ensures RenameAll(RenameAll(groups, oldPath, newPath), newPath, oldPath) == groups
  {
    var moved := RenameAll(groups, oldPath, newPath);
    RenameDropsNothing(groups, oldPath, newPath);
    forall i | 0 <= i < |moved|
      ensures !Within(oldPath, moved[i]) && RenamePath(moved[i], newPath, oldPath) == groups[i]
    {
      RenamedLeavesOld(groups[i], oldPath, newPath);
      RenameBack(groups[i], oldPath, newPath);
    }
    RenameDropsNothing(moved, newPath, oldPath);
  }

  /** After a move to a place outside the old subtree, nothing is left in it,
      unless the old path lies below the new one. */
  lemma RenamedLeavesOld(path: string, oldPath: string, newPath: string)
    requires !Within(oldPath, newPath) && !Within(newPath, path)
    ensures !Within(oldPath, RenamePath(path, oldPath, newPath))
  {
    var moved := RenamePath(path, oldPath, newPath);
    RenameReplacesSegments(path, oldPath, newPath);
    WithinIsSegmentPrefix(oldPath, path);
    WithinIsSegmentPrefix(oldPath, moved);
    WithinIsSegmentPrefix(oldPath, newPath);
    WithinIsSegmentPrefix(newPath, path);
  }

  function Depth(path: string): nat {
    |Split(path)|
  }

  lemma RenameDepth(path: string, oldPath: string, newPath: string)
    ensures Depth(RenamePath(path, oldPath, newPath)) ==
            if Within(oldPath, path) then Depth(newPath) + Depth(path) - Depth(oldPath) else Depth(path)
  {
    RenameReplacesSegments(path, oldPath, newPath);
    WithinIsSegmentPrefix(oldPath, path);
  }

  /** The five-level bound survives a rename exactly when every moved path
      still fits; the handler only checks the new path itself. */
  lemma RenameDepthBound(groups: seq<string>, oldPath: string, newPath: string)
    requires forall g :: g in groups ==> Depth(g) <= MAX_DEPTH
    ensures (forall x :: x in RenameAll(groups, oldPath, newPath) ==> Depth(x) <= MAX_DEPTH)
            <==> forall g :: g in groups && Within(oldPath, g) ==>
                   Depth(newPath) + Depth(g) - Depth(oldPath) <= MAX_DEPTH
  {
    var moved := RenameAll(groups, oldPath, newPath);
    forall g | g in groups
      ensures Depth(RenamePath(g, oldPath, newPath)) ==
              if Within(oldPath, g) then Depth(newPath) + Depth(g) - Depth(oldPath) else Depth(g)
    {
      RenameDepth(g, oldPath, newPath);
    }
    if forall x :: x in moved ==> Depth(x) <= MAX_DEPTH {
      forall g | g in groups && Within(oldPath, g)
        ensures Depth(newPath) + Depth(g) - Depth(oldPath) <= MAX_DEPTH
      {
        assert RenamePath(g, oldPath, newPath) in moved;
      }
    }
  }
}
