/** The connection-group requests over one stored document, their listing, and
    the copy the browser keeps (internal/httpapi/server.go, frontend/src/App.tsx).
    Personal vaults and organizations run the same code on their own lists. */
module GroupRequests {
  import opened Connections
  import opened Text
  import opened Paths
  import opened ConnectionGroups

  datatype Document = Document(groups: seq<string>, connections: seq<Connection>)

  datatype Status = Done | BadRequest | Conflict | SaveFailed

  // -------------------------------------------------------------- listing

  function ConnectionPaths(connections: seq<Connection>): (r: seq<string>)
    ensures forall p :: p in r <==> exists c :: c in connections && c.groupPath == p && p != ""
  {
    if connections == [] then []
    else
      var last := |connections| - 1;
      assert connections == connections[..last] + [connections[last]];
      var before := ConnectionPaths(connections[..last]);
      if connections[last].groupPath != "" then before + [connections[last].groupPath] else before
  }

  function AppendPaths(groups: seq<string>, paths: seq<string>): (r: seq<string>)
    ensures Distinct(groups) ==> Distinct(r)
    ensures forall q :: q in r <==> q in groups || exists p :: p in paths && q in Ancestors(p)
  {
    if paths == [] then groups
    else
      var last := |paths| - 1;
      assert paths == paths[..last] + [paths[last]];
      AppendAll(AppendPaths(groups, paths[..last]), Ancestors(paths[last]))
  }

  /** What connectionGroupPaths returns. */
  function Listing(d: Document): seq<string> {
    Sort(AppendPaths(AppendPaths([], d.groups), ConnectionPaths(d.connections)))
  }

  method UniqueStrings(values: seq<string>) returns (result: seq<string>)
    ensures Distinct(result)
    ensures forall x :: x in result <==> x in values
    ensures Distinct(values) ==> result == values
  {
    result := [];
    for i := 0 to |values|
      invariant Distinct(result)
      invariant forall x :: x in result <==> x in values[..i]
      invariant Distinct(values) ==> result == values[..i]
    {
      var known := ContainsString(result, values[i]);
      if !known {
        result := result + [values[i]];
      }
    }
  }

  method ConnectionGroupPaths(groups: seq<string>, connections: seq<Connection>) returns (result: seq<string>)
    ensures result == Listing(Document(groups, connections))
  {
    result := [];
    for i := 0 to |groups|
      invariant result == AppendPaths([], groups[..i])
    {
      assert groups[..i + 1][..i] == groups[..i];
      result := AppendGroupPath(result, groups[i]);
    }
    assert groups[..|groups|] == groups;
    for i := 0 to |connections|
      invariant result == AppendPaths(AppendPaths([], groups), ConnectionPaths(connections[..i]))
    {
      assert connections[..i + 1][..i] == connections[..i];
      if connections[i].groupPath != "" {
        var before := ConnectionPaths(connections[..i]);
        assert ConnectionPaths(connections[..i + 1]) == before + [connections[i].groupPath];
        assert (before + [connections[i].groupPath])[..|before|] == before;
        result := AppendGroupPath(result, connections[i].groupPath);
      }
    }
    assert connections[..|connections|] == connections;
    SortAscending(result);
    result := Sort(result);
    AscendingDistinct(result);
    result := UniqueStrings(result);
  }

  lemma AscendingDistinct(s: seq<string>)
    requires Ascending(s)
    ensures Distinct(s)
  {
    forall i, j | 0 <= i < j < |s| ensures s[i] != s[j] {
      LessIrreflexive(s[i]);
    }
  }

  ghost predicate Source(d: Document, path: string) {
    path in d.groups || (path != "" && exists c :: c in d.connections && c.groupPath == path)
  }

  ghost predicate AllClean(d: Document) {
    forall p :: Source(d, p) ==> Clean(p)
  }

  /** No name on the path is blank; validation demands that of every path it accepts. */
  predicate Named(path: string) {
    forall name :: name in Split(path) ==> TrimSpace(name) != ""
  }

  ghost predicate AllNamed(d: Document) {
    forall p :: Source(d, p) ==> Named(p)
  }

  lemma NamedIsClean(path: string)
    requires Named(path)
    ensures Clean(path)
  {
    assert TrimSpace("") == "";
  }

  lemma AllNamedIsClean(d: Document)
    requires AllNamed(d)
    ensures AllClean(d)
  {
    forall p | Source(d, p) ensures Clean(p) {
      NamedIsClean(p);
    }
  }

  lemma ValidIsNamed(path: string)
    requires ValidPath(path) && path != ""
    ensures Named(path)
  {
    var parts := Split(path);
    forall name | name in parts ensures TrimSpace(name) != "" {
      var i :| 0 <= i < |parts| && parts[i] == name;
      assert SegmentValidity(parts[i]) == Valid;
    }
  }

  lemma WithinNamed(a: string, b: string)
    requires Within(a, b) && Named(b)
    ensures Named(a)
  {
    WithinIsSegmentPrefix(a, b);
    forall name | name in Split(a) ensures TrimSpace(name) != "" {
      var i :| 0 <= i < |Split(a)| && Split(a)[i] == name;
      assert Split(b)[i] == name;
    }
  }

  lemma RenamedNamed(path: string, oldPath: string, newPath: string)
    requires Named(path) && Named(newPath)
    ensures Named(RenamePath(path, oldPath, newPath))
  {
    RenameReplacesSegments(path, oldPath, newPath);
  }

  /** The listing is strictly ascending and holds exactly the segment prefixes
      of the stored group and connection paths. */
  lemma ListingIsPrefixClosure(d: Document)
    requires AllClean(d)
    ensures Ascending(Listing(d))
    ensures forall q :: q in Listing(d) <==> exists p :: Source(d, p) && Within(q, p)
  {
    var groups := AppendPaths([], d.groups);
    var all := AppendPaths(groups, ConnectionPaths(d.connections));
    SortAscending(all);
    SortMembers(all);
    forall q, p | Source(d, p) ensures q in Ancestors(p) <==> Within(q, p) {
      assert Clean(p);
      AncestorsAreWithin(p, q);
    }
    forall q ensures q in all <==> exists p :: Source(d, p) && Within(q, p) {
      if q in groups {
        var p :| p in d.groups && q in Ancestors(p);
        assert Source(d, p);
      } else if q in all {
        var p :| p in ConnectionPaths(d.connections) && q in Ancestors(p);
        assert Source(d, p);
      }
      if p :| Source(d, p) && Within(q, p) {
        if p in d.groups {
          assert q in groups;
        } else {
          assert p in ConnectionPaths(d.connections);
        }
      }
    }
  }

  /** In an ascending list a parent comes before its children. */
  lemma ParentsFirst(s: seq<string>, i: nat, j: nat)
    requires Ascending(s) && i < |s| && j < |s|
    requires s[i] != s[j] && Within(s[i], s[j])
    ensures i < j
  {
    ProperPrefixLess(s[i], s[j]);
    if j < i {
      LessAsymmetric(s[i], s[j]);
    }
  }

  // ------------------------------------------------------------- requests

  function Normalize(raw: string): string {
    TrimSlashes(TrimSpace(raw))
  }

  /** Only blanks around the text, and then slashes around that, are taken off. */
  lemma NormalizeCuts(raw: string)
    returns (blanksLeft: string, slashesLeft: string, slashesRight: string, blanksRight: string)
    ensures raw == blanksLeft + (slashesLeft + Normalize(raw) + slashesRight) + blanksRight
    ensures Blank(blanksLeft) && Blank(blanksRight) && AllSlashes(slashesLeft) && AllSlashes(slashesRight)
    ensures var path := Normalize(raw); path == "" || (path[0] != '/' && path[|path| - 1] != '/')
    ensures var text := slashesLeft + Normalize(raw) + slashesRight;
            text == "" || (!IsSpace(text[0]) && !IsSpace(text[|text| - 1]))
  {
    blanksLeft, blanksRight := TrimSpaceCuts(raw);
    slashesLeft, slashesRight := TrimSlashesCuts(TrimSpace(raw));
  }

  ghost predicate HasGroupIn(groups: seq<string>, path: string) {
    exists g :: g in groups && Within(path, g)
  }

  ghost predicate Deletable(d: Document, path: string) {
    && (forall c :: c in d.connections ==> !Contains(path, c.groupPath))
    && (forall g :: g in d.groups && g != path ==> !Contains(path, g))
  }

  function MoveConnections(connections: seq<Connection>, oldPath: string, newPath: string): (r: seq<Connection>)
    ensures |r| == |connections|
    ensures forall i :: 0 <= i < |r| ==>
              r[i] == connections[i].(groupPath := RenamePath(connections[i].groupPath, oldPath, newPath))
  {
    seq(|connections|, i requires 0 <= i < |connections| =>
      connections[i].(groupPath := RenamePath(connections[i].groupPath, oldPath, newPath)))
  }

  method MoveConnectionPaths(connections: seq<Connection>, oldPath: string, newPath: string)
    returns (moved: seq<Connection>)
    ensures moved == MoveConnections(connections, oldPath, newPath)
  {
    moved := connections;
    for i := 0 to |moved|
      invariant |moved| == |connections|
      invariant moved[..i] == MoveConnections(connections, oldPath, newPath)[..i] && moved[i..] == connections[i..]
    {
      assert moved[i] == moved[i..][0] == connections[i];
      moved := moved[i := moved[i].(groupPath := RenamePath(moved[i].groupPath, oldPath, newPath))];
    }
  }

  datatype Request = Create(raw: string) | Delete(raw: string) | Rename(raw: string, rawNew: string)

  ghost function CreateAt(d: Document, path: string): (Status, Document) {
    if !ValidPath(path) then (BadRequest, d)
    else (Done, d.(groups := AppendAll(d.groups, Ancestors(path))))
  }

  ghost function DeleteAt(d: Document, path: string): (Status, Document) {
    if path == "" || !ValidPath(path) then (BadRequest, d)
    else if !Deletable(d, path) then (Conflict, d)
    else (Done, d.(groups := Without(d.groups, path)))
  }

  ghost function RenameAt(d: Document, path: string, newPath: string): (Status, Document) {
    if path == "" || newPath == "" || !ValidPath(path) || !ValidPath(newPath) then (BadRequest, d)
    else if path == newPath then (Done, d)
    else if path + "/" <= newPath then (BadRequest, d)
    else if HasGroupIn(d.groups, newPath) then (Conflict, d)
    else (Done, Document(RenameAll(d.groups, path, newPath), MoveConnections(d.connections, path, newPath)))
  }

  /** The document a request asks to be stored, or why it is refused. */
  ghost function Handle(d: Document, request: Request): (Status, Document) {
    match request
    case Create(raw) => if TrimSpace(raw) == "" then (BadRequest, d) else CreateAt(d, Normalize(raw))
    case Delete(raw) => DeleteAt(d, Normalize(raw))
    case Rename(raw, rawNew) => RenameAt(d, Normalize(raw), Normalize(rawNew))
  }

  /** The reply and the stored document after a request: as asked, or unchanged
      when the save failed. */
  ghost predicate Outcome(asked: (Status, Document), before: Document, status: Status, after: Document) {
    if status == SaveFailed then asked.0 == Done && after == before else (status, after) == asked
  }

  /** The stored document of one personal vault or organization. A request
      changes it only through a save, which may fail unless it is `reliable`. */
  class Store {
    var groups: seq<string>
    var connections: seq<Connection>

    constructor ()
      ensures Contents() == Document([], [])
    {
      groups, connections := [], [];
    }

    function Contents(): Document
      reads this
    {
      Document(groups, connections)
    }

    method Save(groups: seq<string>, connections: seq<Connection>, reliable: bool) returns (ok: bool)
      modifies this
      ensures reliable ==> ok
      ensures Contents() == if ok then Document(groups, connections) else old(Contents())
    {
      var written: bool := *;
      ok := written || reliable;
      if ok {
        this.groups, this.connections := groups, connections;
      }
    }

    method CreateConnectionGroup(raw: string, reliable: bool) returns (status: Status)
      modifies this
      ensures reliable ==> status != SaveFailed
      ensures Outcome(Handle(old(Contents()), Create(raw)), old(Contents()), status, Contents())
    {
      if TrimSpace(raw) == "" {
        return BadRequest;
      }
      status := CreateNormalized(Normalize(raw), reliable);
    }

    method CreateNormalized(path: string, reliable: bool) returns (status: Status)
      modifies this
      ensures reliable ==> status != SaveFailed
      ensures Outcome(CreateAt(old(Contents()), path), old(Contents()), status, Contents())
    {
      var validity := ValidateConnectionGroupPath(path);
      if validity != Valid {
        return BadRequest;
      }
      var updated := AppendGroupPath(groups, path);
      var ok := Save(updated, connections, reliable);
      return if ok then Done else SaveFailed;
    }

    method DeleteConnectionGroup(raw: string, reliable: bool) returns (status: Status)
      modifies this
      ensures reliable ==> status != SaveFailed
      ensures Outcome(Handle(old(Contents()), Delete(raw)), old(Contents()), status, Contents())
    {
      status := DeleteNormalized(Normalize(raw), reliable);
    }

    method DeleteNormalized(path: string, reliable: bool) returns (status: Status)
      modifies this
      ensures reliable ==> status != SaveFailed
      ensures Outcome(DeleteAt(old(Contents()), path), old(Contents()), status, Contents())
    {
      var validity := ValidateConnectionGroupPath(path);
      if validity != Valid || path == "" {
        return BadRequest;
      }
      var occupied := GroupHasConnections(path, connections);
      if !occupied {
        occupied := HasChildGroup(path, groups);
      }
      if occupied {
        return Conflict;
      }
      var updated := RemoveGroupPath(groups, path);
      var ok := Save(updated, connections, reliable);
      return if ok then Done else SaveFailed;
    }

    method RenameConnectionGroup(raw: string, rawNew: string, reliable: bool) returns (status: Status)
      modifies this
      ensures reliable ==> status != SaveFailed
      ensures Outcome(Handle(old(Contents()), Rename(raw, rawNew)), old(Contents()), status, Contents())
    {
      status := RenameNormalized(Normalize(raw), Normalize(rawNew), reliable);
    }

    method RenameNormalized(path: string, newPath: string, reliable: bool) returns (status: Status)
      modifies this
      ensures reliable ==> status != SaveFailed
      ensures Outcome(RenameAt(old(Contents()), path, newPath), old(Contents()), status, Contents())
    {
      if path == "" || newPath == "" {
        return BadRequest;
      }
      var validity := ValidateConnectionGroupPath(path);
      if validity != Valid {
        return BadRequest;
      }
      validity := ValidateConnectionGroupPath(newPath);
      if validity != Valid {
        return BadRequest;
      }
      if path == newPath {
        return Done;
      }
      if path + "/" <= newPath {
        return BadRequest;
      }
      var taken := HasGroupPath(newPath, groups);
      if taken {
        return Conflict;
      }
      var updated := RenameGroupPaths(groups, path, newPath);
      var moved := MoveConnectionPaths(connections, path, newPath);
      var ok := Save(updated, moved, reliable);
      return if ok then Done else SaveFailed;
    }
  }

  // --------------------------------------------- what is accepted, what it does

  /** A create is accepted exactly when the text is not blank and, without the
      blanks and slashes around it, is empty or has at most five safe names. */
  lemma CreateAcceptedIff(d: Document, raw: string)
    ensures Handle(d, Create(raw)).0 == Done
            <==> TrimSpace(raw) != "" && (Normalize(raw) == "" || GoodPath(Normalize(raw)))
    ensures Handle(d, Create(raw)).0 != Done ==> Handle(d, Create(raw)) == (BadRequest, d)
  {
    ValidPathIff(Normalize(raw));
  }

  lemma CreatedSources(d: Document, path: string)
    requires AllNamed(d) && path != "" && CreateAt(d, path).0 == Done
    ensures forall x :: Source(CreateAt(d, path).1, x) <==> Source(d, x) || Within(x, path)
    ensures Source(CreateAt(d, path).1, path)
  {
    ValidIsNamed(path);
    NamedIsClean(path);
    forall x ensures x in Ancestors(path) <==> Within(x, path) {
      AncestorsAreWithin(path, x);
    }
    assert Within(path, path);
  }

  /** After an accepted create the group and everything it lies in is listed,
      next to what was; the stored groups stay in front and connections as they were. */
  lemma CreateLists(d: Document, raw: string)
    requires AllNamed(d) && Handle(d, Create(raw)).0 == Done
    ensures var path, after := Normalize(raw), Handle(d, Create(raw)).1;
            && (forall q :: q in Listing(after) <==> q in Listing(d) || (path != "" && Within(q, path)))
            && (path != "" ==> path in after.groups)
            && d.groups <= after.groups && after.connections == d.connections
  {
    var path, after := Normalize(raw), Handle(d, Create(raw)).1;
    if path == "" {
      assert NonEmpty(Split("")) == [];
    } else {
      CreateKeepsNames(d, path);
      CreatedSources(d, path);
      AllNamedIsClean(d);
      AllNamedIsClean(after);
      ListingIsPrefixClosure(d);
      ListingIsPrefixClosure(after);
      forall q ensures q in Listing(after) <==> q in Listing(d) || Within(q, path) {
        if p :| Source(after, p) && Within(q, p) && !Source(d, p) {
          WithinTransitive(q, p, path);
        }
      }
      assert path in after.groups by {
        NamedPathIsStored(d, path);
      }
    }
  }

  lemma NamedPathIsStored(d: Document, path: string)
    requires path != "" && CreateAt(d, path).0 == Done
    ensures path in CreateAt(d, path).1.groups
  {
    ValidIsClean(path);
    AncestorsAreWithin(path, path);
  }

  /** A delete is accepted exactly when the path is a valid one, no connection
      lies in it or below, and no group below it; so an empty group can be deleted. */
  lemma DeleteAcceptedIff(d: Document, raw: string)
    ensures var path := Normalize(raw);
            Handle(d, Delete(raw)).0 == Done
            <==> && path != "" && GoodPath(path)
                 && (forall c :: c in d.connections ==> c.groupPath != path && !(path + "/" <= c.groupPath))
                 && forall g :: g in d.groups ==> !(path + "/" <= g)
    ensures Handle(d, Delete(raw)).0 != Done ==> Handle(d, Delete(raw)).1 == d
  {
    ValidPathIff(Normalize(raw));
  }

  /** An accepted delete takes the group out of the stored list and nothing else;
      what is listed then is what lies above the other paths. */
  lemma DeleteLists(d: Document, raw: string)
    requires AllNamed(d) && Handle(d, Delete(raw)).0 == Done
    ensures var path, after := Normalize(raw), Handle(d, Delete(raw)).1;
            && (forall g :: g in after.groups <==> g in d.groups && g != path)
            && after.connections == d.connections
            && (forall q :: q in Listing(after) <==> exists p :: Source(d, p) && p != path && Within(q, p))
            && path !in Listing(after)
  {
    var path, after := Normalize(raw), Handle(d, Delete(raw)).1;
    DeleteKeepsNames(d, path);
    AllNamedIsClean(after);
    ListingIsPrefixClosure(after);
    forall p ensures Source(after, p) <==> Source(d, p) && p != path {
      if p == path && Source(after, p) {
        assert Within(path, p);
        DeletableAlone(d, path, p);
      }
    }
    if p :| Source(d, p) && p != path && Within(path, p) {
      DeletableAlone(d, path, p);
    }
  }

  /** A rename is accepted exactly when both paths are valid ones and they are
      the same, or the new one neither lies below the old one nor is taken. */
  lemma RenameAcceptedIff(d: Document, raw: string, rawNew: string)
    ensures var path, newPath := Normalize(raw), Normalize(rawNew);
            Handle(d, Rename(raw, rawNew)).0 == Done
            <==> && path != "" && newPath != "" && GoodPath(path) && GoodPath(newPath)
                 && (path == newPath
                     || (!(path + "/" <= newPath)
                         && forall g :: g in d.groups ==> g != newPath && !(newPath + "/" <= g)))
    ensures Handle(d, Rename(raw, rawNew)).0 != Done ==> Handle(d, Rename(raw, rawNew)).1 == d
  {
    ValidPathIff(Normalize(raw));
    ValidPathIff(Normalize(rawNew));
  }

  // ------------------------------------------------- invariants over runs

  ghost predicate Closed(groups: seq<string>) {
    forall g, q :: g in groups && Within(q, g) ==> q in groups
  }

  ghost predicate WellFormed(groups: seq<string>) {
    && (forall g :: g in groups ==> Clean(g))
    && Distinct(groups)
    && Closed(groups)
  }

  lemma CreateKeepsWellFormed(d: Document, path: string)
    requires WellFormed(d.groups)
    ensures WellFormed(CreateAt(d, path).1.groups)
  {
    var after := CreateAt(d, path).1.groups;
    if CreateAt(d, path).0 == Done {
      if path == "" {
        assert NonEmpty(Split("")) == [];
      } else {
        ValidIsClean(path);
        forall q ensures q in Ancestors(path) <==> Within(q, path) {
          AncestorsAreWithin(path, q);
        }
        forall g | g in after ensures Clean(g) {
          if g !in d.groups {
            WithinClean(g, path);
          }
        }
        forall g, q | g in after && Within(q, g) ensures q in after {
          if g !in d.groups {
            WithinTransitive(q, g, path);
          }
        }
      }
    }
  }

  lemma ContainsIsWithin(parent: string, path: string)
    requires parent != ""
    ensures Contains(parent, path) <==> Within(parent, path)
  {
  }

  lemma DeleteKeepsWellFormed(d: Document, path: string)
    requires WellFormed(d.groups)
    ensures WellFormed(DeleteAt(d, path).1.groups)
  {
    var after := DeleteAt(d, path).1.groups;
    if DeleteAt(d, path).0 == Done {
      WithoutKeepsOrder(d.groups, path);
      forall g, q | g in after && Within(q, g) ensures q in after {
        assert !Contains(path, g);
        ContainsIsWithin(path, g);
        assert q in d.groups;
      }
    }
  }

  /** The parent of a path with at least two segments. */
  function Parent(path: string): string
    requires Depth(path) > 1
  {
    Join(Split(path)[..Depth(path) - 1])
  }

  ghost predicate ParentStored(groups: seq<string>, path: string) {
    Depth(path) > 1 ==> Parent(path) in groups
  }

  lemma WithinParent(q: string, path: string)
    ensures Within(q, path) <==> q == path || (Depth(path) > 1 && Within(q, Parent(path)))
  {
    WithinIsSegmentPrefix(q, path);
    if Depth(path) > 1 {
      var parts := Split(path);
      SplitJoin(parts[..|parts| - 1]);
      WithinIsSegmentPrefix(q, Parent(path));
      if Split(q) <= parts && |Split(q)| < |parts| {
        assert Split(q) <= parts[..|parts| - 1];
      }
    }
    if Within(q, path) && q != path {
      if Split(q) == Split(path) {
        SplitInjective(q, path);
      }
      assert |Split(q)| < |Split(path)|;
    }
  }

  ghost predicate Renamable(groups: seq<string>, oldPath: string, newPath: string) {
    Clean(oldPath) && Clean(newPath) && !Within(oldPath, newPath) && !HasGroupIn(groups, newPath)
  }

  lemma PrefixOfConcat<T>(s: seq<T>, n: seq<T>, tail: seq<T>)
    requires s <= n + tail
    ensures if |s| < |n| then s < n else s == n + tail[..|s| - |n|]
  {
    assert s == (n + tail)[..|s|];
  }

  lemma ShorterIsAbove(q: string, path: string)
    requires Split(q) < Split(path)
    ensures Within(q, path) && q != path
  {
    WithinIsSegmentPrefix(q, path);
  }

  /** A path within a renamed one is new's ancestor or the image of an ancestor. */
  lemma WithinRenamed(q: string, g: string, oldPath: string, newPath: string)
    requires Within(oldPath, g) && Within(q, RenamePath(g, oldPath, newPath))
    ensures (Within(q, newPath) && q != newPath)
            || exists a :: Within(oldPath, a) && Within(a, g) && q == RenamePath(a, oldPath, newPath)
  {
    WithinIsSegmentPrefix(oldPath, g);
    RenameReplacesSegments(g, oldPath, newPath);
    WithinIsSegmentPrefix(q, RenamePath(g, oldPath, newPath));
    var tail := Split(g)[Depth(oldPath)..];
    PrefixOfConcat(Split(q), Split(newPath), tail);
    if Depth(q) < Depth(newPath) {
      ShorterIsAbove(q, newPath);
    } else {
      var a := AncestorImage(q, g, oldPath, newPath, Depth(q) - Depth(newPath));
    }
  }

  lemma AncestorImage(q: string, g: string, oldPath: string, newPath: string, k: nat) returns (a: string)
    requires Split(oldPath) <= Split(g) && Depth(oldPath) + k <= Depth(g)
    requires Split(q) == Split(newPath) + Split(g)[Depth(oldPath)..][..k]
    ensures Within(oldPath, a) && Within(a, g) && q == RenamePath(a, oldPath, newPath)
  {
    var segments := Split(g)[..Depth(oldPath) + k];
    a := Join(segments);
    SplitJoin(segments);
    WithinIsSegmentPrefix(oldPath, a);
    WithinIsSegmentPrefix(a, g);
    RenameReplacesSegments(a, oldPath, newPath);
    assert segments[Depth(oldPath)..] == Split(g)[Depth(oldPath)..][..k];
    SplitInjective(q, RenamePath(a, oldPath, newPath));
  }

  lemma RenamedClean(groups: seq<string>, oldPath: string, newPath: string)
    requires forall g :: g in groups ==> Clean(g)
    requires Clean(newPath)
    ensures forall x :: x in RenameAll(groups, oldPath, newPath) ==> Clean(x)
  {
    forall x | x in RenameAll(groups, oldPath, newPath) ensures Clean(x) {
      var g :| g in groups && x == RenamePath(g, oldPath, newPath);
      RenameReplacesSegments(g, oldPath, newPath);
    }
  }

  /** Rename keeps the list ancestor-closed exactly when there is nothing to
      move, or the new path is top-level or has its parent stored. */
  lemma RenameKeepsClosedIff(groups: seq<string>, oldPath: string, newPath: string)
    requires WellFormed(groups) && Renamable(groups, oldPath, newPath)
    ensures WellFormed(RenameAll(groups, oldPath, newPath))
            <==> !HasGroupIn(groups, oldPath) || ParentStored(groups, newPath)
  {
    var after := RenameAll(groups, oldPath, newPath);
    RenamedClean(groups, oldPath, newPath);
    if !HasGroupIn(groups, oldPath) || ParentStored(groups, newPath) {
      RenameKeepsClosed(groups, oldPath, newPath);
    } else if Closed(after) {
      var g :| g in groups && Within(oldPath, g);
      var moved := RenamePath(g, oldPath, newPath);
      RenamedWithinNew(g, oldPath, newPath);
      var parent := Parent(newPath);
      WithinParent(parent, newPath);
      assert Within(parent, parent);
      WithinTransitive(parent, newPath, moved);
      assert parent in after;
      var h :| h in groups && parent == RenamePath(h, oldPath, newPath);
      if Within(oldPath, h) {
        RenamedWithinNew(h, oldPath, newPath);
        WithinIsSegmentPrefix(newPath, parent);
        WithinIsSegmentPrefix(parent, newPath);
        SplitJoin(Split(newPath)[..Depth(newPath) - 1]);
        assert false;
      }
      assert false;
    }
  }

  lemma RenamedWithinNew(g: string, oldPath: string, newPath: string)
    requires Within(oldPath, g)
    ensures Within(newPath, RenamePath(g, oldPath, newPath))
  {
    RenameReplacesSegments(g, oldPath, newPath);
    WithinIsSegmentPrefix(oldPath, g);
    WithinIsSegmentPrefix(newPath, RenamePath(g, oldPath, newPath));
  }

  lemma RenameKeepsClosed(groups: seq<string>, oldPath: string, newPath: string)
    requires WellFormed(groups) && Renamable(groups, oldPath, newPath)
    requires !HasGroupIn(groups, oldPath) || ParentStored(groups, newPath)
    ensures Closed(RenameAll(groups, oldPath, newPath))
  {
    var after := RenameAll(groups, oldPath, newPath);
    forall x, q | x in after && Within(q, x) ensures q in after {
      var g :| g in groups && x == RenamePath(g, oldPath, newPath);
      if !Within(oldPath, g) {
        assert q in groups;
        if Within(oldPath, q) {
          WithinTransitive(oldPath, q, g);
        }
        assert RenamePath(q, oldPath, newPath) in after;
      } else {
        WithinRenamed(q, g, oldPath, newPath);
        if Within(q, newPath) && q != newPath {
          WithinParent(q, newPath);
          assert q in groups;
          if Within(oldPath, q) {
            WithinTransitive(oldPath, q, newPath);
          }
          assert RenamePath(q, oldPath, newPath) in after;
        } else {
          var a :| Within(oldPath, a) && Within(a, g) && q == RenamePath(a, oldPath, newPath);
          assert a in groups;
        }
      }
    }
  }

  /** A rename in a run is harmless when the new path is top-level or has its parent stored. */
  ghost predicate Harmless(d: Document, request: Request) {
    request.Rename? ==> ParentStored(d.groups, Normalize(request.rawNew))
  }

  lemma RenameAllowed(d: Document, path: string, newPath: string)
    requires RenameAt(d, path, newPath).0 == Done && path != newPath
    ensures Renamable(d.groups, path, newPath)
  {
    ValidIsClean(path);
    ValidIsClean(newPath);
  }

  ghost predicate NoneWithin(paths: seq<string>, path: string) {
    forall i :: 0 <= i < |paths| ==> !Within(path, paths[i])
  }

  lemma RenameVacates(groups: seq<string>, path: string, newPath: string)
    requires !Within(path, newPath) && NoneWithin(groups, newPath)
    ensures !HasGroupIn(RenameAll(groups, path, newPath), path)
  {
    forall g | g in RenameAll(groups, path, newPath) ensures !Within(path, g) {
      var h :| h in groups && g == RenamePath(h, path, newPath);
      RenamedLeavesOld(h, path, newPath);
    }
  }

  lemma MoveConnectionsBack(connections: seq<Connection>, path: string, newPath: string)
    requires forall i :: 0 <= i < |connections| ==> !Within(newPath, connections[i].groupPath)
    ensures MoveConnections(MoveConnections(connections, path, newPath), newPath, path) == connections
  {
    forall i | 0 <= i < |connections|
      ensures RenamePath(RenamePath(connections[i].groupPath, path, newPath), newPath, path) == connections[i].groupPath
    {
      RenameBack(connections[i].groupPath, path, newPath);
    }
  }

  ghost predicate RenameAccepted(groups: seq<string>, path: string, newPath: string) {
    && path != "" && newPath != "" && path != newPath && ValidPath(path) && ValidPath(newPath)
    && !(path + "/" <= newPath) && !HasGroupIn(groups, newPath)
  }

  lemma AcceptedRenames(d: Document, path: string, newPath: string)
    ensures RenameAccepted(d.groups, path, newPath) <==> RenameAt(d, path, newPath).0 == Done && path != newPath
    ensures RenameAccepted(d.groups, path, newPath) ==>
              RenameAt(d, path, newPath).1
              == Document(RenameAll(d.groups, path, newPath), MoveConnections(d.connections, path, newPath))
  {
  }

  /** What a rename leaves: the sources of the document, each renamed. */
  ghost predicate Renames(d: Document, path: string, newPath: string, after: Document) {
    forall x :: Source(after, x) <==> exists p :: Source(d, p) && x == RenamePath(p, path, newPath)
  }

  lemma EmptyIsNotRenamed(p: string, path: string, newPath: string)
    requires path != "" && newPath != ""
    ensures RenamePath(p, path, newPath) == "" <==> p == ""
  {
  }

  lemma MovedConnectionSource(d: Document, path: string, newPath: string, p: string)
    requires path != "" && newPath != "" && p != ""
    requires exists c :: c in d.connections && c.groupPath == p
    ensures Source(Document(RenameAll(d.groups, path, newPath), MoveConnections(d.connections, path, newPath)),
                   RenamePath(p, path, newPath))
  {
    var c :| c in d.connections && c.groupPath == p;
    var i :| 0 <= i < |d.connections| && d.connections[i] == c;
    var moved := MoveConnections(d.connections, path, newPath);
    EmptyIsNotRenamed(p, path, newPath);
    assert moved[i] in moved && moved[i].groupPath == RenamePath(p, path, newPath);
  }

  lemma MovedSources(d: Document, path: string, newPath: string)
    requires path != "" && newPath != ""
    ensures Renames(d, path, newPath,
                    Document(RenameAll(d.groups, path, newPath), MoveConnections(d.connections, path, newPath)))
  {
    var moved := MoveConnections(d.connections, path, newPath);
    var after := Document(RenameAll(d.groups, path, newPath), moved);
    forall x | Source(after, x) ensures exists p :: Source(d, p) && x == RenamePath(p, path, newPath) {
      if x in after.groups {
        var g :| g in d.groups && x == RenamePath(g, path, newPath);
        assert Source(d, g);
      } else {
        var c :| c in moved && c.groupPath == x;
        var i :| 0 <= i < |moved| && moved[i] == c;
        EmptyIsNotRenamed(d.connections[i].groupPath, path, newPath);
        assert d.connections[i] in d.connections && Source(d, d.connections[i].groupPath);
      }
    }
    forall p | Source(d, p) ensures Source(after, RenamePath(p, path, newPath)) {
      if p !in d.groups {
        MovedConnectionSource(d, path, newPath, p);
      }
    }
  }

  lemma RenamedSources(d: Document, path: string, newPath: string)
    requires RenameAt(d, path, newPath).0 == Done && path != newPath
    ensures Renames(d, path, newPath, RenameAt(d, path, newPath).1)
  {
    AcceptedRenames(d, path, newPath);
    MovedSources(d, path, newPath);
  }

  ghost predicate Shallow(d: Document) {
    forall p :: Source(d, p) ==> Depth(p) <= MAX_DEPTH
  }

  /** The bound of five levels survives a rename exactly when every group and
      connection path that moves still fits; the request is refused only when
      the new path itself does not. */
  lemma RenameKeepsDepthIff(d: Document, path: string, newPath: string)
    requires Shallow(d) && RenameAt(d, path, newPath).0 == Done
    ensures Shallow(RenameAt(d, path, newPath).1)
            <==> forall p :: Source(d, p) && Within(path, p) ==> Depth(newPath) + Depth(p) - Depth(path) <= MAX_DEPTH
  {
    if path != newPath {
      RenamedSources(d, path, newPath);
      MovedDepths(d, path, newPath, RenameAt(d, path, newPath).1);
    }
  }

  lemma MovedDepths(d: Document, path: string, newPath: string, after: Document)
    requires Shallow(d) && Renames(d, path, newPath, after)
    ensures Shallow(after)
            <==> forall p :: Source(d, p) && Within(path, p) ==> Depth(newPath) + Depth(p) - Depth(path) <= MAX_DEPTH
  {
    forall p ensures Depth(RenamePath(p, path, newPath)) ==
                     if Within(path, p) then Depth(newPath) + Depth(p) - Depth(path) else Depth(p)
    {
      RenameDepth(p, path, newPath);
    }
    if Shallow(after) {
      forall p | Source(d, p) && Within(path, p) ensures Depth(newPath) + Depth(p) - Depth(path) <= MAX_DEPTH {
        assert Source(after, RenamePath(p, path, newPath));
      }
    }
  }

  /** A rename asked for in reverse is accepted and restores the whole document,
      order included, unless the old path lies below the new one or a
      connection already was below the new one. */
  lemma RenameReverses(d: Document, path: string, newPath: string)
    requires Distinct(d.groups) && RenameAt(d, path, newPath).0 == Done && path != newPath
    requires !Within(newPath, path)
    requires forall i :: 0 <= i < |d.connections| ==> !Within(newPath, d.connections[i].groupPath)
    ensures RenameAt(RenameAt(d, path, newPath).1, newPath, path) == (Done, d)
  {
    var after := RenameAt(d, path, newPath).1;
    AcceptedRenames(d, path, newPath);
    assert NoneWithin(d.groups, newPath);
    RenameVacates(d.groups, path, newPath);
    RenameListBack(d.groups, path, newPath);
    MoveConnectionsBack(d.connections, path, newPath);
    AcceptedRenames(after, newPath, path);
  }

  lemma PlainSegments()
    ensures SegmentValidity("a") == Valid && SegmentValidity("x") == Valid && SegmentValidity("y") == Valid
  {
    assert !ContainsAny("", "\\\r\n\t");
  }

  lemma JoinedPath(parts: seq<string>) returns (path: string)
    requires parts != [] && forall i :: 0 <= i < |parts| ==> '/' !in parts[i]
    ensures Split(path) == parts
  {
    path := Join(parts);
    SplitJoin(parts);
  }

  lemma RenameOne(g: string, path: string, newPath: string)
    requires RenameAccepted([g], path, newPath) && Within(path, g)
    ensures var (status, after) := RenameAt(Document([g], []), path, newPath);
            status == Done && |after.groups| == 1 && Depth(after.groups[0]) == Depth(newPath) + Depth(g) - Depth(path)
  {
    RenameSingle(g, path, newPath);
    RenameDepth(g, path, newPath);
    AcceptedRenames(Document([g], []), path, newPath);
  }

  lemma ValidWhen(path: string, parts: seq<string>)
    requires Split(path) == parts && |parts| <= MAX_DEPTH && ValidSegments(parts)
    ensures ValidPath(path)
  {
  }

  lemma ApartWhen(parent: string, path: string)
    requires Split(parent)[0] != Split(path)[0]
    ensures !Within(parent, path)
  {
    WithinIsSegmentPrefix(parent, path);
  }

  lemma ExampleAccepted(deep: string, path: string, newPath: string)
    requires Split(deep) == ["a", "b", "c", "d", "e"] && Split(path) == ["a"] && Split(newPath) == ["x", "y"]
    ensures RenameAccepted([deep], path, newPath) && Within(path, deep)
  {
    PlainSegments();
    ValidWhen(path, ["a"]);
    ValidWhen(newPath, ["x", "y"]);
    SplitSegment("");
    ApartWhen(path, newPath);
    ApartWhen(newPath, deep);
    WithinIsSegmentPrefix(path, deep);
    assert ["a"] == ["a", "b", "c", "d", "e"][..1];
  }

  /** The new path fits but what moves below it does not: a path at depth five
      is stored at depth six. */
  lemma RenameTooDeepExample() returns (deep: string, path: string, newPath: string)
    ensures Split(deep) == ["a", "b", "c", "d", "e"] && Split(path) == ["a"] && Split(newPath) == ["x", "y"]
    ensures var (status, after) := RenameAt(Document([deep], []), path, newPath);
            status == Done && Depth(deep) == 5 && |after.groups| == 1 && Depth(after.groups[0]) == 6
  {
    deep, path, newPath := ExamplePaths();
    ExampleAccepted(deep, path, newPath);
    RenameOne(deep, path, newPath);
  }

  lemma DeepConnectionMoves(c: Connection, path: string, newPath: string)
    requires RenameAccepted([path], path, newPath) && Within(path, c.groupPath)
    requires Depth(newPath) + Depth(c.groupPath) - Depth(path) > MAX_DEPTH
    ensures var (status, after) := RenameAt(Document([path], [c]), path, newPath);
            status == Done && |after.connections| == 1 && !ValidPath(after.connections[0].groupPath)
            && Depth(after.connections[0].groupPath) == Depth(newPath) + Depth(c.groupPath) - Depth(path)
  {
    AcceptedRenames(Document([path], [c]), path, newPath);
    RenameDepth(c.groupPath, path, newPath);
    var moved := RenamePath(c.groupPath, path, newPath);
    assert MoveConnections([c], path, newPath)[0].groupPath == moved;
    SplitSegment("");
    assert moved != "";
  }

  /** Every group that moves fits, yet a connection is stored at depth six, where
      no later request that keeps its path is valid. */
  lemma RenameTooDeepForConnectionExample(c: Connection) returns (deep: Connection, path: string, newPath: string)
    ensures Split(deep.groupPath) == ["a", "b", "c", "d", "e"] && Split(path) == ["a"] && Split(newPath) == ["x", "y"]
    ensures deep == c.(groupPath := deep.groupPath)
    ensures var (status, after) := RenameAt(Document([path], [deep]), path, newPath);
            status == Done && |after.connections| == 1 && Depth(after.connections[0].groupPath) == 6
            && !ValidPath(after.connections[0].groupPath)
  {
    var deepPath;
    deepPath, path, newPath := ExamplePaths();
    deep := c.(groupPath := deepPath);
    ExampleAccepted(deepPath, path, newPath);
    ApartWhen(newPath, path);
    DeepConnectionMoves(deep, path, newPath);
  }

  lemma ExamplePaths() returns (deep: string, path: string, newPath: string)
    ensures Split(deep) == ["a", "b", "c", "d", "e"] && Split(path) == ["a"] && Split(newPath) == ["x", "y"]
  {
    deep := JoinedPath(["a", "b", "c", "d", "e"]);
    path := JoinedPath(["a"]);
    newPath := JoinedPath(["x", "y"]);
  }

  lemma RenameSingle(g: string, path: string, newPath: string)
    ensures RenameAll([g], path, newPath) == [RenamePath(g, path, newPath)]
  {
    assert [g][..0] == [];
  }

  lemma RenameKeepsWellFormed(d: Document, path: string, newPath: string)
    requires WellFormed(d.groups) && ParentStored(d.groups, newPath)
    ensures WellFormed(RenameAt(d, path, newPath).1.groups)
  {
    if RenameAt(d, path, newPath).0 == Done && path != newPath {
      RenameAllowed(d, path, newPath);
      RenameKeepsClosedIff(d.groups, path, newPath);
    }
  }

  lemma RequestKeepsWellFormed(d: Document, request: Request)
    requires WellFormed(d.groups) && Harmless(d, request)
    ensures WellFormed(Handle(d, request).1.groups)
  {
    match request
    case Create(raw) => CreateKeepsWellFormed(d, Normalize(raw));
    case Delete(raw) => DeleteKeepsWellFormed(d, Normalize(raw));
    case Rename(raw, rawNew) => RenameKeepsWellFormed(d, Normalize(raw), Normalize(rawNew));
  }

  lemma CreateKeepsNames(d: Document, path: string)
    requires AllNamed(d)
    ensures AllNamed(CreateAt(d, path).1)
  {
    var after := CreateAt(d, path).1;
    if CreateAt(d, path).0 == Done && path != "" {
      ValidIsNamed(path);
      NamedIsClean(path);
      forall p | Source(after, p) ensures Named(p) {
        if !Source(d, p) {
          AncestorsAreWithin(path, p);
          WithinNamed(p, path);
        }
      }
    } else if path == "" {
      assert NonEmpty(Split("")) == [];
    }
  }

  lemma RenameKeepsNames(d: Document, path: string, newPath: string)
    requires AllNamed(d)
    ensures AllNamed(RenameAt(d, path, newPath).1)
  {
    if RenameAt(d, path, newPath).0 == Done && path != newPath {
      var after := RenameAt(d, path, newPath).1;
      ValidIsNamed(newPath);
      RenamedSources(d, path, newPath);
      forall x | Source(after, x) ensures Named(x) {
        var p :| Source(d, p) && x == RenamePath(p, path, newPath);
        RenamedNamed(p, path, newPath);
      }
    }
  }

  lemma DeleteKeepsNames(d: Document, path: string)
    requires AllNamed(d)
    ensures AllNamed(DeleteAt(d, path).1)
  {
    assert forall p :: Source(DeleteAt(d, path).1, p) ==> Source(d, p);
  }

  /** No request stores a blank name, whatever is stored, closed or not; nor
      does storing any connections with valid paths. */
  lemma RequestKeepsNames(d: Document, request: Request)
    requires AllNamed(d)
    ensures AllNamed(Handle(d, request).1)
  {
    match request
    case Create(raw) => CreateKeepsNames(d, Normalize(raw));
    case Delete(raw) => DeleteKeepsNames(d, Normalize(raw));
    case Rename(raw, rawNew) => RenameKeepsNames(d, Normalize(raw), Normalize(rawNew));
  }

  lemma ConnectionsKeepNames(d: Document, connections: seq<Connection>)
    requires AllNamed(d)
    requires forall c :: c in connections ==> c in d.connections || ValidPath(c.groupPath)
    ensures AllNamed(d.(connections := connections))
  {
    forall p | Source(d.(connections := connections), p) ensures Named(p) {
      if !Source(d, p) {
        var c :| c in connections && c.groupPath == p;
        ValidIsNamed(p);
      }
    }
  }

  /** A run: each request is handled in turn; a failed save leaves the document. */
  ghost function Run(d: Document, requests: seq<(Request, bool)>): Document {
    if requests == [] then d
    else
      var before := Run(d, requests[..|requests| - 1]);
      var (request, saved) := requests[|requests| - 1];
      if saved then Handle(before, request).1 else before
  }

  lemma {:induction false} RunKeepsWellFormed(d: Document, requests: seq<(Request, bool)>)
    requires WellFormed(d.groups)
    requires forall k :: 0 <= k < |requests| ==> Harmless(Run(d, requests[..k]), requests[k].0)
    ensures WellFormed(Run(d, requests).groups)
  {
    if requests != [] {
      var last := |requests| - 1;
      forall k | 0 <= k < last ensures requests[..last][..k] == requests[..k] {
      }
      RunKeepsWellFormed(d, requests[..last]);
      RequestKeepsWellFormed(Run(d, requests[..last]), requests[last].0);
    }
  }

  lemma {:induction false} RunKeepsNames(d: Document, requests: seq<(Request, bool)>)
    requires AllNamed(d)
    ensures AllNamed(Run(d, requests))
  {
    if requests != [] {
      var last := |requests| - 1;
      RunKeepsNames(d, requests[..last]);
      RequestKeepsNames(Run(d, requests[..last]), requests[last].0);
    }
  }

  /** A path that a delete allows lies above no stored path but itself as a group. */
  lemma DeletableAlone(d: Document, path: string, p: string)
    requires path != "" && Deletable(d, path) && Source(d, p) && Within(path, p)
    ensures p == path && forall c :: c in d.connections ==> c.groupPath != p
  {
    ContainsIsWithin(path, p);
  }

  /** On an ancestor-closed list an allowed delete takes one path off the listing. */
  lemma DeleteRemovesOnePath(d: Document, path: string)
    requires WellFormed(d.groups) && AllClean(d)
    requires DeleteAt(d, path).0 == Done
    ensures Listing(DeleteAt(d, path).1) == Without(Listing(d), path)
  {
    var after := DeleteAt(d, path).1;
    assert forall p :: Source(after, p) ==> Source(d, p);
    ListingIsPrefixClosure(d);
    ListingIsPrefixClosure(after);
    WithoutKeepsOrder(Listing(d), path);
    forall q ensures q in Listing(after) <==> q in Listing(d) && q != path {
      if p :| Source(d, p) && Within(q, p) && q != path {
        if p == path {
          DeletableAlone(d, path, p);
          assert q in d.groups;
          assert Source(after, q) && Within(q, q);
        } else {
          assert Source(after, p);
        }
      }
      if p :| Source(after, p) && Within(q, p) && q == path {
        DeletableAlone(d, path, p);
        assert false;
      }
    }
    AscendingUnique(Listing(after), Without(Listing(d), path));
  }
}
