/** The browser's cached copy of the groups of every scope, which it renames by
    itself after the server accepts a rename (frontend/src/App.tsx). */
module GroupView {
  import opened Connections
  import ConnectionTree
  import opened Text
  import opened Paths
  import opened ConnectionGroups
  import opened GroupRequests

  datatype Item = Item(organization: string, path: string)
  datatype Card = Card(organization: string, connection: Connection)

  function ReplacePath(path: string, groupPath: string, newPath: string): string {
    if path == groupPath then newPath
    else if groupPath + "/" <= path then newPath + path[|groupPath|..]
    else path
  }

  function RenameItem(item: Item, group: Item, newPath: string): Item {
    if item.organization == group.organization && (item.path == group.path || group.path + "/" <= item.path)
    then item.(path := ReplacePath(item.path, group.path, newPath))
    else item
  }

  function RenameCard(card: Card, group: Item, newPath: string): Card {
    var path := card.connection.groupPath;
    if card.organization == group.organization && path != "" && (path == group.path || group.path + "/" <= path)
    then card.(connection := card.connection.(groupPath := ReplacePath(path, group.path, newPath)))
    else card
  }

  ghost predicate Shows(items: set<Item>, organization: string, paths: seq<string>) {
    forall q :: Item(organization, q) in items <==> q in paths
  }

  ghost predicate GroupsCoverConnections(d: Document) {
    forall c :: c in d.connections ==> c.groupPath == "" || c.groupPath in d.groups
  }

  /** When the stored list names every connection's path, the listing shows
      that list exactly when it is ancestor-closed. */
  lemma ListingIsStoredIff(d: Document)
    requires (forall g :: g in d.groups ==> Clean(g)) && GroupsCoverConnections(d)
    ensures (forall q :: q in Listing(d) <==> q in d.groups) <==> Closed(d.groups)
  {
    assert forall p :: Source(d, p) <==> p in d.groups;
    ListingIsPrefixClosure(d);
    forall q | q in d.groups ensures q in Listing(d) {
      assert Source(d, q) && Within(q, q);
    }
    forall g, q | g in d.groups && Within(q, g) ensures q in Listing(d) {
      assert Source(d, g);
    }
  }

  /** The browser and the server replace a path in the same way. */
  lemma ReplacePathIsRenamePath(path: string, groupPath: string, newPath: string)
    ensures ReplacePath(path, groupPath, newPath) == RenamePath(path, groupPath, newPath)
  {
    if path != groupPath && groupPath + "/" <= path {
      DropIsSlice(path, |groupPath|);
    }
  }

  lemma RenameOwnItem(path: string, group: Item, newPath: string)
    ensures RenameItem(Item(group.organization, path), group, newPath)
            == Item(group.organization, RenamePath(path, group.path, newPath))
  {
    ReplacePathIsRenamePath(path, group.path, newPath);
  }

  ghost function RenameItems(items: set<Item>, group: Item, newPath: string): set<Item> {
    set item | item in items :: RenameItem(item, group, newPath)
  }

  lemma RenamedItems(items: set<Item>, groups: seq<string>, group: Item, newPath: string)
    requires Shows(items, group.organization, groups)
    ensures Shows(RenameItems(items, group, newPath), group.organization, RenameAll(groups, group.path, newPath))
  {
    var org := group.organization;
    var renamed := RenameItems(items, group, newPath);
    var stored := RenameAll(groups, group.path, newPath);
    forall q | Item(org, q) in renamed ensures q in stored {
      var item :| item in items && RenameItem(item, group, newPath) == Item(org, q);
      RenameOwnItem(item.path, group, newPath);
      assert item == Item(org, item.path);
    }
    forall q | q in stored ensures Item(org, q) in renamed {
      var g :| g in groups && q == RenamePath(g, group.path, newPath);
      RenameOwnItem(g, group, newPath);
      assert Item(org, g) in items;
    }
  }

  // ------------------------------------------------------ paths as they are typed

  lemma {:induction false} BlankTrims(s: string)
    requires Blank(s)
    ensures TrimSpace(s) == "" && '/' !in s
  {
    if s != "" {
      assert s[0] in s;
      BlankTrims(s[1..]);
    }
  }

  lemma BlankNameIsNotNamed(s: string, before: seq<string>, name: string, after: seq<string>)
    requires Split(s) == before + [name] + after && Blank(name)
    ensures !Named(s)
  {
    BlankTrims(name);
    assert Split(s)[|before|] == name;
  }

  lemma SlashAfterBlank(s: string, left: string, rest: string)
    requires s == left + "/" + rest && Blank(left)
    ensures !Named(s)
  {
    BlankTrims(left);
    SplitAtSlash(left, rest);
    BlankNameIsNotNamed(s, [], left, Split(rest));
  }

  lemma SlashBeforeBlank(s: string, rest: string, right: string)
    requires s == rest + "/" + right && Blank(right)
    ensures !Named(s)
  {
    BlankTrims(right);
    SplitConcat(rest, right);
    SplitSegment(right);
    BlankNameIsNotNamed(s, Split(rest), right, []);
  }

  /** What is left between the blanks of a named path has no slash at its ends. */
  lemma NamedEnds(s: string, left: string, r: string, right: string)
    requires Named(s) && s == left + r + right && Blank(left) && Blank(right) && r != ""
    ensures r[0] != '/' && r[|r| - 1] != '/'
  {
    if r[0] == '/' {
      assert r == "/" + r[1..];
      assert s == left + "/" + (r[1..] + right);
      SlashAfterBlank(s, left, r[1..] + right);
    }
    if r[|r| - 1] == '/' {
      assert r == r[..|r| - 1] + "/";
      assert s == (left + r[..|r| - 1]) + "/" + right;
      SlashBeforeBlank(s, left + r[..|r| - 1], right);
    }
  }

  lemma TrimSlashesKeeps(s: string)
    requires s != "" && s[0] != '/' && s[|s| - 1] != '/'
    ensures TrimSlashes(s) == s
  {
  }

  lemma NoSlashAfterTrim(s: string, left: string, r: string, right: string)
    requires s == left + r + right && Blank(left) && Blank(right) && r != "" && !IsSpace(r[0])
    ensures Within(r, s) ==> r == s
  {
    assert left != "" ==> left[0] in left && s[0] == left[0];
    assert left == "" && right != "" ==> right[0] in right && s[|r|] == right[0];
  }

  /** Of a path without blank names the server takes only blanks off the ends,
      and never leaves a path that it lay within. */
  lemma NamedIsTrimmed(s: string)
    requires Named(s)
    ensures Normalize(s) == TrimSpace(s)
    ensures Within(Normalize(s), s) ==> Normalize(s) == s
  {
    var left, right := TrimSpaceCuts(s);
    var r := TrimSpace(s);
    if r == "" {
      BlankTrims(s);
      SplitSegment(s);
      BlankNameIsNotNamed(s, [], s, []);
    } else {
      NamedEnds(s, left, r, right);
      TrimSlashesKeeps(r);
      NoSlashAfterTrim(s, left, r, right);
    }
  }

  lemma {:induction false} TrimSlashesShortens(s: string)
    ensures |TrimSlashes(s)| <= |s|
  {
    if s == "" {
    } else if s[0] == '/' {
      TrimSlashesShortens(s[1..]);
    } else if s[|s| - 1] == '/' {
      TrimSlashesShortens(s[..|s| - 1]);
    }
  }

  lemma NormalizeShortens(raw: string)
    ensures |Normalize(raw)| <= |raw|
  {
    var left, right := TrimSpaceCuts(raw);
    TrimSlashesShortens(TrimSpace(raw));
  }

  /** A path that the server changes is not comparable with what it makes of it. */
  lemma TrimmedIsApart(raw: string)
    requires Named(raw) && Normalize(raw) != raw
    ensures !Within(Normalize(raw), raw) && !Within(raw, Normalize(raw))
  {
    NamedIsTrimmed(raw);
    NormalizeShortens(raw);
  }

  lemma RenamedLength(g: string, path: string, newPath: string)
    requires Within(path, g)
    ensures |RenamePath(g, path, newPath)| == |newPath| + |g| - |path|
    ensures g != path ==> newPath + "/" <= RenamePath(g, path, newPath)
  {
    if g != path {
      var rest := g[|path| + 1..];
      assert g == path + "/" + rest;
      RenameBelow(path, rest, newPath);
    }
  }

  /** The group's own path is reached only from below it, by a new path that it lies within. */
  lemma ReachedFromBelow(groups: seq<string>, path: string, newPath: string)
    requires path in RenameAll(groups, path, newPath) && newPath != path
    ensures Within(newPath, path) && |newPath| < |path|
  {
    var g :| g in groups && RenamePath(g, path, newPath) == path;
    if Within(path, g) {
      RenamedLength(g, path, newPath);
    }
  }

  lemma Longest(groups: seq<string>, path: string) returns (longest: string)
    requires path in groups
    ensures longest in groups && Within(path, longest)
    ensures forall g :: g in groups && Within(path, g) ==> |g| <= |longest|
  {
    longest := path;
    for i := 0 to |groups|
      invariant longest in groups && Within(path, longest)
      invariant forall j :: 0 <= j < i && Within(path, groups[j]) ==> |groups[j]| <= |longest|
    {
      if Within(path, groups[i]) && |groups[i]| > |longest| {
        longest := groups[i];
      }
    }
  }

  /** Renaming a group to a shorter path takes its longest path away. */
  lemma LongestIsLost(groups: seq<string>, path: string, newPath: string) returns (longest: string)
    requires path in groups && |newPath| < |path|
    ensures longest in groups && Within(path, longest) && longest !in RenameAll(groups, path, newPath)
  {
    longest := Longest(groups, path);
    forall g | g in groups ensures RenamePath(g, path, newPath) != longest {
      if Within(path, g) {
        RenamedLength(g, path, newPath);
      }
    }
  }

  /** Some listed path at or below the group is not in the renamed view. */
  lemma SomePathIsLost(groups: seq<string>, path: string, raw: string) returns (lost: string)
    requires path in groups && raw != path
    ensures lost in groups && Within(path, lost) && lost !in RenameAll(groups, path, raw)
  {
    lost := path;
    if path in RenameAll(groups, path, raw) {
      ReachedFromBelow(groups, path, raw);
      lost := LongestIsLost(groups, path, raw);
    }
  }

  lemma Comparable(a: string, b: string, g: string)
    requires Within(a, g) && Within(b, g)
    ensures Within(a, b) || Within(b, a)
  {
    WithinIsSegmentPrefix(a, g);
    WithinIsSegmentPrefix(b, g);
    WithinIsSegmentPrefix(a, b);
    WithinIsSegmentPrefix(b, a);
  }

  // ---------------------------------------------------------- which view is fresh

  /** The listed paths, renamed as the browser does, are those of a new listing. */
  ghost predicate Fresh(d: Document, path: string, raw: string, after: Document) {
    forall q :: q in RenameAll(Listing(d), path, raw) <==> q in Listing(after)
  }

  /** The answer to a rename for which the server looked up `found` and stored `stored`. */
  ghost predicate Answered(d: Document, found: string, stored: string, after: Document) {
    && AllNamed(d) && AllNamed(after)
    && if found == stored then after == d
       else !Within(found, stored) && Renames(d, found, stored, after)
  }

  lemma HandleAnswers(d: Document, path: string, raw: string)
    requires AllNamed(d) && Handle(d, Rename(path, raw)).0 == Done
    ensures Answered(d, Normalize(path), Normalize(raw), Handle(d, Rename(path, raw)).1)
  {
    RequestKeepsNames(d, Rename(path, raw));
    if Normalize(path) != Normalize(raw) {
      RenamedSources(d, Normalize(path), Normalize(raw));
    }
  }

  lemma Listed(d: Document, q: string)
    requires AllNamed(d)
    ensures q in Listing(d) <==> exists p :: Source(d, p) && Within(q, p)
  {
    AllNamedIsClean(d);
    ListingIsPrefixClosure(d);
  }

  lemma ListedFrom(d: Document, q: string) returns (p: string)
    requires AllNamed(d) && q in Listing(d)
    ensures Source(d, p) && Within(q, p)
  {
    Listed(d, q);
    p :| Source(d, p) && Within(q, p);
  }

  lemma ListedAbove(d: Document, q: string, x: string)
    requires AllNamed(d) && x in Listing(d) && Within(q, x)
    ensures q in Listing(d) && Named(q)
  {
    var p := ListedFrom(d, x);
    WithinTransitive(q, x, p);
    WithinNamed(q, p);
    Listed(d, q);
  }

  /** What lies above a renamed source is listed afterwards. */
  lemma ListedAfter(d: Document, path: string, stored: string, after: Document, p: string, q: string)
    requires AllNamed(after) && Renames(d, path, stored, after)
    requires Source(d, p) && Within(q, RenamePath(p, path, stored))
    ensures q in Listing(after)
  {
    assert Source(after, RenamePath(p, path, stored));
    Listed(after, q);
  }

  lemma AfterFrom(d: Document, path: string, stored: string, after: Document, q: string) returns (p: string)
    requires AllNamed(after) && Renames(d, path, stored, after) && q in Listing(after)
    ensures Source(d, p) && Within(q, RenamePath(p, path, stored))
  {
    var x := ListedFrom(after, q);
    p :| Source(d, p) && x == RenamePath(p, path, stored);
  }

  lemma RenameKeepsWithin(x: string, p: string, path: string, newPath: string)
    requires Within(path, x) && Within(x, p)
    ensures Within(RenamePath(x, path, newPath), RenamePath(p, path, newPath))
  {
    WithinIsSegmentPrefix(path, x);
    WithinIsSegmentPrefix(x, p);
    RenameReplacesSegments(x, path, newPath);
    RenameReplacesSegments(p, path, newPath);
    WithinIsSegmentPrefix(RenamePath(x, path, newPath), RenamePath(p, path, newPath));
  }

  /** The parent of the new path is listed before the rename. */
  ghost predicate ParentListed(d: Document, raw: string) {
    Depth(raw) > 1 ==> exists p :: Source(d, p) && Within(Parent(raw), p)
  }

  /** Something still lies in the group's old parent after the rename. */
  ghost predicate ParentKept(d: Document, path: string, stored: string) {
    Depth(path) > 1 ==> exists p :: Source(d, p) && Within(Parent(path), RenamePath(p, path, stored))
  }

  lemma ParentIsAbove(path: string)
    requires Depth(path) > 1
    ensures Within(Parent(path), path) && !Within(path, Parent(path))
  {
    WithinParent(Parent(path), path);
    SplitJoin(Split(path)[..Depth(path) - 1]);
    WithinIsSegmentPrefix(path, Parent(path));
  }

  /** A listed path outside the group is still listed, if the old parent is. */
  lemma OutsideStays(d: Document, path: string, stored: string, after: Document, x: string)
    requires AllNamed(d) && AllNamed(after) && Renames(d, path, stored, after)
    requires x in Listing(d) && !Within(path, x) && ParentKept(d, path, stored)
    ensures x in Listing(after)
  {
    var p := ListedFrom(d, x);
    if !Within(path, p) {
      ListedAfter(d, path, stored, after, p, x);
    } else {
      Comparable(path, x, p);
      WithinParent(x, path);
      var k :| Source(d, k) && Within(Parent(path), RenamePath(k, path, stored));
      WithinTransitive(x, Parent(path), RenamePath(k, path, stored));
      ListedAfter(d, path, stored, after, k, x);
    }
  }

  lemma FreshKeepsParent(d: Document, path: string, raw: string, stored: string, after: Document)
    requires AllNamed(d) && AllNamed(after) && Renames(d, path, stored, after)
    requires path in Listing(d) && Fresh(d, path, raw, after)
    ensures ParentKept(d, path, stored)
  {
    if Depth(path) > 1 {
      ParentIsAbove(path);
      ListedAbove(d, Parent(path), path);
      assert RenamePath(Parent(path), path, raw) == Parent(path);
      var p := AfterFrom(d, path, stored, after, Parent(path));
    }
  }

  /** What lies above a source that does not move is shown by the browser. */
  lemma UnmovedIsShown(d: Document, path: string, raw: string, p: string, q: string)
    requires AllNamed(d) && Source(d, p) && !Within(path, p) && Within(q, p)
    ensures q in RenameAll(Listing(d), path, raw)
  {
    Listed(d, q);
    if Within(path, q) {
      WithinTransitive(path, q, p);
    }
    assert RenamePath(q, path, raw) == q;
  }

  lemma ShownFrom(d: Document, path: string, raw: string, q: string) returns (x: string)
    requires q in RenameAll(Listing(d), path, raw)
    ensures x in Listing(d) && q == RenamePath(x, path, raw)
  {
    x :| x in Listing(d) && q == RenamePath(x, path, raw);
  }

  // -- the new path is stored as it is sent

  lemma MovedIsShown(d: Document, path: string, raw: string, p: string, q: string)
    requires AllNamed(d) && !Within(path, raw) && ParentListed(d, raw)
    requires Source(d, p) && Within(path, p) && Within(q, RenamePath(p, path, raw))
    ensures q in RenameAll(Listing(d), path, raw)
  {
    WithinRenamed(q, p, path, raw);
    if Within(q, raw) && q != raw {
      WithinParent(q, raw);
      var k :| Source(d, k) && Within(Parent(raw), k);
      WithinTransitive(q, Parent(raw), k);
      Listed(d, q);
      if Within(path, q) {
        WithinTransitive(path, q, raw);
      }
      assert RenamePath(q, path, raw) == q;
    } else {
      var a :| Within(path, a) && Within(a, p) && q == RenamePath(a, path, raw);
      Listed(d, a);
    }
  }

  lemma FreshListsParent(d: Document, path: string, raw: string, after: Document)
    requires Answered(d, path, raw, after) && path != raw
    requires path in Listing(d) && Fresh(d, path, raw, after)
    ensures ParentListed(d, raw)
  {
    if Depth(raw) > 1 {
      var parent := Parent(raw);
      var p := ListedFrom(d, path);
      RenamedWithinNew(p, path, raw);
      ParentIsAbove(raw);
      WithinTransitive(parent, raw, RenamePath(p, path, raw));
      ListedAfter(d, path, raw, after, p, parent);
      var x := ShownFrom(d, path, raw, parent);
      if Within(path, x) {
        RenamedWithinNew(x, path, raw);
      }
      var k := ListedFrom(d, parent);
    }
  }

  lemma KeptPathIsFreshIff(d: Document, path: string, raw: string, after: Document)
    requires Answered(d, path, raw, after) && path != raw && path in Listing(d)
    ensures Fresh(d, path, raw, after) <==> ParentListed(d, raw) && ParentKept(d, path, raw)
  {
    if Fresh(d, path, raw, after) {
      FreshListsParent(d, path, raw, after);
      FreshKeepsParent(d, path, raw, raw, after);
    }
    if ParentListed(d, raw) && ParentKept(d, path, raw) {
      forall q | q in RenameAll(Listing(d), path, raw) ensures q in Listing(after) {
        var x := ShownFrom(d, path, raw, q);
        if Within(path, x) {
          var p := ListedFrom(d, x);
          RenameKeepsWithin(x, p, path, raw);
          ListedAfter(d, path, raw, after, p, q);
        } else {
          OutsideStays(d, path, raw, after, x);
        }
      }
      forall q | q in Listing(after) ensures q in RenameAll(Listing(d), path, raw) {
        var p := AfterFrom(d, path, raw, after, q);
        if Within(path, p) {
          MovedIsShown(d, path, raw, p, q);
        } else {
          UnmovedIsShown(d, path, raw, p, q);
        }
      }
    }
  }

  // -- the server changes the new path

  /** Every path that moves was listed outside the group already: where the
      server puts it, and where the browser does, there by a source that stays. */
  ghost predicate Doubled(d: Document, path: string, raw: string, stored: string) {
    forall p :: Source(d, p) && Within(path, p) ==>
                  && !Within(path, RenamePath(p, path, stored)) && RenamePath(p, path, stored) in Listing(d)
                  && Elsewhere(d, path, RenamePath(p, path, raw))
  }

  ghost predicate Elsewhere(d: Document, path: string, q: string) {
    exists u :: Source(d, u) && !Within(path, u) && Within(q, u)
  }

  /** A moved path that the view of a changed name shows right was listed outside the group. */
  lemma FreshDoubles(d: Document, path: string, raw: string, stored: string, after: Document, p: string)
    requires Answered(d, path, stored, after) && path != stored && Fresh(d, path, raw, after)
    requires !Within(stored, raw) && !Within(raw, stored)
    requires Source(d, p) && Within(path, p)
    ensures !Within(path, RenamePath(p, path, stored)) && RenamePath(p, path, stored) in Listing(d)
    ensures Elsewhere(d, path, RenamePath(p, path, raw))
  {
    var atServer, atBrowser := RenamePath(p, path, stored), RenamePath(p, path, raw);
    RenamedWithinNew(p, path, stored);
    RenamedWithinNew(p, path, raw);
    ListedAfter(d, path, stored, after, p, atServer);
    var x := ShownFrom(d, path, raw, atServer);
    if Within(path, x) {
      RenamedWithinNew(x, path, raw);
      Comparable(raw, stored, atServer);
    }
    Listed(d, p);
    assert atBrowser in RenameAll(Listing(d), path, raw);
    var u := AfterFrom(d, path, stored, after, atBrowser);
    if Within(path, u) {
      RenamedWithinNew(u, path, stored);
      WithinTransitive(raw, atBrowser, RenamePath(u, path, stored));
      Comparable(raw, stored, RenamePath(u, path, stored));
    }
  }

  lemma DoubledIsFresh(d: Document, path: string, raw: string, stored: string, after: Document)
    requires Answered(d, path, stored, after) && path != stored
    requires Doubled(d, path, raw, stored) && ParentKept(d, path, stored)
    ensures Fresh(d, path, raw, after)
  {
    forall q | q in RenameAll(Listing(d), path, raw) ensures q in Listing(after) {
      var x := ShownFrom(d, path, raw, q);
      if Within(path, x) {
        var p := ListedFrom(d, x);
        WithinTransitive(path, x, p);
        var u :| Source(d, u) && !Within(path, u) && Within(RenamePath(p, path, raw), u);
        RenameKeepsWithin(x, p, path, raw);
        WithinTransitive(q, RenamePath(p, path, raw), u);
        ListedAfter(d, path, stored, after, u, q);
      } else {
        OutsideStays(d, path, stored, after, x);
      }
    }
    forall q | q in Listing(after) ensures q in RenameAll(Listing(d), path, raw) {
      var p := AfterFrom(d, path, stored, after, q);
      if Within(path, p) {
        ListedAbove(d, q, RenamePath(p, path, stored));
        if Within(path, q) {
          WithinTransitive(path, q, RenamePath(p, path, stored));
        }
        assert RenamePath(q, path, raw) == q;
      } else {
        UnmovedIsShown(d, path, raw, p, q);
      }
    }
  }

  lemma ChangedPathIsFreshIff(d: Document, path: string, raw: string, after: Document)
    requires Answered(d, path, Normalize(raw), after) && path != Normalize(raw) && Normalize(raw) != raw
    requires path in Listing(d)
    ensures Fresh(d, path, raw, after)
            <==> Doubled(d, path, raw, Normalize(raw)) && ParentKept(d, path, Normalize(raw))
  {
    var stored := Normalize(raw);
    if Fresh(d, path, raw, after) {
      assert RenamePath(path, path, raw) == raw;
      var above := ListedFrom(after, raw);
      WithinNamed(raw, above);
      TrimmedIsApart(raw);
      forall p | Source(d, p) && Within(path, p)
        ensures !Within(path, RenamePath(p, path, stored)) && RenamePath(p, path, stored) in Listing(d)
        ensures Elsewhere(d, path, RenamePath(p, path, raw))
      {
        FreshDoubles(d, path, raw, stored, after, p);
      }
      FreshKeepsParent(d, path, raw, stored, after);
    }
    if Doubled(d, path, raw, stored) && ParentKept(d, path, stored) {
      DoubledIsFresh(d, path, raw, stored, after);
    }
  }

  // -- the server looks up another path, or changes nothing

  /** With another path looked up, or nothing changed, a path that the view lost is still listed. */
  lemma LostIsListed(d: Document, path: string, raw: string, found: string, stored: string, after: Document)
    requires Answered(d, found, stored, after) && path in Listing(d) && raw != path
    requires found == stored || (!Within(found, path) && !Within(path, found))
    ensures !Fresh(d, path, raw, after)
  {
    var lost := SomePathIsLost(Listing(d), path, raw);
    if found != stored {
      var p := ListedFrom(d, lost);
      WithinTransitive(path, lost, p);
      if Within(found, p) {
        Comparable(path, found, p);
      }
      ListedAfter(d, found, stored, after, p, lost);
    }
  }

  /** When the renamed view is what a listing would show. */
  ghost predicate StaysFresh(d: Document, path: string, raw: string) {
    || raw == path
    || (&& Normalize(path) == path && Normalize(raw) != path
        && ParentKept(d, path, Normalize(raw))
        && if Normalize(raw) == raw then ParentListed(d, raw) else Doubled(d, path, raw, Normalize(raw)))
  }

  lemma FreshIff(d: Document, path: string, raw: string, after: Document)
    requires Answered(d, Normalize(path), Normalize(raw), after) && path in Listing(d)
    ensures Fresh(d, path, raw, after) <==> StaysFresh(d, path, raw)
  {
    ListedAbove(d, path, path);
    if raw == path {
      RenameToItself(Listing(d), path);
    } else if Normalize(path) != path {
      TrimmedIsApart(path);
      LostIsListed(d, path, raw, Normalize(path), Normalize(raw), after);
    } else if Normalize(raw) == path {
      LostIsListed(d, path, raw, path, path, after);
    } else if Normalize(raw) == raw {
      KeptPathIsFreshIff(d, path, raw, after);
    } else {
      ChangedPathIsFreshIff(d, path, raw, after);
    }
  }

  /** After every accepted rename of a listed group, whatever text was sent and
      whatever else is stored: the browser's renamed groups show what a fresh
      listing would exactly when StaysFresh says so. `raw` is what the browser
      sends and keeps. */
  lemma RenamedViewIsFreshIff(d: Document, items: set<Item>, group: Item, raw: string)
    requires AllNamed(d)
    requires Shows(items, group.organization, Listing(d)) && group in items
    requires Handle(d, Rename(group.path, raw)).0 == Done
    ensures Shows(RenameItems(items, group, raw), group.organization, Listing(Handle(d, Rename(group.path, raw)).1))
            <==> StaysFresh(d, group.path, raw)
  {
    var path, org := group.path, group.organization;
    var after := Handle(d, Rename(path, raw)).1;
    assert group == Item(org, path);
    RenamedItems(items, Listing(d), group, raw);
    ShowsIsFresh(RenameItems(items, group, raw), org, d, path, raw, after);
    HandleAnswers(d, path, raw);
    FreshIff(d, path, raw, after);
  }

  lemma ShowsIsFresh(renamed: set<Item>, org: string, d: Document, path: string, raw: string, after: Document)
    requires Shows(renamed, org, RenameAll(Listing(d), path, raw))
    ensures Shows(renamed, org, Listing(after)) <==> Fresh(d, path, raw, after)
  {
    assert forall q :: Item(org, q) in renamed <==> q in RenameAll(Listing(d), path, raw);
  }

  /** For text without blanks at its ends, as the dialog sends it: both paths
      must be those the server works with, the new one top-level or in a listed
      parent, and the old parent must be left with something in it. */
  lemma TypedPathStaysFreshIff(d: Document, path: string, raw: string)
    requires AllNamed(d) && path in Listing(d) && raw == TrimSpace(raw)
    ensures StaysFresh(d, path, raw)
            <==> raw == path || (&& Normalize(path) == path && Normalize(raw) == raw
                                 && ParentListed(d, raw) && ParentKept(d, path, raw))
  {
    if Normalize(raw) != raw && Doubled(d, path, raw, Normalize(raw)) {
      var p := ListedFrom(d, path);
      var u :| Source(d, u) && !Within(path, u) && Within(RenamePath(p, path, raw), u);
      RenamedWithinNew(p, path, raw);
      WithinTransitive(raw, RenamePath(p, path, raw), u);
      WithinNamed(raw, u);
      NamedIsTrimmed(raw);
    }
  }

  /** On a closed list that names every connection's path, for every text sent:
      both paths must be those the server works with, and the new one top-level
      or in a stored parent. */
  lemma ClosedListStaysFreshIff(d: Document, path: string, raw: string)
    requires AllNamed(d) && Closed(d.groups) && GroupsCoverConnections(d) && path in d.groups
    requires Handle(d, Rename(path, raw)).0 == Done
    ensures StaysFresh(d, path, raw)
            <==> raw == path || (Normalize(path) == path && Normalize(raw) == raw && ParentStored(d.groups, raw))
  {
    var stored := Normalize(raw);
    assert forall p :: Source(d, p) <==> p in d.groups;
    if Depth(path) > 1 {
      ParentIsAbove(path);
      assert Source(d, Parent(path)) && RenamePath(Parent(path), path, stored) == Parent(path);
      assert Within(Parent(path), Parent(path));
    }
    if Depth(raw) > 1 {
      assert ParentListed(d, raw) <==> ParentStored(d.groups, raw) by {
        assert Within(Parent(raw), Parent(raw));
      }
    }
    if Normalize(path) == path && stored != path && Doubled(d, path, raw, stored) {
      AcceptedRenames(d, path, stored);
      assert Within(path, path) && RenamePath(path, path, stored) == stored;
      var g := ListedFrom(d, stored);
      assert HasGroupIn(d.groups, stored);
    }
  }

  lemma RenameToItself(groups: seq<string>, path: string)
    ensures forall q :: q in RenameAll(groups, path, path) <==> q in groups
  {
    forall g ensures RenamePath(g, path, path) == g {
      if g != path && Within(path, g) {
        var rest := g[|path| + 1..];
        assert g == path + "/" + rest;
        RenameBelow(path, rest, path);
      }
    }
  }

  /** Items and cards of other scopes are left alone. */
  lemma RenamedViewElsewhere(items: set<Item>, group: Item, raw: string)
    ensures forall item: Item :: item.organization != group.organization ==>
              (item in items <==> item in RenameItems(items, group, raw))
    ensures forall o, c :: o != group.organization ==> RenameCard(Card(o, c), group, raw) == Card(o, c)
  {
    forall item: Item | item.organization != group.organization
      ensures item in items <==> item in RenameItems(items, group, raw)
    {
      assert RenameItem(item, group, raw) == item;
    }
  }

  // ------------------------------------------------------------------- cards

  /** Where the server leaves a path when it looked up `found` and stored `stored`. */
  function Moved(x: string, found: string, stored: string): string {
    if found == stored then x else RenamePath(x, found, stored)
  }

  /** Browser and server agree on a path in the group exactly when the browser
      kept what the server made of the group's own path; and on any other path
      exactly when the server left it where it was. */
  lemma ReplacedIsMovedIff(x: string, path: string, raw: string, found: string, stored: string)
    requires |found| <= |path|
    ensures RenamePath(x, path, raw) == Moved(x, found, stored)
            <==> if Within(path, x) then raw == Moved(path, found, stored) else Moved(x, found, stored) == x
  {
    if Within(path, x) && x != path {
      var rest := x[|path| + 1..];
      assert x == path + "/" + rest;
      RenameBelow(path, rest, raw);
      MovedBelow(path, rest, found, stored);
      SameTail(raw, Moved(path, found, stored), "/" + rest);
      assert raw + ("/" + rest) == raw + "/" + rest;
      assert Moved(path, found, stored) + ("/" + rest) == Moved(path, found, stored) + "/" + rest;
    }
  }

  lemma SameTail(a: string, b: string, tail: string)
    ensures a + tail == b + tail <==> a == b
  {
    if a + tail == b + tail {
      assert a == (a + tail)[..|a|] && b == (b + tail)[..|b|];
    }
  }

  lemma MovedBelow(path: string, rest: string, found: string, stored: string)
    requires |found| <= |path|
    ensures Moved(path + "/" + rest, found, stored) == Moved(path, found, stored) + "/" + rest
  {
    var x := path + "/" + rest;
    assert Within(path, x);
    if found != stored && Within(found, x) {
      Comparable(path, found, x);
      if found == path {
        RenameBelow(found, rest, stored);
      } else {
        var between := path[|found| + 1..];
        assert path == found + "/" + between;
        assert x == found + "/" + (between + "/" + rest);
        RenameBelow(found, between, stored);
        RenameBelow(found, between + "/" + rest, stored);
        assert stored + "/" + (between + "/" + rest) == stored + "/" + between + "/" + rest;
      }
    }
  }

  /** A card shows what the server stored for its connection exactly when, in
      the renamed group, the browser kept the path that the server gave the
      group, and elsewhere the server did not move the connection. */
  lemma RenamedCardIsFreshIff(d: Document, group: Item, raw: string, k: nat)
    requires Handle(d, Rename(group.path, raw)).0 == Done && k < |d.connections|
    ensures var path, x := group.path, d.connections[k].groupPath;
            var found, stored := Normalize(path), Normalize(raw);
            RenameCard(Card(group.organization, d.connections[k]), group, raw)
            == Card(group.organization, Handle(d, Rename(path, raw)).1.connections[k])
            <==> if Within(path, x) then raw == Moved(path, found, stored) else Moved(x, found, stored) == x
  {
    var path, x := group.path, d.connections[k].groupPath;
    NormalizeShortens(path);
    ReplacePathIsRenamePath(x, path, raw);
    ReplacedIsMovedIff(x, path, raw, Normalize(path), Normalize(raw));
    HandleMoves(d, path, raw, k);
  }

  lemma HandleMoves(d: Document, path: string, raw: string, k: nat)
    requires Handle(d, Rename(path, raw)).0 == Done && k < |d.connections|
    ensures path != "" && |Handle(d, Rename(path, raw)).1.connections| == |d.connections|
    ensures var c := d.connections[k];
            Handle(d, Rename(path, raw)).1.connections[k]
            == c.(groupPath := Moved(c.groupPath, Normalize(path), Normalize(raw)))
  {
  }

  /** For a group that the server finds under its path as it is: all cards are
      right exactly when the new path was stored as typed or the group has no connection. */
  lemma RenamedCardsAreFreshIff(d: Document, group: Item, raw: string)
    requires Handle(d, Rename(group.path, raw)).0 == Done && Normalize(group.path) == group.path
    ensures (forall k :: 0 <= k < |d.connections| ==>
               RenameCard(Card(group.organization, d.connections[k]), group, raw)
               == Card(group.organization, Handle(d, Rename(group.path, raw)).1.connections[k]))
            <==> raw == Normalize(raw)
                 || forall k :: 0 <= k < |d.connections| ==> !Within(group.path, d.connections[k].groupPath)
  {
    forall k | 0 <= k < |d.connections|
      ensures RenameCard(Card(group.organization, d.connections[k]), group, raw)
              == Card(group.organization, Handle(d, Rename(group.path, raw)).1.connections[k])
              <==> !Within(group.path, d.connections[k].groupPath) || raw == Normalize(raw)
    {
      RenamedCardIsFreshIff(d, group, raw, k);
    }
  }

  // ---------------------------------------------------------------- examples

  /** Without its parent stored, a renamed group stays alone in the list. */
  lemma RenameLosesParentExample()
    ensures Closed(["x"]) && RenameAll(["x"], "x", "p/q") == ["p/q"] && !Closed(["p/q"])
    ensures RenameAt(Document(["x"], []), "x", "p/q") == (Done, Document(["p/q"], []))
  {
    SplitSegment("x");
    forall g, q | g in ["x"] && Within(q, g) ensures q in ["x"] {
      WithinIsSegmentPrefix(q, g);
      SplitInjective(q, g);
    }
    RenameSingle("x", "x", "p/q");
    assert "p" + "/" <= "p/q";
    assert Within("p", "p/q") && "p/q" in ["p/q"] && "p" !in ["p/q"];
    LetterPathIsValid('x');
    TwoLettersAreValid('p', 'q');
    assert ['p'] + "/" + ['q'] == "p/q";
    assert !HasGroupIn(["x"], "p/q");
    AcceptedRenames(Document(["x"], []), "x", "p/q");
  }

  /** Renaming "p/q" to "x" where "p" is listed only as the parent of "p/q": the
      browser still shows "p" and the server does not. */
  lemma OldParentStaysExample(p: char, q: char, x: char)
    requires 'a' <= p <= 'z' && 'a' <= q <= 'z' && 'a' <= x <= 'z' && p != x
    ensures var path := [p] + "/" + [q];
            && Handle(Document([path], []), Rename(path, [x])) == (Done, Document([[x]], []))
            && [p] in RenameAll(Listing(Document([path], [])), path, [x])
            && [p] !in Listing(Document([[x]], []))
  {
    LetterIsNormal(x);
    TwoLettersAreNormal(p, q);
    OutOfParent(p, q, x);
    LetterPathIsValid(x);
    TwoLettersAreValid(p, q);
    ParentIsShown([p], [q], [x]);
    LettersAreNamed(Document([[x]], []));
    ListedSingle(Document([[x]], []), [x], [p]);
  }

  /** A parent that is not stored is listed, and stays in the view when its only child moves away. */
  lemma ParentIsShown(parent: string, name: string, newPath: string)
    requires ValidPath(parent + "/" + name)
    ensures var path := parent + "/" + name;
            parent in RenameAll(Listing(Document([path], [])), path, newPath)
  {
    var path := parent + "/" + name;
    var before := Document([path], []);
    LettersAreNamed(before);
    ListedSingle(before, path, parent);
    assert RenamePath(parent, path, newPath) == parent;
  }

  lemma TwoLettersAreNormal(p: char, q: char)
    requires 'a' <= p <= 'z' && 'a' <= q <= 'z'
    ensures Normalize([p] + "/" + [q]) == [p] + "/" + [q]
  {
    var path := [p] + "/" + [q];
    assert TrimSpace(path) == path;
    TrimSlashesKeeps(path);
  }

  /** A top-level group without anything below it, whose new path is listed
      already both as sent and as the server stores it. */
  lemma DoubledWhen(d: Document, path: string, raw: string)
    requires AllNamed(d) && Source(d, path) && Source(d, raw) && Source(d, Normalize(raw)) && Depth(path) == 1
    requires forall p :: Source(d, p) && Within(path, p) ==> p == path
    requires Normalize(path) == path && Normalize(raw) != raw && raw != path && Normalize(raw) != path
    ensures path in Listing(d) && StaysFresh(d, path, raw)
  {
    var stored := Normalize(raw);
    assert Within(path, path) && Within(raw, raw) && Within(stored, stored);
    Listed(d, path);
    Listed(d, stored);
    assert RenamePath(path, path, stored) == stored && RenamePath(path, path, raw) == raw;
    assert Elsewhere(d, path, raw);
  }

  /** A view that is fresh although the server changed the text: connections lie
      at "x" and " x" already, and "a" is renamed to " x". */
  lemma ChangedTextStaysFreshExample(a: char, x: char, c: Connection) returns (d: Document)
    requires 'a' <= a <= 'z' && 'a' <= x <= 'z' && a != x
    ensures d == Document([[a]], [c.(groupPath := [x]), c.(groupPath := [' ', x])])
    ensures AllNamed(d) && [a] in Listing(d) && Normalize([' ', x]) == [x]
    ensures Handle(d, Rename([a], [' ', x])).0 == Done && StaysFresh(d, [a], [' ', x])
  {
    d := Document([[a]], [c.(groupPath := [x]), c.(groupPath := [' ', x])]);
    TwoConnections([a], [x], [' ', x], c);
    ChangedTextStaysFresh(d, a, x);
  }

  lemma ChangedTextStaysFresh(d: Document, a: char, x: char)
    requires 'a' <= a <= 'z' && 'a' <= x <= 'z' && a != x && d.groups == [[a]]
    requires forall p :: Source(d, p) <==> p == [a] || p == [x] || p == [' ', x]
    ensures AllNamed(d) && [a] in Listing(d) && Normalize([' ', x]) == [x]
    ensures Handle(d, Rename([a], [' ', x])).0 == Done && StaysFresh(d, [a], [' ', x])
  {
    LetterIsNormal(a);
    BlankLetter(x);
    LetterIsNamed(a);
    LetterIsNamed(x);
    LetterAccepted(d, a, x);
    HandleIsRename(d, [a], [' ', x]);
    ThreeSources(d, [a], [x], [' ', x]);
  }

  lemma HandleIsRename(d: Document, path: string, raw: string)
    requires Normalize(path) == path
    ensures Handle(d, Rename(path, raw)) == RenameAt(d, path, Normalize(raw))
  {
  }

  lemma ThreeSources(d: Document, path: string, stored: string, raw: string)
    requires forall p :: Source(d, p) <==> p == path || p == stored || p == raw
    requires Named(path) && Named(stored) && Named(raw) && Depth(path) == 1
    requires Normalize(path) == path && Normalize(raw) == stored && stored != path && raw != path && raw != stored
    requires !Within(path, stored) && !Within(path, raw)
    ensures AllNamed(d) && path in Listing(d) && StaysFresh(d, path, raw)
  {
    DoubledWhen(d, path, raw);
  }

  lemma LetterAccepted(d: Document, a: char, x: char)
    requires 'a' <= a <= 'z' && 'a' <= x <= 'z' && a != x && d.groups == [[a]]
    ensures RenameAt(d, [a], [x]).0 == Done
  {
    LetterPathIsValid(a);
    LetterPathIsValid(x);
    assert !HasGroupIn([[a]], [x]);
    AcceptedRenames(d, [a], [x]);
  }

  lemma TwoConnections(g: string, p: string, q: string, c: Connection)
    requires g != "" && p != "" && q != ""
    ensures var d := Document([g], [c.(groupPath := p), c.(groupPath := q)]);
            forall x :: Source(d, x) <==> x == g || x == p || x == q
  {
    var d := Document([g], [c.(groupPath := p), c.(groupPath := q)]);
    assert d.connections[0] in d.connections && d.connections[1] in d.connections;
  }

  lemma LetterIsNamed(c: char)
    requires 'a' <= c <= 'z'
    ensures Named([c]) && Depth([c]) == 1
  {
    SplitSegment([c]);
  }

  lemma BlankLetter(c: char)
    requires 'a' <= c <= 'z'
    ensures Normalize([' ', c]) == [c] && Named([' ', c])
  {
    SplitSegment([' ', c]);
    assert [' ', c][1..] == [c];
    assert TrimSpace([c]) == [c];
    TrimSlashesKeeps([c]);
  }

  lemma OutOfParent(p: char, q: char, x: char)
    requires 'a' <= p <= 'z' && 'a' <= q <= 'z' && 'a' <= x <= 'z' && p != x
    ensures var path := [p] + "/" + [q];
            RenameAt(Document([path], []), path, [x]) == (Done, Document([[x]], []))
  {
    var path := [p] + "/" + [q];
    LetterPathIsValid(x);
    TwoLettersAreValid(p, q);
    RenameSingle(path, path, [x]);
    assert path[0] == p;
    assert !HasGroupIn([path], [x]);
    AcceptedRenames(Document([path], []), path, [x]);
  }

  lemma LettersAreNamed(d: Document)
    requires |d.groups| == 1 && ValidPath(d.groups[0]) && d.groups[0] != "" && d.connections == []
    ensures AllNamed(d)
  {
    ValidIsNamed(d.groups[0]);
  }

  lemma ListedSingle(d: Document, g: string, q: string)
    requires AllNamed(d) && d.groups == [g] && d.connections == []
    ensures q in Listing(d) <==> Within(q, g)
  {
    Listed(d, q);
    assert g in d.groups && Source(d, g);
  }

  lemma LetterIsValid(c: char)
    requires 'a' <= c <= 'z'
    ensures SegmentValidity([c]) == Valid
  {
    assert !ContainsAny([c][1..], "\\\r\n\t");
  }

  lemma LetterPathIsValid(c: char)
    requires 'a' <= c <= 'z'
    ensures ValidPath([c])
  {
    LetterIsValid(c);
    SplitSegment([c]);
    ValidWhen([c], [[c]]);
  }

  lemma TwoLettersAreValid(c: char, e: char)
    requires 'a' <= c <= 'z' && 'a' <= e <= 'z'
    ensures ValidPath([c] + "/" + [e])
  {
    LetterIsValid(c);
    LetterIsValid(e);
    SplitSegment([e]);
    SplitAtSlash([c], [e]);
    ValidWhen([c] + "/" + [e], [[c], [e]]);
  }

  /** A new path that is typed with a leading slash stays so in the view, and
      the tree built from the view stores its node under another path. */
  lemma LeadingSlashReachesTree(items: set<Item>, group: Item, raw: string)
    requires group in items && "/" <= raw
    ensures Item(group.organization, raw) in RenameItems(items, group, raw)
    ensures ConnectionTree.Walked(ConnectionTree.Names(raw)) != raw
  {
    assert RenameItem(group, group, raw) == Item(group.organization, raw);
    ConnectionTree.WalkedIsPathIff(raw);
  }

  /** Renaming "a" to "/x", or any letter to another one after a slash: the
      server stores "x", the view keeps "/x" and the tree has no such node. */
  lemma LeadingSlashExample(c: char, e: char)
    requires 'a' <= c <= 'z' && 'a' <= e <= 'z' && c != e
    ensures Handle(Document([[c]], []), Rename([c], "/" + [e])) == (Done, Document([[e]], []))
    ensures RenameItems({Item("", [c])}, Item("", [c]), "/" + [e]) == {Item("", "/" + [e])}
    ensures ConnectionTree.Walked(ConnectionTree.Names("/" + [e])) != "/" + [e]
  {
    LetterIsNormal(c);
    LetterIsNormal(e);
    LetterRename(c, e);
    OnlyItemRenamed(Item("", [c]), "/" + [e]);
    ConnectionTree.WalkedIsPathIff("/" + [e]);
  }

  lemma OnlyItemRenamed(group: Item, raw: string)
    ensures RenameItems({group}, group, raw) == {Item(group.organization, raw)}
  {
    assert RenameItem(group, group, raw) == Item(group.organization, raw);
  }

  lemma LetterIsNormal(c: char)
    requires 'a' <= c <= 'z'
    ensures Normalize([c]) == [c] && Normalize("/" + [c]) == [c]
  {
    assert TrimSpace("/" + [c]) == "/" + [c];
    assert ("/" + [c])[1..] == [c];
    assert TrimSlashes([c]) == [c];
  }

  lemma LetterRename(c: char, e: char)
    requires 'a' <= c <= 'z' && 'a' <= e <= 'z' && c != e
    ensures RenameAt(Document([[c]], []), [c], [e]) == (Done, Document([[e]], []))
  {
    LetterPathIsValid(c);
    LetterPathIsValid(e);
    RenameSingle([c], [c], [e]);
    assert !HasGroupIn([[c]], [e]);
    AcceptedRenames(Document([[c]], []), [c], [e]);
  }
}
