/** The tree the browser builds from group paths and connections
    (frontend/src/App.tsx). Nodes live in one growing list and refer to each
    other by position, as the program's nodes refer to each other by reference;
    a JavaScript Map is its list of entries in insertion order. */
module ConnectionTree {
  import opened Connections
  import opened Paths

  datatype Node = Node(name: string, path: string, children: seq<(string, nat)>, connections: seq<Connection>)

  // ------------------------------------------------------------ node paths

  /** The names a path leads through: none for the empty path. */
  function Names(path: string): seq<string> {
    if path == "" then [] else Split(path)
  }

  /** `current` after walking `names`: joined with slashes, but a slash is only
      put after something non-empty. */
  function Walked(names: seq<string>): string {
    if names == [] then ""
    else
      var before := Walked(names[..|names| - 1]);
      if before == "" then names[|names| - 1] else before + "/" + names[|names| - 1]
  }

  lemma {:induction false} WalkedIsJoin(names: seq<string>)
    requires names != [] && names[0] != ""
    ensures Walked(names) == Join(names) && Walked(names) != ""
  {
    var last := |names| - 1;
    if last > 0 {
      WalkedIsJoin(names[..last]);
      assert names == names[..last] + [names[last]];
      JoinConcat(names[..last], [names[last]]);
    }
  }

  lemma {:induction false} WalkedShortens(names: seq<string>)
    requires names != [] && names[0] == ""
    ensures |Walked(names)| < |Join(names)| || (|names| == 1 && Walked(names) == Join(names))
  {
    var last := |names| - 1;
    if last > 0 {
      WalkedShortens(names[..last]);
      assert names == names[..last] + [names[last]];
      JoinConcat(names[..last], [names[last]]);
    }
  }

  /** A node is stored under its own path exactly when the path has no leading slash. */
  lemma WalkedIsPathIff(path: string)
    ensures Walked(Names(path)) == path <==> path == "" || path[0] != '/'
  {
    if path != "" {
      JoinSplit(path);
      SlashIndexIs(path, SlashIndex(path));
      if path[0] == '/' {
        assert Split(path)[0] == "";
        WalkedShortens(Split(path));
      } else {
        WalkedIsJoin(Split(path));
      }
    }
  }

  // ------------------------------------------------------------- traversal

  ghost predicate Forward(nodes: seq<Node>) {
    forall i, k :: 0 <= i < |nodes| && 0 <= k < |nodes[i].children| ==> i < nodes[i].children[k].1 < |nodes|
  }

  /** How often a traversal from node `i` comes to node `j`. */
  ghost function Visits(nodes: seq<Node>, i: nat, j: nat): nat
    requires Forward(nodes) && i < |nodes|
    decreases |nodes| - i, |nodes[i].children| + 1
  {
    (if i == j then 1 else 0) + VisitsBelow(nodes, i, |nodes[i].children|, j)
  }

  ghost function VisitsBelow(nodes: seq<Node>, i: nat, k: nat, j: nat): nat
    requires Forward(nodes) && i < |nodes| && k <= |nodes[i].children|
    decreases |nodes| - i, k
  {
    if k == 0 then 0
    else VisitsBelow(nodes, i, k - 1, j) + Visits(nodes, nodes[i].children[k - 1].1, j)
  }

  /** How often `entry` occurs among the first `n` connections of a node,
      each under the node's path. */
  ghost function Own(node: Node, n: nat, entry: (string, Connection)): nat
    requires n <= |node.connections|
  {
    if n == 0 then 0
    else Own(node, n - 1, entry) + if (node.path, node.connections[n - 1]) == entry then 1 else 0
  }

  /** How often a traversal from node `i` comes to `entry`: a connection
      under the path of the node that holds it. */
  ghost function Shown(nodes: seq<Node>, i: nat, entry: (string, Connection)): nat
    requires Forward(nodes) && i < |nodes|
    decreases |nodes| - i, |nodes[i].children| + 1
  {
    Own(nodes[i], |nodes[i].connections|, entry) + ShownBelow(nodes, i, |nodes[i].children|, entry)
  }

  ghost function ShownBelow(nodes: seq<Node>, i: nat, k: nat, entry: (string, Connection)): nat
    requires Forward(nodes) && i < |nodes| && k <= |nodes[i].children|
    decreases |nodes| - i, k
  {
    if k == 0 then 0
    else ShownBelow(nodes, i, k - 1, entry) + Shown(nodes, nodes[i].children[k - 1].1, entry)
  }

  lemma {:induction false} OwnSame(a: Node, b: Node, n: nat, entry: (string, Connection))
    requires a.path == b.path && n <= |a.connections| && n <= |b.connections|
    requires forall k :: 0 <= k < n ==> a.connections[k] == b.connections[k]
    ensures Own(a, n, entry) == Own(b, n, entry)
  {
    if n > 0 {
      OwnSame(a, b, n - 1, entry);
    }
  }

  // ------------------------------------------------------- a leaf is added

  function WithLeaf(nodes: seq<Node>, p: nat, name: string, path: string): seq<Node>
    requires p < |nodes|
  {
    nodes[p := nodes[p].(children := nodes[p].children + [(name, |nodes|)])] + [Node(name, path, [], [])]
  }

  /** A new leaf below `p` is visited as often as `p`. */
  lemma {:induction false} LeafVisits(nodes: seq<Node>, p: nat, name: string, path: string, i: nat, j: nat)
    requires Forward(nodes) && p < |nodes| && i < |nodes| && j <= |nodes|
    requires Forward(WithLeaf(nodes, p, name, path))
    ensures Visits(WithLeaf(nodes, p, name, path), i, j) == Visits(nodes, i, if j == |nodes| then p else j)
    decreases |nodes| - i, |nodes[i].children| + 1
  {
    var after := WithLeaf(nodes, p, name, path);
    var n := |nodes[i].children|;
    LeafVisitsBelow(nodes, p, name, path, i, n, j);
    if i == p {
      assert after[i].children[n].1 == |nodes|;
      assert VisitsBelow(after, |nodes|, 0, j) == 0;
      assert Visits(after, |nodes|, j) == if j == |nodes| then 1 else 0;
    }
  }

  lemma {:induction false} LeafVisitsBelow(nodes: seq<Node>, p: nat, name: string, path: string, i: nat, k: nat, j: nat)
    requires Forward(nodes) && p < |nodes| && i < |nodes| && j <= |nodes| && k <= |nodes[i].children|
    requires Forward(WithLeaf(nodes, p, name, path))
    ensures VisitsBelow(WithLeaf(nodes, p, name, path), i, k, j)
            == VisitsBelow(nodes, i, k, if j == |nodes| then p else j)
    decreases |nodes| - i, k
  {
    if k > 0 {
      assert WithLeaf(nodes, p, name, path)[i].children[k - 1] == nodes[i].children[k - 1];
      LeafVisitsBelow(nodes, p, name, path, i, k - 1, j);
      LeafVisits(nodes, p, name, path, nodes[i].children[k - 1].1, j);
    }
  }

  lemma {:induction false} LeafShown(nodes: seq<Node>, p: nat, name: string, path: string, i: nat,
                                       entry: (string, Connection))
    requires Forward(nodes) && p < |nodes| && i < |nodes|
    requires Forward(WithLeaf(nodes, p, name, path))
    ensures Shown(WithLeaf(nodes, p, name, path), i, entry) == Shown(nodes, i, entry)
    decreases |nodes| - i, |nodes[i].children| + 1
  {
    var after := WithLeaf(nodes, p, name, path);
    var n := |nodes[i].children|;
    LeafShownBelow(nodes, p, name, path, i, n, entry);
    OwnSame(after[i], nodes[i], |nodes[i].connections|, entry);
    if i == p {
      assert after[i].children[n].1 == |nodes|;
      assert ShownBelow(after, |nodes|, 0, entry) == 0;
      assert Shown(after, |nodes|, entry) == 0;
    }
  }

  lemma {:induction false} LeafShownBelow(nodes: seq<Node>, p: nat, name: string, path: string, i: nat, k: nat,
                                            entry: (string, Connection))
    requires Forward(nodes) && p < |nodes| && i < |nodes| && k <= |nodes[i].children|
    requires Forward(WithLeaf(nodes, p, name, path))
    ensures ShownBelow(WithLeaf(nodes, p, name, path), i, k, entry) == ShownBelow(nodes, i, k, entry)
    decreases |nodes| - i, k
  {
    if k > 0 {
      assert WithLeaf(nodes, p, name, path)[i].children[k - 1] == nodes[i].children[k - 1];
      LeafShownBelow(nodes, p, name, path, i, k - 1, entry);
      LeafShown(nodes, p, name, path, nodes[i].children[k - 1].1, entry);
    }
  }

  // ------------------------------------------------ a connection is pushed

  function WithConnection(nodes: seq<Node>, p: nat, c: Connection): seq<Node>
    requires p < |nodes|
  {
    nodes[p := nodes[p].(connections := nodes[p].connections + [c])]
  }

  lemma {:induction false} PushVisits(nodes: seq<Node>, p: nat, c: Connection, i: nat, j: nat)
    requires Forward(nodes) && p < |nodes| && i < |nodes|
    requires Forward(WithConnection(nodes, p, c))
    ensures Visits(WithConnection(nodes, p, c), i, j) == Visits(nodes, i, j)
    decreases |nodes| - i, |nodes[i].children| + 1
  {
    PushVisitsBelow(nodes, p, c, i, |nodes[i].children|, j);
  }

  lemma {:induction false} PushVisitsBelow(nodes: seq<Node>, p: nat, c: Connection, i: nat, k: nat, j: nat)
    requires Forward(nodes) && p < |nodes| && i < |nodes| && k <= |nodes[i].children|
    requires Forward(WithConnection(nodes, p, c))
    ensures VisitsBelow(WithConnection(nodes, p, c), i, k, j) == VisitsBelow(nodes, i, k, j)
    decreases |nodes| - i, k
  {
    if k > 0 {
      assert WithConnection(nodes, p, c)[i].children[k - 1] == nodes[i].children[k - 1];
      PushVisitsBelow(nodes, p, c, i, k - 1, j);
      PushVisits(nodes, p, c, nodes[i].children[k - 1].1, j);
    }
  }

  function Copies(hit: bool, n: nat): nat {
    if hit then n else 0
  }

  /** A pushed connection turns up once for every visit to its node. */
  lemma {:induction false} PushShown(nodes: seq<Node>, p: nat, c: Connection, i: nat, entry: (string, Connection))
    requires Forward(nodes) && p < |nodes| && i < |nodes|
    requires Forward(WithConnection(nodes, p, c))
    ensures Shown(WithConnection(nodes, p, c), i, entry)
            == Shown(nodes, i, entry) + Copies(entry == (nodes[p].path, c), Visits(nodes, i, p))
    decreases |nodes| - i, |nodes[i].children| + 1
  {
    var after := WithConnection(nodes, p, c);
    PushShownBelow(nodes, p, c, i, |nodes[i].children|, entry);
    OwnSame(after[i], nodes[i], |nodes[i].connections|, entry);
    assert after[p].connections[|nodes[p].connections|] == c;
  }

  lemma {:induction false} PushShownBelow(nodes: seq<Node>, p: nat, c: Connection, i: nat, k: nat,
                                            entry: (string, Connection))
    requires Forward(nodes) && p < |nodes| && i < |nodes| && k <= |nodes[i].children|
    requires Forward(WithConnection(nodes, p, c))
    ensures ShownBelow(WithConnection(nodes, p, c), i, k, entry)
            == ShownBelow(nodes, i, k, entry) + Copies(entry == (nodes[p].path, c), VisitsBelow(nodes, i, k, p))
    decreases |nodes| - i, k
  {
    if k > 0 {
      assert WithConnection(nodes, p, c)[i].children[k - 1] == nodes[i].children[k - 1];
      PushShownBelow(nodes, p, c, i, k - 1, entry);
      PushShown(nodes, p, c, nodes[i].children[k - 1].1, entry);
    }
  }

  // -------------------------------------------------------------- the tree

  ghost predicate Below(parent: seq<string>, child: seq<string>) {
    |child| == |parent| + 1 && child[..|parent|] == parent
  }

  ghost predicate AllDistinct(segments: seq<seq<string>>) {
    forall i, j :: 0 <= i < j < |segments| ==> segments[i] != segments[j]
  }

  /** A node carries the path and the last of the names that lead to it. */
  ghost predicate NamedBy(node: Node, names: seq<string>) {
    node.path == Walked(names) && (names != [] ==> node.name == names[|names| - 1])
  }

  ghost predicate PathsWalked(nodes: seq<Node>, segments: seq<seq<string>>) {
    |nodes| == |segments| && forall i :: 0 <= i < |nodes| ==> NamedBy(nodes[i], segments[i])
  }

  /** Every child entry leads to the node one name further. */
  ghost predicate EdgesSound(nodes: seq<Node>, segments: seq<seq<string>>)
    requires Forward(nodes) && |nodes| == |segments|
  {
    forall i, k :: 0 <= i < |nodes| && 0 <= k < |nodes[i].children| ==>
      segments[nodes[i].children[k].1] == segments[i] + [nodes[i].children[k].0]
  }

  /** Every node one name further has a child entry. */
  ghost predicate EdgesComplete(nodes: seq<Node>, segments: seq<seq<string>>)
    requires |nodes| == |segments|
  {
    forall i, c :: 0 <= i < |nodes| && 0 <= c < |nodes| && Below(segments[i], segments[c]) ==>
      (segments[c][|segments[i]|], c) in nodes[i].children
  }

  ghost predicate VisitedOnce(nodes: seq<Node>)
    requires Forward(nodes) && |nodes| > 0
  {
    forall j: nat :: j < |nodes| ==> Visits(nodes, 0, j) == 1
  }

  /** A tree: `segments[i]` are the names that lead from the root to node `i`. */
  ghost predicate Tree(nodes: seq<Node>, segments: seq<seq<string>>) {
    && |segments| > 0 && segments[0] == []
    && PathsWalked(nodes, segments)
    && Forward(nodes)
    && AllDistinct(segments)
    && EdgesSound(nodes, segments)
    && EdgesComplete(nodes, segments)
    && VisitedOnce(nodes)
  }

  /** Every node but the root is a child of some node. */
  lemma NodeAbove(nodes: seq<Node>, segments: seq<seq<string>>, c: nat)
    requires Tree(nodes, segments) && c < |nodes| && segments[c] != []
    ensures exists d :: 0 <= d < |nodes| && Below(segments[d], segments[c])
  {
    assert Visits(nodes, 0, c) == 1;
    var i, k := SomeParent(nodes, 0, c);
    assert segments[c] == segments[i] + [nodes[i].children[k].0];
    assert Below(segments[i], segments[c]);
  }

  lemma {:induction false} SomeParent(nodes: seq<Node>, r: nat, c: nat) returns (i: nat, k: nat)
    requires Forward(nodes) && r < |nodes| && c != r && Visits(nodes, r, c) > 0
    ensures i < |nodes| && k < |nodes[i].children| && nodes[i].children[k].1 == c
    decreases |nodes| - r, |nodes[r].children| + 1
  {
    i, k := SomeParentBelow(nodes, r, |nodes[r].children|, c);
  }

  lemma {:induction false} SomeParentBelow(nodes: seq<Node>, r: nat, n: nat, c: nat) returns (i: nat, k: nat)
    requires Forward(nodes) && r < |nodes| && n <= |nodes[r].children| && VisitsBelow(nodes, r, n, c) > 0
    ensures i < |nodes| && k < |nodes[i].children| && nodes[i].children[k].1 == c
    decreases |nodes| - r, n
  {
    if nodes[r].children[n - 1].1 == c {
      i, k := r, n - 1;
    } else if Visits(nodes, nodes[r].children[n - 1].1, c) > 0 {
      i, k := SomeParent(nodes, nodes[r].children[n - 1].1, c);
    } else {
      i, k := SomeParentBelow(nodes, r, n - 1, c);
    }
  }

  lemma EntryFor(nodes: seq<Node>, segments: seq<seq<string>>, p: nat, name: string, c: nat)
    requires Tree(nodes, segments) && p < |nodes| && c < |nodes| && segments[c] == segments[p] + [name]
    ensures (name, c) in nodes[p].children
  {
    assert segments[c][..|segments[p]|] == segments[p] && segments[c][|segments[p]|] == name;
    assert Below(segments[p], segments[c]);
  }

  lemma LeafIsNew(nodes: seq<Node>, segments: seq<seq<string>>, p: nat, name: string)
    requires Tree(nodes, segments) && p < |nodes|
    requires forall c :: (name, c) !in nodes[p].children
    ensures segments[p] + [name] !in segments
  {
    if segments[p] + [name] in segments {
      var c :| 0 <= c < |segments| && segments[c] == segments[p] + [name];
      EntryFor(nodes, segments, p, name, c);
    }
  }

  /** No node lies below a missing one. */
  lemma NothingBelowNew(nodes: seq<Node>, segments: seq<seq<string>>, leaf: seq<string>, c: nat)
    requires Tree(nodes, segments) && leaf !in segments && c < |nodes|
    ensures !Below(leaf, segments[c])
  {
    if segments[c] != [] {
      NodeAbove(nodes, segments, c);
      var d :| 0 <= d < |nodes| && Below(segments[d], segments[c]);
      assert segments[d] in segments;
    }
  }

  lemma LeafEdges(nodes: seq<Node>, segments: seq<seq<string>>, p: nat, name: string, path: string)
    requires Tree(nodes, segments) && p < |nodes| && segments[p] + [name] !in segments
    requires Forward(WithLeaf(nodes, p, name, path))
    ensures EdgesSound(WithLeaf(nodes, p, name, path), segments + [segments[p] + [name]])
    ensures EdgesComplete(WithLeaf(nodes, p, name, path), segments + [segments[p] + [name]])
  {
    LeafEdgesSound(nodes, segments, p, name, path);
    LeafEdgesComplete(nodes, segments, p, name, path);
  }

  lemma LeafEdgesSound(nodes: seq<Node>, segments: seq<seq<string>>, p: nat, name: string, path: string)
    requires Forward(nodes) && |nodes| == |segments| && EdgesSound(nodes, segments) && p < |nodes|
    requires Forward(WithLeaf(nodes, p, name, path))
    ensures EdgesSound(WithLeaf(nodes, p, name, path), segments + [segments[p] + [name]])
  {
    var after, leaf := WithLeaf(nodes, p, name, path), segments[p] + [name];
    var named := segments + [leaf];
    forall i, k | 0 <= i < |after| && 0 <= k < |after[i].children|
      ensures named[after[i].children[k].1] == named[i] + [after[i].children[k].0]
    {
      assert i < |nodes|;
      assert k < |nodes[i].children| ==> after[i].children[k] == nodes[i].children[k];
    }
  }

  lemma LeafEdgesComplete(nodes: seq<Node>, segments: seq<seq<string>>, p: nat, name: string, path: string)
    requires Tree(nodes, segments) && p < |nodes| && segments[p] + [name] !in segments
    ensures EdgesComplete(WithLeaf(nodes, p, name, path), segments + [segments[p] + [name]])
  {
    var after, leaf := WithLeaf(nodes, p, name, path), segments[p] + [name];
    var named := segments + [leaf];
    forall i, c | 0 <= i < |after| && 0 <= c < |after| && Below(named[i], named[c])
      ensures (named[c][|named[i]|], c) in after[i].children
    {
      if i == |nodes| {
        if c < |nodes| {
          NothingBelowNew(nodes, segments, leaf, c);
        }
        assert false;
      }
      if c == |nodes| {
        assert segments[i] == leaf[..|segments[i]|] == segments[p];
        assert after[p].children[|nodes[p].children|] == (name, |nodes|);
      } else {
        assert (segments[c][|segments[i]|], c) in nodes[i].children;
        assert nodes[i].children <= after[i].children;
      }
    }
  }

  lemma LeafForward(nodes: seq<Node>, p: nat, name: string, path: string)
    requires Forward(nodes) && p < |nodes|
    ensures Forward(WithLeaf(nodes, p, name, path))
  {
    var after := WithLeaf(nodes, p, name, path);
    forall i, k | 0 <= i < |after| && 0 <= k < |after[i].children|
      ensures i < after[i].children[k].1 < |after|
    {
      assert i < |nodes|;
      assert k < |nodes[i].children| ==> after[i].children[k] == nodes[i].children[k];
    }
  }

  lemma LeafVisitedOnce(nodes: seq<Node>, p: nat, name: string, path: string)
    requires Forward(nodes) && p < |nodes| && VisitedOnce(nodes)
    requires Forward(WithLeaf(nodes, p, name, path))
    ensures VisitedOnce(WithLeaf(nodes, p, name, path))
  {
    var after := WithLeaf(nodes, p, name, path);
    forall j: nat | j < |after| ensures Visits(after, 0, j) == 1 {
      LeafVisits(nodes, p, name, path, 0, j);
    }
  }

  lemma LeafPaths(nodes: seq<Node>, segments: seq<seq<string>>, p: nat, name: string, leaf: seq<string>)
    requires PathsWalked(nodes, segments) && p < |nodes| && leaf != [] && leaf[|leaf| - 1] == name
    ensures PathsWalked(WithLeaf(nodes, p, name, Walked(leaf)), segments + [leaf])
  {
    var after, named := WithLeaf(nodes, p, name, Walked(leaf)), segments + [leaf];
    forall i | 0 <= i < |after| ensures NamedBy(after[i], named[i]) {
      if i < |nodes| {
        assert NamedBy(nodes[i], segments[i]);
      }
    }
  }

  lemma DistinctOneMore(segments: seq<seq<string>>, leaf: seq<string>)
    requires AllDistinct(segments) && leaf !in segments
    ensures AllDistinct(segments + [leaf])
  {
    forall i | 0 <= i < |segments| ensures segments[i] != leaf {
      assert segments[i] in segments;
    }
  }

  lemma LeafSameShown(nodes: seq<Node>, p: nat, name: string, path: string)
    requires Forward(nodes) && p < |nodes| && Forward(WithLeaf(nodes, p, name, path))
    ensures SameShown(nodes, WithLeaf(nodes, p, name, path))
  {
    forall entry ensures Shown(WithLeaf(nodes, p, name, path), 0, entry) == Shown(nodes, 0, entry) {
      LeafShown(nodes, p, name, path, 0, entry);
    }
  }

  lemma LeafKeepsTree(nodes: seq<Node>, segments: seq<seq<string>>, p: nat, name: string)
    requires Tree(nodes, segments) && p < |nodes|
    requires forall c :: (name, c) !in nodes[p].children
    ensures Tree(WithLeaf(nodes, p, name, Walked(segments[p] + [name])), segments + [segments[p] + [name]])
    ensures SameShown(nodes, WithLeaf(nodes, p, name, Walked(segments[p] + [name])))
  {
    var path := Walked(segments[p] + [name]);
    LeafForward(nodes, p, name, path);
    LeafIsNew(nodes, segments, p, name);
    LeafEdges(nodes, segments, p, name, path);
    LeafPaths(nodes, segments, p, name, segments[p] + [name]);
    DistinctOneMore(segments, segments[p] + [name]);
    LeafVisitedOnce(nodes, p, name, path);
    LeafSameShown(nodes, p, name, path);
  }

  ghost predicate SameShown(before: seq<Node>, after: seq<Node>) {
    && Forward(before) && Forward(after) && |before| > 0 && |after| > 0
    && forall entry :: Shown(after, 0, entry) == Shown(before, 0, entry)
  }

  /** The traversal shows one more copy of `extra`, and otherwise the same. */
  ghost predicate OneMoreShown(before: seq<Node>, after: seq<Node>, extra: (string, Connection)) {
    && Forward(before) && Forward(after) && |before| > 0 && |after| > 0
    && forall entry :: Shown(after, 0, entry) == Shown(before, 0, entry) + Copies(entry == extra, 1)
  }

  lemma PushKeepsTree(nodes: seq<Node>, segments: seq<seq<string>>, p: nat, c: Connection)
    requires Tree(nodes, segments) && p < |nodes|
    ensures Tree(WithConnection(nodes, p, c), segments)
    ensures OneMoreShown(nodes, WithConnection(nodes, p, c), (Walked(segments[p]), c))
  {
    var after := WithConnection(nodes, p, c);
    assert forall i :: 0 <= i < |nodes| ==> after[i].children == nodes[i].children && after[i].path == nodes[i].path;
    assert Forward(after);
    forall j: nat | j < |after| ensures Visits(after, 0, j) == 1 {
      PushVisits(nodes, p, c, 0, j);
    }
    forall entry
      ensures Shown(after, 0, entry) == Shown(nodes, 0, entry) + Copies(entry == (Walked(segments[p]), c), 1)
    {
      PushShown(nodes, p, c, 0, entry);
      assert Visits(nodes, 0, p) == 1;
    }
  }

  // -------------------------------------------------------------- building

  ghost predicate Leads(s: seq<string>, names: seq<string>) {
    s <= names
  }

  ghost predicate GrownBy(before: seq<seq<string>>, after: seq<seq<string>>, names: seq<string>) {
    forall s :: s in after <==> s in before || Leads(s, names)
  }

  lemma GrowOne(before: seq<seq<string>>, middle: seq<seq<string>>, after: seq<seq<string>>, names: seq<string>, i: nat)
    requires i < |names| && GrownBy(before, middle, names[..i])
    requires forall s :: s in after <==> s in middle || s == names[..i + 1]
    ensures GrownBy(before, after, names[..i + 1])
  {
    forall s ensures Leads(s, names[..i + 1]) <==> Leads(s, names[..i]) || s == names[..i + 1] {
      if Leads(s, names[..i + 1]) && s != names[..i + 1] {
        assert s == names[..i + 1][..|s|] == names[..|s|];
      }
    }
  }

  /** Map.get by key; -1 when the key is missing. */
  method Lookup(children: seq<(string, nat)>, name: string) returns (found: int)
    ensures found >= 0 ==> (name, found) in children
    ensures found < 0 ==> forall c :: (name, c) !in children
  {
    for k := 0 to |children|
      invariant forall c :: (name, c) !in children[..k]
    {
      if children[k].0 == name {
        return children[k].1;
      }
    }
    return -1;
  }

  /** A child entry leads to the node one name further. */
  lemma ChildFound(nodes: seq<Node>, segments: seq<seq<string>>, node: nat, name: string, found: int)
    requires Tree(nodes, segments) && node < |nodes| && (name, found) in nodes[node].children
    ensures 0 <= found < |nodes| && segments[found] == segments[node] + [name]
    ensures segments[node] + [name] in segments
  {
    var k :| 0 <= k < |nodes[node].children| && nodes[node].children[k] == (name, found);
    assert segments[found] in segments;
  }

  /** One more name on the way. */
  lemma WalkedOneMore(names: seq<string>, i: nat)
    requires i < |names|
    ensures names[..i + 1] == names[..i] + [names[i]]
    ensures Walked(names[..i + 1])
            == if Walked(names[..i]) != "" then Walked(names[..i]) + "/" + names[i] else names[i]
  {
    assert names[..i + 1][..i] == names[..i];
  }

  class Builder {
    var nodes: seq<Node>
    ghost var segments: seq<seq<string>>

    ghost predicate Valid()
      reads this
    {
      Tree(nodes, segments)
    }

    constructor (title: string)
      ensures Valid() && segments == [[]] && nodes[0].name == title
      ensures forall entry :: Shown(nodes, 0, entry) == 0
    {
      nodes := [Node(title, "", [], [])];
      segments := [[]];
      new;
      assert VisitsBelow(nodes, 0, 0, 0) == 0;
      forall entry ensures Shown(nodes, 0, entry) == 0 {
        assert ShownBelow(nodes, 0, 0, entry) == 0 && Own(nodes[0], 0, entry) == 0;
      }
    }

    /** node.children.get(name), put there first when it is missing. */
    method Child(node: nat, name: string, current: string) returns (child: nat)
      requires Valid() && node < |nodes| && current == Walked(segments[node] + [name])
      modifies this
      ensures Valid() && child < |nodes| && segments[child] == old(segments)[node] + [name]
      ensures nodes[0].name == old(nodes[0].name)
      ensures SameShown(old(nodes), nodes)
      ensures forall s :: s in segments <==> s in old(segments) || s == old(segments)[node] + [name]
    {
      var found := Lookup(nodes[node].children, name);
      if found < 0 {
        LeafKeepsTree(nodes, segments, node, name);
        child := |nodes|;
        segments := segments + [segments[node] + [name]];
        nodes := WithLeaf(nodes, node, name, current);
      } else {
        ChildFound(nodes, segments, node, name, found);
        child := found;
      }
    }

    method Ensure(path: string) returns (node: nat)
      requires Valid()
      modifies this
      ensures Valid() && node < |nodes| && segments[node] == Names(path) && nodes[0].name == old(nodes[0].name)
      ensures SameShown(old(nodes), nodes)
      ensures GrownBy(old(segments), segments, Names(path))
    {
      node := 0;
      var current := "";
      var names := if path == "" then [] else Split(path);
      assert names[..0] == [] && segments[0] in segments;
      for i := 0 to |names|
        invariant Valid() && node < |nodes| && segments[node] == names[..i] && nodes[0].name == old(nodes[0].name)
        invariant current == Walked(names[..i])
        invariant SameShown(old(nodes), nodes)
        invariant GrownBy(old(segments), segments, names[..i])
      {
        WalkedOneMore(names, i);
        current := if current != "" then current + "/" + names[i] else names[i];
        ghost var middle := segments;
        node := Child(node, names[i], current);
        GrowOne(old(segments), middle, segments, names, i);
      }
      assert names[..|names|] == names;
    }

    method Add(connection: Connection)
      requires Valid()
      modifies this
      ensures Valid() && nodes[0].name == old(nodes[0].name)
      ensures OneMoreShown(old(nodes), nodes, (Walked(Names(connection.groupPath)), connection))
      ensures GrownBy(old(segments), segments, Names(connection.groupPath))
    {
      var node := Ensure(connection.groupPath);
      PushKeepsTree(nodes, segments, node, connection);
      nodes := WithConnection(nodes, node, connection);
    }
  }

  ghost function Labelled(connections: seq<Connection>): seq<(string, Connection)> {
    if connections == [] then []
    else
      var last := connections[|connections| - 1];
      Labelled(connections[..|connections| - 1]) + [(Walked(Names(last.groupPath)), last)]
  }

  /** The name lists that lead into one of the given group or connection paths. */
  ghost predicate LeadsIntoOne(s: seq<string>, groups: seq<string>, connections: seq<Connection>) {
    s == [] || (exists g :: g in groups && Leads(s, Names(g)))
    || exists c :: c in connections && Leads(s, Names(c.groupPath))
  }

  lemma LeadsOneMore(s: seq<string>, groups: seq<string>, connections: seq<Connection>, i: nat)
    requires i < |connections|
    ensures LeadsIntoOne(s, groups, connections[..i + 1])
            <==> LeadsIntoOne(s, groups, connections[..i]) || Leads(s, Names(connections[i].groupPath))
  {
    assert connections[..i + 1] == connections[..i] + [connections[i]];
  }

  lemma LeadsOneMoreGroup(s: seq<string>, groups: seq<string>, i: nat)
    requires i < |groups|
    ensures LeadsIntoOne(s, groups[..i + 1], []) <==> LeadsIntoOne(s, groups[..i], []) || Leads(s, Names(groups[i]))
  {
    assert groups[..i + 1] == groups[..i] + [groups[i]];
  }

  method EnsureAll(tree: Builder, groups: seq<string>)
    requires tree.Valid() && tree.segments == [[]]
    modifies tree
    ensures tree.Valid() && SameShown(old(tree.nodes), tree.nodes)
    ensures tree.nodes[0].name == old(tree.nodes[0].name)
    ensures forall s :: s in tree.segments <==> LeadsIntoOne(s, groups, [])
  {
    for i := 0 to |groups|
      invariant tree.Valid() && SameShown(old(tree.nodes), tree.nodes)
      invariant tree.nodes[0].name == old(tree.nodes[0].name)
      invariant forall s :: s in tree.segments <==> LeadsIntoOne(s, groups[..i], [])
    {
      forall s ensures LeadsIntoOne(s, groups[..i + 1], [])
                       <==> LeadsIntoOne(s, groups[..i], []) || Leads(s, Names(groups[i]))
      {
        LeadsOneMoreGroup(s, groups, i);
      }
      var _ := tree.Ensure(groups[i]);
    }
    assert groups[..|groups|] == groups;
  }

  /** The whole tree: one node for each distinct run of leading names, and a
      traversal that shows every connection exactly once under its path. */
  method Build(title: string, groups: seq<string>, connections: seq<Connection>) returns (tree: Builder)
    ensures tree.Valid() && tree.nodes[0].name == title
    ensures forall s :: s in tree.segments <==> LeadsIntoOne(s, groups, connections)
    ensures forall entry :: Shown(tree.nodes, 0, entry) == multiset(Labelled(connections))[entry]
  {
    tree := new Builder(title);
    EnsureAll(tree, groups);
    assert connections[..0] == [];
    for i := 0 to |connections|
      invariant fresh(tree) && tree.Valid() && tree.nodes[0].name == title
      invariant forall s :: s in tree.segments <==> LeadsIntoOne(s, groups, connections[..i])
      invariant forall entry :: Shown(tree.nodes, 0, entry) == multiset(Labelled(connections[..i]))[entry]
    {
      assert connections[..i + 1][..i] == connections[..i];
      forall s ensures LeadsIntoOne(s, groups, connections[..i + 1])
                       <==> LeadsIntoOne(s, groups, connections[..i]) || Leads(s, Names(connections[i].groupPath))
      {
        LeadsOneMore(s, groups, connections, i);
      }
      tree.Add(connections[i]);
    }
    assert connections[..|connections|] == connections;
  }
}
