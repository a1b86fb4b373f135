/** Slash-separated paths: strings.Split(path, "/") and strings.Join(parts, "/"),
    and what the prefix tests on strings mean for the lists of segments. */
module Paths {

  /** The place of the first slash, or the length when there is none. */
  function SlashIndex(s: string): (i: nat)
    ensures i <= |s| && (i < |s| ==> s[i] == '/')
    ensures forall k :: 0 <= k < i ==> s[k] != '/'
  {
    if s == "" || s[0] == '/' then 0 else 1 + SlashIndex(s[1..])
  }

  lemma SlashIndexIs(s: string, i: nat)
    requires i <= |s| && (i < |s| ==> s[i] == '/')
    requires forall k :: 0 <= k < i ==> s[k] != '/'
    ensures SlashIndex(s) == i
  {
  }

  /** Segments are slash-free; a list of them is what Split can return. */
  ghost predicate Segments(parts: seq<string>) {
    forall part :: part in parts ==> '/' !in part
  }

  function Split(s: string): (parts: seq<string>)
    ensures |parts| >= 1
    ensures Segments(parts)
    decreases |s|
  {
    var i := SlashIndex(s);
    if i == |s| then [s] else [s[..i]] + Split(s[i + 1..])
  }

  function Join(parts: seq<string>): string
    requires parts != []
  {
    if |parts| == 1 then parts[0] else parts[0] + "/" + Join(parts[1..])
  }

  lemma SplitAtSlash(head: string, tail: string)
    requires '/' !in head
    ensures Split(head + "/" + tail) == [head] + Split(tail)
  {
    var s := head + "/" + tail;
    assert forall k :: 0 <= k < |head| ==> s[k] == head[k] && head[k] in head;
    SlashIndexIs(s, |head|);
    assert s[..|head|] == head && s[|head| + 1..] == tail;
  }

  lemma CutAtSlash(s: string) returns (head: string, tail: string)
    requires '/' in s
    ensures '/' !in head && s == head + "/" + tail && |tail| < |s|
  {
    var i := SlashIndex(s);
    head, tail := s[..i], s[i + 1..];
  }

  lemma Reassociate<T>(a: seq<T>, b: seq<T>, c: seq<T>)
    ensures (a + b) + c == a + (b + c)
  {
  }

  lemma {:induction false} SplitConcat(a: string, b: string)
    ensures Split(a + "/" + b) == Split(a) + Split(b)
    decreases |a|
  {
    if '/' !in a {
      SplitAtSlash(a, b);
      SplitSegment(a);
    } else {
      var head, rest := CutAtSlash(a);
      SplitConcat(rest, b);
      SplitAtSlash(head, rest);
      SplitAtSlash(head, rest + "/" + b);
      Reassociate(head + "/", rest, "/" + b);
      Reassociate(head + "/" + rest, "/", b);
      Reassociate(rest, "/", b);
      Reassociate([head], Split(rest), Split(b));
    }
  }

  lemma SplitSegment(part: string)
    requires '/' !in part
    ensures Split(part) == [part]
  {
    assert forall k :: 0 <= k < |part| ==> part[k] in part;
    SlashIndexIs(part, |part|);
  }

  lemma JoinOneMore(head: string, rest: seq<string>)
    requires rest != []
    ensures Join([head] + rest) == head + "/" + Join(rest)
  {
    assert ([head] + rest)[1..] == rest;
  }

  lemma {:induction false} JoinSplit(s: string)
    ensures Join(Split(s)) == s
    decreases |s|
  {
    if '/' !in s {
      SplitSegment(s);
    } else {
      var head, tail := CutAtSlash(s);
      SplitAtSlash(head, tail);
      JoinOneMore(head, Split(tail));
      JoinSplit(tail);
    }
  }

  lemma SplitInjective(s: string, t: string)
    requires Split(s) == Split(t)
    ensures s == t
  {
    JoinSplit(s);
    JoinSplit(t);
  }

  lemma {:induction false} SplitJoin(parts: seq<string>)
    requires parts != [] && Segments(parts)
    ensures Split(Join(parts)) == parts
  {
    assert parts[0] in parts;
    SplitSegment(parts[0]);
    if |parts| > 1 {
      assert Segments(parts[1..]);
      SplitJoin(parts[1..]);
      SplitConcat(parts[0], Join(parts[1..]));
    }
  }

  lemma {:induction false} JoinConcat(a: seq<string>, b: seq<string>)
    requires a != [] && b != []
    ensures Join(a + b) == Join(a) + "/" + Join(b)
  {
    if |a| == 1 {
      assert (a + b)[1..] == b;
    } else {
      assert (a + b)[1..] == a[1..] + b;
      JoinConcat(a[1..], b);
    }
  }

  /** ConnectionGroupContains' two tests on strings: equal, or below `parent`. */
  predicate Within(parent: string, path: string) {
    path == parent || parent + "/" <= path
  }

  lemma WithinLeads(parent: string, path: string)
    requires Within(parent, path)
    ensures Split(parent) <= Split(path)
  {
    if path != parent {
      var rest := path[|parent| + 1..];
      assert path == parent + "/" + rest;
      SplitConcat(parent, rest);
    }
  }

  lemma LeadsWithin(parent: string, path: string)
    requires Split(parent) <= Split(path)
    ensures Within(parent, path)
  {
    var tail := Split(path)[|Split(parent)|..];
    assert Split(path) == Split(parent) + tail;
    if tail == [] {
      SplitInjective(parent, path);
    } else {
      JoinConcat(Split(parent), tail);
      JoinSplit(parent);
      JoinSplit(path);
    }
  }

  /** The string tests hold exactly when the segments of `parent` lead those of `path`. */
  lemma WithinIsSegmentPrefix(parent: string, path: string)
    ensures Within(parent, path) <==> Split(parent) <= Split(path)
  {
    if Within(parent, path) {
      WithinLeads(parent, path);
    }
    if Split(parent) <= Split(path) {
      LeadsWithin(parent, path);
    }
  }
}
