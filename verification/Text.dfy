/** Text order, sorting and trimming as the Go standard library defines them.
    A string is a sequence of code points: Go compares UTF-8 bytes, and UTF-8
    keeps the order of code points. */
module Text {

  predicate Less(a: string, b: string) {
    |b| > 0 && (|a| == 0 || a[0] < b[0] || (a[0] == b[0] && Less(a[1..], b[1..])))
  }

  lemma {:induction false} LessIrreflexive(a: string)
    ensures !Less(a, a)
  {
    if a != "" {
      LessIrreflexive(a[1..]);
    }
  }

  lemma {:induction false} LessTransitive(a: string, b: string, c: string)
    requires Less(a, b) && Less(b, c)
    ensures Less(a, c)
  {
    if a != "" && a[0] == b[0] && b[0] == c[0] {
      LessTransitive(a[1..], b[1..], c[1..]);
    }
  }

  lemma {:induction false} LessTotal(a: string, b: string)
    ensures Less(a, b) || a == b || Less(b, a)
  {
    if a != "" && b != "" && a[0] == b[0] {
      LessTotal(a[1..], b[1..]);
      assert a == [a[0]] + a[1..] && b == [b[0]] + b[1..];
    }
  }

  lemma LessAsymmetric(a: string, b: string)
    requires Less(a, b)
    ensures !Less(b, a)
  {
    if Less(b, a) {
      LessTransitive(a, b, a);
      LessIrreflexive(a);
    }
  }

  lemma {:induction false} ProperPrefixLess(a: string, b: string)
    requires a < b
    ensures Less(a, b)
  {
    if a != "" {
      ProperPrefixLess(a[1..], b[1..]);
    }
  }

  ghost predicate Ascending(s: seq<string>) {
    forall i, j :: 0 <= i < j < |s| ==> Less(s[i], s[j])
  }

  lemma HeadIsMember<T>(s: seq<T>)
    ensures s == [] || s[0] in s
  {
  }

  /** Ascending lists with the same members are the same list. */
  lemma {:induction false} AscendingUnique(s: seq<string>, t: seq<string>)
    requires Ascending(s) && Ascending(t)
    requires forall x :: x in s <==> x in t
    ensures s == t
  {
    if s == [] {
      HeadIsMember(t);
    } else {
      assert s[0] in t;
      var i :| 0 <= i < |t| && t[i] == s[0];
      assert t[0] in s;
      var j :| 0 <= j < |s| && s[j] == t[0];
      if i > 0 && j > 0 {
        LessAsymmetric(t[0], t[i]);
      }
      assert s[0] == t[0];
      forall x ensures x in s[1..] <==> x in t[1..] {
        LessIrreflexive(s[0]);
        assert x in s[1..] ==> x in s && x != s[0];
        assert x in t[1..] ==> x in t && x != t[0];
      }
      AscendingUnique(s[1..], t[1..]);
    }
  }

  /** The place of `x` in an ascending list. */
  function Insert(s: seq<string>, x: string): (r: seq<string>)
    ensures forall y :: y in r <==> y == x || y in s
    ensures |r| == |s| + 1
  {
    if s == [] || !Less(s[0], x) then [x] + s else [s[0]] + Insert(s[1..], x)
  }

  /** sort.Strings. */
  function Sort(s: seq<string>): (r: seq<string>)
    ensures |r| == |s|
  {
    if s == [] then [] else Insert(Sort(s[1..]), s[0])
  }

  lemma {:induction false} InsertAscending(s: seq<string>, x: string)
    requires Ascending(s) && x !in s
    ensures Ascending(Insert(s, x))
  {
    if s == [] {
    } else if Less(s[0], x) {
      InsertAscending(s[1..], x);
      var r := Insert(s[1..], x);
      forall j | 0 <= j < |r| ensures Less(s[0], r[j]) {
        assert r[j] in r;
        assert r[j] == x || r[j] in s[1..];
      }
    } else {
      LessTotal(s[0], x);
      forall j | 0 <= j < |s| ensures Less(x, s[j]) {
        if j > 0 {
          LessTransitive(x, s[0], s[j]);
        }
      }
    }
  }

  ghost predicate Distinct<T>(s: seq<T>) {
    forall i, j :: 0 <= i < j < |s| ==> s[i] != s[j]
  }

  lemma {:induction false} SortMembers(s: seq<string>)
    ensures forall x :: x in Sort(s) <==> x in s
  {
    if s != [] {
      SortMembers(s[1..]);
      assert s == [s[0]] + s[1..];
    }
  }

  lemma {:induction false} SortAscending(s: seq<string>)
    requires Distinct(s)
    ensures Ascending(Sort(s))
  {
    if s != [] {
      SortAscending(s[1..]);
      SortMembers(s[1..]);
      InsertAscending(Sort(s[1..]), s[0]);
    }
  }

  /** The members of a set in ascending order. */
  ghost function InAscending(names: set<string>): (s: seq<string>)
    ensures Ascending(s) && forall x :: x in s <==> x in names
  {
    if names == {} then []
    else
      var x :| x in names;
      var before := InAscending(names - {x});
      InsertAscending(before, x);
      Insert(before, x)
  }

  /** Names in ascending order: collect, then sort.Strings. */
  method SortedNames(names: set<string>) returns (sorted: seq<string>)
    ensures sorted == InAscending(names)
    ensures Ascending(sorted) && forall x :: x in sorted <==> x in names
  {
    sorted := [];
    var left := names;
    while left != {}
      invariant left <= names && Ascending(sorted)
      invariant forall x :: x in sorted <==> x in names - left
      decreases |left|
    {
      var x :| x in left;
      InsertAscending(sorted, x);
      sorted := Insert(sorted, x);
      left := left - {x};
    }
    AscendingUnique(sorted, InAscending(names));
  }

  /** The number a string of digits denotes. */
  function Value(digits: string): int {
    if digits == "" then 0 else 10 * Value(digits[..|digits| - 1]) + (digits[|digits| - 1] as int - '0' as int)
  }

  /** unicode.IsSpace. */
  predicate IsSpace(c: char) {
    '\U{0009}' <= c <= '\U{000D}' || c == ' ' || c == '\U{0085}' || c == '\U{00A0}' || c == '\U{1680}'
    || '\U{2000}' <= c <= '\U{200A}' || c == '\U{2028}' || c == '\U{2029}' || c == '\U{202F}'
    || c == '\U{205F}' || c == '\U{3000}'
  }

  function Drop(s: string, n: nat): string
    requires n <= |s|
  {
    if n == 0 then s else Drop(s[1..], n - 1)
  }

  lemma {:induction false} DropIsSlice(s: string, n: nat)
    requires n <= |s|
    ensures Drop(s, n) == s[n..]
  {
    if n > 0 {
      DropIsSlice(s[1..], n - 1);
    }
  }

  /** strings.TrimPrefix. */
  function TrimPrefix(s: string, prefix: string): (r: string)
    ensures !(prefix <= s) ==> r == s
  {
    if prefix <= s then Drop(s, |prefix|) else s
  }

  lemma TrimPrefixConcat(prefix: string, rest: string)
    ensures TrimPrefix(prefix + rest, prefix) == rest
  {
    DropIsSlice(prefix + rest, |prefix|);
  }

  lemma TrimPrefixRest(s: string, prefix: string)
    requires prefix <= s
    ensures prefix + TrimPrefix(s, prefix) == s
  {
    DropIsSlice(s, |prefix|);
  }

  /** strings.TrimSpace. */
  function TrimSpace(s: string): (r: string)
    ensures r == "" || (!IsSpace(r[0]) && !IsSpace(r[|r| - 1]))
  {
    if s == "" then s
    else if IsSpace(s[0]) then TrimSpace(s[1..])
    else if IsSpace(s[|s| - 1]) then TrimSpace(s[..|s| - 1])
    else s
  }

  predicate Blank(s: string) {
    forall c :: c in s ==> IsSpace(c)
  }

  lemma BlankOneMore(s: string, c: char)
    requires Blank(s) && IsSpace(c)
    ensures Blank([c] + s) && Blank(s + [c])
  {
  }

  lemma FrontPutBack(s: string, left: string, middle: string, right: string)
    requires s != "" && s[1..] == left + middle + right
    ensures s == [s[0]] + left + middle + right
  {
    assert s == [s[0]] + s[1..];
  }

  lemma EndPutBack(s: string, left: string, middle: string, right: string)
    requires s != "" && s[..|s| - 1] == left + middle + right
    ensures s == left + middle + (right + [s[|s| - 1]])
  {
    assert s == s[..|s| - 1] + [s[|s| - 1]];
  }

  /** TrimSpace takes blanks off both ends. */
  lemma {:induction false} TrimSpaceCuts(s: string) returns (left: string, right: string)
    ensures s == left + TrimSpace(s) + right && Blank(left) && Blank(right)
  {
    left, right := "", "";
    if s == "" {
    } else if IsSpace(s[0]) {
      left, right := TrimSpaceCuts(s[1..]);
      BlankOneMore(left, s[0]);
      FrontPutBack(s, left, TrimSpace(s), right);
      left := [s[0]] + left;
    } else if IsSpace(s[|s| - 1]) {
      left, right := TrimSpaceCuts(s[..|s| - 1]);
      BlankOneMore(right, s[|s| - 1]);
      EndPutBack(s, left, TrimSpace(s), right);
      right := right + [s[|s| - 1]];
    }
  }

  /** strings.Trim(s, "/"). */
  function TrimSlashes(s: string): (r: string)
    ensures r == "" || (r[0] != '/' && r[|r| - 1] != '/')
  {
    if s == "" then s
    else if s[0] == '/' then TrimSlashes(s[1..])
    else if s[|s| - 1] == '/' then TrimSlashes(s[..|s| - 1])
    else s
  }

  predicate AllSlashes(s: string) {
    forall c :: c in s ==> c == '/'
  }

  /** TrimSlashes takes slashes off both ends. */
  lemma {:induction false} TrimSlashesCuts(s: string) returns (left: string, right: string)
    ensures s == left + TrimSlashes(s) + right && AllSlashes(left) && AllSlashes(right)
  {
    left, right := "", "";
    if s == "" {
    } else if s[0] == '/' {
      left, right := TrimSlashesCuts(s[1..]);
      FrontPutBack(s, left, TrimSlashes(s), right);
      left := [s[0]] + left;
    } else if s[|s| - 1] == '/' {
      left, right := TrimSlashesCuts(s[..|s| - 1]);
      EndPutBack(s, left, TrimSlashes(s), right);
      right := right + [s[|s| - 1]];
    }
  }
}
