/** The append-only table of audit events (internal/vault/audit_repository.go):
    rows in order of the text of their time, then of their id. */
module AuditEvents {
  import opened Wrappers
  import opened Text

  datatype Row = Row(at: string, id: string, json: string)

  datatype Key = Key(at: string, id: string)

  function KeyOf(r: Row): Key {
    Key(r.at, r.id)
  }

  predicate Before(a: Key, b: Key) {
    Less(a.at, b.at) || (a.at == b.at && Less(a.id, b.id))
  }

  lemma BeforeTransitive(a: Key, b: Key, c: Key)
    requires Before(a, b) && Before(b, c)
    ensures Before(a, c)
  {
    if Less(a.at, b.at) && Less(b.at, c.at) {
      LessTransitive(a.at, b.at, c.at);
    } else if a.at == b.at == c.at {
      LessTransitive(a.id, b.id, c.id);
    }
  }

  lemma BeforeIrreflexive(a: Key)
    ensures !Before(a, a)
  {
    LessIrreflexive(a.at);
    LessIrreflexive(a.id);
  }

  lemma BeforeTotal(a: Key, b: Key)
    ensures Before(a, b) || a == b || Before(b, a)
  {
    LessTotal(a.at, b.at);
    LessTotal(a.id, b.id);
  }

  ghost predicate Ordered(rows: seq<Row>) {
    forall i, j :: 0 <= i < j < |rows| ==> Before(KeyOf(rows[i]), KeyOf(rows[j]))
  }

  /** The table: in key order, one row for each id. */
  ghost predicate Table(rows: seq<Row>) {
    Ordered(rows) && forall i, j :: 0 <= i < j < |rows| ==> rows[i].id != rows[j].id
  }

  predicate HasId(rows: seq<Row>, id: string) {
    exists i :: 0 <= i < |rows| && rows[i].id == id
  }

  /** INSERT of a row whose id is new. */
  function InsertRow(rows: seq<Row>, r: Row): seq<Row> {
    if rows == [] then [r]
    else if Before(KeyOf(r), KeyOf(rows[0])) then [r] + rows
    else [rows[0]] + InsertRow(rows[1..], r)
  }

  lemma {:induction false} InsertMembers(rows: seq<Row>, r: Row)
    ensures forall x :: x in InsertRow(rows, r) <==> x == r || x in rows
    ensures |InsertRow(rows, r)| == |rows| + 1
  {
    if rows != [] && !Before(KeyOf(r), KeyOf(rows[0])) {
      InsertMembers(rows[1..], r);
      assert rows == [rows[0]] + rows[1..];
    }
  }

  lemma {:induction false} InsertOrdered(rows: seq<Row>, r: Row)
    requires Ordered(rows) && !HasId(rows, r.id)
    ensures Ordered(InsertRow(rows, r))
  {
    if rows != [] {
      BeforeTotal(KeyOf(r), KeyOf(rows[0]));
      if Before(KeyOf(r), KeyOf(rows[0])) {
        forall i | 0 < i < |rows| ensures Before(KeyOf(r), KeyOf(rows[i])) {
          BeforeTransitive(KeyOf(r), KeyOf(rows[0]), KeyOf(rows[i]));
        }
      } else {
        InsertOrdered(rows[1..], r);
        InsertMembers(rows[1..], r);
        var rest := InsertRow(rows[1..], r);
        forall i | 0 <= i < |rest| ensures Before(KeyOf(rows[0]), KeyOf(rest[i])) {
          assert rest[i] in rest;
        }
      }
    }
  }

  lemma {:induction false} InsertKeepsIds(rows: seq<Row>, r: Row)
    requires Table(rows) && !HasId(rows, r.id)
    ensures forall i, j :: 0 <= i < j < |InsertRow(rows, r)| ==> InsertRow(rows, r)[i].id != InsertRow(rows, r)[j].id
  {
    if rows != [] && !Before(KeyOf(r), KeyOf(rows[0])) {
      InsertKeepsIds(rows[1..], r);
      InsertMembers(rows[1..], r);
      var rest := InsertRow(rows[1..], r);
      forall i | 0 <= i < |rest| ensures rest[i].id != rows[0].id {
        assert rest[i] in rest;
      }
    }
  }

  lemma InsertKeepsTable(rows: seq<Row>, r: Row)
    requires Table(rows) && !HasId(rows, r.id)
    ensures Table(InsertRow(rows, r))
  {
    InsertOrdered(rows, r);
    InsertKeepsIds(rows, r);
  }

  /** A row moves down by at most one place when another is inserted. */
  lemma {:induction false} InsertMoves(rows: seq<Row>, r: Row, i: nat)
    requires i < |rows|
    ensures |InsertRow(rows, r)| == |rows| + 1
    ensures InsertRow(rows, r)[i] == rows[i] || InsertRow(rows, r)[i + 1] == rows[i]
  {
    if !Before(KeyOf(r), KeyOf(rows[0])) && i > 0 {
      InsertMoves(rows[1..], r, i - 1);
    } else {
      InsertMembers(rows, r);
    }
  }

  // ---------------------------------------------------- rows above a cursor

  /** WHERE (occurred_at, event_id) is after the cursor, in key order. */
  function Above(rows: seq<Row>, cursor: Key): seq<Row> {
    if rows == [] then []
    else if Before(cursor, KeyOf(rows[0])) then [rows[0]] + Above(rows[1..], cursor)
    else Above(rows[1..], cursor)
  }

  lemma {:induction false} AboveMembers(rows: seq<Row>, cursor: Key)
    ensures forall x :: x in Above(rows, cursor) <==> x in rows && Before(cursor, KeyOf(x))
  {
    if rows != [] {
      AboveMembers(rows[1..], cursor);
      assert rows == [rows[0]] + rows[1..];
    }
  }

  lemma {:induction false} AboveOrdered(rows: seq<Row>, cursor: Key)
    requires Ordered(rows)
    ensures Ordered(Above(rows, cursor))
  {
    if rows != [] {
      AboveOrdered(rows[1..], cursor);
      AboveMembers(rows[1..], cursor);
      var rest := Above(rows[1..], cursor);
      forall i | 0 <= i < |rest| ensures Before(KeyOf(rows[0]), KeyOf(rest[i])) {
        assert rest[i] in rest;
        assert rest[i] in rows[1..];
      }
    }
  }

  lemma {:induction false} AboveAll(rows: seq<Row>, cursor: Key)
    requires forall i :: 0 <= i < |rows| ==> Before(cursor, KeyOf(rows[i]))
    ensures Above(rows, cursor) == rows
  {
    if rows != [] {
      AboveAll(rows[1..], cursor);
    }
  }

  lemma AboveFrom(rows: seq<Row>, cursor: Key)
    requires Ordered(rows) && rows != [] && Before(cursor, KeyOf(rows[0]))
    ensures Above(rows, cursor) == rows
  {
    forall i | 0 < i < |rows| ensures Before(cursor, KeyOf(rows[i])) {
      BeforeTransitive(cursor, KeyOf(rows[0]), KeyOf(rows[i]));
    }
    AboveAll(rows, cursor);
  }

  /** With the cursor on the n-th row above it, the rows above are the later ones. */
  lemma {:induction false} AboveTaken(rows: seq<Row>, cursor: Key, n: nat)
    requires Ordered(rows) && 0 < n <= |Above(rows, cursor)|
    ensures Above(rows, KeyOf(Above(rows, cursor)[n - 1])) == Above(rows, cursor)[n..]
  {
    if Before(cursor, KeyOf(rows[0])) {
      AboveFrom(rows, cursor);
      TakenFrom(rows, n);
    } else {
      var last := Above(rows, cursor)[n - 1];
      AboveTaken(rows[1..], cursor, n);
      AboveMembers(rows[1..], cursor);
      assert last in rows[1..];
      NotBefore(KeyOf(rows[0]), KeyOf(last));
    }
  }

  lemma NotBefore(a: Key, b: Key)
    requires Before(a, b)
    ensures !Before(b, a)
  {
    if Before(b, a) {
      BeforeTransitive(a, b, a);
      BeforeIrreflexive(a);
    }
  }

  lemma {:induction false} TakenFrom(rows: seq<Row>, n: nat)
    requires Ordered(rows) && 0 < n <= |rows|
    ensures Above(rows, KeyOf(rows[n - 1])) == rows[n..]
  {
    var cursor := KeyOf(rows[n - 1]);
    if n == 1 {
      BeforeIrreflexive(cursor);
      AboveAll(rows[1..], cursor);
    } else {
      NotBefore(KeyOf(rows[0]), cursor);
      TakenFrom(rows[1..], n - 1);
    }
  }

  lemma {:induction false} AboveInserted(rows: seq<Row>, r: Row, cursor: Key)
    requires Ordered(rows) && !HasId(rows, r.id)
    ensures Above(InsertRow(rows, r), cursor)
            == if Before(cursor, KeyOf(r)) then InsertRow(Above(rows, cursor), r) else Above(rows, cursor)
  {
    if rows != [] {
      var after := InsertRow(rows, r);
      if Before(KeyOf(r), KeyOf(rows[0])) {
        assert after[1..] == rows;
        if Before(cursor, KeyOf(r)) {
          BeforeTransitive(cursor, KeyOf(r), KeyOf(rows[0]));
        }
      } else {
        assert after[1..] == InsertRow(rows[1..], r);
        AboveInserted(rows[1..], r, cursor);
        if Before(cursor, KeyOf(rows[0])) {
          BeforeTotal(KeyOf(r), KeyOf(rows[0]));
          BeforeTransitive(cursor, KeyOf(rows[0]), KeyOf(r));
        }
      }
    }
  }

  // ------------------------------------------------------------------ the table

  /** The limit asked for, if it is from 1 to 500, and otherwise 100. */
  function ListLimit(limit: int): (n: nat)
    ensures 1 <= n <= 500
    ensures 1 <= limit <= 500 ==> n == limit
    ensures limit < 1 || limit > 500 ==> n == 100
  {
    if limit <= 0 || limit > 500 then 100 else limit
  }

  function First(rows: seq<Row>, n: nat): seq<Row> {
    if |rows| <= n then rows else rows[..n]
  }

  /** The latest row's key, or empty texts for an empty table. */
  function LatestKey(rows: seq<Row>): (k: Key)
    ensures rows == [] ==> k == Key("", "")
    ensures rows != [] ==> exists r :: r in rows && k == KeyOf(r)
    ensures Ordered(rows) ==> forall r :: r in rows ==> KeyOf(r) == k || Before(KeyOf(r), k)
  {
    if rows == [] then Key("", "") else KeyOf(rows[|rows| - 1])
  }

  class AuditTable {
    var rows: seq<Row>

    constructor ()
      ensures rows == []
    {
      rows := [];
    }

    method Append(row: Row) returns (ok: bool)
      modifies this
      ensures ok <==> !HasId(old(rows), row.id)
      ensures rows == if ok then InsertRow(old(rows), row) else old(rows)
    {
      if HasId(rows, row.id) {
        return false;
      }
      rows := InsertRow(rows, row);
      return true;
    }

    method Cursor() returns (at: string, id: string)
      ensures Key(at, id) == LatestKey(rows)
    {
      if rows == [] {
        return "", "";
      }
      return rows[|rows| - 1].at, rows[|rows| - 1].id;
    }

    /** The next rows beyond the key; None: the query failed. */
    method ListAfter(at: string, id: string, limit: int, reliable: bool) returns (events: Option<seq<Row>>)
      ensures events.Some? ==> events.value == First(Above(rows, Key(at, id)), ListLimit(limit))
      ensures events.Some? && 1 <= limit <= 500 ==> |events.value| <= limit
      ensures reliable ==> events.Some?
    {
      var limited := limit;
      if limit <= 0 || limit > 500 {
        limited := 100;
      }
      var failed: bool := *;
      if failed && !reliable {
        return None;
      }
      var found := [];
      var matches := Above(rows, Key(at, id));
      for i := 0 to if |matches| <= limited then |matches| else limited
        invariant found == matches[..i]
      {
        found := found + [matches[i]];
      }
      assert matches[..|matches|] == matches;
      return Some(found);
    }
  }

  // ------------------------------------------------------------------- pages

  /** AuditEventTableRepository.List over the matching rows, latest first; one
      row more than the limit is read to see whether there are others. */
  method List(matches: seq<Row>, limit: int, offset: int) returns (events: seq<Row>, hasMore: bool)
    ensures var from := if offset < 0 then 0 else if offset > |matches| then |matches| else offset;
            var size := if limit <= 0 || limit > 200 then 50 else limit;
            && events == First(matches[from..], size)
            && hasMore == (|matches| - from > size)
  {
    var size := limit;
    if limit <= 0 || limit > 200 {
      size := 50;
    }
    var skip := offset;
    if skip < 0 {
      skip := 0;
    }
    var rows := if skip > |matches| then [] else First(matches[skip..], size + 1);
    events, hasMore := [], false;
    for i := 0 to |rows|
      invariant !hasMore && events == rows[..i] && i <= size
    {
      if |events| == size {
        hasMore := true;
        break;
      }
      events := events + [rows[i]];
    }
  }

  /** Following the next offset of every page gives each matching row once, in order. */
  method ReadPages(matches: seq<Row>, limit: int) returns (events: seq<Row>)
    ensures events == matches
  {
    events := [];
    var offset := 0;
    while true
      invariant offset <= |matches| && events == matches[..offset]
      decreases |matches| - offset
    {
      var page, hasMore := List(matches, limit, offset);
      events := events + page;
      offset := offset + |page|;
      if !hasMore {
        return;
      }
    }
  }

  /** Rows latest first, as the pages show them. */
  function Latest(rows: seq<Row>): (r: seq<Row>)
    ensures |r| == |rows|
  {
    if rows == [] then [] else Latest(rows[1..]) + [rows[0]]
  }

  lemma {:induction false} LatestMembers(rows: seq<Row>, x: Row)
    ensures x in Latest(rows) <==> x in rows
  {
    if rows != [] {
      LatestMembers(rows[1..], x);
      assert rows == [rows[0]] + rows[1..];
    }
  }

  lemma TailOneMore(s: seq<Row>, last: Row, offset: nat)
    requires offset <= |s|
    ensures (s + [last])[offset..] == s[offset..] + [last]
  {
  }

  lemma LatestTail(first: Row, rest: seq<Row>, offset: nat)
    requires offset <= |rest|
    ensures Latest([first] + rest)[offset..] == Latest(rest)[offset..] + [first]
  {
    var rows := [first] + rest;
    assert rows[1..] == rest && rows[0] == first;
    TailOneMore(Latest(rest), first, offset);
  }

  /** Wherever a row is inserted, what was still to be shown is still to be shown. */
  lemma {:induction false} InsertKeepsTail(rows: seq<Row>, r: Row, offset: nat, x: Row)
    requires offset <= |rows| && x in Latest(rows)[offset..]
    ensures |InsertRow(rows, r)| == |rows| + 1 && x in Latest(InsertRow(rows, r))[offset..]
  {
    InsertMembers(rows, r);
    if rows == [] || Before(KeyOf(r), KeyOf(rows[0])) {
      LatestTail(r, rows, offset);
    } else {
      var rest := rows[1..];
      InsertMembers(rest, r);
      assert rows == [rows[0]] + rest;
      LatestTail(rows[0], rest, offset);
      LatestTail(rows[0], InsertRow(rest, r), offset);
      if x != rows[0] {
        InsertKeepsTail(rest, r, offset, x);
      }
    }
  }

  /** Each of `rows` has been read or comes at or after the offset. */
  ghost predicate NoneSkipped(rows: seq<Row>, events: seq<Row>, table: seq<Row>, offset: nat) {
    offset <= |table| && forall r :: r in rows ==> r in events || r in Latest(table)[offset..]
  }

  lemma NoneReadYet(rows: seq<Row>)
    ensures NoneSkipped(rows, [], rows, 0)
  {
    forall r | r in rows ensures r in Latest(rows)[0..] {
      LatestMembers(rows, r);
    }
  }

  lemma ArrivalSkipsNone(rows: seq<Row>, events: seq<Row>, table: seq<Row>, offset: nat, r: Row)
    requires NoneSkipped(rows, events, table, offset)
    ensures NoneSkipped(rows, events, InsertRow(table, r), offset)
  {
    InsertMembers(table, r);
    forall x | x in Latest(table)[offset..] ensures x in Latest(InsertRow(table, r))[offset..] {
      InsertKeepsTail(table, r, offset, x);
    }
  }

  lemma PageSkipsNone(rows: seq<Row>, events: seq<Row>, table: seq<Row>, offset: nat, page: seq<Row>)
    requires NoneSkipped(rows, events, table, offset) && page <= Latest(table)[offset..]
    ensures NoneSkipped(rows, events + page, table, offset + |page|)
  {
    var left := Latest(table)[offset..];
    assert left == page + left[|page|..];
    assert left[|page|..] == Latest(table)[offset + |page|..];
  }

  /** The same while rows arrive between the pages, each at the place that the
      text of its time gives it. No row that was there at the start is left out,
      though some come twice. */
  method ReadPagesWhileArriving(rows: seq<Row>, arrivals: seq<seq<Row>>, limit: int) returns (events: seq<Row>)
    ensures forall r :: r in rows ==> r in events
  {
    events := [];
    var table := rows;
    NoneReadYet(rows);
    var offset: nat, i: nat := 0, 0;
    while true
      invariant i <= |arrivals| && NoneSkipped(rows, events, table, offset)
      decreases |arrivals| - i, |table| - offset
    {
      var page, hasMore := List(Latest(table), limit, offset);
      PageSkipsNone(rows, events, table, offset, page);
      events := events + page;
      offset := offset + |page|;
      if !hasMore {
        return;
      }
      if i < |arrivals| {
        for j := 0 to |arrivals[i]|
          invariant NoneSkipped(rows, events, table, offset)
        {
          ArrivalSkipsNone(rows, events, table, offset, arrivals[i][j]);
          table := InsertRow(table, arrivals[i][j]);
        }
        i := i + 1;
      }
    }
  }
}
