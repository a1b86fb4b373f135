/** Forwarding audit events by a keyset cursor while rows arrive
    (internal/audit/forwarder.go). */
module AuditForwarder {
  import opened Text
  import opened AuditEvents

  /** RunForwarder's default batch, then ListAfter's own bounds. */
  function Batch(batchSize: int): (n: nat)
    ensures 1 <= n <= 500
    ensures 1 <= batchSize <= 500 ==> n == batchSize
    ensures batchSize < 1 || batchSize > 500 ==> n == 100
  {
    ListLimit(if batchSize <= 0 then 100 else batchSize)
  }

  datatype State = State(rows: seq<Row>, cursor: Key, output: seq<Row>)

  /** What happens next: a row arrives, a poll succeeds, a poll fails. */
  datatype Event = Append(row: Row) | Poll | PollFails

  function Step(s: State, e: Event, batch: nat): State {
    match e
    case Append(r) => if HasId(s.rows, r.id) then s else s.(rows := InsertRow(s.rows, r))
    case Poll =>
      var events := First(Above(s.rows, s.cursor), batch);
      if events == [] then s else State(s.rows, KeyOf(events[|events| - 1]), s.output + events)
    case PollFails => s
  }

  function Run(s: State, schedule: seq<Event>, batch: nat): State
    decreases |schedule|
  {
    if schedule == [] then s else Run(Step(s, schedule[0], batch), schedule[1..], batch)
  }

  function Start(rows: seq<Row>): State {
    State(rows, LatestKey(rows), [])
  }

  // -------------------------------------------------------- in order, once

  ghost predicate NotAfter(a: Key, b: Key) {
    a == b || Before(a, b)
  }

  ghost predicate Good(s: State, start: Key) {
    && Table(s.rows) && Ordered(s.output) && NotAfter(start, s.cursor) && Between(s.output, start, s.cursor)
    && forall i :: 0 <= i < |s.output| ==> s.output[i] in s.rows
  }

  lemma PollTakes(s: State, batch: nat)
    requires Table(s.rows) && batch > 0
    ensures var all := Above(s.rows, s.cursor);
            var events := First(all, batch);
            && Step(s, Poll, batch).output == s.output + events
            && Above(s.rows, Step(s, Poll, batch).cursor) == all[|events|..]
            && NotAfter(s.cursor, Step(s, Poll, batch).cursor)
  {
    var all := Above(s.rows, s.cursor);
    if all != [] {
      var events := First(all, batch);
      AboveTaken(s.rows, s.cursor, |events|);
      AboveMembers(s.rows, s.cursor);
      assert events[|events| - 1] == all[|events| - 1] && all[|events| - 1] in all;
    }
  }

  /** The rows of one poll: in order, from the table, beyond the old cursor, up to the new one. */
  lemma PollEvents(s: State, batch: nat)
    requires Table(s.rows) && batch > 0
    ensures var events := First(Above(s.rows, s.cursor), batch);
            && Ordered(events)
            && forall i :: 0 <= i < |events| ==>
                 events[i] in s.rows && Before(s.cursor, KeyOf(events[i]))
                 && NotAfter(KeyOf(events[i]), Step(s, Poll, batch).cursor)
  {
    var all := Above(s.rows, s.cursor);
    var events := First(all, batch);
    AboveOrdered(s.rows, s.cursor);
    AboveMembers(s.rows, s.cursor);
    forall i | 0 <= i < |events| ensures events[i] in s.rows && Before(s.cursor, KeyOf(events[i])) {
      assert events[i] == all[i] && all[i] in all;
    }
  }

  ghost predicate Between(rows: seq<Row>, start: Key, end: Key) {
    forall i :: 0 <= i < |rows| ==> Before(start, KeyOf(rows[i])) && NotAfter(KeyOf(rows[i]), end)
  }

  /** Rows up to `middle`, then rows beyond it. */
  lemma Chained(a: seq<Row>, b: seq<Row>, start: Key, middle: Key, end: Key)
    requires Ordered(a) && Ordered(b) && Between(a, start, middle) && Between(b, middle, end)
    requires NotAfter(start, middle) && NotAfter(middle, end)
    ensures Ordered(a + b) && Between(a + b, start, end)
  {
    forall i, j | 0 <= i < |a| && 0 <= j < |b| ensures Before(KeyOf(a[i]), KeyOf(b[j])) {
      if KeyOf(a[i]) != middle {
        BeforeTransitive(KeyOf(a[i]), middle, KeyOf(b[j]));
      }
    }
    forall i | 0 <= i < |a| ensures NotAfter(KeyOf(a[i]), end) {
      AdvanceTransitive(KeyOf(a[i]), middle, end);
    }
    forall j | 0 <= j < |b| ensures Before(start, KeyOf(b[j])) {
      if start != middle {
        BeforeTransitive(start, middle, KeyOf(b[j]));
      }
    }
  }

  lemma AdvanceTransitive(a: Key, b: Key, c: Key)
    requires NotAfter(a, b) && NotAfter(b, c)
    ensures NotAfter(a, c)
  {
    if a != b && b != c {
      BeforeTransitive(a, b, c);
    }
  }

  lemma PollKeepsGood(s: State, batch: nat, start: Key)
    requires Good(s, start) && batch > 0
    ensures Good(Step(s, Poll, batch), start)
  {
    var events := First(Above(s.rows, s.cursor), batch);
    var after := Step(s, Poll, batch);
    PollTakes(s, batch);
    PollEvents(s, batch);
    Chained(s.output, events, start, s.cursor, after.cursor);
    AdvanceTransitive(start, s.cursor, after.cursor);
    forall i | 0 <= i < |after.output| ensures after.output[i] in after.rows {
      if i >= |s.output| {
        assert after.output[i] == events[i - |s.output|];
      }
    }
  }

  lemma StepKeepsTable(s: State, e: Event, batch: nat)
    requires Table(s.rows)
    ensures Table(Step(s, e, batch).rows)
  {
    if e.Append? && !HasId(s.rows, e.row.id) {
      InsertKeepsTable(s.rows, e.row);
    }
  }

  lemma StepKeepsGood(s: State, e: Event, batch: nat, start: Key)
    requires Good(s, start) && batch > 0
    ensures Good(Step(s, e, batch), start)
  {
    match e
    case Append(r) =>
      if !HasId(s.rows, r.id) {
        InsertKeepsTable(s.rows, r);
        InsertMembers(s.rows, r);
      }
    case Poll => PollKeepsGood(s, batch, start);
    case PollFails =>
  }

  lemma {:induction false} RunKeepsGood(s: State, schedule: seq<Event>, batch: nat, start: Key)
    requires Good(s, start) && batch > 0
    ensures Good(Run(s, schedule, batch), start)
    decreases |schedule|
  {
    if schedule != [] {
      StepKeepsGood(s, schedule[0], batch, start);
      RunKeepsGood(Step(s, schedule[0], batch), schedule[1..], batch, start);
    }
  }

  lemma StartIsGood(rows: seq<Row>)
    requires Table(rows)
    ensures Good(Start(rows), LatestKey(rows)) && Above(rows, LatestKey(rows)) == []
  {
    AboveMembers(rows, LatestKey(rows));
    forall x | x in rows ensures !Before(LatestKey(rows), KeyOf(x)) {
      var i :| 0 <= i < |rows| && rows[i] == x;
      if i == |rows| - 1 {
        BeforeIrreflexive(KeyOf(x));
      } else {
        NotBefore(KeyOf(x), LatestKey(rows));
      }
    }
    HeadIsMember(Above(rows, LatestKey(rows)));
  }

  /** However appends and polls interleave, the output is rows of the table in
      strictly increasing key order, so none is repeated. */
  lemma OutputStrictlyIncreases(rows: seq<Row>, schedule: seq<Event>, batch: nat)
    requires Table(rows) && batch > 0
    ensures var last := Run(Start(rows), schedule, batch);
            Ordered(last.output) && forall i :: 0 <= i < |last.output| ==> last.output[i] in last.rows
  {
    StartIsGood(rows);
    RunKeepsGood(Start(rows), schedule, batch, LatestKey(rows));
  }

  // -------------------------------------------------- everything in time

  lemma {:induction false} RunAdvances(s: State, schedule: seq<Event>, batch: nat)
    requires Table(s.rows) && batch > 0
    ensures s.output <= Run(s, schedule, batch).output && NotAfter(s.cursor, Run(s, schedule, batch).cursor)
    decreases |schedule|
  {
    if schedule != [] {
      var next := Step(s, schedule[0], batch);
      StepKeepsTable(s, schedule[0], batch);
      RunAdvances(next, schedule[1..], batch);
      if schedule[0].Poll? {
        PollTakes(s, batch);
        AdvanceTransitive(s.cursor, next.cursor, Run(s, schedule, batch).cursor);
      }
    }
  }

  /** How many rows the successful polls have room for. */
  function Room(schedule: seq<Event>, batch: nat): nat
    decreases |schedule|
  {
    if schedule == [] then 0 else Room(schedule[1..], batch) + if schedule[0].Poll? then batch else 0
  }

  function Appends(schedule: seq<Event>): nat
    decreases |schedule|
  {
    if schedule == [] then 0 else Appends(schedule[1..]) + if schedule[0].Append? then 1 else 0
  }

  lemma AppendMoves(s: State, r: Row, batch: nat, ahead: nat) returns (moved: nat)
    requires Table(s.rows) && ahead < |Above(s.rows, s.cursor)|
    ensures var next := Above(Step(s, Append(r), batch).rows, s.cursor);
            moved <= ahead + 1 && moved < |next| && next[moved] == Above(s.rows, s.cursor)[ahead]
  {
    moved := ahead;
    if !HasId(s.rows, r.id) {
      AboveInserted(s.rows, r, s.cursor);
      InsertMoves(Above(s.rows, s.cursor), r, ahead);
      var next := Above(InsertRow(s.rows, r), s.cursor);
      if next[ahead] != Above(s.rows, s.cursor)[ahead] {
        moved := ahead + 1;
      }
    }
  }

  lemma PollMoves(s: State, batch: nat, ahead: nat)
    requires Table(s.rows) && batch > 0 && ahead < |Above(s.rows, s.cursor)|
    ensures var next := Step(s, Poll, batch);
            var row := Above(s.rows, s.cursor)[ahead];
            if ahead < batch then row in next.output
            else ahead - batch < |Above(next.rows, next.cursor)| && Above(next.rows, next.cursor)[ahead - batch] == row
  {
    PollTakes(s, batch);
    if ahead < batch {
      assert Step(s, Poll, batch).output[|s.output| + ahead] == Above(s.rows, s.cursor)[ahead];
    }
  }

  /** A row above the cursor, with `ahead` rows to forward before it, is
      forwarded once the polls have room for those, for it, and for every row
      that arrives meanwhile. */
  lemma {:induction false} ForwardedInTime(s: State, schedule: seq<Event>, batch: nat, ahead: nat)
    requires Table(s.rows) && batch > 0 && ahead < |Above(s.rows, s.cursor)|
    requires ahead + 1 + Appends(schedule) <= Room(schedule, batch)
    ensures Above(s.rows, s.cursor)[ahead] in Run(s, schedule, batch).output
    decreases |schedule|
  {
    assert schedule != [];
    var next := Step(s, schedule[0], batch);
    StepKeepsTable(s, schedule[0], batch);
    match schedule[0]
    case Append(r) =>
      var moved := AppendMoves(s, r, batch, ahead);
      ForwardedInTime(next, schedule[1..], batch, moved);
    case Poll =>
      PollMoves(s, batch, ahead);
      if ahead < batch {
        RunAdvances(next, schedule[1..], batch);
      } else {
        ForwardedInTime(next, schedule[1..], batch, ahead - batch);
      }
    case PollFails =>
      ForwardedInTime(next, schedule[1..], batch, ahead);
  }

  // ---------------------------------------------------- exactly what is sent

  ghost predicate Accepted(s: State, e: Event) {
    e.Append? && !HasId(s.rows, e.row.id)
  }

  /** The rows that arrive with a key above the cursor of that moment. */
  ghost function Timely(s: State, schedule: seq<Event>, batch: nat): set<Row>
    decreases |schedule|
  {
    if schedule == [] then {}
    else
      Timely(Step(s, schedule[0], batch), schedule[1..], batch)
      + if Accepted(s, schedule[0]) && Before(s.cursor, KeyOf(schedule[0].row)) then {schedule[0].row} else {}
  }

  /** The rows that arrive when the cursor has already passed their key. */
  ghost function Late(s: State, schedule: seq<Event>, batch: nat): set<Row>
    decreases |schedule|
  {
    if schedule == [] then {}
    else
      Late(Step(s, schedule[0], batch), schedule[1..], batch)
      + if Accepted(s, schedule[0]) && !Before(s.cursor, KeyOf(schedule[0].row)) then {schedule[0].row} else {}
  }

  ghost predicate Pending(s: State, schedule: seq<Event>, batch: nat, r: Row) {
    r in Above(s.rows, s.cursor) || r in Timely(s, schedule, batch)
  }

  lemma NotAfterIsNotBefore(a: Key, b: Key)
    requires NotAfter(a, b)
    ensures !Before(b, a)
  {
    if a == b {
      BeforeIrreflexive(a);
    } else {
      NotBefore(a, b);
    }
  }

  /** What one poll sends is what stops being pending. */
  lemma PollSends(s: State, batch: nat, r: Row)
    requires Table(s.rows) && batch > 0
    ensures var next := Step(s, Poll, batch);
            && (r in next.output <==>
                r in s.output || (r in Above(s.rows, s.cursor) && r !in Above(next.rows, next.cursor)))
            && (r in Above(next.rows, next.cursor) ==> r in Above(s.rows, s.cursor))
  {
    var all := Above(s.rows, s.cursor);
    var events := First(all, batch);
    var next := Step(s, Poll, batch);
    PollTakes(s, batch);
    assert all == events + all[|events|..];
    if r in events {
      var i :| 0 <= i < |events| && events[i] == r;
      PollEvents(s, batch);
      NotAfterIsNotBefore(KeyOf(r), next.cursor);
      AboveMembers(s.rows, next.cursor);
    }
  }

  lemma AppendQueues(s: State, row: Row, batch: nat, r: Row)
    requires Table(s.rows)
    ensures r in Above(Step(s, Append(row), batch).rows, s.cursor) <==>
            r in Above(s.rows, s.cursor) || (r == row && Accepted(s, Append(row)) && Before(s.cursor, KeyOf(row)))
  {
    AboveMembers(s.rows, s.cursor);
    AboveMembers(Step(s, Append(row), batch).rows, s.cursor);
    InsertMembers(s.rows, row);
  }

  /** What the cursor has passed it never comes before again. */
  lemma StaysPassed(s: State, schedule: seq<Event>, batch: nat, k: Key)
    requires Table(s.rows) && batch > 0 && !Before(s.cursor, k)
    ensures !Before(Run(s, schedule, batch).cursor, k)
  {
    var final := Run(s, schedule, batch).cursor;
    RunAdvances(s, schedule, batch);
    if s.cursor != final && Before(final, k) {
      BeforeTransitive(s.cursor, final, k);
    }
  }

  /** Sent is exactly what was pending, or arrived above the cursor, and is no
      longer ahead of it. */
  lemma {:induction false} SentIff(s: State, schedule: seq<Event>, batch: nat, r: Row)
    requires Table(s.rows) && batch > 0
    ensures var final := Run(s, schedule, batch);
            r in final.output <==>
            r in s.output || (Pending(s, schedule, batch, r) && r !in Above(final.rows, final.cursor))
    decreases |schedule|
  {
    if schedule != [] {
      var next := Step(s, schedule[0], batch);
      StepKeepsTable(s, schedule[0], batch);
      SentIff(next, schedule[1..], batch, r);
      match schedule[0]
      case Append(row) => AppendQueues(s, row, batch, r);
      case Poll =>
        PollSends(s, batch, r);
        if r in Above(s.rows, s.cursor) && r !in Above(next.rows, next.cursor) {
          var final := Run(s, schedule, batch);
          AboveMembers(s.rows, s.cursor);
          AboveMembers(next.rows, next.cursor);
          StaysPassed(next, schedule[1..], batch, KeyOf(r));
          AboveMembers(final.rows, final.cursor);
        }
      case PollFails =>
    }
  }

  /** The rows at the end are those at the start and all that arrived. */
  lemma {:induction false} RowsArrive(s: State, schedule: seq<Event>, batch: nat, r: Row)
    ensures r in Run(s, schedule, batch).rows <==>
            r in s.rows || r in Timely(s, schedule, batch) || r in Late(s, schedule, batch)
    decreases |schedule|
  {
    if schedule != [] {
      RowsArrive(Step(s, schedule[0], batch), schedule[1..], batch, r);
      if schedule[0].Append? {
        InsertMembers(s.rows, schedule[0].row);
      }
    }
  }

  lemma StepKeepsIds(s: State, e: Event, batch: nat, id: string)
    ensures HasId(s.rows, id) ==> HasId(Step(s, e, batch).rows, id)
    ensures Accepted(s, e) ==> HasId(Step(s, e, batch).rows, e.row.id)
  {
    if e.Append? && !HasId(s.rows, e.row.id) {
      var after := InsertRow(s.rows, e.row);
      InsertMembers(s.rows, e.row);
      assert e.row in after;
      if HasId(s.rows, id) {
        var i :| 0 <= i < |s.rows| && s.rows[i].id == id;
        assert s.rows[i] in after;
      }
    }
  }

  /** A row arrives once: either in time or late. */
  lemma {:induction false} ArrivesOnce(s: State, schedule: seq<Event>, batch: nat, r: Row)
    ensures r in Timely(s, schedule, batch) ==> !HasId(s.rows, r.id) && r !in Late(s, schedule, batch)
    ensures r in Late(s, schedule, batch) ==> !HasId(s.rows, r.id)
    decreases |schedule|
  {
    if schedule != [] {
      ArrivesOnce(Step(s, schedule[0], batch), schedule[1..], batch, r);
      StepKeepsIds(s, schedule[0], batch, r.id);
    }
  }

  lemma StepAdvances(s: State, e: Event, batch: nat, k: Key)
    requires Table(s.rows) && batch > 0
    ensures Before(Step(s, e, batch).cursor, k) ==> Before(s.cursor, k)
  {
    if e.Poll? {
      PollTakes(s, batch);
      var next := Step(s, Poll, batch);
      if s.cursor != next.cursor && Before(next.cursor, k) {
        BeforeTransitive(s.cursor, next.cursor, k);
      }
    }
  }

  /** Rows in time are beyond the cursor. */
  lemma {:induction false} TimelyIsAhead(s: State, schedule: seq<Event>, batch: nat, r: Row)
    requires Table(s.rows) && batch > 0 && r in Timely(s, schedule, batch)
    ensures Before(s.cursor, KeyOf(r))
    decreases |schedule|
  {
    var next := Step(s, schedule[0], batch);
    if r in Timely(next, schedule[1..], batch) {
      StepKeepsTable(s, schedule[0], batch);
      TimelyIsAhead(next, schedule[1..], batch, r);
      StepAdvances(s, schedule[0], batch, KeyOf(r));
    }
  }

  /** Late rows are never ahead of the cursor again. */
  lemma {:induction false} LateIsPassed(s: State, schedule: seq<Event>, batch: nat, r: Row)
    requires Table(s.rows) && batch > 0 && r in Late(s, schedule, batch)
    ensures !Before(Run(s, schedule, batch).cursor, KeyOf(r))
    decreases |schedule|
  {
    var next := Step(s, schedule[0], batch);
    if r in Late(next, schedule[1..], batch) {
      StepKeepsTable(s, schedule[0], batch);
      LateIsPassed(next, schedule[1..], batch, r);
    } else {
      StaysPassed(s, schedule, batch, KeyOf(r));
    }
  }

  /** A row is forwarded exactly when it arrived above the cursor and the
      cursor has reached it since; one that arrived late never is. */
  lemma ForwardedIff(rows: seq<Row>, schedule: seq<Event>, batch: nat, r: Row)
    requires Table(rows) && batch > 0
    ensures var s, final := Start(rows), Run(Start(rows), schedule, batch);
            && (r in final.output <==> r in Timely(s, schedule, batch) && !Before(final.cursor, KeyOf(r)))
            && (r in Late(s, schedule, batch) ==> r !in final.output)
  {
    var s, final := Start(rows), Run(Start(rows), schedule, batch);
    StartIsGood(rows);
    SentIff(s, schedule, batch, r);
    RowsArrive(s, schedule, batch, r);
    AboveMembers(final.rows, final.cursor);
    ArrivesOnce(s, schedule, batch, r);
  }

  /** Rows beyond `start` and not beyond `end`. */
  function Range(rows: seq<Row>, start: Key, end: Key): seq<Row> {
    if rows == [] then []
    else
      var rest := Range(rows[1..], start, end);
      if Before(start, KeyOf(rows[0])) && !Before(end, KeyOf(rows[0])) then [rows[0]] + rest else rest
  }

  lemma {:induction false} RangeMembers(rows: seq<Row>, start: Key, end: Key)
    ensures forall x :: x in Range(rows, start, end) <==> x in rows && Before(start, KeyOf(x)) && !Before(end, KeyOf(x))
  {
    if rows != [] {
      RangeMembers(rows[1..], start, end);
      assert rows == [rows[0]] + rows[1..];
    }
  }

  lemma {:induction false} RangeOrdered(rows: seq<Row>, start: Key, end: Key)
    requires Ordered(rows)
    ensures Ordered(Range(rows, start, end))
  {
    if rows != [] {
      RangeOrdered(rows[1..], start, end);
      RangeMembers(rows[1..], start, end);
      var rest := Range(rows[1..], start, end);
      forall i | 0 <= i < |rest| ensures Before(KeyOf(rows[0]), KeyOf(rest[i])) {
        assert rest[i] in rest;
        assert rest[i] in rows[1..];
      }
    }
  }

  lemma FirstIsLeast(a: seq<Row>, r: Row)
    requires Ordered(a) && r in a && a[0] != r
    ensures Before(KeyOf(a[0]), KeyOf(r))
  {
  }

  lemma OrderedApart(a: seq<Row>)
    requires Ordered(a) && a != []
    ensures a[0] !in a[1..]
  {
    BeforeIrreflexive(KeyOf(a[0]));
  }

  /** Ordered lists with the same rows are the same list. */
  lemma {:induction false} OrderedUnique(a: seq<Row>, b: seq<Row>)
    requires Ordered(a) && Ordered(b) && forall x :: x in a <==> x in b
    ensures a == b
  {
    HeadIsMember(a);
    HeadIsMember(b);
    if a != [] {
      if a[0] != b[0] {
        FirstIsLeast(a, b[0]);
        FirstIsLeast(b, a[0]);
        NotBefore(KeyOf(a[0]), KeyOf(b[0]));
        assert false;
      }
      OrderedApart(a);
      OrderedApart(b);
      assert a == [a[0]] + a[1..] && b == [b[0]] + b[1..];
      forall x ensures x in a[1..] <==> x in b[1..] {
        assert x in a <==> x in b;
      }
      OrderedUnique(a[1..], b[1..]);
    }
  }

  /** The output is every row between the first cursor and the present one,
      exactly when no row arrived late in between. */
  lemma OutputIsRangeIff(rows: seq<Row>, schedule: seq<Event>, batch: nat)
    requires Table(rows) && batch > 0
    ensures var s, final := Start(rows), Run(Start(rows), schedule, batch);
            final.output == Range(final.rows, s.cursor, final.cursor) <==>
            forall r :: r in Late(s, schedule, batch) ==> !Before(s.cursor, KeyOf(r))
  {
    var s, final := Start(rows), Run(Start(rows), schedule, batch);
    var range := Range(final.rows, s.cursor, final.cursor);
    StartIsGood(rows);
    RunKeepsGood(s, schedule, batch, s.cursor);
    RangeOrdered(final.rows, s.cursor, final.cursor);
    RangeMembers(final.rows, s.cursor, final.cursor);
    AboveMembers(rows, s.cursor);
    forall r
      ensures r in range <==> r in final.output || (r in Late(s, schedule, batch) && Before(s.cursor, KeyOf(r)))
      ensures r in Late(s, schedule, batch) ==> r !in final.output
    {
      ForwardedIff(rows, schedule, batch, r);
      RowsArrive(s, schedule, batch, r);
      if r in Timely(s, schedule, batch) {
        TimelyIsAhead(s, schedule, batch, r);
      }
      if r in Late(s, schedule, batch) {
        LateIsPassed(s, schedule, batch, r);
      }
    }
    if forall r :: r in Late(s, schedule, batch) ==> !Before(s.cursor, KeyOf(r)) {
      OrderedUnique(final.output, range);
    }
  }

  /** A poll moves the rows it sends from what is pending to the output. */
  lemma QuietPoll(s: State, batch: nat)
    requires Table(s.rows) && batch > 0
    ensures var next := Step(s, Poll, batch);
            var pending, left := Above(s.rows, s.cursor), Above(next.rows, next.cursor);
            && next.rows == s.rows && next.output + left == s.output + pending
            && |left| == if |pending| <= batch then 0 else |pending| - batch
  {
    var pending := Above(s.rows, s.cursor);
    var events := First(pending, batch);
    PollTakes(s, batch);
    assert pending == events + pending[|events|..];
    assert (s.output + events) + pending[|events|..] == s.output + (events + pending[|events|..]);
  }

  /** While no row arrives, polls with room for what is pending send exactly that. */
  lemma {:induction false} QuietPollsDrain(s: State, schedule: seq<Event>, batch: nat)
    requires Table(s.rows) && batch > 0 && Appends(schedule) == 0
    requires |Above(s.rows, s.cursor)| <= Room(schedule, batch)
    ensures Run(s, schedule, batch).output == s.output + Above(s.rows, s.cursor)
    decreases |schedule|
  {
    if schedule != [] {
      if schedule[0].Poll? {
        QuietPoll(s, batch);
      }
      QuietPollsDrain(Step(s, schedule[0], batch), schedule[1..], batch);
    }
  }

  function Polls(schedule: seq<Event>): nat
    decreases |schedule|
  {
    if schedule == [] then 0 else Polls(schedule[1..]) + if schedule[0].Poll? then 1 else 0
  }

  lemma {:induction false} RoomOfPolls(schedule: seq<Event>, batch: nat)
    ensures Room(schedule, batch) == Polls(schedule) * batch
    decreases |schedule|
  {
    if schedule != [] {
      RoomOfPolls(schedule[1..], batch);
      if schedule[0].Poll? {
        assert (Polls(schedule[1..]) + 1) * batch == Polls(schedule[1..]) * batch + batch;
      }
    }
  }

  /** The quiet polls needed are the pending rows over the batch, rounded up. */
  lemma EnoughQuietPolls(s: State, schedule: seq<Event>, batch: nat)
    requires Table(s.rows) && batch > 0 && Appends(schedule) == 0
    requires Polls(schedule) >= (|Above(s.rows, s.cursor)| + batch - 1) / batch
    ensures Run(s, schedule, batch).output == s.output + Above(s.rows, s.cursor)
  {
    RoomOfPolls(schedule, batch);
    RoundedUpCovers(|Above(s.rows, s.cursor)|, batch, Polls(schedule));
    QuietPollsDrain(s, schedule, batch);
  }

  lemma RoundedUpCovers(pending: nat, batch: nat, polls: nat)
    requires batch > 0 && polls >= (pending + batch - 1) / batch
    ensures polls * batch >= pending
  {
    var needed := (pending + batch - 1) / batch;
    assert polls * batch == needed * batch + (polls - needed) * batch;
    assert (polls - needed) * batch >= 0;
  }

  // -------------------------------------------------------------- lost events

  lemma PassedIsNeverSent(s: State, more: seq<Event>, batch: nat, r: Row)
    requires Table(s.rows) && HasId(s.rows, r.id) && r !in s.output && !Before(s.cursor, KeyOf(r)) && batch > 0
    ensures r !in Run(s, more, batch).output
  {
    SentIff(s, more, batch, r);
    ArrivesOnce(s, more, batch, r);
    AboveMembers(s.rows, s.cursor);
  }

  function OnlyPolls(n: nat): seq<Event> {
    if n == 0 then [] else [Poll] + OnlyPolls(n - 1)
  }

  lemma {:induction false} OnlyPollsRoom(n: nat, batch: nat)
    requires batch > 0
    ensures Room(OnlyPolls(n), batch) >= n && Appends(OnlyPolls(n)) == 0
  {
    if n > 0 {
      OnlyPollsRoom(n - 1, batch);
      assert OnlyPolls(n)[1..] == OnlyPolls(n - 1);
    }
  }

  lemma PendingIsSent(s: State, batch: nat, r: Row) returns (more: seq<Event>)
    requires Table(s.rows) && r in s.rows && Before(s.cursor, KeyOf(r)) && batch > 0
    ensures r in Run(s, more, batch).output
  {
    more := OnlyPolls(|Above(s.rows, s.cursor)|);
    OnlyPollsRoom(|Above(s.rows, s.cursor)|, batch);
    QuietPollsDrain(s, more, batch);
    AboveMembers(s.rows, s.cursor);
  }

  /** A row ahead of the cursor is never lost: whatever happens next, it has
      been sent or polls still send it. */
  lemma TimelyIsSent(s: State, more: seq<Event>, batch: nat, r: Row) returns (rest: seq<Event>)
    requires Table(s.rows) && r in s.rows && Before(s.cursor, KeyOf(r)) && batch > 0
    ensures r in Run(s, more + rest, batch).output
  {
    var final := Run(s, more, batch);
    RunKeepsTable(s, more, batch);
    RowsArrive(s, more, batch, r);
    if Before(final.cursor, KeyOf(r)) {
      rest := PendingIsSent(final, batch, r);
      RunConcat(s, more, rest, batch);
    } else {
      rest := [];
      assert more + rest == more;
      AboveMembers(s.rows, s.cursor);
      AboveMembers(final.rows, final.cursor);
      SentIff(s, more, batch, r);
    }
  }

  lemma {:induction false} RunKeepsTable(s: State, schedule: seq<Event>, batch: nat)
    requires Table(s.rows)
    ensures Table(Run(s, schedule, batch).rows)
    decreases |schedule|
  {
    if schedule != [] {
      StepKeepsTable(s, schedule[0], batch);
      RunKeepsTable(Step(s, schedule[0], batch), schedule[1..], batch);
    }
  }

  /** A row that arrives is lost for good exactly when its key is not beyond the cursor. */
  lemma ArrivalIsLostIff(s: State, start: Key, r: Row, batch: nat)
    requires Good(s, start) && !HasId(s.rows, r.id) && batch > 0
    ensures (forall more: seq<Event> :: r !in Run(Step(s, Append(r), batch), more, batch).output)
            <==> !Before(s.cursor, KeyOf(r))
  {
    var next := Step(s, Append(r), batch);
    StepKeepsTable(s, Append(r), batch);
    InsertMembers(s.rows, r);
    assert r in next.rows;
    if Before(s.cursor, KeyOf(r)) {
      var more := PendingIsSent(next, batch, r);
    } else {
      forall i | 0 <= i < |s.output| ensures s.output[i] != r {
        assert s.output[i] in s.rows;
      }
      forall more: seq<Event> ensures r !in Run(next, more, batch).output {
        PassedIsNeverSent(next, more, batch, r);
      }
    }
  }

  // ---------------------------------------------------------------- the loop

  function Arrivals(rows: seq<Row>): seq<Event> {
    seq(|rows|, i requires 0 <= i < |rows| => Append(rows[i]))
  }

  /** Rounds of one poll and the rows that arrive before the next one. */
  function Rounds(arrivals: seq<seq<Row>>, ok: seq<bool>): seq<Event>
    requires |arrivals| == |ok|
  {
    if arrivals == [] then []
    else
      var last := |arrivals| - 1;
      Rounds(arrivals[..last], ok[..last]) + [if ok[last] then Poll else PollFails] + Arrivals(arrivals[last])
  }

  lemma {:induction false} RunConcat(s: State, a: seq<Event>, b: seq<Event>, batch: nat)
    ensures Run(s, a + b, batch) == Run(Run(s, a, batch), b, batch)
    decreases |a|
  {
    if a == [] {
      assert a + b == b;
    } else {
      assert (a + b)[1..] == a[1..] + b;
      RunConcat(Step(s, a[0], batch), a[1..], b, batch);
    }
  }

  lemma RunOne(s: State, e: Event, batch: nat)
    ensures Run(s, [e], batch) == Step(s, e, batch)
  {
    assert [e][1..] == [];
  }

  /** What is written for the rows that are sent: their JSON, unchanged. */
  function Lines(rows: seq<Row>): (lines: seq<string>)
    ensures |lines| == |rows| && forall i :: 0 <= i < |rows| ==> lines[i] == rows[i].json
  {
    seq(|rows|, i requires 0 <= i < |rows| => rows[i].json)
  }

  /** The body of RunForwarder's loop: poll, and write what was found row by row. */
  method Forward(table: AuditTable, at: string, id: string, lines: seq<string>, ghost output: seq<Row>,
                 batchSize: int, reliable: bool)
    returns (ok: bool, at': string, id': string, lines': seq<string>, ghost output': seq<Row>)
    requires lines == Lines(output)
    ensures lines' == Lines(output')
    ensures State(table.rows, Key(at', id'), output')
            == Step(State(table.rows, Key(at, id), output), if ok then Poll else PollFails, ListLimit(batchSize))
    ensures reliable ==> ok
  {
    at', id', lines', output' := at, id, lines, output;
    var events := table.ListAfter(at, id, batchSize, reliable);
    ok := events.Some?;
    if ok {
      for i := 0 to |events.value|
        invariant output' == output + events.value[..i] && lines' == Lines(output')
        invariant Key(at', id') == if i == 0 then Key(at, id) else KeyOf(events.value[i - 1])
      {
        lines' := lines' + [events.value[i].json];
        output' := output' + [events.value[i]];
        at', id' := events.value[i].at, events.value[i].id;
      }
      assert events.value[..|events.value|] == events.value;
    }
  }

  method Arrive(table: AuditTable, rows: seq<Row>, ghost s: State, ghost batch: nat)
    requires s.rows == table.rows
    modifies table
    ensures Run(s, Arrivals(rows), batch) == s.(rows := table.rows)
  {
    for i := 0 to |rows|
      invariant Run(s, Arrivals(rows[..i]), batch) == s.(rows := table.rows)
    {
      ghost var before := s.(rows := table.rows);
      var added := table.Append(rows[i]);
      assert Arrivals(rows[..i + 1]) == Arrivals(rows[..i]) + [Append(rows[i])];
      RunConcat(s, Arrivals(rows[..i]), [Append(rows[i])], batch);
      RunOne(before, Append(rows[i]), batch);
    }
    assert rows[..|rows|] == rows;
  }

  /** RunForwarder until it is stopped after some rounds. Each poll may fail;
      `arrivals` are the rows written between one poll and the next, and
      `reliable` says that no poll fails. */
  method RunForwarder(table: AuditTable, arrivals: seq<seq<Row>>, batchSize: int, reliable: bool)
    returns (lines: seq<string>, ghost output: seq<Row>, at: string, id: string, ghost polled: seq<bool>)
    modifies table
    ensures lines == Lines(output)
    ensures |polled| == |arrivals| && (reliable ==> forall i :: 0 <= i < |polled| ==> polled[i])
    ensures State(table.rows, Key(at, id), output)
            == Run(Start(old(table.rows)), Rounds(arrivals, polled), Batch(batchSize))
  {
    var size := batchSize;
    if size <= 0 {
      size := 100;
    }
    lines, output, polled := [], [], [];
    at, id := table.Cursor();
    ghost var start, batch := Start(table.rows), Batch(batchSize);
    for i := 0 to |arrivals|
      invariant lines == Lines(output)
      invariant |polled| == i && (reliable ==> forall j :: 0 <= j < i ==> polled[j])
      invariant State(table.rows, Key(at, id), output) == Run(start, Rounds(arrivals[..i], polled), batch)
    {
      ghost var s0 := State(table.rows, Key(at, id), output);
      var ok;
      ok, at, id, lines, output := Forward(table, at, id, lines, output, size, reliable);
      ghost var s1 := State(table.rows, Key(at, id), output);
      Arrive(table, arrivals[i], s1, batch);
      RoundAt(start, arrivals, i, polled, ok, batch);
      polled := polled + [ok];
    }
    assert arrivals[..|arrivals|] == arrivals;
  }

  lemma RoundAt(start: State, arrivals: seq<seq<Row>>, i: nat, ok: seq<bool>, last: bool, batch: nat)
    requires |ok| == i < |arrivals|
    ensures Run(start, Rounds(arrivals[..i + 1], ok + [last]), batch)
            == Run(Step(Run(start, Rounds(arrivals[..i], ok), batch), if last then Poll else PollFails, batch),
                   Arrivals(arrivals[i]), batch)
  {
    assert arrivals[..i + 1] == arrivals[..i] + [arrivals[i]];
    NextRound(start, arrivals[..i], ok, arrivals[i], last, batch);
  }

  lemma NextRound(start: State, arrivals: seq<seq<Row>>, ok: seq<bool>, rows: seq<Row>, last: bool, batch: nat)
    requires |arrivals| == |ok|
    ensures Run(start, Rounds(arrivals + [rows], ok + [last]), batch)
            == Run(Step(Run(start, Rounds(arrivals, ok), batch), if last then Poll else PollFails, batch),
                   Arrivals(rows), batch)
  {
    var poll := if last then Poll else PollFails;
    assert (arrivals + [rows])[..|arrivals|] == arrivals && (ok + [last])[..|ok|] == ok;
    RunConcat(start, Rounds(arrivals, ok) + [poll], Arrivals(rows), batch);
    RunConcat(start, Rounds(arrivals, ok), [poll], batch);
    RunOne(Run(start, Rounds(arrivals, ok), batch), poll, batch);
  }
}
