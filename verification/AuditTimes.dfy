/** Times as texts: fractions are written without trailing zeros
    (internal/audit/logger.go), and rows are ordered by the text. */
module AuditTimes {
  import opened Text
  import opened AuditEvents
  import opened AuditForwarder

  lemma {:induction false} LessAfterSameStart(p: string, a: string, b: string)
    ensures Less(p + a, p + b) <==> Less(a, b)
  {
    if p == "" {
      assert p + a == a && p + b == b;
    } else {
      assert (p + a)[1..] == p[1..] + a && (p + b)[1..] == p[1..] + b;
      LessAfterSameStart(p[1..], a, b);
    }
  }

  predicate Digits(s: string) {
    forall i :: 0 <= i < |s| ==> '0' <= s[i] <= '9'
  }

  lemma {:induction false} LessByLast(a: string, b: string)
    requires |a| == |b| > 0
    ensures var n := |a| - 1;
            Less(a, b) <==> Less(a[..n], b[..n]) || (a[..n] == b[..n] && a[n] < b[n])
  {
    var n := |a| - 1;
    if n == 0 {
      assert !Less(a[1..], b[1..]);
    } else {
      LessByLast(a[1..], b[1..]);
      assert a[..n][1..] == a[1..][..n - 1] && b[..n][1..] == b[1..][..n - 1];
      assert a[..n] == [a[0]] + a[1..][..n - 1] && b[..n] == [b[0]] + b[1..][..n - 1];
    }
  }

  lemma {:induction false} DigitsInOrder(a: string, b: string)
    requires |a| == |b| && Digits(a) && Digits(b)
    ensures (Less(a, b) <==> Value(a) < Value(b)) && (a == b <==> Value(a) == Value(b))
  {
    if a != "" {
      var n := |a| - 1;
      LessByLast(a, b);
      DigitsInOrder(a[..n], b[..n]);
      assert a == a[..n] + [a[n]] && b == b[..n] + [b[n]];
    }
  }

  lemma {:induction false} LessBeforeSameEnd(a: string, b: string, end: string)
    requires |a| == |b|
    ensures Less(a + end, b + end) <==> Less(a, b)
  {
    if a == "" {
      assert a + end == end && b + end == end;
      LessIrreflexive(end);
    } else {
      assert (a + end)[1..] == a[1..] + end && (b + end)[1..] == b[1..] + end;
      LessBeforeSameEnd(a[1..], b[1..], end);
    }
  }

  /** Fractions of one second with equally many digits sort as their values. */
  lemma EqualDigitsSortByTime(second: string, a: string, b: string)
    requires |a| == |b| && Digits(a) && Digits(b)
    ensures Less(second + "." + a + "Z", second + "." + b + "Z") <==> Value(a) < Value(b)
  {
    LessAfterSameStart(second + ".", a + "Z", b + "Z");
    assert second + "." + a + "Z" == second + "." + (a + "Z") && second + "." + b + "Z" == second + "." + (b + "Z");
    LessBeforeSameEnd(a, b, "Z");
    DigitsInOrder(a, b);
  }

  // -------------------------------------------------------- trimmed fractions

  const NANO_DIGITS := 9

  /** A fraction as it is written: up to nine digits, the last one not zero; a
      whole second has none. */
  predicate Trimmed(f: string) {
    Digits(f) && |f| <= NANO_DIGITS && (f != "" ==> f[|f| - 1] != '0')
  }

  /** time.RFC3339Nano for a second, written up to its seconds, and a trimmed fraction. */
  function Stamp(second: string, f: string): string {
    if f == "" then second + "Z" else second + "." + f + "Z"
  }

  function Padded(f: string, n: nat): (r: string)
    requires |f| <= n
    ensures |r| == n
  {
    if n == 0 then "" else if f == "" then "0" + Padded(f, n - 1) else [f[0]] + Padded(f[1..], n - 1)
  }

  /** The fraction in nanoseconds. */
  function Nanos(f: string): int
    requires Trimmed(f)
  {
    Value(Padded(f, NANO_DIGITS))
  }

  lemma {:induction false} PaddedDigits(f: string, n: nat)
    requires |f| <= n && Digits(f)
    ensures Digits(Padded(f, n))
  {
    if n > 0 {
      PaddedDigits(if f == "" then f else f[1..], n - 1);
    }
  }

  /** Padding with zeros keeps the text order of trimmed fractions. */
  lemma {:induction false} PaddedInOrder(a: string, b: string, n: nat)
    requires |a| <= n && |b| <= n && Digits(a) && Digits(b)
    requires (a != "" ==> a[|a| - 1] != '0') && (b != "" ==> b[|b| - 1] != '0')
    ensures Less(Padded(a, n), Padded(b, n)) <==> Less(a, b)
  {
    if n > 0 {
      var p, q := Padded(a, n), Padded(b, n);
      assert p[1..] == Padded(if a == "" then a else a[1..], n - 1);
      assert q[1..] == Padded(if b == "" then b else b[1..], n - 1);
      PaddedInOrder(if a == "" then a else a[1..], if b == "" then b else b[1..], n - 1);
    }
  }

  /** Trimmed fractions are ordered in time as their digits are as texts. */
  lemma NanosInOrder(a: string, b: string)
    requires Trimmed(a) && Trimmed(b)
    ensures Nanos(a) < Nanos(b) <==> Less(a, b)
  {
    PaddedDigits(a, NANO_DIGITS);
    PaddedDigits(b, NANO_DIGITS);
    PaddedInOrder(a, b, NANO_DIGITS);
    DigitsInOrder(Padded(a, NANO_DIGITS), Padded(b, NANO_DIGITS));
  }

  /** The closing "Z" comes after every digit, so of two fractions of which one
      extends the other, the longer one sorts first. */
  lemma {:induction false} ClosedInOrder(a: string, b: string)
    requires Digits(a) && Digits(b) && a != b
    ensures Less(a + "Z", b + "Z") <==> b < a || (Less(a, b) && !(a < b))
  {
    var p, q := a + "Z", b + "Z";
    if a == "" {
      assert p == "Z" && q[0] == b[0] && a < b && !(b < a);
    } else if b == "" {
      assert q == "Z" && p[0] == a[0] && b < a;
    } else {
      assert p[1..] == a[1..] + "Z" && q[1..] == b[1..] + "Z";
      assert a == [a[0]] + a[1..] && b == [b[0]] + b[1..];
      if a[0] == b[0] {
        ClosedInOrder(a[1..], b[1..]);
      }
    }
  }

  lemma StampsInOrder(second: string, a: string, b: string)
    requires Trimmed(a) && Trimmed(b) && a != b
    ensures Less(Stamp(second, a), Stamp(second, b)) <==> b < a || (Less(a, b) && !(a < b))
  {
    var p := if a == "" then "Z" else "." + (a + "Z");
    var q := if b == "" then "Z" else "." + (b + "Z");
    assert Stamp(second, a) == second + p && Stamp(second, b) == second + q;
    LessAfterSameStart(second, p, q);
    if a != "" && b != "" {
      LessAfterSameStart(".", a + "Z", b + "Z");
      ClosedInOrder(a, b);
    }
  }

  /** Of two different times in one second, the texts are in the order of the
      times exactly when neither fraction extends the other. */
  lemma TextOrderIsTimeOrderIff(second: string, a: string, b: string)
    requires Trimmed(a) && Trimmed(b) && a != b
    ensures (Less(Stamp(second, a), Stamp(second, b)) <==> Nanos(a) < Nanos(b)) <==> !(a < b) && !(b < a)
  {
    StampsInOrder(second, a, b);
    NanosInOrder(a, b);
    if a < b {
      ProperPrefixLess(a, b);
    } else if b < a {
      ProperPrefixLess(b, a);
      LessAsymmetric(b, a);
    }
  }

  /** 100 ms are written ".1" and 120 ms ".12", which sorts before it. */
  lemma LongerFractionExample(second: string)
    ensures Nanos("1") < Nanos("12") && Less(Stamp(second, "12"), Stamp(second, "1"))
  {
    assert "1" < "12";
    ProperPrefixLess("1", "12");
    NanosInOrder("1", "12");
    StampsInOrder(second, "12", "1");
  }

  /** Times in different seconds are in the order of the seconds' texts, which have one length. */
  lemma {:induction false} DifferentSecondsInOrder(s: string, t: string, a: string, b: string)
    requires |s| == |t| && s != t
    ensures Less(Stamp(s, a), Stamp(t, b)) <==> Less(s, t)
  {
    var x := if a == "" then "Z" else "." + a + "Z";
    var y := if b == "" then "Z" else "." + b + "Z";
    assert Stamp(s, a) == s + x && Stamp(t, b) == t + y;
    LessByDifference(s, t, x, y);
  }

  lemma {:induction false} LessByDifference(s: string, t: string, x: string, y: string)
    requires |s| == |t| && s != t
    ensures Less(s + x, t + y) <==> Less(s, t)
  {
    assert (s + x)[1..] == s[1..] + x && (t + y)[1..] == t[1..] + y;
    if s[0] == t[0] {
      assert s == [s[0]] + s[1..] && t == [t[0]] + t[1..];
      LessByDifference(s[1..], t[1..], x, y);
    }
  }

  // -------------------------------------------------------------- lost events

  /** An event is stored and forwarded, then a second one is stored. */
  function OneThenAnother(first: Row, second: Row): seq<Event> {
    [Append(first), Poll, Append(second)]
  }

  /** Where the forwarder stands then: the second row is late, or pending. */
  lemma AfterOneThenAnother(first: Row, second: Row, batch: nat)
    requires first.at != "" && first.id != second.id && batch > 0
    ensures Run(Start([]), OneThenAnother(first, second), batch)
            == State(InsertRow([first], second), KeyOf(first), [first])
  {
    var schedule := OneThenAnother(first, second);
    var s1 := State([first], Key("", ""), []);
    var s2 := State([first], KeyOf(first), [first]);
    assert Step(Start([]), schedule[0], batch) == s1;
    assert Above([first][1..], Key("", "")) == [];
    assert Step(s1, schedule[1..][0], batch) == s2;
    assert schedule[1..][1..] == [Append(second)];
    assert Run(s1, schedule[1..], batch) == Run(s2, [Append(second)], batch);
    RunOne(s2, Append(second), batch);
  }

  /** The forwarder has come to an event of a second, whatever happened before.
      A later event of that second that arrives now is lost to it for good
      exactly when its fraction extends the first one's. */
  lemma LaterEventIsLostIff(s: State, start: Key, second: string, a: string, b: string, later: Row, batch: nat)
    requires Trimmed(a) && Trimmed(b) && Nanos(a) < Nanos(b) && batch > 0
    requires Good(s, start) && s.cursor.at == Stamp(second, a)
    requires later.at == Stamp(second, b) && !HasId(s.rows, later.id)
    ensures (forall more: seq<Event> :: later !in Run(Step(s, Append(later), batch), more, batch).output) <==> a < b
  {
    NanosInOrder(a, b);
    LessIrreflexive(a);
    LessAsymmetric(a, b);
    StampsInOrder(second, b, a);
    StampsInOrder(second, a, b);
    if a < b {
      NotBefore(KeyOf(later), s.cursor);
    }
    ArrivalIsLostIff(s, start, later, batch);
  }

  /** An event of a later second than the one that the forwarder has come to is
      never lost: whatever happens after it has arrived, it has been sent or
      polls still send it. */
  lemma LaterSecondIsNeverLost(s: State, start: Key, second: string, next: string, a: string, b: string, later: Row,
                               more: seq<Event>, batch: nat) returns (rest: seq<Event>)
    requires |second| == |next| && Less(second, next) && batch > 0
    requires Good(s, start) && s.cursor.at == Stamp(second, a)
    requires later.at == Stamp(next, b) && !HasId(s.rows, later.id)
    ensures later in Run(Step(s, Append(later), batch), more + rest, batch).output
  {
    LessIrreflexive(second);
    DifferentSecondsInOrder(second, next, a, b);
    StepKeepsTable(s, Append(later), batch);
    InsertMembers(s.rows, later);
    rest := TimelyIsSent(Step(s, Append(later), batch), more, batch, later);
  }

  /** The case of a whole second, for any text after the dot. */
  lemma FractionIsLateAfterWholeSecond(second: string, fraction: string, a: string, b: string, batch: nat)
    requires second != "" && a != b && batch > 0
    ensures var whole, later := Row(second + "Z", a, ""), Row(second + "." + fraction + "Z", b, "");
            && Less(later.at, whole.at)
            && forall more: seq<Event> ::
                 later !in Run(Start([]), OneThenAnother(whole, later) + more, batch).output
  {
    var whole, later := Row(second + "Z", a, ""), Row(second + "." + fraction + "Z", b, "");
    LessAfterSameStart(second, "." + fraction + "Z", "Z");
    assert second + ("." + fraction + "Z") == later.at;
    AfterOneThenAnother(whole, later, batch);
    InsertKeepsTable([whole], later);
    InsertMembers([whole], later);
    assert later in InsertRow([whole], later);
    NotBefore(KeyOf(later), KeyOf(whole));
    forall more: seq<Event> ensures later !in Run(Start([]), OneThenAnother(whole, later) + more, batch).output {
      RunConcat(Start([]), OneThenAnother(whole, later), more, batch);
      PassedIsNeverSent(State(InsertRow([whole], later), KeyOf(whole), [whole]), more, batch, later);
    }
  }
}
