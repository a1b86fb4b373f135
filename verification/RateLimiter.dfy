/** The fixed-window limiter in front of sign-in, vault unlock and connection
    tests (internal/httpapi/security.go, sensitiveRateLimit and
    rateLimiterAllow). Times are nanoseconds read from one clock. */
module RateLimiter {

  const MINUTE := 60_000_000_000

  datatype Config = Config(enabled: bool, login: int, unlock: int, connectionTest: int, window: int) {
    function Limit(path: string): int {
      if path == "/auth/login" then login
      else if path == "/api/vault/unlock" then unlock
      else if path == "/api/connections/test" then connectionTest
      else 0
    }

    function Window(): (w: int)
      ensures w > 0
    {
      if window <= 0 then MINUTE else window
    }

    predicate Limits(path: string) {
      enabled && Limit(path) > 0
    }
  }

  datatype Request = Request(address: string, path: string, now: int)

  datatype RateWindow = RateWindow(started: int, count: int)

  type Entries = map<string, RateWindow>

  function EntryKey(address: string, path: string): string {
    address + "\U{0000}" + path
  }

  /** Addresses without NUL characters cannot share an entry. */
  lemma EntryKeyInjective(a: string, p: string, b: string, q: string)
    requires '\U{0000}' !in a && '\U{0000}' !in b && EntryKey(a, p) == EntryKey(b, q)
    ensures a == b && p == q
  {
    var k := EntryKey(a, p);
    forall i | 0 <= i < |a| ensures k[i] != '\U{0000}' {
      assert k[i] == a[i] && a[i] in a;
    }
    forall i | 0 <= i < |b| ensures k[i] != '\U{0000}' {
      assert k[i] == b[i] && b[i] in b;
    }
    assert k[|a|] == '\U{0000}' && k[|b|] == '\U{0000}';
    assert a == k[..|a|] && b == k[..|b|];
    assert p == k[|a| + 1..] && q == k[|b| + 1..];
  }

  /** Whether the limiter admits a request, and the entries after it. */
  function Decide(entries: Entries, k: string, limit: int, window: int, now: int): (bool, Entries) {
    if k !in entries || now - entries[k].started >= window then (true, entries[k := RateWindow(now, 1)])
    else if entries[k].count >= limit then (false, entries)
    else (true, entries[k := entries[k].(count := entries[k].count + 1)])
  }

  /** Whether a request is served: paths without a limit always are. */
  function Serve(c: Config, entries: Entries, r: Request): (bool, Entries) {
    if !c.Limits(r.path) then (true, entries)
    else Decide(entries, EntryKey(r.address, r.path), c.Limit(r.path), c.Window(), r.now)
  }

  class Limiter {
    const config: Config
    var entries: Entries

    constructor (config: Config)
      ensures this.config == config && entries == map[]
    {
      this.config, this.entries := config, map[];
    }

    /** rateLimiterAllow; a missing entry has the zero start time. */
    method Allow(key: string, path: string, limit: int, window: int, now: int) returns (allowed: bool)
      modifies this
      ensures (allowed, entries) == Decide(old(entries), EntryKey(key, path), limit, window, now)
    {
      var entryKey := EntryKey(key, path);
      if entryKey !in entries || now - entries[entryKey].started >= window {
        entries := entries[entryKey := RateWindow(now, 1)];
        return true;
      }
      var entry := entries[entryKey];
      if entry.count >= limit {
        return false;
      }
      entry := entry.(count := entry.count + 1);
      entries := entries[entryKey := entry];
      return true;
    }

    /** A request under one setting: served untouched when the limiter is off or
        the setting is not positive, and otherwise decided for that limit and the
        window, or a minute. */
    ghost predicate Limited(limit: int, r: Request, served: bool, before: Entries, after: Entries) {
      if !config.enabled || limit <= 0 then served && after == before
      else
        (served, after) == Decide(before, EntryKey(r.address, r.path), limit,
                                  if config.window > 0 then config.window else 60_000_000_000, r.now)
    }

    /** sensitiveRateLimit. Paths without a setting are served untouched. */
    method Handle(r: Request) returns (served: bool)
      modifies this
      ensures (served, entries) == Serve(config, old(entries), r)
      ensures !config.enabled ==> served && entries == old(entries)
      ensures r.path != "/auth/login" && r.path != "/api/vault/unlock" && r.path != "/api/connections/test" ==>
                served && entries == old(entries)
      ensures r.path == "/auth/login" ==> Limited(config.login, r, served, old(entries), entries)
      ensures r.path == "/api/vault/unlock" ==> Limited(config.unlock, r, served, old(entries), entries)
      ensures r.path == "/api/connections/test" ==> Limited(config.connectionTest, r, served, old(entries), entries)
    {
      if !config.enabled {
        return true;
      }
      var limit := 0;
      if r.path == "/auth/login" || r.path == "/api/vault/unlock" {
        if r.path == "/auth/login" {
          limit := config.login;
        } else {
          limit := config.unlock;
        }
      } else if r.path == "/api/connections/test" {
        limit := config.connectionTest;
      }
      var window := config.window;
      if window <= 0 {
        window := MINUTE;
      }
      if limit <= 0 {
        return true;
      }
      served := Allow(r.address, r.path, limit, window, r.now);
    }
  }

  // ------------------------------------------------------------------ traces

  /** The entries after the first `n` requests to a server that starts empty. */
  function After(c: Config, trace: seq<Request>, n: nat): Entries
    requires n <= |trace|
  {
    if n == 0 then map[] else Serve(c, After(c, trace, n - 1), trace[n - 1]).1
  }

  predicate Served(c: Config, trace: seq<Request>, i: nat)
    requires i < |trace|
  {
    Serve(c, After(c, trace, i), trace[i]).0
  }

  ghost predicate Ordered(trace: seq<Request>) {
    forall i, j :: 0 <= i < j < |trace| ==> trace[i].now <= trace[j].now
  }

  ghost predicate NoNul(trace: seq<Request>) {
    forall i :: 0 <= i < |trace| ==> '\U{0000}' !in trace[i].address
  }

  /** The window, if any, that one client has open on one path. */
  ghost predicate Opened(c: Config, trace: seq<Request>, n: nat, address: string, path: string, w: RateWindow)
    requires n <= |trace|
  {
    EntryKey(address, path) in After(c, trace, n) && After(c, trace, n)[EntryKey(address, path)] == w
  }

  predicate By(r: Request, address: string, path: string) {
    r.address == address && r.path == path
  }

  /** A request of another client or path leaves the entry alone. */
  lemma OthersDoNotTouch(c: Config, trace: seq<Request>, n: nat, address: string, path: string)
    requires n < |trace| && NoNul(trace) && '\U{0000}' !in address && !By(trace[n], address, path)
    ensures var k := EntryKey(address, path);
            && (k in After(c, trace, n + 1) <==> k in After(c, trace, n))
            && (k in After(c, trace, n) ==> After(c, trace, n + 1)[k] == After(c, trace, n)[k])
  {
    if EntryKey(address, path) == EntryKey(trace[n].address, trace[n].path) {
      EntryKeyInjective(address, path, trace[n].address, trace[n].path);
    }
  }

  // ------------------------------------------------- at most twice the limit

  /** How many of the first `n` requests were served to one client on one path
      at times from `start` to `end`, both included. */
  function ServedWithin(c: Config, trace: seq<Request>, n: nat, address: string, path: string, start: int, end: int)
    : nat
    requires n <= |trace|
  {
    if n == 0 then 0
    else
      ServedWithin(c, trace, n - 1, address, path, start, end)
      + if By(trace[n - 1], address, path) && start <= trace[n - 1].now <= end && Served(c, trace, n - 1) then 1 else 0
  }

  /** What the open window says about the number served since `start`. */
  ghost predicate Bounded(w: RateWindow, served: int, start: int, limit: int, window: int) {
    && 1 <= w.count <= limit
    && (if w.started < start then served <= w.count && (served > 0 ==> start < w.started + window)
        else if w.started == start then served <= w.count
        else if w.started <= start + window then served <= limit + w.count
        else served <= 2 * limit)
  }

  lemma {:induction false} ServedIsBounded(c: Config, trace: seq<Request>, n: nat, address: string, path: string,
                                           start: int)
    requires n <= |trace| && NoNul(trace) && Ordered(trace) && '\U{0000}' !in address && c.Limits(path)
    ensures var k := EntryKey(address, path);
            var served := ServedWithin(c, trace, n, address, path, start, start + c.Window());
            if k in After(c, trace, n)
            then Bounded(After(c, trace, n)[k], served, start, c.Limit(path), c.Window())
                 && forall j :: n <= j < |trace| ==> After(c, trace, n)[k].started <= trace[j].now
            else served == 0
  {
    if n > 0 {
      ServedIsBounded(c, trace, n - 1, address, path, start);
      if !By(trace[n - 1], address, path) {
        OthersDoNotTouch(c, trace, n - 1, address, path);
      }
    }
  }

  /** In any span of one window length, both ends included, one client is
      served at most twice the limit on one path. */
  lemma AtMostTwiceTheLimit(c: Config, trace: seq<Request>, address: string, path: string, start: int)
    requires NoNul(trace) && Ordered(trace) && '\U{0000}' !in address && c.Limits(path)
    ensures ServedWithin(c, trace, |trace|, address, path, start, start + c.Window()) <= 2 * c.Limit(path)
  {
    ServedIsBounded(c, trace, |trace|, address, path, start);
  }

  /** `limit` requests at one instant, and `limit` more a window later. */
  ghost predicate Burst(trace: seq<Request>, address: string, path: string, start: int, window: int, limit: nat) {
    && |trace| == 2 * limit
    && forall i :: 0 <= i < |trace| ==> trace[i] == Request(address, path, if i < limit then start else start + window)
  }

  /** The client's next request in its open window, or after it. */
  lemma OpenedNext(c: Config, trace: seq<Request>, n: nat, w: RateWindow)
    requires n < |trace| && c.Limits(trace[n].path) && Opened(c, trace, n, trace[n].address, trace[n].path, w)
    ensures var r := trace[n];
            && (r.now - w.started >= c.Window() ==>
                  Served(c, trace, n) && Opened(c, trace, n + 1, r.address, r.path, RateWindow(r.now, 1)))
            && (r.now - w.started < c.Window() && w.count < c.Limit(r.path) ==>
                  Served(c, trace, n)
                  && Opened(c, trace, n + 1, r.address, r.path, RateWindow(w.started, w.count + 1)))
  {
  }

  lemma {:induction false} BurstIsServed(c: Config, trace: seq<Request>, address: string, path: string, start: int,
                                         n: nat)
    requires c.Limits(path) && Burst(trace, address, path, start, c.Window(), c.Limit(path)) && n <= |trace|
    ensures ServedWithin(c, trace, n, address, path, start, start + c.Window()) == n
    ensures n > 0 ==> Opened(c, trace, n, address, path,
                             if n <= c.Limit(path) then RateWindow(start, n)
                             else RateWindow(start + c.Window(), n - c.Limit(path)))
  {
    if n > 0 {
      var limit := c.Limit(path);
      BurstIsServed(c, trace, address, path, start, n - 1);
      assert By(trace[n - 1], address, path);
      if n > 1 {
        OpenedNext(c, trace, n - 1, if n - 1 <= limit then RateWindow(start, n - 1)
                                    else RateWindow(start + c.Window(), n - 1 - limit));
      }
    }
  }

  /** The bound is reached, for every limit and window. */
  lemma TwiceTheLimitIsReached(c: Config, address: string, path: string, start: int) returns (trace: seq<Request>)
    requires c.Limits(path)
    ensures Ordered(trace)
    ensures ServedWithin(c, trace, |trace|, address, path, start, start + c.Window()) == 2 * c.Limit(path)
  {
    var limit, window := c.Limit(path), c.Window();
    trace := seq(2 * limit, i requires 0 <= i < 2 * limit =>
      Request(address, path, if i < limit then start else start + window));
    BurstIsServed(c, trace, address, path, start, |trace|);
  }

  // ------------------------------------------------------ one window exactly

  /** Request `i` opens a new window. */
  ghost predicate Opens(c: Config, trace: seq<Request>, i: nat)
    requires i < |trace|
  {
    var k := EntryKey(trace[i].address, trace[i].path);
    c.Limits(trace[i].path)
    && (k !in After(c, trace, i) || trace[i].now - After(c, trace, i)[k].started >= c.Window())
  }

  function Requests(trace: seq<Request>, i: nat, n: nat, address: string, path: string): nat
    requires i <= n <= |trace|
  {
    if i == n then 0 else Requests(trace, i, n - 1, address, path) + if By(trace[n - 1], address, path) then 1 else 0
  }

  function ServedBetween(c: Config, trace: seq<Request>, i: nat, n: nat, address: string, path: string): nat
    requires i <= n <= |trace|
  {
    if i == n then 0
    else
      ServedBetween(c, trace, i, n - 1, address, path)
      + if By(trace[n - 1], address, path) && Served(c, trace, n - 1) then 1 else 0
  }

  function Min(a: int, b: int): int {
    if a <= b then a else b
  }

  /** A window serves the client's first `limit` requests in it and no others. */
  lemma {:induction false} WindowServesTheLimit(c: Config, trace: seq<Request>, i: nat, n: nat)
    requires i < n <= |trace| && NoNul(trace) && Opens(c, trace, i)
    requires forall j :: i < j < n && By(trace[j], trace[i].address, trace[i].path) ==>
               trace[j].now - trace[i].now < c.Window()
    ensures var r := trace[i];
            var served := Min(c.Limit(r.path), Requests(trace, i, n, r.address, r.path));
            && ServedBetween(c, trace, i, n, r.address, r.path) == served
            && Opened(c, trace, n, r.address, r.path, RateWindow(r.now, served))
  {
    if i < n - 1 {
      WindowServesTheLimit(c, trace, i, n - 1);
      if !By(trace[n - 1], trace[i].address, trace[i].path) {
        OthersDoNotTouch(c, trace, n - 1, trace[i].address, trace[i].path);
      }
    }
  }

  // ------------------------------------------------------------ independence

  /** The served requests of one client on one path, among the first `n`. */
  function OwnServed(c: Config, trace: seq<Request>, n: nat, address: string, path: string): seq<Request>
    requires n <= |trace|
  {
    if n == 0 then []
    else if By(trace[n - 1], address, path) && Served(c, trace, n - 1)
    then OwnServed(c, trace, n - 1, address, path) + [trace[n - 1]]
    else OwnServed(c, trace, n - 1, address, path)
  }

  lemma {:induction false} AfterPrefix(c: Config, a: seq<Request>, b: seq<Request>, n: nat)
    requires n <= |a| && a <= b
    ensures After(c, a, n) == After(c, b, n)
  {
    if n > 0 {
      AfterPrefix(c, a, b, n - 1);
    }
  }

  ghost predicate SameEntry(a: Entries, b: Entries, k: string) {
    (k in a <==> k in b) && (k in a ==> a[k] == b[k])
  }

  lemma AfterOneMore(c: Config, before: seq<Request>, r: Request)
    ensures After(c, before + [r], |before| + 1) == Serve(c, After(c, before, |before|), r).1
  {
    AfterPrefix(c, before, before + [r], |before|);
  }

  /** With the same entry, a request fares the same and leaves the same entry. */
  lemma SameEntryServes(c: Config, a: Entries, b: Entries, r: Request)
    requires SameEntry(a, b, EntryKey(r.address, r.path))
    ensures Serve(c, a, r).0 == Serve(c, b, r).0
    ensures SameEntry(Serve(c, a, r).1, Serve(c, b, r).1, EntryKey(r.address, r.path))
    ensures !Serve(c, a, r).0 ==> Serve(c, a, r).1 == a
  {
  }

  /** The client's own requests after one more of them. */
  lemma OwnServedOneMore(c: Config, trace: seq<Request>, n: nat, address: string, path: string)
    requires 0 < n <= |trace| && By(trace[n - 1], address, path)
    ensures var own, before := OwnServed(c, trace, n, address, path), OwnServed(c, trace, n - 1, address, path);
            After(c, own, |own|) == if Served(c, trace, n - 1)
                                    then Serve(c, After(c, before, |before|), trace[n - 1]).1
                                    else After(c, before, |before|)
  {
    AfterOneMore(c, OwnServed(c, trace, n - 1, address, path), trace[n - 1]);
  }

  lemma {:induction false} OwnServedKeepEntry(c: Config, trace: seq<Request>, n: nat, address: string, path: string)
    requires n <= |trace| && NoNul(trace) && '\U{0000}' !in address
    ensures var own := OwnServed(c, trace, n, address, path);
            SameEntry(After(c, trace, n), After(c, own, |own|), EntryKey(address, path))
  {
    if n > 0 {
      OwnServedKeepEntry(c, trace, n - 1, address, path);
      if !By(trace[n - 1], address, path) {
        OthersDoNotTouch(c, trace, n - 1, address, path);
      } else {
        var before := OwnServed(c, trace, n - 1, address, path);
        SameEntryServes(c, After(c, trace, n - 1), After(c, before, |before|), trace[n - 1]);
        OwnServedOneMore(c, trace, n, address, path);
      }
    }
  }

  /** Rejected requests, and requests of other clients or paths, change no
      outcome: without them the next request fares the same. */
  lemma OnlyOwnServedRequestsMatter(c: Config, trace: seq<Request>, n: nat, r: Request)
    requires n <= |trace| && NoNul(trace) && '\U{0000}' !in r.address
    ensures var own := OwnServed(c, trace, n, r.address, r.path);
            Serve(c, After(c, trace, n), r).0 == Serve(c, After(c, own, |own|), r).0
  {
    var own := OwnServed(c, trace, n, r.address, r.path);
    OwnServedKeepEntry(c, trace, n, r.address, r.path);
    SameEntryServes(c, After(c, trace, n), After(c, own, |own|), r);
  }
}
