/** Exporting and importing the whole database (internal/vault/backup.go).
    Whether a text is a time or JSON is left to the two tests `isTime` and
    `isJson`. */
module Backup {
  import opened Wrappers
  import Text
  import opened AuditEvents

  datatype VaultRow = VaultRow(salt: string, nonce: string, ciphertext: string, updatedAt: string)
  datatype OrganizationRow = OrganizationRow(encrypted: string, updatedAt: string)
  datatype PreferenceRow = PreferenceRow(settingsJson: string, updatedAt: string)

  /** The four tables; the first three by primary key, audit events in key order. */
  datatype Database = Database(
    vaults: map<string, VaultRow>, organizations: map<string, OrganizationRow>,
    preferences: map<string, PreferenceRow>, auditEvents: seq<Row>)

  datatype Record<V> = Record(key: string, row: V)

  datatype Bundle = Bundle(
    format: string, version: int, exportedAt: string, vaults: seq<Record<VaultRow>>,
    organizations: seq<Record<OrganizationRow>>, preferences: seq<Record<PreferenceRow>>, auditEvents: seq<Row>)

  const FORMAT := "mariner-export"
  const VERSION := 1

  datatype Error =
    | BadFormat | NoTime | BadTime | BadVaults | BadOrganizations | BadPreferences | BadAuditEvents | BadAuditJson
    | StoreFailed | DuplicateKey

  // ---------------------------------------------------------------- exporting

  function Keys<V>(records: seq<Record<V>>): (keys: seq<string>)
    ensures |keys| == |records| && forall i :: 0 <= i < |keys| ==> keys[i] == records[i].key
  {
    seq(|records|, i requires 0 <= i < |records| => records[i].key)
  }

  ghost predicate Lists<V(!new)>(records: seq<Record<V>>, table: map<string, V>) {
    && (forall i :: 0 <= i < |records| ==> records[i].key in table && table[records[i].key] == records[i].row)
    && (forall k :: k in table ==> exists i :: 0 <= i < |records| && records[i].key == k)
  }

  ghost predicate Exports(db: Database, b: Bundle) {
    && b.format == FORMAT && b.version == VERSION
    && Lists(b.vaults, db.vaults) && Text.Ascending(Keys(b.vaults))
    && Lists(b.organizations, db.organizations) && Text.Ascending(Keys(b.organizations))
    && Lists(b.preferences, db.preferences) && Text.Ascending(Keys(b.preferences))
    && b.auditEvents == db.auditEvents
  }

  /** SELECT ... ORDER BY key. */
  method SelectAll<V(!new)>(table: map<string, V>) returns (records: seq<Record<V>>)
    ensures Lists(records, table) && Text.Ascending(Keys(records))
  {
    var keys := Text.SortedNames(table.Keys);
    assert forall i :: 0 <= i < |keys| ==> keys[i] in keys;
    records := seq(|keys|, i requires 0 <= i < |keys| && keys[i] in table => Record(keys[i], table[keys[i]]));
    assert Keys(records) == keys;
    forall k | k in table ensures exists i :: 0 <= i < |records| && records[i].key == k {
      assert k in keys;
      var i :| 0 <= i < |keys| && keys[i] == k;
      assert records[i].key == k;
    }
  }

  // --------------------------------------------------------------- validating

  ghost predicate GoodKeys(keys: seq<string>) {
    (forall i :: 0 <= i < |keys| ==> keys[i] != "") && Text.Distinct(keys)
  }

  function Ids(rows: seq<Row>): (ids: seq<string>)
    ensures |ids| == |rows| && forall i :: 0 <= i < |ids| ==> ids[i] == rows[i].id
  {
    seq(|rows|, i requires 0 <= i < |rows| => rows[i].id)
  }

  ghost predicate AllJson(rows: seq<Row>, isJson: string -> bool) {
    forall i :: 0 <= i < |rows| ==> isJson(rows[i].json)
  }

  ghost predicate GoodHeader(b: Bundle, isTime: string -> bool) {
    b.format == FORMAT && b.version == VERSION && b.exportedAt != "" && isTime(b.exportedAt)
  }

  ghost predicate Accepted(b: Bundle, isTime: string -> bool, isJson: string -> bool) {
    && GoodHeader(b, isTime)
    && GoodKeys(Keys(b.vaults)) && GoodKeys(Keys(b.organizations)) && GoodKeys(Keys(b.preferences))
    && GoodKeys(Ids(b.auditEvents)) && AllJson(b.auditEvents, isJson)
  }

  /** One loop over a table's records; vault users are remembered behind a mark. */
  method ValidateKeys(keys: seq<string>, mark: string) returns (ok: bool)
    ensures ok <==> GoodKeys(keys)
  {
    var seen: set<string> := {};
    for i := 0 to |keys|
      invariant forall j :: 0 <= j < i ==> keys[j] != "" && mark + keys[j] in seen
      invariant forall x :: x in seen ==> exists j :: 0 <= j < i && x == mark + keys[j]
      invariant forall j, k :: 0 <= j < k < i ==> keys[j] != keys[k]
    {
      if keys[i] == "" {
        return false;
      }
      if mark + keys[i] in seen {
        var j :| 0 <= j < i && mark + keys[i] == mark + keys[j];
        SameAfterMark(mark, keys[i], keys[j]);
        return false;
      }
      seen := seen + {mark + keys[i]};
    }
    return true;
  }

  lemma SameAfterMark(mark: string, a: string, b: string)
    requires mark + a == mark + b
    ensures a == b
  {
    assert (mark + a)[|mark|..] == a && (mark + b)[|mark|..] == b;
  }

  /** What is wrong with an audit event, if the ones before it are right. */
  ghost function RowFault(rows: seq<Row>, i: nat, isJson: string -> bool): Option<Error>
    requires i < |rows|
  {
    if rows[i].id == "" || rows[i].id in Ids(rows)[..i] then Some(BadAuditEvents)
    else if !isJson(rows[i].json) then Some(BadAuditJson)
    else None
  }

  ghost predicate FirstFault(rows: seq<Row>, isJson: string -> bool, error: Option<Error>) {
    exists i :: 0 <= i < |rows| && RowFault(rows, i, isJson) == error
                && forall j :: 0 <= j < i ==> RowFault(rows, j, isJson) == None
  }

  /** The loop over audit events checks id and content of each in turn, and
      names the first fault. */
  method ValidateAudit(rows: seq<Row>, isJson: string -> bool) returns (error: Option<Error>)
    ensures error == None <==> GoodKeys(Ids(rows)) && AllJson(rows, isJson)
    ensures error.Some? ==> error.value == BadAuditEvents || error.value == BadAuditJson
    ensures error.Some? ==> FirstFault(rows, isJson, error)
  {
    var seen: set<string> := {};
    var ids := Ids(rows);
    for i := 0 to |rows|
      invariant forall j :: 0 <= j < i ==> ids[j] != "" && isJson(rows[j].json)
      invariant forall x :: x in seen <==> x in ids[..i]
      invariant forall j, k :: 0 <= j < k < i ==> ids[j] != ids[k]
      invariant forall j :: 0 <= j < i ==> RowFault(rows, j, isJson) == None
    {
      if rows[i].id == "" || rows[i].id in seen {
        assert rows[i].id == ids[i];
        assert RowFault(rows, i, isJson) == Some(BadAuditEvents);
        return Some(BadAuditEvents);
      }
      seen := seen + {rows[i].id};
      if !isJson(rows[i].json) {
        assert RowFault(rows, i, isJson) == Some(BadAuditJson);
        return Some(BadAuditJson);
      }
      assert ids[..i + 1] == ids[..i] + [ids[i]];
    }
    return None;
  }

  /** What validation answers: nothing for an accepted bundle, or the first fault
      in the order of the checks. */
  ghost predicate Verdict(b: Bundle, isTime: string -> bool, isJson: string -> bool, error: Option<Error>) {
    && (error == None <==> Accepted(b, isTime, isJson))
    && (error == Some(BadFormat) <==> b.format != FORMAT || b.version != VERSION)
    && (error == Some(NoTime) <==> b.format == FORMAT && b.version == VERSION && b.exportedAt == "")
    && (error == Some(BadTime) <==>
        b.format == FORMAT && b.version == VERSION && b.exportedAt != "" && !isTime(b.exportedAt))
    && (error == Some(BadVaults) <==> GoodHeader(b, isTime) && !GoodKeys(Keys(b.vaults)))
    && (error == Some(BadOrganizations) <==>
        GoodHeader(b, isTime) && GoodKeys(Keys(b.vaults)) && !GoodKeys(Keys(b.organizations)))
    && (error == Some(BadPreferences) <==>
        GoodHeader(b, isTime) && GoodKeys(Keys(b.vaults)) && GoodKeys(Keys(b.organizations))
        && !GoodKeys(Keys(b.preferences)))
    && (error == Some(BadAuditEvents) || error == Some(BadAuditJson) ==> FirstFault(b.auditEvents, isJson, error))
    && error != Some(DuplicateKey) && error != Some(StoreFailed)
  }

  method ValidateExportBundle(b: Bundle, isTime: string -> bool, isJson: string -> bool) returns (error: Option<Error>)
    ensures Verdict(b, isTime, isJson, error)
  {
    if b.format != FORMAT || b.version != VERSION {
      return Some(BadFormat);
    }
    if b.exportedAt == "" {
      return Some(NoTime);
    }
    if !isTime(b.exportedAt) {
      return Some(BadTime);
    }
    var ok := ValidateKeys(Keys(b.vaults), "v:");
    if !ok {
      return Some(BadVaults);
    }
    ok := ValidateKeys(Keys(b.organizations), "");
    if !ok {
      return Some(BadOrganizations);
    }
    ok := ValidateKeys(Keys(b.preferences), "");
    if !ok {
      return Some(BadPreferences);
    }
    error := ValidateAudit(b.auditEvents, isJson);
  }

  // ---------------------------------------------------------------- importing

  /** The table after inserting records whose keys are new. */
  function Inserted<V>(records: seq<Record<V>>): map<string, V> {
    if records == [] then map[]
    else
      var last := |records| - 1;
      Inserted(records[..last])[records[last].key := records[last].row]
  }

  function InsertedRows(rows: seq<Row>): seq<Row> {
    if rows == [] then [] else InsertRow(InsertedRows(rows[..|rows| - 1]), rows[|rows| - 1])
  }

  lemma {:induction false} InsertedKeys<V(!new)>(records: seq<Record<V>>)
    ensures forall k :: k in Inserted(records) <==> k in Keys(records)
  {
    if records != [] {
      var last := |records| - 1;
      InsertedKeys(records[..last]);
      assert Keys(records) == Keys(records[..last]) + [records[last].key];
    }
  }

  lemma {:induction false} InsertedRowsMembers(rows: seq<Row>)
    ensures forall r :: r in InsertedRows(rows) <==> r in rows
  {
    if rows != [] {
      var last := |rows| - 1;
      InsertedRowsMembers(rows[..last]);
      InsertMembers(InsertedRows(rows[..last]), rows[last]);
      assert rows == rows[..last] + [rows[last]];
    }
  }

  /** INSERTs of a table, one by one. A key that is taken fails, and so may any call. */
  method InsertAll<V(!new)>(records: seq<Record<V>>, reliable: bool)
    returns (table: map<string, V>, error: Option<Error>)
    requires GoodKeys(Keys(records))
    ensures error == None ==> table == Inserted(records)
    ensures error == None || (error == Some(StoreFailed) && !reliable)
  {
    table, error := map[], None;
    for i := 0 to |records|
      invariant table == Inserted(records[..i])
    {
      var failed: bool := *;
      if failed && !reliable {
        return table, Some(StoreFailed);
      }
      NewKey(records, i);
      if records[i].key in table {
        return table, Some(DuplicateKey);
      }
      assert records[..i + 1][..i] == records[..i];
      table := table[records[i].key := records[i].row];
    }
    assert records[..|records|] == records;
  }

  lemma NewKey<V(!new)>(records: seq<Record<V>>, i: nat)
    requires i < |records| && GoodKeys(Keys(records))
    ensures records[i].key !in Inserted(records[..i])
  {
    InsertedKeys(records[..i]);
    assert forall j :: 0 <= j < i ==> Keys(records[..i])[j] == Keys(records)[j];
  }

  method InsertAllRows(rows: seq<Row>, reliable: bool) returns (table: seq<Row>, error: Option<Error>)
    requires GoodKeys(Ids(rows))
    ensures error == None ==> table == InsertedRows(rows)
    ensures error == None || (error == Some(StoreFailed) && !reliable)
  {
    table, error := [], None;
    for i := 0 to |rows|
      invariant table == InsertedRows(rows[..i])
    {
      var failed: bool := *;
      if failed && !reliable {
        return table, Some(StoreFailed);
      }
      NewId(rows, i);
      if HasId(table, rows[i].id) {
        return table, Some(DuplicateKey);
      }
      assert rows[..i + 1][..i] == rows[..i];
      table := InsertRow(table, rows[i]);
    }
    assert rows[..|rows|] == rows;
  }

  lemma NewId(rows: seq<Row>, i: nat)
    requires i < |rows| && GoodKeys(Ids(rows))
    ensures !HasId(InsertedRows(rows[..i]), rows[i].id)
  {
    InsertedRowsMembers(rows[..i]);
    var before := InsertedRows(rows[..i]);
    forall k | 0 <= k < |before| ensures before[k].id != rows[i].id {
      assert before[k] in rows[..i];
      var j :| 0 <= j < i && rows[..i][j] == before[k];
      assert Ids(rows)[j] != Ids(rows)[i];
    }
  }

  function Restored(b: Bundle): Database {
    Database(Inserted(b.vaults), Inserted(b.organizations), Inserted(b.preferences), InsertedRows(b.auditEvents))
  }

  class Store {
    var db: Database

    constructor (db: Database)
      ensures this.db == db
    {
      this.db := db;
    }

    method ExportBundle(exportedAt: string, reliable: bool) returns (bundle: Option<Bundle>)
      ensures reliable ==> bundle.Some?
      ensures bundle.Some? ==> Exports(db, bundle.value) && bundle.value.exportedAt == exportedAt
    {
      var failed: bool := *;
      if failed && !reliable {
        return None;
      }
      var vaults := SelectAll(db.vaults);
      var organizations := SelectAll(db.organizations);
      var preferences := SelectAll(db.preferences);
      return Some(Bundle(FORMAT, VERSION, exportedAt, vaults, organizations, preferences, db.auditEvents));
    }

    /** All or nothing, in one transaction; `reliable`: no call to the database fails. */
    method ImportBundle(b: Bundle, isTime: string -> bool, isJson: string -> bool, reliable: bool)
      returns (error: Option<Error>)
      modifies this
      ensures error.Some? ==> db == old(db)
      ensures error.None? ==> db == Restored(b) && Accepted(b, isTime, isJson)
      ensures reliable ==> (error.None? <==> Accepted(b, isTime, isJson))
      ensures error == Some(StoreFailed) ==> !reliable && Accepted(b, isTime, isJson)
      ensures error != Some(StoreFailed) ==> Verdict(b, isTime, isJson, error)
      ensures error != Some(DuplicateKey)
    {
      error := ValidateExportBundle(b, isTime, isJson);
      if error.Some? {
        return;
      }
      var vaults, organizations, preferences, auditEvents;
      vaults, error := InsertAll(b.vaults, reliable);
      if error.Some? {
        return;
      }
      organizations, error := InsertAll(b.organizations, reliable);
      if error.Some? {
        return;
      }
      preferences, error := InsertAll(b.preferences, reliable);
      if error.Some? {
        return;
      }
      auditEvents, error := InsertAllRows(b.auditEvents, reliable);
      if error.Some? {
        return;
      }
      var failed: bool := *;
      if failed && !reliable {
        return Some(StoreFailed);
      }
      db := Database(vaults, organizations, preferences, auditEvents);
    }
  }

  // --------------------------------------------------------------- round trip

  lemma {:induction false} InsertedListed<V(!new)>(records: seq<Record<V>>, table: map<string, V>)
    requires forall i :: 0 <= i < |records| ==> records[i].key in table && table[records[i].key] == records[i].row
    ensures forall k :: k in Inserted(records) ==> k in table && Inserted(records)[k] == table[k]
  {
    if records != [] {
      InsertedListed(records[..|records| - 1], table);
    }
  }

  lemma ListedRestores<V(!new)>(records: seq<Record<V>>, table: map<string, V>)
    requires Lists(records, table)
    ensures Inserted(records) == table
  {
    InsertedListed(records, table);
    InsertedKeys(records);
    forall k | k in table ensures k in Inserted(records) {
      var i :| 0 <= i < |records| && records[i].key == k;
      assert Keys(records)[i] == k;
    }
  }

  lemma {:induction false} InsertLast(rows: seq<Row>, r: Row)
    requires forall i :: 0 <= i < |rows| ==> Before(KeyOf(rows[i]), KeyOf(r))
    ensures InsertRow(rows, r) == rows + [r]
  {
    if rows != [] {
      NotBefore(KeyOf(rows[0]), KeyOf(r));
      InsertLast(rows[1..], r);
    }
  }

  lemma {:induction false} OrderedRestores(rows: seq<Row>)
    requires Ordered(rows)
    ensures InsertedRows(rows) == rows
  {
    if rows != [] {
      var last := |rows| - 1;
      OrderedRestores(rows[..last]);
      InsertLast(rows[..last], rows[last]);
    }
  }

  /** Importing what was exported gives back all four tables, whatever was there. */
  lemma ImportRestoresExport(db: Database, b: Bundle)
    requires Exports(db, b) && Table(db.auditEvents)
    ensures Restored(b) == db
  {
    ListedRestores(b.vaults, db.vaults);
    ListedRestores(b.organizations, db.organizations);
    ListedRestores(b.preferences, db.preferences);
    OrderedRestores(db.auditEvents);
  }

  ghost predicate NoEmptyKey<V>(table: map<string, V>) {
    "" !in table
  }

  lemma ListedKeysGood<V(!new)>(records: seq<Record<V>>, table: map<string, V>)
    requires Lists(records, table) && Text.Ascending(Keys(records))
    ensures GoodKeys(Keys(records)) <==> NoEmptyKey(table)
  {
    forall i, j | 0 <= i < j < |records| ensures Keys(records)[i] != Keys(records)[j] {
      Text.LessIrreflexive(Keys(records)[i]);
    }
    if NoEmptyKey(table) {
      assert forall i :: 0 <= i < |records| ==> Keys(records)[i] != "";
    } else {
      var i :| 0 <= i < |records| && records[i].key == "";
      assert Keys(records)[i] == "";
    }
  }

  /** An export is accepted exactly when no primary key is empty and every
      audit event holds valid JSON. */
  lemma ExportAcceptedIff(db: Database, b: Bundle, isTime: string -> bool, isJson: string -> bool)
    requires Exports(db, b) && Table(db.auditEvents) && b.exportedAt != "" && isTime(b.exportedAt)
    ensures Accepted(b, isTime, isJson) <==>
            && NoEmptyKey(db.vaults) && NoEmptyKey(db.organizations) && NoEmptyKey(db.preferences)
            && (forall i :: 0 <= i < |db.auditEvents| ==> db.auditEvents[i].id != "" && isJson(db.auditEvents[i].json))
  {
    ListedKeysGood(b.vaults, db.vaults);
    ListedKeysGood(b.organizations, db.organizations);
    ListedKeysGood(b.preferences, db.preferences);
    assert forall i :: 0 <= i < |db.auditEvents| ==> Ids(b.auditEvents)[i] == db.auditEvents[i].id;
  }

  lemma {:induction false} InsertedHolds<V(!new)>(records: seq<Record<V>>, i: nat)
    requires i < |records| && GoodKeys(Keys(records))
    ensures records[i].key in Inserted(records) && Inserted(records)[records[i].key] == records[i].row
  {
    var last := |records| - 1;
    if i < last {
      var before := records[..last];
      assert forall j :: 0 <= j < last ==> Keys(before)[j] == Keys(records)[j];
      InsertedHolds(before, i);
      assert Keys(records)[i] != Keys(records)[last];
    }
  }

  /** Exporting after an import of any accepted bundle lists its records again. */
  lemma ExportListsImport<V(!new)>(imported: seq<Record<V>>, exported: seq<Record<V>>)
    requires GoodKeys(Keys(imported)) && Lists(exported, Inserted(imported))
    ensures forall r :: r in exported <==> r in imported
  {
    InsertedKeys(imported);
    forall r | r in exported ensures r in imported {
      var i :| 0 <= i < |exported| && exported[i] == r;
      assert r.key in Keys(imported);
      var j :| 0 <= j < |imported| && Keys(imported)[j] == r.key;
      InsertedHolds(imported, j);
      assert imported[j] == r;
    }
    forall r | r in imported ensures r in exported {
      var j :| 0 <= j < |imported| && imported[j] == r;
      InsertedHolds(imported, j);
      var i :| 0 <= i < |exported| && exported[i].key == r.key;
      assert exported[i] == r;
    }
  }

  lemma {:induction false} InsertedRowsTable(rows: seq<Row>)
    requires GoodKeys(Ids(rows))
    ensures Table(InsertedRows(rows))
  {
    if rows != [] {
      var last := |rows| - 1;
      assert forall j :: 0 <= j < last ==> Ids(rows[..last])[j] == Ids(rows)[j];
      InsertedRowsTable(rows[..last]);
      NewId(rows, last);
      InsertKeepsTable(InsertedRows(rows[..last]), rows[last]);
    }
  }

  /** Exporting after an import of an accepted bundle: the same audit events,
      once each and in key order, whatever their order in the bundle. */
  lemma ExportSortsAuditEvents(imported: Bundle, exported: Bundle)
    requires GoodKeys(Ids(imported.auditEvents)) && Exports(Restored(imported), exported)
    ensures Table(exported.auditEvents)
    ensures forall r :: r in exported.auditEvents <==> r in imported.auditEvents
  {
    InsertedRowsTable(imported.auditEvents);
    InsertedRowsMembers(imported.auditEvents);
  }

  /** All four tables of an accepted bundle come back in a later export. */
  lemma ExportAfterImport(imported: Bundle, exported: Bundle, isTime: string -> bool, isJson: string -> bool)
    requires Accepted(imported, isTime, isJson) && Exports(Restored(imported), exported)
    ensures forall r :: r in exported.vaults <==> r in imported.vaults
    ensures forall r :: r in exported.organizations <==> r in imported.organizations
    ensures forall r :: r in exported.preferences <==> r in imported.preferences
    ensures forall r :: r in exported.auditEvents <==> r in imported.auditEvents
  {
    ExportListsImport(imported.vaults, exported.vaults);
    ExportListsImport(imported.organizations, exported.organizations);
    ExportListsImport(imported.preferences, exported.preferences);
    ExportSortsAuditEvents(imported, exported);
  }
}
