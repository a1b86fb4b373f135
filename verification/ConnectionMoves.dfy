/** Creating, changing, moving and deleting connections over stores that may
    fail at any call (internal/api/connections.go). `n` is the number of calls
    to a repository or to the storage test that still succeed; the first one
    that fails ends the operation. */
module ConnectionMoves {
  import opened Connections
  import opened Wrappers
  import opened ConnectionStores
  import ConnectionGroups

  datatype Error = Invalid | MissingId | NoOrganization | NotMember | NotFound | TestFailed | NotLoaded | NotSaved

  datatype Result = Done(id: string) | Failed(error: Error)

  predicate ValidConnection(c: Connection) {
    c.name != "" && c.bucket != "" && ConnectionGroups.ValidPath(c.groupPath)
  }

  function MergeSecrets(next: Connection, current: Connection): (r: Connection)
    ensures next.accessKey == "" ==> r.accessKey == current.accessKey
    ensures next.accessKey != "" ==> r.accessKey == next.accessKey
    ensures next.secretKey == "" ==> r.secretKey == current.secretKey
    ensures next.secretKey != "" ==> r.secretKey == next.secretKey
    ensures r.(accessKey := "", secretKey := "") == next.(accessKey := "", secretKey := "")
  {
    var keyed := if next.accessKey == "" then next.(accessKey := current.accessKey) else next;
    if keyed.secretKey == "" then keyed.(secretKey := current.secretKey) else keyed
  }

  // ------------------------------------------------------------ external ids

  /** The place of the first colon, or the length. */
  function Colon(s: string): (i: nat)
    ensures i <= |s| && (i < |s| ==> s[i] == ':')
    ensures forall k :: 0 <= k < i ==> s[k] != ':'
  {
    if s == "" || s[0] == ':' then 0 else 1 + Colon(s[1..])
  }

  /** The organization and the local id that an external id names, if it is shared. */
  function SplitId(id: string): Option<(string, string)> {
    var i := Colon(id);
    if 0 < i < |id| - 1 then Some((id[..i], id[i + 1..])) else None
  }

  function ExternalId(p: Place, local: string): string {
    match p
    case Personal(_) => local
    case Shared(org) => org + ":" + local
  }

  /** Splitting gives back what was joined exactly for plain organization ids. */
  lemma SharedIdIff(org: string, local: string)
    ensures SplitId(org + ":" + local) == Some((org, local)) <==> org != "" && local != "" && ':' !in org
  {
    var id := org + ":" + local;
    var i := Colon(id);
    assert id[|org|] == ':';
    if ':' in org {
      var k :| 0 <= k < |org| && org[k] == ':';
      assert id[k] == ':' && i <= k;
    } else {
      assert forall k :: 0 <= k < |org| ==> id[k] == org[k] && org[k] in org;
      assert i == |org| && id[..i] == org && id[i + 1..] == local;
    }
  }

  lemma PersonalIdIsNotSplit(local: string)
    requires Plain(local)
    ensures SplitId(local) == None
  {
  }

  // ----------------------------------------------------------- what is meant

  datatype Access = Allowed(organization: Organization) | Denied(error: Error)

  predicate HasGroup(userGroups: seq<string>, required: seq<string>) {
    exists g :: g in userGroups && g in required
  }

  /** A failed listing counts as one without stored organizations. */
  function Resolve(s: Stores, n: nat, groups: seq<string>, id: string): Access {
    if n == 0 || id !in s.organizations then Denied(NoOrganization)
    else if !HasGroup(groups, s.organizations[id].groups) then Denied(NotMember)
    else Allowed(s.organizations[id])
  }

  predicate Savable(org: Organization) {
    org.id != "" && org.name != ""
  }

  function Create(s: Stores, n: nat, user: string, groups: seq<string>, c: Connection, newId: string)
    : (Stores, Result)
  {
    if !ValidConnection(c) then (s, Failed(Invalid))
    else if c.organization == "" then
      if n < 1 then (s, Failed(TestFailed))
      else if n < 2 then (s, Failed(NotLoaded))
      else if n < 3 then (s, Failed(NotSaved))
      else (SaveVault(s, user, VaultOf(s, user).connections + [c.(id := newId)]), Done(newId))
    else
      match Resolve(s, n, groups, c.organization)
      case Denied(e) => (s, Failed(e))
      case Allowed(org) =>
        if n < 2 then (s, Failed(TestFailed))
        else if n < 3 || !Savable(org) then (s, Failed(NotSaved))
        else
          var kept := OrganizationConnection(c.(id := newId, organization := ""), "", "");
          (SaveOrganization(s, org.(connections := org.connections[newId := kept])), Done(org.id + ":" + newId))
  }

  function RemovePersonal(s: Stores, n: nat, user: string, id: string): (Stores, Result) {
    if n < 1 then (s, Failed(NotLoaded))
    else
      var cs := VaultOf(s, user).connections;
      if Find(cs, id) == |cs| then (s, Failed(NotFound))
      else if n < 2 then (s, Failed(NotSaved))
      else (SaveVault(s, user, Without(cs, Find(cs, id))), Done(id))
  }

  function RemoveShared(s: Stores, n: nat, org: Organization, id: string): (Stores, Result) {
    if n < 1 || !Savable(org) then (s, Failed(NotSaved))
    else (SaveOrganization(s, org.(connections := org.connections - {id})), Done(id))
  }

  function Delete(s: Stores, n: nat, user: string, groups: seq<string>, id: string): (Stores, Result) {
    match SplitId(id)
    case None => RemovePersonal(s, n, user, id)
    case Some((orgId, local)) =>
      match Resolve(s, n, groups, orgId)
      case Denied(e) => (s, Failed(e))
      case Allowed(org) =>
        if local !in org.connections then (s, Failed(NotFound)) else RemoveShared(s, n - 1, org, local)
  }

  /** The connection to change, its local id, and its organization if it has one. */
  datatype Source =
    | Source(local: string, organization: Option<Organization>, current: Connection)
    | NoSource(error: Error)

  function FindSource(s: Stores, n: nat, user: string, groups: seq<string>, id: string): Source {
    match SplitId(id)
    case None =>
      if n < 1 then NoSource(NotLoaded)
      else
        var cs := VaultOf(s, user).connections;
        if Find(cs, id) == |cs| then NoSource(NotFound) else Source(id, None, cs[Find(cs, id)])
    case Some((orgId, local)) =>
      match Resolve(s, n, groups, orgId)
      case Denied(e) => NoSource(e)
      case Allowed(org) =>
        if local !in org.connections then NoSource(NotFound)
        else Source(local, Some(org), org.connections[local].connection)
  }

  /** The destination is written first, then the source is removed. */
  function ToOrganization(s: Stores, n: nat, user: string, groups: seq<string>, target: string, update: Connection,
                          from: Option<Organization>): (Stores, Result)
  {
    match Resolve(s, n, groups, target)
    case Denied(e) => (s, Failed(e))
    case Allowed(org) =>
      if n < 2 || !Savable(org) then (s, Failed(NotSaved))
      else
        var kept := OrganizationConnection(update, "", "");
        var saved := SaveOrganization(s, org.(connections := org.connections[update.id := kept]));
        ClearSource(saved, n - 2, user, update.id, from, org.id)
  }

  /** Removing the connection from where it was, unless that is the target. */
  function ClearSource(s: Stores, n: nat, user: string, id: string, from: Option<Organization>, target: string)
    : (Stores, Result)
  {
    if from.None? then RemovePersonal(s, n, user, id)
    else if from.value.id != target then RemoveShared(s, n, from.value, id)
    else (s, Done(id))
  }

  /** The source is removed first, then the vault is written. */
  function ToVault(s: Stores, n: nat, user: string, update: Connection, from: Option<Organization>): (Stores, Result) {
    if n < 1 then (s, Failed(NotLoaded))
    else
      var connections := Put(VaultOf(s, user).connections, update);
      if from.None? then
        if n < 2 then (s, Failed(NotSaved)) else (SaveVault(s, user, connections), Done(update.id))
      else
        var (removed, result) := RemoveShared(s, n - 1, from.value, update.id);
        if result.Failed? then (removed, result)
        else if n < 3 then (removed, Failed(NotSaved))
        else (SaveVault(removed, user, connections), Done(update.id))
  }

  function Update(s: Stores, n: nat, user: string, groups: seq<string>, update: Connection): (Stores, Result) {
    if !ValidConnection(update) then (s, Failed(Invalid))
    else if update.id == "" then (s, Failed(MissingId))
    else
      match FindSource(s, n, user, groups, update.id)
      case NoSource(e) => (s, Failed(e))
      case Source(local, from, current) =>
        if n < 2 then (s, Failed(TestFailed))
        else Move(s, n - 2, user, groups, update.organization, Kept(update, local, current), from)
  }

  function Move(s: Stores, n: nat, user: string, groups: seq<string>, target: string, update: Connection,
                from: Option<Organization>): (Stores, Result)
  {
    if target != "" then ToOrganization(s, n, user, groups, target, update, from) else ToVault(s, n, user, update, from)
  }

  /** What a store keeps of an update: blank secrets keep their old values. */
  function Kept(update: Connection, local: string, current: Connection): Connection {
    MergeSecrets(update, current).(id := local, organization := "")
  }

  // ---------------------------------------------------------------- the code

  class ConnectionApi {
    var stores: Stores
    var calls: nat

    constructor (stores: Stores, calls: nat)
      ensures this.stores == stores && this.calls == calls
    {
      this.stores, this.calls := stores, calls;
    }

    /** One call to something outside, which may fail. */
    method Call() returns (ok: bool)
      modifies this`calls
      ensures ok <==> old(calls) > 0
      ensures calls == if ok then old(calls) - 1 else 0
    {
      ok := calls > 0;
      if ok {
        calls := calls - 1;
      }
    }

    method LoadVault(user: string) returns (data: Option<Vault>)
      modifies this`calls
      ensures data == if old(calls) > 0 then Some(VaultOf(stores, user)) else None
      ensures calls == if old(calls) > 0 then old(calls) - 1 else 0
    {
      var ok := Call();
      data := if ok then Some(VaultOf(stores, user)) else None;
    }

    method WriteVault(user: string, data: Vault) returns (ok: bool)
      modifies this
      ensures ok <==> old(calls) > 0
      ensures calls == if ok then old(calls) - 1 else 0
      ensures stores == if ok then old(stores).(vaults := old(stores).vaults[user := data]) else old(stores)
    {
      ok := Call();
      if ok {
        stores := stores.(vaults := stores.vaults[user := data]);
      }
    }

    method FindOrganization(groups: seq<string>, id: string) returns (access: Access)
      modifies this`calls
      ensures access == Resolve(stores, old(calls), groups, id)
      ensures calls == if old(calls) > 0 then old(calls) - 1 else 0
    {
      var ok := Call();
      if !ok || id !in stores.organizations {
        return Denied(NoOrganization);
      }
      if !HasGroup(groups, stores.organizations[id].groups) {
        return Denied(NotMember);
      }
      return Allowed(stores.organizations[id]);
    }

    method WriteOrganization(org: Organization) returns (ok: bool)
      modifies this
      ensures ok <==> old(calls) > 0 && Savable(org)
      ensures ok ==> calls == old(calls) - 1
      ensures stores == if ok then SaveOrganization(old(stores), org) else old(stores)
    {
      if !Savable(org) {
        return false;
      }
      ok := Call();
      if ok {
        stores := SaveOrganization(stores, org);
      }
    }

    method IndexOf(connections: seq<Connection>, id: string) returns (i: nat)
      ensures i == Find(connections, id)
    {
      i := 0;
      while i < |connections|
        invariant i <= |connections| && forall j :: 0 <= j < i ==> connections[j].id != id
      {
        if connections[i].id == id {
          break;
        }
        i := i + 1;
      }
      FindIs(connections, id, i);
    }

    method CreateConnection(user: string, groups: seq<string>, connection: Connection, newId: string)
      returns (result: Result)
      modifies this
      ensures (stores, result) == Create(old(stores), old(calls), user, groups, connection, newId)
    {
      if !ValidConnection(connection) {
        return Failed(Invalid);
      }
      var organization := Denied(NoOrganization);
      if connection.organization != "" {
        organization := FindOrganization(groups, connection.organization);
        if organization.Denied? {
          return Failed(organization.error);
        }
      }
      var reachable := Call();
      if !reachable {
        return Failed(TestFailed);
      }
      var c := connection.(id := newId);
      if organization.Allowed? {
        var org := organization.organization;
        c := c.(organization := "");
        org := org.(connections := org.connections[c.id := OrganizationConnection(c, "", "")]);
        var saved := WriteOrganization(org);
        return if saved then Done(org.id + ":" + c.id) else Failed(NotSaved);
      }
      var data := LoadVault(user);
      if data.None? {
        return Failed(NotLoaded);
      }
      var saved := WriteVault(user, data.value.(connections := data.value.connections + [c]));
      return if saved then Done(c.id) else Failed(NotSaved);
    }

    method RemovePersonalConnection(user: string, id: string) returns (result: Result)
      modifies this
      ensures (stores, result) == RemovePersonal(old(stores), old(calls), user, id)
    {
      var data := LoadVault(user);
      if data.None? {
        return Failed(NotLoaded);
      }
      var cs := data.value.connections;
      var i := IndexOf(cs, id);
      if i == |cs| {
        return Failed(NotFound);
      }
      var saved := WriteVault(user, data.value.(connections := cs[..i] + cs[i + 1..]));
      return if saved then Done(id) else Failed(NotSaved);
    }

    method DeleteConnection(user: string, groups: seq<string>, id: string) returns (result: Result)
      modifies this
      ensures (stores, result) == Delete(old(stores), old(calls), user, groups, id)
    {
      match SplitId(id)
      case None =>
        result := RemovePersonalConnection(user, id);
      case Some((orgId, local)) =>
        var access := FindOrganization(groups, orgId);
        if access.Denied? {
          return Failed(access.error);
        }
        var org := access.organization;
        if local !in org.connections {
          return Failed(NotFound);
        }
        org := org.(connections := org.connections - {local});
        var saved := WriteOrganization(org);
        return if saved then Done(local) else Failed(NotSaved);
    }

    method Locate(user: string, groups: seq<string>, id: string) returns (source: Source)
      modifies this`calls
      ensures source == FindSource(stores, old(calls), user, groups, id)
      ensures calls == if old(calls) > 0 then old(calls) - 1 else 0
    {
      match SplitId(id)
      case Some((orgId, local)) =>
        var access := FindOrganization(groups, orgId);
        if access.Denied? {
          return NoSource(access.error);
        }
        var org := access.organization;
        if local !in org.connections {
          return NoSource(NotFound);
        }
        return Source(local, Some(org), org.connections[local].connection);
      case None =>
        var data := LoadVault(user);
        if data.None? {
          return NoSource(NotLoaded);
        }
        var i := IndexOf(data.value.connections, id);
        return if i < |data.value.connections| then Source(id, None, data.value.connections[i]) else NoSource(NotFound);
    }

    method MoveToOrganization(user: string, groups: seq<string>, target: string, update: Connection,
                              from: Option<Organization>)
      returns (result: Result)
      modifies this
      ensures (stores, result) == ToOrganization(old(stores), old(calls), user, groups, target, update, from)
    {
      var access := FindOrganization(groups, target);
      if access.Denied? {
        return Failed(access.error);
      }
      var org := access.organization;
      org := org.(connections := org.connections[update.id := OrganizationConnection(update, "", "")]);
      var saved := WriteOrganization(org);
      if !saved {
        return Failed(NotSaved);
      }
      if from.Some? && from.value.id != org.id {
        var oldOrg := from.value.(connections := from.value.connections - {update.id});
        saved := WriteOrganization(oldOrg);
        return if saved then Done(update.id) else Failed(NotSaved);
      }
      if from.None? {
        result := RemovePersonalConnection(user, update.id);
        return;
      }
      return Done(update.id);
    }

    method MoveToVault(user: string, update: Connection, from: Option<Organization>) returns (result: Result)
      modifies this
      ensures (stores, result) == ToVault(old(stores), old(calls), user, update, from)
    {
      var data := LoadVault(user);
      if data.None? {
        return Failed(NotLoaded);
      }
      if from.Some? {
        var oldOrg := from.value.(connections := from.value.connections - {update.id});
        var removed := WriteOrganization(oldOrg);
        if !removed {
          return Failed(NotSaved);
        }
      }
      var cs := data.value.connections;
      var i := IndexOf(cs, update.id);
      if i < |cs| {
        cs := cs[i := update];
      } else {
        cs := cs + [update];
      }
      var saved := WriteVault(user, data.value.(connections := cs));
      return if saved then Done(update.id) else Failed(NotSaved);
    }

    method UpdateConnection(user: string, groups: seq<string>, update: Connection) returns (result: Result)
      modifies this
      ensures (stores, result) == Update(old(stores), old(calls), user, groups, update)
    {
      if !ValidConnection(update) {
        return Failed(Invalid);
      }
      if update.id == "" {
        return Failed(MissingId);
      }
      var source := Locate(user, groups, update.id);
      if source.NoSource? {
        return Failed(source.error);
      }
      var merged := MergeSecrets(update, source.current);
      var reachable := Call();
      if !reachable {
        return Failed(TestFailed);
      }
      merged := merged.(id := source.local, organization := "");
      if update.organization != "" {
        result := MoveToOrganization(user, groups, update.organization, merged, source.organization);
      } else {
        result := MoveToVault(user, merged, source.organization);
      }
    }
  }
}
