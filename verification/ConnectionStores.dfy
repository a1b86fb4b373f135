/** Where connections are kept: personal vaults and organizations, loaded and
    saved as whole values (internal/vault, internal/model). */
module ConnectionStores {
  import opened Connections
  import opened Wrappers

  datatype OrganizationConnection =
    OrganizationConnection(connection: Connection, accessKeyEnv: string, secretKeyEnv: string)

  datatype Organization = Organization(
    id: string, name: string, groups: seq<string>, provisioned: bool,
    connections: map<string, OrganizationConnection>, connectionGroups: seq<string>)

  datatype Vault = Vault(connections: seq<Connection>, connectionGroups: seq<string>, theme: string)

  datatype Stores = Stores(vaults: map<string, Vault>, organizations: map<string, Organization>)

  /** A user without a vault loads an empty one. */
  function VaultOf(s: Stores, user: string): Vault {
    if user in s.vaults then s.vaults[user] else Vault([], [], "")
  }

  /** Someone with these groups may use the organization. */
  ghost predicate Member(s: Stores, groups: seq<string>, org: string) {
    org in s.organizations && exists g :: g in groups && g in s.organizations[org].groups
  }

  function SaveVault(s: Stores, user: string, connections: seq<Connection>): Stores {
    s.(vaults := s.vaults[user := VaultOf(s, user).(connections := connections)])
  }

  function SaveOrganization(s: Stores, org: Organization): Stores {
    s.(organizations := s.organizations[org.id := org])
  }

  // -------------------------------------------------- connections of a vault

  /** The place of the first connection with this id, or the length. */
  function Find(cs: seq<Connection>, id: string): (i: nat)
    ensures i <= |cs| && (i < |cs| ==> cs[i].id == id)
    ensures forall j :: 0 <= j < i ==> cs[j].id != id
  {
    if cs == [] || cs[0].id == id then 0 else 1 + Find(cs[1..], id)
  }

  function At(cs: seq<Connection>, id: string): Option<Connection> {
    if Find(cs, id) < |cs| then Some(cs[Find(cs, id)]) else None
  }

  function Put(cs: seq<Connection>, c: Connection): seq<Connection> {
    if Find(cs, c.id) < |cs| then cs[Find(cs, c.id) := c] else cs + [c]
  }

  function Without(cs: seq<Connection>, i: nat): seq<Connection>
    requires i < |cs|
  {
    cs[..i] + cs[i + 1..]
  }

  ghost predicate DistinctIds(cs: seq<Connection>) {
    forall i, j :: 0 <= i < j < |cs| ==> cs[i].id != cs[j].id
  }

  lemma FindIs(cs: seq<Connection>, id: string, i: nat)
    requires i <= |cs| && (i < |cs| ==> cs[i].id == id)
    requires forall j :: 0 <= j < i ==> cs[j].id != id
    ensures Find(cs, id) == i
  {
  }

  lemma PutAt(cs: seq<Connection>, c: Connection, id: string)
    ensures At(Put(cs, c), id) == if id == c.id then Some(c) else At(cs, id)
    ensures DistinctIds(cs) ==> DistinctIds(Put(cs, c))
  {
    var after := Put(cs, c);
    if id == c.id {
      FindIs(after, id, Find(cs, c.id));
    } else if Find(cs, id) < |cs| {
      FindIs(after, id, Find(cs, id));
    } else {
      FindIs(after, id, |after|);
    }
  }

  lemma WithoutAt(cs: seq<Connection>, i: nat, id: string)
    requires i < |cs| && DistinctIds(cs)
    ensures At(Without(cs, i), id) == if id == cs[i].id then None else At(cs, id)
    ensures DistinctIds(Without(cs, i))
  {
    var after := Without(cs, i);
    var k := Find(cs, id);
    if id == cs[i].id || k == |cs| {
      FindIs(after, id, |after|);
    } else {
      FindIs(after, id, if k < i then k else k - 1);
    }
  }

  // ----------------------------------------------------------------- places

  datatype Place = Personal(user: string) | Shared(organization: string)

  /** What one place keeps under a local id. */
  function Lookup(s: Stores, p: Place, id: string): Option<OrganizationConnection> {
    match p
    case Personal(user) =>
      var c := At(VaultOf(s, user).connections, id);
      if c.Some? then Some(OrganizationConnection(c.value, "", "")) else None
    case Shared(org) =>
      if org in s.organizations && id in s.organizations[org].connections
      then Some(s.organizations[org].connections[id]) else None
  }

  /** A local id is not empty and has no colon. */
  predicate Plain(id: string) {
    id != "" && ':' !in id
  }

  ghost predicate WellKept(s: Stores) {
    && (forall user :: user in s.vaults ==> DistinctIds(s.vaults[user].connections))
    && (forall org :: org in s.organizations ==>
          && s.organizations[org].id == org && org != "" && s.organizations[org].name != ""
          && forall id :: id in s.organizations[org].connections ==>
               s.organizations[org].connections[id].connection.id == id)
  }

  /** Every local id is plain and kept in one place only. */
  ghost predicate OnePlaceEach(s: Stores) {
    && (forall p, id :: Lookup(s, p, id).Some? ==> Plain(id))
    && (forall p, q, id :: Lookup(s, p, id).Some? && Lookup(s, q, id).Some? ==> p == q)
  }

  /** Everything but the connections is as it was. */
  ghost predicate SameAround(a: Stores, b: Stores) {
    && a.organizations.Keys == b.organizations.Keys
    && (forall org :: org in a.organizations ==>
          a.organizations[org].(connections := map[]) == b.organizations[org].(connections := map[]))
    && (forall user :: VaultOf(a, user).(connections := []) == VaultOf(b, user).(connections := []))
  }

  lemma SameAroundTransitive(a: Stores, b: Stores, c: Stores)
    requires SameAround(a, b) && SameAround(b, c)
    ensures SameAround(a, c)
  {
  }

  lemma OrganizationSaved(s: Stores, org: string, connections: map<string, OrganizationConnection>)
    requires WellKept(s) && org in s.organizations
    requires forall id :: id in connections ==> connections[id].connection.id == id
    ensures var after := SaveOrganization(s, s.organizations[org].(connections := connections));
            WellKept(after) && SameAround(s, after)
  {
  }

  lemma VaultSaved(s: Stores, user: string, connections: seq<Connection>)
    requires WellKept(s) && DistinctIds(connections)
    ensures WellKept(SaveVault(s, user, connections)) && SameAround(s, SaveVault(s, user, connections))
  {
  }

  /** Saving a connection in an organization. */
  lemma AddedToOrganization(s: Stores, org: string, id: string, c: OrganizationConnection, p: Place, x: string)
    requires WellKept(s) && org in s.organizations && c.connection.id == id
    ensures var o := s.organizations[org];
            var after := SaveOrganization(s, o.(connections := o.connections[id := c]));
            && Lookup(after, p, x) == (if p == Shared(org) && x == id then Some(c) else Lookup(s, p, x))
            && WellKept(after) && SameAround(s, after)
  {
    OrganizationSaved(s, org, s.organizations[org].connections[id := c]);
  }

  lemma RemovedFromOrganization(s: Stores, org: string, id: string, p: Place, x: string)
    requires WellKept(s) && org in s.organizations
    ensures var o := s.organizations[org];
            var after := SaveOrganization(s, o.(connections := o.connections - {id}));
            && Lookup(after, p, x) == (if p == Shared(org) && x == id then None else Lookup(s, p, x))
            && WellKept(after) && SameAround(s, after)
  {
    OrganizationSaved(s, org, s.organizations[org].connections - {id});
  }

  lemma AddedToVault(s: Stores, user: string, c: Connection, p: Place, x: string)
    requires WellKept(s)
    ensures var after := SaveVault(s, user, Put(VaultOf(s, user).connections, c));
            && Lookup(after, p, x)
               == (if p == Personal(user) && x == c.id then Some(OrganizationConnection(c, "", ""))
                   else Lookup(s, p, x))
            && WellKept(after) && SameAround(s, after)
  {
    PutAt(VaultOf(s, user).connections, c, x);
    VaultSaved(s, user, Put(VaultOf(s, user).connections, c));
  }

  lemma RemovedFromVault(s: Stores, user: string, i: nat, p: Place, x: string)
    requires WellKept(s) && i < |VaultOf(s, user).connections|
    ensures var cs := VaultOf(s, user).connections;
            var after := SaveVault(s, user, Without(cs, i));
            && Lookup(after, p, x) == (if p == Personal(user) && x == cs[i].id then None else Lookup(s, p, x))
            && WellKept(after) && SameAround(s, after)
  {
    WithoutAt(VaultOf(s, user).connections, i, x);
    VaultSaved(s, user, Without(VaultOf(s, user).connections, i));
  }
}
