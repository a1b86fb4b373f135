/** The connections a user sees, personal and shared, and finding one by the id
    it is shown under (internal/httpapi/server.go, withOrganizations and
    connectionValue). */
module ConnectionListing {
  import opened Connections
  import opened Wrappers
  import opened ConnectionStores
  import opened ConnectionMoves
  import Text

  /** How a shared connection is shown. */
  function Relabel(org: Organization, key: string): Connection
    requires key in org.connections
  {
    var c := org.connections[key].connection;
    var named := c.(id := if c.id == "" then key else c.id, name := if c.name == "" then key else c.name);
    named.(id := org.id + ":" + named.id, organization := org.id)
  }

  ghost predicate ShownBy(org: Organization, c: Connection) {
    exists key :: key in org.connections && c == Relabel(org, key)
  }

  ghost predicate Accessible(s: Stores, groups: seq<string>, name: string) {
    name in s.organizations && HasGroup(groups, s.organizations[name].groups)
  }

  ghost predicate Shown(s: Stores, user: string, groups: seq<string>, c: Connection) {
    || c in VaultOf(s, user).connections
    || exists name :: Accessible(s, groups, name) && ShownBy(s.organizations[name], c)
  }

  /** The connections of an organization under some keys, relabelled, in that order. */
  ghost function Relabelled(org: Organization, keys: seq<string>): seq<Connection> {
    if keys == [] then []
    else
      var key := keys[|keys| - 1];
      Relabelled(org, keys[..|keys| - 1]) + if key in org.connections then [Relabel(org, key)] else []
  }

  lemma {:induction false} RelabelledMembers(org: Organization, keys: seq<string>, c: Connection)
    ensures c in Relabelled(org, keys)
            <==> exists key :: key in keys && key in org.connections && c == Relabel(org, key)
  {
    if keys != [] {
      var last := |keys| - 1;
      RelabelledMembers(org, keys[..last], c);
      assert keys == keys[..last] + [keys[last]];
    }
  }

  /** All of them, in the order of their keys. */
  ghost function OfOrganization(org: Organization): seq<Connection> {
    Relabelled(org, Text.InAscending(org.connections.Keys))
  }

  /** Those of the user's organizations among `names`, in that order. */
  ghost function OfOrganizations(s: Stores, groups: seq<string>, names: seq<string>): seq<Connection> {
    if names == [] then []
    else
      var name := names[|names| - 1];
      OfOrganizations(s, groups, names[..|names| - 1])
      + if Accessible(s, groups, name) then OfOrganization(s.organizations[name]) else []
  }

  lemma OfOrganizationMembers(org: Organization, c: Connection)
    ensures c in OfOrganization(org) <==> ShownBy(org, c)
  {
    RelabelledMembers(org, Text.InAscending(org.connections.Keys), c);
  }

  lemma {:induction false} OfOrganizationsMembers(s: Stores, groups: seq<string>, names: seq<string>, c: Connection)
    ensures c in OfOrganizations(s, groups, names)
            <==> exists name :: name in names && Accessible(s, groups, name) && ShownBy(s.organizations[name], c)
  {
    if names != [] {
      var last := |names| - 1;
      OfOrganizationsMembers(s, groups, names[..last], c);
      assert names == names[..last] + [names[last]];
      if Accessible(s, groups, names[last]) {
        OfOrganizationMembers(s.organizations[names[last]], c);
      }
    }
  }

  lemma OneMoreKey(org: Organization, keys: seq<string>, i: nat)
    requires i < |keys| && keys[i] in org.connections
    ensures Relabelled(org, keys[..i + 1]) == Relabelled(org, keys[..i]) + [Relabel(org, keys[i])]
  {
    assert keys[..i + 1][..i] == keys[..i];
  }

  method ListOrganization(org: Organization) returns (shown: seq<Connection>)
    ensures shown == OfOrganization(org)
  {
    var keys := Text.SortedNames(org.connections.Keys);
    shown := [];
    for i := 0 to |keys|
      invariant shown == Relabelled(org, keys[..i])
    {
      assert keys[i] in keys;
      OneMoreKey(org, keys, i);
      shown := shown + [Relabel(org, keys[i])];
    }
    assert keys[..|keys|] == keys;
  }

  /** What a user sees: the personal connections, then those of the user's
      organizations by name, each by key. */
  ghost function AllShown(s: Stores, user: string, groups: seq<string>): seq<Connection> {
    VaultOf(s, user).connections + OfOrganizations(s, groups, Text.InAscending(s.organizations.Keys))
  }

  lemma AllShownMembers(s: Stores, user: string, groups: seq<string>)
    ensures forall c :: c in AllShown(s, user, groups) <==> Shown(s, user, groups, c)
  {
    forall c ensures c in AllShown(s, user, groups) <==> Shown(s, user, groups, c) {
      OfOrganizationsMembers(s, groups, Text.InAscending(s.organizations.Keys), c);
    }
  }

  lemma OneMoreOrganization(s: Stores, groups: seq<string>, names: seq<string>, i: nat)
    requires i < |names|
    ensures OfOrganizations(s, groups, names[..i + 1])
            == OfOrganizations(s, groups, names[..i])
               + if Accessible(s, groups, names[i]) then OfOrganization(s.organizations[names[i]]) else []
  {
    assert names[..i + 1][..i] == names[..i];
  }

  /** The loop over the names. */
  method ListOrganizations(s: Stores, groups: seq<string>, names: seq<string>) returns (shown: seq<Connection>)
    requires forall name :: name in names ==> name in s.organizations
    ensures shown == OfOrganizations(s, groups, names)
  {
    shown := [];
    for i := 0 to |names|
      invariant shown == OfOrganizations(s, groups, names[..i])
    {
      OneMoreOrganization(s, groups, names, i);
      var org := s.organizations[names[i]];
      if HasGroup(groups, org.groups) {
        var more := ListOrganization(org);
        shown := shown + more;
      }
    }
    assert names[..|names|] == names;
  }

  method WithOrganizations(s: Stores, user: string, groups: seq<string>) returns (result: seq<Connection>)
    ensures result == AllShown(s, user, groups)
    ensures VaultOf(s, user).connections <= result
    ensures forall c :: c in result <==> Shown(s, user, groups, c)
  {
    var names := Text.SortedNames(s.organizations.Keys);
    var shared := ListOrganizations(s, groups, names);
    result := VaultOf(s, user).connections + shared;
    AllShownMembers(s, user, groups);
  }

  /** A shared connection as it is shown: under the organization's id and its
      own, or the key if it has none; its name, or the key if it has none; all
      else as it is stored. */
  ghost predicate ShownAs(c: Connection, org: Organization, key: string) {
    key in org.connections
    && var stored := org.connections[key].connection;
       && c.id == org.id + ":" + (if stored.id != "" then stored.id else key)
       && c.name == (if stored.name != "" then stored.name else key)
       && c.organization == org.id
       && c.bucket == stored.bucket && c.region == stored.region && c.endpoint == stored.endpoint
       && c.accessKey == stored.accessKey && c.secretKey == stored.secretKey
       && c.prefix == stored.prefix && c.groupPath == stored.groupPath
  }

  /** A user sees exactly the personal connections and, in this form, those of
      organizations that share a group with the user. */
  lemma ShownIff(s: Stores, user: string, groups: seq<string>, c: Connection)
    ensures c in AllShown(s, user, groups)
            <==> || c in VaultOf(s, user).connections
                 || exists org, key :: Member(s, groups, org) && ShownAs(c, s.organizations[org], key)
  {
    AllShownMembers(s, user, groups);
    forall org ensures Accessible(s, groups, org) <==> Member(s, groups, org) {
    }
    forall org, key | org in s.organizations && key in s.organizations[org].connections
      ensures c == Relabel(s.organizations[org], key) <==> ShownAs(c, s.organizations[org], key)
    {
    }
    if org :| Accessible(s, groups, org) && ShownBy(s.organizations[org], c) {
      var key :| key in s.organizations[org].connections && c == Relabel(s.organizations[org], key);
      assert ShownAs(c, s.organizations[org], key);
    }
    if org, key :| Member(s, groups, org) && ShownAs(c, s.organizations[org], key) {
      assert ShownBy(s.organizations[org], c);
    }
  }

  method ConnectionValue(s: Stores, user: string, groups: seq<string>, id: string) returns (found: Option<Connection>)
    ensures found.Some? ==> found.value.id == id && Shown(s, user, groups, found.value)
    ensures found.None? ==> forall c :: Shown(s, user, groups, c) ==> c.id != id
  {
    var connections := WithOrganizations(s, user, groups);
    for i := 0 to |connections|
      invariant forall j :: 0 <= j < i ==> connections[j].id != id
    {
      if connections[i].id == id {
        assert connections[i] in connections;
        return Some(connections[i]);
      }
    }
    return None;
  }

  /** Organization ids without colons. */
  ghost predicate PlainOrganizations(s: Stores) {
    forall name :: name in s.organizations ==> Plain(name)
  }

  /** A shown id leads an update back to the very connection that is shown. */
  lemma ShownIsFound(s: Stores, n: nat, user: string, groups: seq<string>, c: Connection)
    requires WellKept(s) && OnePlaceEach(s) && PlainOrganizations(s) && n >= 1 && Shown(s, user, groups, c)
    ensures var src := FindSource(s, n, user, groups, c.id);
            && src.Source? && src.current.id == src.local
            && (if c in VaultOf(s, user).connections then src.organization.None? && src.current == c
                else src.organization.Some? && src.local in src.organization.value.connections
                     && c == Relabel(src.organization.value, src.local))
  {
    if c in VaultOf(s, user).connections {
      var cs := VaultOf(s, user).connections;
      var i :| 0 <= i < |cs| && cs[i] == c;
      assert Find(cs, c.id) <= i;
      assert Lookup(s, Personal(user), c.id).Some?;
      PersonalIdIsNotSplit(c.id);
      assert DistinctIds(cs);
    } else {
      var name :| Accessible(s, groups, name) && ShownBy(s.organizations[name], c);
      var org := s.organizations[name];
      var key :| key in org.connections && c == Relabel(org, key);
      assert Lookup(s, Shared(name), key).Some?;
      SharedIdIff(name, key);
    }
  }

  /** No two connections are shown under one id. */
  lemma ShownIdsDiffer(s: Stores, user: string, groups: seq<string>, a: Connection, b: Connection)
    requires WellKept(s) && OnePlaceEach(s) && PlainOrganizations(s)
    requires Shown(s, user, groups, a) && Shown(s, user, groups, b) && a.id == b.id
    ensures a == b
  {
    ShownIsFound(s, 1, user, groups, a);
    ShownIsFound(s, 1, user, groups, b);
  }
}
