/** What creating, changing, moving and deleting connections conserves, for
    every point at which a store may fail. */
module ConnectionConservation {
  import opened Connections
  import opened Wrappers
  import opened ConnectionStores
  import opened ConnectionMoves
  import ConnectionGroups

  /** Where an operation found a connection, or puts it. */
  function Spot(from: Option<Organization>, user: string): Place {
    if from.Some? then Shared(from.value.id) else Personal(user)
  }

  function Destination(target: string, user: string): Place {
    if target != "" then Shared(target) else Personal(user)
  }

  /** The local id and the place that an external id names for a user. */
  function Named(id: string, user: string): (Place, string) {
    match SplitId(id)
    case None => (Personal(user), id)
    case Some((org, local)) => (Shared(org), local)
  }

  ghost predicate Stored(s: Stores, from: Option<Organization>) {
    from.Some? ==> from.value.id in s.organizations && s.organizations[from.value.id] == from.value
  }

  /** What is found is the connection that the external id names. */
  lemma FoundSource(s: Stores, n: nat, user: string, groups: seq<string>, id: string)
    requires WellKept(s) && FindSource(s, n, user, groups, id).Source?
    ensures var src := FindSource(s, n, user, groups, id);
            && Stored(s, src.organization) && src.current.id == src.local
            && Lookup(s, Spot(src.organization, user), src.local).Some?
            && Lookup(s, Spot(src.organization, user), src.local).value.connection == src.current
            && ExternalId(Spot(src.organization, user), src.local) == id
  {
    if SplitId(id).Some? {
      var i := Colon(id);
      assert id == id[..i] + ":" + id[i + 1..];
    }
  }

  /** The external id of an update alone says from where it moves what. */
  lemma SourceNamed(s: Stores, n: nat, user: string, groups: seq<string>, id: string)
    requires WellKept(s) && FindSource(s, n, user, groups, id).Source?
    ensures var src := FindSource(s, n, user, groups, id);
            (Spot(src.organization, user), src.local) == Named(id, user)
            && (src.organization.None? <==> SplitId(id).None?)
  {
  }

  /** `stored` is the update under its local id, personal or not; a secret left
      blank in the update is the one found before. */
  ghost predicate MergedFrom(stored: Connection, update: Connection, found: Connection, local: string) {
    && stored.accessKey == (if update.accessKey != "" then update.accessKey else found.accessKey)
    && stored.secretKey == (if update.secretKey != "" then update.secretKey else found.secretKey)
    && stored.id == local && stored.organization == ""
    && stored.name == update.name && stored.bucket == update.bucket && stored.region == update.region
    && stored.endpoint == update.endpoint && stored.prefix == update.prefix && stored.groupPath == update.groupPath
  }

  lemma KeptIsMerged(update: Connection, local: string, found: Connection)
    ensures MergedFrom(Kept(update, local, found), update, found, local)
  {
  }

  // ------------------------------------------------------- one removal, any n

  lemma RemovePersonalEffect(s: Stores, n: nat, user: string, id: string, p: Place, x: string)
    requires WellKept(s)
    ensures var (after, result) := RemovePersonal(s, n, user, id);
            && WellKept(after) && SameAround(s, after)
            && Lookup(after, p, x)
               == (if result.Done? && p == Personal(user) && x == id then None else Lookup(s, p, x))
            && (result.Done? ==> Lookup(s, Personal(user), id).Some?)
  {
    var cs := VaultOf(s, user).connections;
    if Find(cs, id) < |cs| {
      RemovedFromVault(s, user, Find(cs, id), p, x);
    }
  }

  lemma RemoveSharedEffect(s: Stores, n: nat, org: Organization, id: string, p: Place, x: string)
    requires WellKept(s) && Stored(s, Some(org))
    ensures var (after, result) := RemoveShared(s, n, org, id);
            && WellKept(after) && SameAround(s, after)
            && Lookup(after, p, x)
               == (if result.Done? && p == Shared(org.id) && x == id then None else Lookup(s, p, x))
            && (result.Done? <==> n >= 1)
  {
    RemovedFromOrganization(s, org.id, id, p, x);
  }

  // ------------------------------------------------------------- one move, any n

  /** Whether a move wrote its destination and removed its source. */
  datatype Progress = Progress(written: bool, removed: bool)

  /** A connection is at its destination once that is written, and no longer
      where it was once that is removed, unless both are the same place. */
  function Moved(s: Stores, p: Place, x: string, update: Connection, spot: Place, goal: Place, g: Progress)
    : Option<OrganizationConnection>
  {
    if x != update.id then Lookup(s, p, x)
    else if p == goal && g.written then Some(OrganizationConnection(update, "", ""))
    else if p == spot && g.removed then None
    else Lookup(s, p, x)
  }

  /** How far a move gets with `n` calls that succeed. */
  function Reached(s: Stores, n: nat, user: string, groups: seq<string>, target: string, update: Connection,
                   from: Option<Organization>): Progress
  {
    if target == "" then
      if from.None? then Progress(n >= 2, n >= 2) else Progress(n >= 3, n >= 2)
    else
      var access := Resolve(s, n, groups, target);
      if access.Denied? || n < 2 || !Savable(access.organization) then Progress(false, false)
      else Progress(true, ToOrganization(s, n, user, groups, target, update, from).1.Done?)
  }

  lemma ClearSourceEffect(s: Stores, n: nat, user: string, id: string, from: Option<Organization>, target: string,
                          p: Place, x: string)
    requires WellKept(s) && (from.Some? && from.value.id != target ==> Stored(s, from))
    ensures var (after, result) := ClearSource(s, n, user, id, from, target);
            && WellKept(after) && SameAround(s, after)
            && Lookup(after, p, x)
               == (if result.Done? && p == Spot(from, user) && p != Shared(target) && x == id then None
                   else Lookup(s, p, x))
  {
    if from.None? {
      RemovePersonalEffect(s, n, user, id, p, x);
    } else if from.value.id != target {
      RemoveSharedEffect(s, n, from.value, id, p, x);
    }
  }

  /** The organization once the update is written into it. */
  function Written(s: Stores, target: string, update: Connection): Stores
    requires target in s.organizations
  {
    var org := s.organizations[target];
    SaveOrganization(s, org.(connections := org.connections[update.id := OrganizationConnection(update, "", "")]))
  }

  /** Either nothing has happened, or the destination is written and the source is next. */
  lemma ToOrganizationSteps(s: Stores, n: nat, user: string, groups: seq<string>, target: string, update: Connection,
                            from: Option<Organization>)
    requires WellKept(s) && target != ""
    ensures var (after, result) := ToOrganization(s, n, user, groups, target, update, from);
            var g := Reached(s, n, user, groups, target, update, from);
            if g.written
            then n >= 2 && target in s.organizations && g.removed == result.Done?
                 && (after, result) == ClearSource(Written(s, target, update), n - 2, user, update.id, from, target)
            else after == s && result.Failed? && !g.removed
  {
  }

  lemma ToOrganizationKeeps(s: Stores, n: nat, user: string, groups: seq<string>, target: string, update: Connection,
                            from: Option<Organization>)
    requires WellKept(s) && Stored(s, from) && target != ""
    ensures var after := ToOrganization(s, n, user, groups, target, update, from).0;
            WellKept(after) && SameAround(s, after)
  {
    if ToOrganization(s, n, user, groups, target, update, from).0 != s {
      var p := Shared(target);
      var saved := Written(s, target, update);
      AddedToOrganization(s, target, update.id, OrganizationConnection(update, "", ""), p, update.id);
      ClearSourceEffect(saved, n - 2, user, update.id, from, target, p, update.id);
      SameAroundTransitive(s, saved, ClearSource(saved, n - 2, user, update.id, from, target).0);
    }
  }

  lemma ToOrganizationEffect(s: Stores, n: nat, user: string, groups: seq<string>, target: string, update: Connection,
                             from: Option<Organization>, p: Place, x: string)
    requires WellKept(s) && Stored(s, from) && target != ""
    ensures var (after, result) := ToOrganization(s, n, user, groups, target, update, from);
            var g := Reached(s, n, user, groups, target, update, from);
            && Lookup(after, p, x) == Moved(s, p, x, update, Spot(from, user), Shared(target), g)
            && (result.Done? <==> g == Progress(true, true))
  {
    ToOrganizationSteps(s, n, user, groups, target, update, from);
    if Reached(s, n, user, groups, target, update, from).written {
      AddedToOrganization(s, target, update.id, OrganizationConnection(update, "", ""), p, x);
      ClearSourceEffect(Written(s, target, update), n - 2, user, update.id, from, target, p, x);
    }
  }

  lemma ToVaultEffect(s: Stores, n: nat, user: string, groups: seq<string>, update: Connection,
                      from: Option<Organization>, p: Place, x: string)
    requires WellKept(s) && Stored(s, from)
    ensures var (after, result) := ToVault(s, n, user, update, from);
            var g := Reached(s, n, user, groups, "", update, from);
            && WellKept(after) && SameAround(s, after)
            && Lookup(after, p, x) == Moved(s, p, x, update, Spot(from, user), Personal(user), g)
            && (result.Done? <==> g == Progress(true, true))
  {
    if from.None? && n >= 2 {
      AddedToVault(s, user, update, p, x);
    } else if from.Some? && n >= 1 {
      RemoveSharedEffect(s, n - 1, from.value, update.id, p, x);
      var removed := RemoveShared(s, n - 1, from.value, update.id).0;
      if n >= 3 {
        AddedToVault(removed, user, update, p, x);
        var after := SaveVault(removed, user, Put(VaultOf(s, user).connections, update));
        SameAroundTransitive(s, removed, after);
      }
    }
  }

  lemma MoveEffect(s: Stores, n: nat, user: string, groups: seq<string>, target: string, update: Connection,
                   from: Option<Organization>, p: Place, x: string)
    requires WellKept(s) && Stored(s, from)
    ensures var (after, result) := Move(s, n, user, groups, target, update, from);
            var g := Reached(s, n, user, groups, target, update, from);
            && WellKept(after) && SameAround(s, after)
            && Lookup(after, p, x) == Moved(s, p, x, update, Spot(from, user), Destination(target, user), g)
            && (result.Done? <==> g == Progress(true, true))
  {
    if target != "" {
      ToOrganizationKeeps(s, n, user, groups, target, update, from);
      ToOrganizationEffect(s, n, user, groups, target, update, from, p, x);
    } else {
      ToVaultEffect(s, n, user, groups, update, from, p, x);
    }
  }

  // ------------------------------------------------------------ updates, any n

  /** An update that gets as far as its move: where from, and what is to be kept. */
  ghost predicate Moves(s: Stores, n: nat, user: string, groups: seq<string>, update: Connection, src: Source) {
    && ValidConnection(update) && update.id != "" && n >= 2
    && src.Source? && src == FindSource(s, n, user, groups, update.id)
  }

  /** One update, however many calls succeed: the connection it names moves, or
      gets stuck on the way, and every other connection stays as it is. */
  lemma UpdateEffect(s: Stores, n: nat, user: string, groups: seq<string>, update: Connection, src: Source,
                     p: Place, x: string)
    requires WellKept(s) && Moves(s, n, user, groups, update, src)
    ensures var (after, result) := Update(s, n, user, groups, update);
            var kept := Kept(update, src.local, src.current);
            var g := Reached(s, n - 2, user, groups, update.organization, kept, src.organization);
            && WellKept(after) && SameAround(s, after)
            && Lookup(after, p, x)
               == Moved(s, p, x, kept, Spot(src.organization, user), Destination(update.organization, user), g)
            && (result.Done? <==> g == Progress(true, true))
            && (g.written && p == Destination(update.organization, user) && x == src.local ==>
                  Lookup(after, p, x).Some?
                  && MergedFrom(Lookup(after, p, x).value.connection, update, src.current, src.local))
  {
    KeptIsMerged(update, src.local, src.current);
    FoundSource(s, n, user, groups, update.id);
    var kept := Kept(update, src.local, src.current);
    MoveEffect(s, n - 2, user, groups, update.organization, kept, src.organization, p, x);
  }

  lemma UpdateStops(s: Stores, n: nat, user: string, groups: seq<string>, update: Connection)
    requires !Moves(s, n, user, groups, update, FindSource(s, n, user, groups, update.id))
    ensures Update(s, n, user, groups, update).0 == s && Update(s, n, user, groups, update).1.Failed?
  {
  }

  lemma UpdateLookup(s: Stores, n: nat, user: string, groups: seq<string>, update: Connection, src: Source,
                     p: Place, x: string)
    requires WellKept(s) && OnePlaceEach(s) && Moves(s, n, user, groups, update, src)
    requires Update(s, n, user, groups, update).1.Done?
    ensures Lookup(Update(s, n, user, groups, update).0, p, x)
            == if x != src.local then Lookup(s, p, x)
               else if p == Destination(update.organization, user)
               then Some(OrganizationConnection(Kept(update, src.local, src.current), "", "")) else None
  {
    FoundSource(s, n, user, groups, update.id);
    UpdateEffect(s, n, user, groups, update, src, p, x);
  }

  /** A successful update leaves the connection at its destination alone, with
      blank secrets kept, and everything else where and as it was. */
  lemma SuccessfulUpdate(s: Stores, n: nat, user: string, groups: seq<string>, update: Connection)
    requires WellKept(s) && OnePlaceEach(s) && Update(s, n, user, groups, update).1.Done?
    ensures var (after, src) := (Update(s, n, user, groups, update).0, FindSource(s, n, user, groups, update.id));
            && WellKept(after) && OnePlaceEach(after) && SameAround(s, after)
            && src.Source? && Lookup(s, Spot(src.organization, user), src.local).Some?
            && forall p, x :: Lookup(after, p, x)
                 == if x != src.local then Lookup(s, p, x)
                    else if p == Destination(update.organization, user)
                    then Some(OrganizationConnection(Kept(update, src.local, src.current), "", ""))
                    else None
    ensures var after := Update(s, n, user, groups, update).0;
            var (place, local), goal := Named(update.id, user), Destination(update.organization, user);
            && Lookup(s, place, local).Some? && Lookup(after, goal, local).Some?
            && MergedFrom(Lookup(after, goal, local).value.connection, update,
                          Lookup(s, place, local).value.connection, local)
            && forall p, x :: x != local || (p != goal && p != place) ==> Lookup(after, p, x) == Lookup(s, p, x)
  {
    SourceNamed(s, n, user, groups, update.id);
    KeptIsMerged(update, FindSource(s, n, user, groups, update.id).local,
                 FindSource(s, n, user, groups, update.id).current);
    var after, src := Update(s, n, user, groups, update).0, FindSource(s, n, user, groups, update.id);
    var kept := Kept(update, src.local, src.current);
    if !Moves(s, n, user, groups, update, src) {
      UpdateStops(s, n, user, groups, update);
    }
    FoundSource(s, n, user, groups, update.id);
    UpdateEffect(s, n, user, groups, update, src, Personal(user), src.local);
    forall p, x
      ensures Lookup(after, p, x)
              == if x != src.local then Lookup(s, p, x)
                 else if p == Destination(update.organization, user)
                 then Some(OrganizationConnection(kept, "", "")) else None
    {
      UpdateLookup(s, n, user, groups, update, src, p, x);
    }
  }

  /** Into an organization, or within a vault, no failing call loses the
      connection, whatever copies an earlier failure left: the destination is
      written before the source is removed. */
  lemma MoveNeverLoses(s: Stores, n: nat, user: string, groups: seq<string>, update: Connection, src: Source)
    requires WellKept(s) && Moves(s, n, user, groups, update, src)
    requires update.organization != "" || src.organization.None?
    ensures var after := Update(s, n, user, groups, update).0;
            || Lookup(after, Spot(src.organization, user), src.local).Some?
            || Lookup(after, Destination(update.organization, user), src.local).Some?
  {
    FoundSource(s, n, user, groups, update.id);
    UpdateEffect(s, n, user, groups, update, src, Spot(src.organization, user), src.local);
    UpdateEffect(s, n, user, groups, update, src, Destination(update.organization, user), src.local);
  }

  /** A move into another place that would succeed with enough calls leaves two
      copies exactly when the destination is saved and the source is not. */
  lemma MoveDuplicatesIff(s: Stores, n: nat, user: string, groups: seq<string>, update: Connection, src: Source)
    requires WellKept(s) && OnePlaceEach(s) && Moves(s, n, user, groups, update, src)
    requires update.organization != "" && Destination(update.organization, user) != Spot(src.organization, user)
    requires Update(s, 6, user, groups, update).1.Done?
    ensures var after := Update(s, n, user, groups, update).0;
            Lookup(after, Spot(src.organization, user), src.local).Some?
            && Lookup(after, Destination(update.organization, user), src.local).Some?
            <==> 4 <= n < (if src.organization.Some? then 5 else 6)
  {
    var spot, goal := Spot(src.organization, user), Destination(update.organization, user);
    FoundSource(s, n, user, groups, update.id);
    assert Lookup(s, goal, src.local).None?;
    UpdateEffect(s, n, user, groups, update, src, spot, src.local);
    UpdateEffect(s, n, user, groups, update, src, goal, src.local);
    EnoughCalls(s, n, user, groups, update, src);
    ReachedIff(s, n - 2, user, groups, update.organization, Kept(update, src.local, src.current), src.organization);
  }

  lemma EnoughCalls(s: Stores, n: nat, user: string, groups: seq<string>, update: Connection, src: Source)
    requires Moves(s, n, user, groups, update, src) && update.organization != ""
    requires Update(s, 6, user, groups, update).1.Done?
    ensures var kept := Kept(update, src.local, src.current);
            ToOrganization(s, 4, user, groups, update.organization, kept, src.organization).1.Done?
  {
    assert FindSource(s, 6, user, groups, update.id) == src;
  }

  lemma ReachedIff(s: Stores, n: nat, user: string, groups: seq<string>, target: string, update: Connection,
                   from: Option<Organization>)
    requires WellKept(s) && Stored(s, from) && target != "" && (from.Some? ==> from.value.id != target)
    requires ToOrganization(s, 4, user, groups, target, update, from).1.Done?
    ensures Reached(s, n, user, groups, target, update, from) == Progress(n >= 2, n >= if from.Some? then 3 else 4)
  {
  }

  /** After a move that failed anywhere, repeating it until it succeeds leaves
      the connection at its destination alone. */
  lemma RetryFinishesMove(s: Stores, n: nat, m: nat, user: string, groups: seq<string>, update: Connection)
    requires WellKept(s) && OnePlaceEach(s)
    requires var stuck := Update(s, n, user, groups, update).0;
             Update(stuck, m, user, groups, update).1.Done?
    ensures var after := Update(Update(s, n, user, groups, update).0, m, user, groups, update).0;
            var local := Named(update.id, user).1;
            forall p :: Lookup(after, p, local).Some? <==> p == Destination(update.organization, user)
  {
    var (spot, local) := Named(update.id, user);
    var goal := Destination(update.organization, user);
    var stuck := Update(s, n, user, groups, update).0;
    assert forall p :: p != spot && p != goal ==> StuckElsewhere(s, n, user, groups, update, p) by {
      forall p | p != spot && p != goal ensures StuckElsewhere(s, n, user, groups, update, p) {
        StuckBetween(s, n, m, user, groups, update, p);
      }
    }
    StuckBetween(s, n, m, user, groups, update, spot);
    var src := FindSource(stuck, m, user, groups, update.id);
    SourceNamed(stuck, m, user, groups, update.id);
    forall p ensures Lookup(Update(stuck, m, user, groups, update).0, p, local).Some? <==> p == goal {
      UpdateEffect(stuck, m, user, groups, update, src, p, local);
      assert p != spot && p != goal ==> StuckElsewhere(s, n, user, groups, update, p);
    }
  }

  /** No copy at a place that the update does not concern. */
  ghost predicate StuckElsewhere(s: Stores, n: nat, user: string, groups: seq<string>, update: Connection, p: Place) {
    Lookup(Update(s, n, user, groups, update).0, p, Named(update.id, user).1).None?
  }

  lemma StuckBetween(s: Stores, n: nat, m: nat, user: string, groups: seq<string>, update: Connection, p: Place)
    requires WellKept(s) && OnePlaceEach(s)
    requires Update(Update(s, n, user, groups, update).0, m, user, groups, update).1.Done?
    ensures WellKept(Update(s, n, user, groups, update).0)
    ensures p != Named(update.id, user).0 && p != Destination(update.organization, user)
            ==> StuckElsewhere(s, n, user, groups, update, p)
  {
    var src := FindSource(s, n, user, groups, update.id);
    var local := Named(update.id, user).1;
    if Moves(s, n, user, groups, update, src) {
      SourceNamed(s, n, user, groups, update.id);
      FoundSource(s, n, user, groups, update.id);
      UpdateEffect(s, n, user, groups, update, src, p, local);
    } else {
      UpdateStops(s, n, user, groups, update);
      SourceNamed(s, m, user, groups, update.id);
      FoundSource(s, m, user, groups, update.id);
    }
  }

  /** Out of an organization into a vault, the connection is lost exactly when
      the last of the five calls, saving the vault, is the one that fails. */
  lemma MoveToVaultLosesIff(s: Stores, n: nat, user: string, groups: seq<string>, update: Connection, src: Source)
    requires WellKept(s) && OnePlaceEach(s) && Moves(s, n, user, groups, update, src)
    requires update.organization == "" && src.organization.Some?
    ensures (forall p :: Lookup(Update(s, n, user, groups, update).0, p, src.local).None?) <==> n == 4
  {
    var after := Update(s, n, user, groups, update).0;
    FoundSource(s, n, user, groups, update.id);
    forall p ensures n == 4 ==> Lookup(after, p, src.local).None? {
      UpdateEffect(s, n, user, groups, update, src, p, src.local);
    }
    UpdateEffect(s, n, user, groups, update, src, Spot(src.organization, user), src.local);
    UpdateEffect(s, n, user, groups, update, src, Personal(user), src.local);
    assert n != 4 ==>
        || Lookup(after, Spot(src.organization, user), src.local).Some?
        || Lookup(after, Personal(user), src.local).Some?;
  }

  /** One organization with one connection, and a user without a vault. */
  function SharedOnly(c: Connection): Stores {
    var connections := map[c.id := OrganizationConnection(c, "", "")];
    Stores(map[], map["o" := Organization("o", "team", ["g"], false, connections, [])])
  }

  lemma SharedOnlyIsKept(c: Connection)
    requires Plain(c.id)
    ensures WellKept(SharedOnly(c)) && OnePlaceEach(SharedOnly(c))
    ensures Lookup(SharedOnly(c), Shared("o"), c.id) == Some(OrganizationConnection(c, "", ""))
  {
  }

  /** Moved out while only the vault cannot be saved, any such connection is gone. */
  lemma MoveToVaultLosesExample(c: Connection, user: string)
    requires Plain(c.id) && ValidConnection(c) && c.organization == ""
    ensures var after := Update(SharedOnly(c), 4, user, ["g"], c.(id := "o" + ":" + c.id)).0;
            forall p :: Lookup(after, p, c.id).None?
  {
    var s, update := SharedOnly(c), c.(id := "o" + ":" + c.id);
    SharedIdIff("o", c.id);
    SharedOnlyIsKept(c);
    assert "g" in ["g"];
    var src := FindSource(s, 4, user, ["g"], update.id);
    MoveToVaultLosesIff(s, 4, user, ["g"], update, src);
  }

  // -------------------------------------------------------- creating, deleting

  ghost predicate Has(s: Stores, id: string) {
    exists p :: Lookup(s, p, id).Some?
  }

  lemma CreatePersonal(s: Stores, user: string, c: Connection, p: Place, x: string)
    requires WellKept(s) && !Has(s, c.id)
    ensures var after := SaveVault(s, user, VaultOf(s, user).connections + [c]);
            && WellKept(after) && SameAround(s, after)
            && Lookup(after, p, x)
               == (if p == Personal(user) && x == c.id then Some(OrganizationConnection(c, "", ""))
                   else Lookup(s, p, x))
  {
    assert Lookup(s, Personal(user), c.id).None?;
    AddedToVault(s, user, c, p, x);
  }

  lemma CreateLookup(s: Stores, n: nat, user: string, groups: seq<string>, c: Connection, newId: string,
                     p: Place, x: string)
    requires WellKept(s) && !Has(s, newId) && Create(s, n, user, groups, c, newId).1.Done?
    ensures var after := Create(s, n, user, groups, c, newId).0;
            var kept := OrganizationConnection(c.(id := newId, organization := ""), "", "");
            && WellKept(after) && SameAround(s, after)
            && Lookup(after, p, x)
               == (if p == Destination(c.organization, user) && x == newId then Some(kept) else Lookup(s, p, x))
  {
    if c.organization == "" {
      assert c.(id := newId) == c.(id := newId, organization := "");
      CreatePersonal(s, user, c.(id := newId), p, x);
    } else {
      var kept := OrganizationConnection(c.(id := newId, organization := ""), "", "");
      AddedToOrganization(s, c.organization, newId, kept, p, x);
    }
  }

  /** A failed creation or deletion changes nothing. */
  lemma FailuresChangeNothing(s: Stores, n: nat, user: string, groups: seq<string>, c: Connection, id: string)
    ensures Create(s, n, user, groups, c, id).1.Failed? ==> Create(s, n, user, groups, c, id).0 == s
    ensures Delete(s, n, user, groups, id).1.Failed? ==> Delete(s, n, user, groups, id).0 == s
  {
  }

  /** The answer to a creation is the external id of the new connection. */
  lemma CreateAnswers(s: Stores, n: nat, user: string, groups: seq<string>, c: Connection, newId: string)
    requires WellKept(s) && Create(s, n, user, groups, c, newId).1.Done?
    ensures Create(s, n, user, groups, c, newId).1.id == ExternalId(Destination(c.organization, user), newId)
  {
  }

  /** A connection is created under its fresh id in one place, or not at all. */
  lemma SuccessfulCreate(s: Stores, n: nat, user: string, groups: seq<string>, c: Connection, newId: string)
    requires WellKept(s) && OnePlaceEach(s) && !Has(s, newId) && Plain(newId)
    requires Create(s, n, user, groups, c, newId).1.Done?
    ensures var after := Create(s, n, user, groups, c, newId).0;
            && WellKept(after) && OnePlaceEach(after) && SameAround(s, after)
            && forall p, x :: Lookup(after, p, x)
                 == if x == newId
                    then (if p == Destination(c.organization, user)
                          then Some(OrganizationConnection(c.(id := newId, organization := ""), "", "")) else None)
                    else Lookup(s, p, x)
  {
    var after := Create(s, n, user, groups, c, newId).0;
    CreateLookup(s, n, user, groups, c, newId, Personal(user), newId);
    forall p, x
      ensures Lookup(after, p, x)
              == if x == newId
                 then (if p == Destination(c.organization, user)
                       then Some(OrganizationConnection(c.(id := newId, organization := ""), "", "")) else None)
                 else Lookup(s, p, x)
    {
      CreateLookup(s, n, user, groups, c, newId, p, x);
      assert x == newId ==> Lookup(s, p, x).None?;
    }
  }

  lemma DeleteLookup(s: Stores, n: nat, user: string, groups: seq<string>, id: string, p: Place, x: string)
    requires WellKept(s)
    ensures var (after, result) := Delete(s, n, user, groups, id);
            && WellKept(after) && SameAround(s, after)
            && (if result.Done?
                then Lookup(after, p, x) == (if (p, x) == Named(id, user) then None else Lookup(s, p, x))
                     && Lookup(s, Named(id, user).0, Named(id, user).1).Some?
                else after == s)
  {
    match SplitId(id)
    case None => RemovePersonalEffect(s, n, user, id, p, x);
    case Some((orgId, local)) =>
      var access := Resolve(s, n, groups, orgId);
      if access.Allowed? && local in access.organization.connections {
        RemoveSharedEffect(s, n - 1, access.organization, local, p, x);
      }
  }

  /** A delete removes the connection it names and nothing else. */
  lemma SuccessfulDelete(s: Stores, n: nat, user: string, groups: seq<string>, id: string)
    requires WellKept(s) && OnePlaceEach(s) && Delete(s, n, user, groups, id).1.Done?
    ensures var after := Delete(s, n, user, groups, id).0;
            && WellKept(after) && OnePlaceEach(after) && SameAround(s, after)
            && Has(s, Named(id, user).1)
            && forall p, x :: Lookup(after, p, x) == if x == Named(id, user).1 then None else Lookup(s, p, x)
  {
    var after := Delete(s, n, user, groups, id).0;
    var (place, local) := Named(id, user);
    DeleteLookup(s, n, user, groups, id, place, local);
    forall p, x ensures Lookup(after, p, x) == if x == local then None else Lookup(s, p, x) {
      DeleteLookup(s, n, user, groups, id, p, x);
    }
  }

  // ------------------------------------------------------- who may do what

  /** With enough calls that succeed a creation is done exactly when the
      connection has a name, a bucket and a valid group path and is for the user
      or an organization of the user's. */
  lemma CreateAcceptedIff(s: Stores, n: nat, user: string, groups: seq<string>, c: Connection, newId: string)
    requires WellKept(s) && n >= 3
    ensures Create(s, n, user, groups, c, newId).1.Done?
            <==> && c.name != "" && c.bucket != "" && ConnectionGroups.ValidPath(c.groupPath)
                 && (c.organization != "" ==> Member(s, groups, c.organization))
  {
  }

  /** The id names something that is there, and in an organization of the user's if in one. */
  ghost predicate Reachable(s: Stores, user: string, groups: seq<string>, id: string) {
    var (place, local) := Named(id, user);
    Lookup(s, place, local).Some? && (place.Shared? ==> Member(s, groups, place.organization))
  }

  lemma DeleteAcceptedIff(s: Stores, n: nat, user: string, groups: seq<string>, id: string)
    requires WellKept(s) && n >= 2
    ensures Delete(s, n, user, groups, id).1.Done? <==> Reachable(s, user, groups, id)
  {
  }

  /** The same for an update, whose destination must be the user's too. */
  lemma UpdateAcceptedIff(s: Stores, n: nat, user: string, groups: seq<string>, update: Connection)
    requires WellKept(s) && n >= 6
    ensures Update(s, n, user, groups, update).1.Done?
            <==> && update.name != "" && update.bucket != "" && ConnectionGroups.ValidPath(update.groupPath)
                 && update.id != "" && Reachable(s, user, groups, update.id)
                 && (update.organization != "" ==> Member(s, groups, update.organization))
  {
    var src := FindSource(s, n, user, groups, update.id);
    SourceFoundIff(s, n, user, groups, update.id);
    if Moves(s, n, user, groups, update, src) {
      FoundSource(s, n, user, groups, update.id);
      var kept := Kept(update, src.local, src.current);
      MoveAcceptedIff(s, n - 2, user, groups, update.organization, kept, src.organization);
    }
  }

  lemma SourceFoundIff(s: Stores, n: nat, user: string, groups: seq<string>, id: string)
    requires WellKept(s) && n >= 1
    ensures FindSource(s, n, user, groups, id).Source? <==> Reachable(s, user, groups, id)
  {
  }

  lemma MoveAcceptedIff(s: Stores, n: nat, user: string, groups: seq<string>, target: string, update: Connection,
                        from: Option<Organization>)
    requires WellKept(s) && n >= 4 && Stored(s, from) && (from.None? ==> Lookup(s, Personal(user), update.id).Some?)
    ensures Move(s, n, user, groups, target, update, from).1.Done? <==> target == "" || Member(s, groups, target)
  {
  }

  /** The request has to do with the organization. */
  predicate Concerns(r: Request, org: string) {
    match r
    case CreateIt(_, _, c, _) => c.organization == org
    case UpdateIt(user, _, c) => c.organization == org || Named(c.id, user).0 == Shared(org)
    case DeleteIt(user, _, id) => Named(id, user).0 == Shared(org)
  }

  /** Who shares no group with an organization is refused, and nothing changes. */
  lemma StrangersAreRefused(s: Stores, n: nat, r: Request, org: string)
    requires org != "" && Concerns(r, org) && !Member(s, r.groups, org)
    ensures Serve(s, n, r).0 == s && Serve(s, n, r).1.Failed?
  {
  }

  // -------------------------------------------------------------- whole runs

  datatype Request =
    | CreateIt(user: string, groups: seq<string>, connection: Connection, newId: string)
    | UpdateIt(user: string, groups: seq<string>, connection: Connection)
    | DeleteIt(user: string, groups: seq<string>, id: string)

  function Serve(s: Stores, n: nat, r: Request): (Stores, Result) {
    match r
    case CreateIt(user, groups, c, newId) => Create(s, n, user, groups, c, newId)
    case UpdateIt(user, groups, c) => Update(s, n, user, groups, c)
    case DeleteIt(user, groups, id) => Delete(s, n, user, groups, id)
  }

  function NextIds(ids: set<string>, r: Request): set<string> {
    match r
    case CreateIt(_, _, _, newId) => ids + {newId}
    case UpdateIt(_, _, _) => ids
    case DeleteIt(user, _, id) => ids - {Named(id, user).1}
  }

  /** `ids` are the local ids that exist, each in one place. */
  ghost predicate Consistent(s: Stores, ids: set<string>) {
    WellKept(s) && OnePlaceEach(s) && forall id :: Has(s, id) <==> id in ids
  }

  /** New ids are plain and not in use. */
  predicate Fresh(ids: set<string>, r: Request) {
    r.CreateIt? ==> Plain(r.newId) && r.newId !in ids
  }

  /** Creating adds one, deleting removes one, updating keeps them all. */
  lemma RequestConserves(s: Stores, n: nat, r: Request, ids: set<string>)
    requires Consistent(s, ids) && Fresh(ids, r) && Serve(s, n, r).1.Done?
    ensures Consistent(Serve(s, n, r).0, NextIds(ids, r)) && SameAround(s, Serve(s, n, r).0)
    ensures |NextIds(ids, r)| == |ids| + (if r.CreateIt? then 1 else if r.DeleteIt? then -1 else 0)
  {
    var after := Serve(s, n, r).0;
    match r
    case CreateIt(user, groups, c, newId) =>
      SuccessfulCreate(s, n, user, groups, c, newId);
      HasAfter(s, after, newId, Destination(c.organization, user));
    case UpdateIt(user, groups, c) =>
      SuccessfulUpdate(s, n, user, groups, c);
      var src := FindSource(s, n, user, groups, c.id);
      assert Has(s, src.local);
      HasAfter(s, after, src.local, Destination(c.organization, user));
    case DeleteIt(user, groups, id) =>
      SuccessfulDelete(s, n, user, groups, id);
      forall x ensures Has(after, x) <==> x != Named(id, user).1 && Has(s, x) {
        OthersStay(s, after, Named(id, user).1, x);
      }
  }

  lemma OthersStay(s: Stores, after: Stores, id: string, x: string)
    requires forall p, y :: y != id ==> Lookup(after, p, y) == Lookup(s, p, y)
    ensures x != id ==> (Has(after, x) <==> Has(s, x))
  {
  }

  lemma HasAfter(s: Stores, after: Stores, id: string, p: Place)
    requires Lookup(after, p, id).Some?
    requires forall q, y :: y != id ==> Lookup(after, q, y) == Lookup(s, q, y)
    ensures forall x :: Has(after, x) <==> x == id || Has(s, x)
  {
    forall x ensures Has(after, x) <==> x == id || Has(s, x) {
      OthersStay(s, after, id, x);
    }
  }

  /** A run of successful requests; each has its own number of calls. */
  ghost predicate Succeeds(s: Stores, run: seq<(Request, nat)>, ids: set<string>)
    decreases |run|
  {
    run == [] ||
    (Fresh(ids, run[0].0) && Serve(s, run[0].1, run[0].0).1.Done?
     && Succeeds(Serve(s, run[0].1, run[0].0).0, run[1..], NextIds(ids, run[0].0)))
  }

  function After(s: Stores, run: seq<(Request, nat)>): Stores
    decreases |run|
  {
    if run == [] then s else After(Serve(s, run[0].1, run[0].0).0, run[1..])
  }

  function IdsAfter(ids: set<string>, run: seq<(Request, nat)>): set<string>
    decreases |run|
  {
    if run == [] then ids else IdsAfter(NextIds(ids, run[0].0), run[1..])
  }

  function Balance(run: seq<(Request, nat)>): int
    decreases |run|
  {
    if run == [] then 0
    else Balance(run[1..]) + if run[0].0.CreateIt? then 1 else if run[0].0.DeleteIt? then -1 else 0
  }

  /** Over a run of successful requests every local id stays in one place, and
      there are as many as at the start, plus creations, minus deletions. */
  lemma {:induction false} RunConserves(s: Stores, run: seq<(Request, nat)>, ids: set<string>)
    requires Consistent(s, ids) && Succeeds(s, run, ids)
    ensures |IdsAfter(ids, run)| == |ids| + Balance(run)
    ensures Consistent(After(s, run), IdsAfter(ids, run)) && SameAround(s, After(s, run))
    decreases |run|
  {
    if run != [] {
      var (r, n) := run[0];
      RequestConserves(s, n, r, ids);
      var next := Serve(s, n, r).0;
      RunConserves(next, run[1..], NextIds(ids, r));
      SameAroundTransitive(s, next, After(s, run));
    }
  }

  // ------------------------------------------------- runs in which calls fail

  /** A request that neither deletes `id` nor moves it out of an organization
      into a vault; new ids are not in use. */
  ghost predicate Spares(s: Stores, r: Request, id: string) {
    match r
    case CreateIt(_, _, _, newId) => !Has(s, newId)
    case UpdateIt(user, _, c) => c.organization != "" || SplitId(c.id).None? || Named(c.id, user).1 != id
    case DeleteIt(user, _, named) => Named(named, user).1 != id
  }

  lemma RequestNeverLoses(s: Stores, n: nat, r: Request, id: string)
    requires WellKept(s) && Has(s, id) && Spares(s, r, id)
    ensures WellKept(Serve(s, n, r).0) && SameAround(s, Serve(s, n, r).0) && Has(Serve(s, n, r).0, id)
  {
    var p :| Lookup(s, p, id).Some?;
    match r
    case CreateIt(user, groups, c, newId) =>
      if Serve(s, n, r).1.Done? {
        CreateLookup(s, n, user, groups, c, newId, p, id);
      } else {
        FailuresChangeNothing(s, n, user, groups, c, newId);
      }
    case UpdateIt(user, groups, c) =>
      UpdateSpares(s, n, user, groups, c, id);
    case DeleteIt(user, groups, named) =>
      DeleteLookup(s, n, user, groups, named, p, id);
  }

  lemma UpdateSpares(s: Stores, n: nat, user: string, groups: seq<string>, c: Connection, id: string)
    requires WellKept(s) && Has(s, id) && Spares(s, UpdateIt(user, groups, c), id)
    ensures var after := Update(s, n, user, groups, c).0;
            WellKept(after) && SameAround(s, after) && Has(after, id)
  {
    var p :| Lookup(s, p, id).Some?;
    var src := FindSource(s, n, user, groups, c.id);
    if Moves(s, n, user, groups, c, src) {
      SourceNamed(s, n, user, groups, c.id);
      UpdateEffect(s, n, user, groups, c, src, p, id);
      if id == src.local {
        MoveNeverLoses(s, n, user, groups, c, src);
      }
    } else {
      UpdateStops(s, n, user, groups, c);
    }
  }

  ghost predicate AllSpare(s: Stores, run: seq<(Request, nat)>, id: string)
    decreases |run|
  {
    run == [] || (Spares(s, run[0].0, id) && AllSpare(Serve(s, run[0].1, run[0].0).0, run[1..], id))
  }

  /** Over every run in which any call may fail, successful or not, a connection
      that is never deleted and never moved out of an organization into a vault
      keeps a copy, however many copies there are in between. */
  lemma {:induction false} RunNeverLoses(s: Stores, run: seq<(Request, nat)>, id: string)
    requires WellKept(s) && Has(s, id) && AllSpare(s, run, id)
    ensures WellKept(After(s, run)) && SameAround(s, After(s, run)) && Has(After(s, run), id)
    decreases |run|
  {
    if run != [] {
      var (r, n) := run[0];
      var next := Serve(s, n, r).0;
      RequestNeverLoses(s, n, r, id);
      RunNeverLoses(next, run[1..], id);
      SameAroundTransitive(s, next, After(s, run));
    }
  }
}
