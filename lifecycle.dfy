/** The decisions the interaction handler takes around the registry: propose
    a colour pair (`/random`), commit it (the `yes_` button), give a member a
    role (`pick_role`), delete one role (`delete_role`), clear unused roles
    (`/clear`) and take a member's colour roles off (`/nocolor`).
    Discord is reduced to the values these decisions read: the guild's role
    cache (role id to member count), the member's role set, and whether each
    remote call went through. */
module Lifecycle {
  import opened Registry
  import opened Token
  import opened Colour

  /** `guild.roles.cache` as the handlers see it: role id to `role.members.size`. */
  type RoleCache = map<RoleId, nat>

  // ---------------------------------------------------------------------
  // /random
  // ---------------------------------------------------------------------

  datatype ProposeOutcome =
    | AtCapacity
    | Proposed(confirmId: string, primaryCss: string, secondaryCss: string)

  /** `/random` with the two colours `randomColorInt` drew as inputs (each
      below 0xffffff): refuses at the cap,
      otherwise offers the pair, carried in the "yes" button's custom id and
      drawn with the two CSS colours. Only the lazy guild entry is written. */
  method Propose(db: Db, g: GuildId, primary: nat, secondary: nat) returns (out: ProposeOutcome)
    requires primary < 0xffffff && secondary < 0xffffff
    modifies db
    ensures db.servers == if g in old(db.servers) then old(db.servers) else old(db.servers)[g := []]
    ensures out.AtCapacity? <==> |old(db.Roles(g))| >= Cap
    ensures out.Proposed? ==> out.confirmId == EncodeConfirm(primary, secondary)
    ensures out.Proposed? ==> DecodeConfirm(out.confirmId) == Some((primary, secondary))
    ensures out.Proposed? ==> out.primaryCss == CssColor(primary) && out.secondaryCss == CssColor(secondary)
    ensures out.Proposed? ==> |out.primaryCss| == 7 && |out.secondaryCss| == 7
  {
    var roles := db.GetServer(g);
    if |roles| >= Cap {
      return AtCapacity;
    }
    ConfirmRoundTrip(primary, secondary);
    CssColorRoundTrip(primary);
    CssColorRoundTrip(secondary);
    out := Proposed(EncodeConfirm(primary, secondary), CssColor(primary), CssColor(secondary));
  }

  // ---------------------------------------------------------------------
  // Buttons: "no" and "yes_<primary>_<secondary>"
  // ---------------------------------------------------------------------

  /** How the PATCH that sets the role's colours ended. */
  datatype PatchResult = PatchOk | PatchRejected | PatchThrew

  datatype ConfirmOutcome =
    | Cancelled                     // the "no" button
    | Ignored                       // a button id that is neither
    | Malformed                     // a `yes_` id whose colours read as NaN
    | CreateFailed                  // `roles.create` threw: nothing exists remotely
    | ApplyFailed(orphan: RoleId)   // the PATCH answered not ok: the empty role stays
    | ApplyErrored(orphan: RoleId)  // the PATCH threw: reported as a creation error, the empty role stays
    | Created(role: RoleId, tracked: bool)  // role made and coloured; `tracked` is `addRole`'s ignored result

  /** The button handler. `create` is the id `roles.create` returned, or
      `None` when it threw. The registry changes only when both remote steps
      succeed, and then exactly as `addRole` changes it: at the cap the role
      exists remotely but stays untracked. */
  method Confirm(db: Db, g: GuildId, customId: string, create: Option<RoleId>, patch: PatchResult)
    returns (out: ConfirmOutcome)
    modifies db
    ensures customId == "no" ==> out == Cancelled
    ensures customId != "no" && !StartsWith(customId, "yes_") ==> out == Ignored
    ensures StartsWith(customId, "yes_") && DecodeConfirm(customId).None? ==> out == Malformed
    ensures StartsWith(customId, "yes_") && DecodeConfirm(customId).Some? && create.None? ==> out == CreateFailed
    ensures out.ApplyFailed?
        <==> StartsWith(customId, "yes_") && DecodeConfirm(customId).Some? && create.Some? && patch == PatchRejected
    ensures out.ApplyErrored?
        <==> StartsWith(customId, "yes_") && DecodeConfirm(customId).Some? && create.Some? && patch == PatchThrew
    ensures (out.Created? || out.ApplyFailed? || out.ApplyErrored?)
        <==> StartsWith(customId, "yes_") && DecodeConfirm(customId).Some? && create.Some?
    ensures out.Created? <==> StartsWith(customId, "yes_") && DecodeConfirm(customId).Some? && create.Some? && patch == PatchOk
    ensures (out.ApplyFailed? || out.ApplyErrored?) ==> out.orphan == create.value
    ensures out.Created? ==> out.role == create.value && (out.tracked <==> |old(db.Roles(g))| < Cap)
    ensures out.Created? ==>
      var colours := DecodeConfirm(customId).value;
      db.servers == old(db.servers)[g := Added(old(db.Roles(g)), RoleEntry(create.value, colours.0, colours.1))]
    ensures !out.Created? ==> db.servers == old(db.servers)
    ensures old(db.WithinCap()) ==> db.WithinCap()
  {
    if customId == "no" {
      return Cancelled;
    }
    if !StartsWith(customId, "yes_") {
      return Ignored;
    }
    var colours := DecodeConfirm(customId);
    if colours.None? {
      return Malformed;
    }
    var (primary, secondary) := colours.value;
    if create.None? {
      return CreateFailed;
    }
    var roleId := create.value;
    match patch {
      case PatchRejected => return ApplyFailed(roleId);
      case PatchThrew => return ApplyErrored(roleId);
      case PatchOk =>
    }
    var tracked := db.AddRole(g, roleId, primary, secondary);
    out := Created(roleId, tracked);
  }

  // ---------------------------------------------------------------------
  // pick_role
  // ---------------------------------------------------------------------

  /** The tracked ids, in registry order, that the member holds:
      `srv.roles.map(r => r.id).filter(rid => member.roles.cache.has(rid))`. */
  function PreviousRoles(rs: seq<RoleEntry>, held: set<RoleId>): (prev: seq<RoleId>)
    ensures forall id :: id in prev <==> id in Ids(rs) && id in held
  {
    if rs == [] then []
    else
      IdsCons(rs);
      (if rs[0].id in held then [rs[0].id] else []) + PreviousRoles(rs[1..], held)
  }

  /** The member's roles once the previous tracked roles are removed and the
      chosen one is added: every tracked role gone but the chosen one, every
      untracked role untouched. */
  function Reassigned(rs: seq<RoleEntry>, held: set<RoleId>, chosen: RoleId): (r: set<RoleId>)
    ensures r == (held - Ids(rs)) + {chosen}
    ensures r * Ids(rs) == if chosen in Ids(rs) then {chosen} else {}
  {
    var prev := PreviousRoles(rs, held);
    (held - set id | id in prev) + {chosen}
  }

  datatype PickOutcome = RoleNotFound | Assigned(unassigned: seq<RoleId>, holds: set<RoleId>)

  /** `pick_role`: the chosen role must be in the guild's cache; then the
      member's tracked roles come off and the chosen one goes on. */
  method PickRole(db: Db, g: GuildId, chosen: RoleId, cache: RoleCache, held: set<RoleId>)
    returns (out: PickOutcome)
    modifies db
    ensures out.RoleNotFound? <==> chosen !in cache
    ensures out.RoleNotFound? ==> db.servers == old(db.servers)
    ensures out.Assigned? ==> db.servers == if g in old(db.servers) then old(db.servers) else old(db.servers)[g := []]
    ensures out.Assigned? ==> out.unassigned == PreviousRoles(old(db.Roles(g)), held)
    ensures out.Assigned? ==> out.holds == Reassigned(old(db.Roles(g)), held, chosen)
  {
    if chosen !in cache {
      return RoleNotFound;
    }
    var roles := db.GetServer(g);
    var previous := PreviousRoles(roles, held);
    out := Assigned(previous, Reassigned(roles, held, chosen));
  }

  // ---------------------------------------------------------------------
  // delete_role
  // ---------------------------------------------------------------------

  /** `delete_role`: deletes the role remotely when the cache has it (which
      also takes it out of the cache), then drops it from the registry. */
  method DeleteOne(db: Db, g: GuildId, id: RoleId, cache: RoleCache) returns (cache': RoleCache)
    modifies db
    ensures cache' == cache - {id}
    ensures db.servers == old(db.servers)[g := Dropped(old(db.Roles(g)), {id})]
    ensures old(db.WithinCap()) ==> db.WithinCap()
  {
    cache' := cache;
    if id in cache {
      cache' := cache - {id};
    }
    var _ := db.DeleteRole(g, id);
  }

  // ---------------------------------------------------------------------
  // /clear
  // ---------------------------------------------------------------------

  /** The role is in the cache and somebody holds it. */
  predicate Held(id: RoleId, cache: RoleCache)
  {
    id in cache && cache[id] > 0
  }

  /** Ids a clear pass over `rs` drops from the registry: missing from the
      cache, or held by nobody. */
  function Doomed(rs: seq<RoleEntry>, cache: RoleCache): set<RoleId>
  {
    set e | e in rs && !Held(e.id, cache) :: e.id
  }

  /** Ids a clear pass over `rs` deletes remotely and counts: in the cache
      with no members. */
  function Unheld(rs: seq<RoleEntry>, cache: RoleCache): set<RoleId>
  {
    set e | e in rs && e.id in cache && cache[e.id] == 0 :: e.id
  }

  /** Independent statement of what a clear pass keeps: the entries whose
      role is present and held, in their original order. */
  function Survivors(rs: seq<RoleEntry>, cache: RoleCache): seq<RoleEntry>
  {
    if rs == [] then []
    else (if Held(rs[0].id, cache) then [rs[0]] else []) + Survivors(rs[1..], cache)
  }

  /** Processing entry `i` of the snapshot, given the cache `left` that the
      earlier entries left, drops its id from the registry unless its role
      is held. */
  lemma ClearStepRegistry(s: seq<RoleEntry>, i: nat, cache: RoleCache, left: RoleCache)
    requires i < |s|
    requires left == cache - Unheld(s[..i], cache)
    ensures Dropped(s, Doomed(s[..i + 1], cache))
         == if Held(s[i].id, left) then Dropped(s, Doomed(s[..i], cache))
            else Dropped(Dropped(s, Doomed(s[..i], cache)), {s[i].id})
  {
    DoomedStep(s, i, cache, left);
    if !Held(s[i].id, left) {
      DroppedTwice(s, Doomed(s[..i], cache), {s[i].id});
    }
  }

  lemma DoomedStep(s: seq<RoleEntry>, i: nat, cache: RoleCache, left: RoleCache)
    requires i < |s|
    requires left == cache - Unheld(s[..i], cache)
    ensures Doomed(s[..i + 1], cache)
         == if Held(s[i].id, left) then Doomed(s[..i], cache) else Doomed(s[..i], cache) + {s[i].id}
  {
    assert s[..i + 1] == s[..i] + [s[i]];
    var id := s[i].id;
    if id !in left && id in cache {
      var e :| e in s[..i] && e.id in cache && cache[e.id] == 0 && e.id == id;
    }
  }

  /** Processing entry `i` changes the cache and the count only for a role
      present with no members: it leaves the cache and is counted once. */
  lemma ClearStepCache(s: seq<RoleEntry>, i: nat, cache: RoleCache, left: RoleCache)
    requires i < |s|
    requires left == cache - Unheld(s[..i], cache)
    ensures var id := s[i].id;
      var counted := id in left && left[id] == 0;
      && cache - Unheld(s[..i + 1], cache) == (if counted then left - {id} else left)
      && |Unheld(s[..i + 1], cache)| == |Unheld(s[..i], cache)| + (if counted then 1 else 0)
  {
    assert s[..i + 1] == s[..i] + [s[i]];
    var id, unheld := s[i].id, Unheld(s[..i], cache);
    if id in left && left[id] == 0 {
      assert Unheld(s[..i + 1], cache) == unheld + {id};
      assert id !in unheld;
    } else {
      assert Unheld(s[..i + 1], cache) == unheld;
    }
  }

  datatype ClearOutcome = NothingToClear | Cleared(removed: nat)

  /** One turn of the `/clear` loop for the entry with id `id`, against the
      cache `left` that the earlier turns left: a role missing from the cache
      is dropped from the registry; a role with no members is deleted
      remotely (leaving the cache), dropped and counted; any other role is
      left alone. */
  method ClearEntry(db: Db, g: GuildId, id: RoleId, left: RoleCache) returns (left': RoleCache, counted: bool)
    modifies db
    ensures counted <==> id in left && left[id] == 0
    ensures left' == if counted then left - {id} else left
    ensures db.servers == if Held(id, left) then old(db.servers) else old(db.servers)[g := Dropped(old(db.Roles(g)), {id})]
  {
    left', counted := left, false;
    if id !in left {
      var _ := db.DeleteRole(g, id);
    } else if left[id] == 0 {
      left', counted := left - {id}, true;
      var _ := db.DeleteRole(g, id);
    }
  }

  /** `/clear` over a snapshot of the guild's list. The registry keeps
      exactly the roles that are present and held, the cache loses exactly
      the roles deleted remotely (present, no members), and `removed` counts
      those; roles missing from the cache are dropped but not counted. */
  method ClearUnused(db: Db, g: GuildId, cache: RoleCache) returns (out: ClearOutcome, cache': RoleCache)
    modifies db
    ensures out.NothingToClear? <==> old(db.Roles(g)) == []
    ensures db.servers == old(db.servers)[g := Dropped(old(db.Roles(g)), Doomed(old(db.Roles(g)), cache))]
    ensures cache' == cache - Unheld(old(db.Roles(g)), cache)
    ensures out.Cleared? ==> out.removed == |Unheld(old(db.Roles(g)), cache)|
    ensures old(db.WithinCap()) ==> db.WithinCap()
  {
    var snapshot := db.GetServer(g);
    cache' := cache;
    if snapshot == [] {
      return NothingToClear, cache';
    }
    ghost var base := db.servers;
    ghost var kept, gone := snapshot, {};
    DroppedNothing(snapshot, {});
    assert snapshot[..0] == [];
    assert Doomed(snapshot[..0], cache) == {};
    assert Unheld(snapshot[..0], cache) == {};
    var removed := 0;
    for i := 0 to |snapshot|
      invariant kept == Dropped(snapshot, Doomed(snapshot[..i], cache))
      invariant db.servers == base[g := kept]
      invariant gone == Unheld(snapshot[..i], cache)
      invariant cache' == cache - gone
      invariant removed == |gone|
    {
      var r := snapshot[i];
      ClearStepRegistry(snapshot, i, cache, cache');
      ClearStepCache(snapshot, i, cache, cache');
      ghost var next := if Held(r.id, cache') then kept else Dropped(kept, {r.id});
      assert db.Roles(g) == kept;
      var counted;
      cache', counted := ClearEntry(db, g, r.id, cache');
      assert db.servers == base[g := next];
      kept := next;
      gone := Unheld(snapshot[..i + 1], cache);
      if counted {
        removed := removed + 1;
      }
    }
    assert snapshot[..|snapshot|] == snapshot;
    assert base == old(db.servers)[g := snapshot];
    assert |kept| <= |snapshot|;
    out := Cleared(removed);
  }

  /** A clear pass keeps exactly the present and held roles, in order. */
  lemma ClearKeepsHeld(rs: seq<RoleEntry>, cache: RoleCache)
    ensures Dropped(rs, Doomed(rs, cache)) == Survivors(rs, cache)
  {
    DroppedMatchingDoomed(rs, Doomed(rs, cache), cache);
  }

  lemma {:induction false} DroppedMatchingDoomed(rs: seq<RoleEntry>, ids: set<RoleId>, cache: RoleCache)
    requires forall e :: e in rs ==> (e.id in ids <==> !Held(e.id, cache))
    ensures Dropped(rs, ids) == Survivors(rs, cache)
  {
    if rs != [] {
      assert rs[0] in rs;
      DroppedMatchingDoomed(rs[1..], ids, cache);
    }
  }

  /** A second clear pass right after the first, against the cache the first
      one left, drops nothing, deletes nothing and counts 0. */
  lemma ClearTwiceNoop(rs: seq<RoleEntry>, cache: RoleCache)
    ensures var kept, left := Dropped(rs, Doomed(rs, cache)), cache - Unheld(rs, cache);
      && Doomed(kept, left) == {}
      && Unheld(kept, left) == {}
      && Dropped(kept, Doomed(kept, left)) == kept
  {
    var kept, left := Dropped(rs, Doomed(rs, cache)), cache - Unheld(rs, cache);
    DroppedMembers(rs, Doomed(rs, cache));
    forall e | e in kept
      ensures Held(e.id, left)
    {
      assert e in rs && e.id !in Doomed(rs, cache);
      assert Held(e.id, cache);
      assert e.id !in Unheld(rs, cache);
    }
    assert Doomed(kept, left) == {};
    assert Unheld(kept, left) == {};
    DroppedNothing(kept, {});
  }

  /** Every two entries have different ids. */
  predicate DistinctIds(rs: seq<RoleEntry>)
  {
    forall i, j :: 0 <= i < j < |rs| ==> rs[i].id != rs[j].id
  }

  /** Number of entries whose role is present with no members. */
  function CountUnheld(rs: seq<RoleEntry>, cache: RoleCache): nat
  {
    if rs == [] then 0
    else (if rs[0].id in cache && cache[rs[0].id] == 0 then 1 else 0) + CountUnheld(rs[1..], cache)
  }

  /** With distinct ids, the clear pass's count is the number of entries
      whose role is present with no members. */
  lemma {:induction false} RemovedCountsEntries(rs: seq<RoleEntry>, cache: RoleCache)
    requires DistinctIds(rs)
    ensures |Unheld(rs, cache)| == CountUnheld(rs, cache)
  {
    if rs != [] {
      DistinctTail(rs);
      RemovedCountsEntries(rs[1..], cache);
      UnheldCons(rs, cache);
    }
  }

  lemma DistinctTail(rs: seq<RoleEntry>)
    requires rs != [] && DistinctIds(rs)
    ensures DistinctIds(rs[1..])
    ensures rs[0].id !in Ids(rs[1..])
  {
    var tail := rs[1..];
    forall i, j | 0 <= i < j < |tail| ensures tail[i].id != tail[j].id {
      assert tail[i] == rs[i + 1] && tail[j] == rs[j + 1];
    }
  }

  lemma UnheldCons(rs: seq<RoleEntry>, cache: RoleCache)
    requires rs != []
    ensures Unheld(rs[1..], cache) <= Ids(rs[1..])
    ensures Unheld(rs, cache)
         == (if rs[0].id in cache && cache[rs[0].id] == 0 then {rs[0].id} else {}) + Unheld(rs[1..], cache)
  {
    assert rs == [rs[0]] + rs[1..];
  }

  // ---------------------------------------------------------------------
  // /nocolor
  // ---------------------------------------------------------------------

  datatype NoColorOutcome =
    | NoTrackedRoles
    | NothingToRemove
    | RemoveFailed
    | Removed(count: nat, holds: set<RoleId>)

  /** `srv.roles.map(r => r.id)`. */
  function IdList(rs: seq<RoleEntry>): (ids: seq<RoleId>)
    ensures forall id :: id in ids <==> id in Ids(rs)
  {
    if rs == [] then []
    else
      IdsCons(rs);
      [rs[0].id] + IdList(rs[1..])
  }

  /** `/nocolor`: reads the registry without creating an entry, takes off the
      member's roles whose id is tracked and reports how many. `removeOk`
      says whether `member.roles.remove` went through. */
  function NoColor(servers: map<GuildId, seq<RoleEntry>>, g: GuildId, held: set<RoleId>, removeOk: bool)
    : (out: NoColorOutcome)
    ensures out.NoTrackedRoles? <==> RolesOf(servers, g) == []
    ensures out.NothingToRemove? <==> RolesOf(servers, g) != [] && held * Ids(RolesOf(servers, g)) == {}
    ensures out.RemoveFailed? <==> !removeOk && held * Ids(RolesOf(servers, g)) != {}
    ensures out.Removed? <==> removeOk && held * Ids(RolesOf(servers, g)) != {}
    ensures out.Removed? ==> out.holds == held - Ids(RolesOf(servers, g))
    ensures out.Removed? ==> out.count == |held * Ids(RolesOf(servers, g))| > 0
  {
    if g !in servers || servers[g] == [] then NoTrackedRoles
    else
      var gradientRoles := IdList(servers[g]);
      var toRemove := set id | id in held && id in gradientRoles;
      assert toRemove == held * Ids(servers[g]);
      assert |toRemove| == 0 <==> toRemove == {};
      if |toRemove| == 0 then NothingToRemove
      else if !removeOk then RemoveFailed
      else Removed(|toRemove|, held - toRemove)
  }
}
