/** The role registry of the gradient bot: for every guild, the ordered list of
    gradient roles the bot created there (`db.servers[guildId].roles`).
    The registry lives in one mutable object, `Db`; the pure functions below
    say what its lists become after each update. */
module Registry {

  type GuildId = string
  type RoleId = string

  /** One tracked role, stored as `{ id, primary, secondary }`. */
  datatype RoleEntry = RoleEntry(id: RoleId, primary: int, secondary: int)

  /** No guild's list grows past this many roles through `AddRole`. */
  const Cap: nat := 20

  /** The list stored for `g`, or the empty list when `g` has no entry yet. */
  function RolesOf(servers: map<GuildId, seq<RoleEntry>>, g: GuildId): seq<RoleEntry>
  {
    if g in servers then servers[g] else []
  }

  /** The ids that occur in a list of entries. */
  function Ids(rs: seq<RoleEntry>): set<RoleId>
  {
    set e | e in rs :: e.id
  }

  lemma IdsCons(rs: seq<RoleEntry>)
    requires rs != []
    ensures Ids(rs) == {rs[0].id} + Ids(rs[1..])
  {
    assert rs == [rs[0]] + rs[1..];
  }

  /** `rs` with every entry whose id is in `ids` filtered out; the remaining
      entries keep their order. */
  function Dropped(rs: seq<RoleEntry>, ids: set<RoleId>): (r: seq<RoleEntry>)
    ensures |r| <= |rs|
  {
    if rs == [] then []
    else if rs[0].id in ids then Dropped(rs[1..], ids)
    else [rs[0]] + Dropped(rs[1..], ids)
  }

  /** An entry survives exactly when its id is not dropped. */
  lemma {:induction false} DroppedMembers(rs: seq<RoleEntry>, ids: set<RoleId>)
    ensures forall e :: e in Dropped(rs, ids) <==> e in rs && e.id !in ids
  {
    if rs != [] {
      DroppedMembers(rs[1..], ids);
      assert rs == [rs[0]] + rs[1..];
    }
  }

  /** The length is unchanged exactly when no entry has a dropped id; this
      is the `before !== after` test of `deleteRole`. */
  lemma {:induction false} DroppedLength(rs: seq<RoleEntry>, ids: set<RoleId>)
    ensures |Dropped(rs, ids)| == |rs| <==> Ids(rs) !! ids
  {
    if rs != [] {
      DroppedLength(rs[1..], ids);
      IdsCons(rs);
    }
  }

  /** Filtering distributes over concatenation: the survivors of `a + b` are
      the survivors of `a` followed by those of `b`, so relative order is kept. */
  lemma {:induction false} DroppedAppend(a: seq<RoleEntry>, b: seq<RoleEntry>, ids: set<RoleId>)
    ensures Dropped(a + b, ids) == Dropped(a, ids) + Dropped(b, ids)
  {
    if a == [] {
      assert a + b == b;
    } else {
      assert (a + b)[0] == a[0];
      assert (a + b)[1..] == a[1..] + b;
      DroppedAppend(a[1..], b, ids);
    }
  }

  /** Dropping two sets of ids one after the other drops their union. */
  lemma {:induction false} DroppedTwice(rs: seq<RoleEntry>, a: set<RoleId>, b: set<RoleId>)
    ensures Dropped(Dropped(rs, a), b) == Dropped(rs, a + b)
  {
    if rs != [] {
      DroppedTwice(rs[1..], a, b);
    }
  }

  /** Dropping ids that no entry has leaves the list as it was. */
  lemma {:induction false} DroppedNothing(rs: seq<RoleEntry>, ids: set<RoleId>)
    requires Ids(rs) !! ids
    ensures Dropped(rs, ids) == rs
  {
    if rs != [] {
      IdsCons(rs);
      DroppedNothing(rs[1..], ids);
    }
  }

  /** Removing one id a second time removes nothing more and finds nothing. */
  lemma DeleteTwiceNoop(rs: seq<RoleEntry>, id: RoleId)
    ensures id !in Ids(Dropped(rs, {id}))
    ensures Dropped(Dropped(rs, {id}), {id}) == Dropped(rs, {id})
  {
    DroppedTwice(rs, {id}, {id});
    assert {id} + {id} == {id};
    DroppedMembers(rs, {id});
  }

  /** The list after an `addRole` call: unchanged at or above the cap,
      otherwise the new entry appended at the end. */
  function Added(rs: seq<RoleEntry>, e: RoleEntry): (r: seq<RoleEntry>)
    ensures rs <= r
    ensures |r| == if |rs| < Cap then |rs| + 1 else |rs|
    ensures |rs| < Cap ==> r[|rs|] == e
  {
    if |rs| >= Cap then rs else rs + [e]
  }

  /** The list after a sequence of `addRole` calls. */
  function AddedAll(rs: seq<RoleEntry>, es: seq<RoleEntry>): seq<RoleEntry>
    decreases es
  {
    if es == [] then rs else AddedAll(Added(rs, es[0]), es[1..])
  }

  /** No sequence of additions grows a list past the cap (or past its own
      length, if it was loaded above the cap), and additions never disturb
      the entries already present. */
  lemma {:induction false} AddsStayWithinCap(rs: seq<RoleEntry>, es: seq<RoleEntry>)
    ensures |AddedAll(rs, es)| <= if |rs| <= Cap then Cap else |rs|
    ensures rs <= AddedAll(rs, es)
    decreases es
  {
    if es != [] {
      var next := Added(rs, es[0]);
      AddsStayWithinCap(next, es[1..]);
      assert rs <= next;
    }
  }

  /** The in-memory database `db`: guild id to its list of tracked roles. */
  class Db {
    var servers: map<GuildId, seq<RoleEntry>>

    /** `db` as loaded at start-up (an empty map when the file is unreadable). */
    constructor (loaded: map<GuildId, seq<RoleEntry>>)
      ensures servers == loaded
    {
      servers := loaded;
    }

    function Roles(g: GuildId): seq<RoleEntry>
      reads this
    {
      RolesOf(servers, g)
    }

    /** Every guild's list is within the cap. */
    ghost predicate WithinCap()
      reads this
    {
      forall g :: g in servers ==> |servers[g]| <= Cap
    }

    /** `getServer`: creates an empty entry for a guild that has none, and
        touches nothing else. */
    method GetServer(g: GuildId) returns (roles: seq<RoleEntry>)
      modifies this
      ensures servers == if g in old(servers) then old(servers) else old(servers)[g := []]
      ensures g in servers && roles == servers[g] == old(Roles(g))
      ensures old(WithinCap()) ==> WithinCap()
    {
      if g !in servers {
        servers := servers[g := []];
      }
      roles := servers[g];
    }

    /** `addRole`: refuses at the cap, otherwise appends. */
    method AddRole(g: GuildId, id: RoleId, primary: int, secondary: int) returns (ok: bool)
      modifies this
      ensures ok <==> |old(Roles(g))| < Cap
      ensures servers == old(servers)[g := Added(old(Roles(g)), RoleEntry(id, primary, secondary))]
      ensures ok ==> |servers[g]| == |old(Roles(g))| + 1 && servers[g][|servers[g]| - 1] == RoleEntry(id, primary, secondary)
      ensures !ok ==> servers == old(servers)
      ensures old(WithinCap()) ==> WithinCap()
    {
      var roles := GetServer(g);
      if |roles| >= Cap {
        return false;
      }
      servers := servers[g := roles + [RoleEntry(id, primary, secondary)]];
      ok := true;
    }

    /** `deleteRole`: filters the id out and reports whether the length changed. */
    method DeleteRole(g: GuildId, id: RoleId) returns (removed: bool)
      modifies this
      ensures servers == old(servers)[g := Dropped(old(Roles(g)), {id})]
      ensures removed <==> id in Ids(old(Roles(g)))
      ensures old(WithinCap()) ==> WithinCap()
    {
      var roles := GetServer(g);
      var before := |roles|;
      servers := servers[g := Dropped(roles, {id})];
      DroppedLength(roles, {id});
      removed := before != |servers[g]|;
    }
  }
}
