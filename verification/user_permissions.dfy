/**
The effective membership level of a user in a team: a search through the access rows in order of
priority, over rows prefetched once and grouped by team.

`LevelFor` is the search. The theorems show that it equals a maximum over the whole table, that
the grouping and the order of the rows do not matter, and which teams a user sees.
*/
module UserPermissions {
  import opened Options
  import opened Strings

  const MEMBER := 1
  const ADMIN := 8

  datatype Team = Team(id: nat, org: string)

  datatype Membership = Membership(id: string, level: int)

  /** A row of the access control table, with the organization of its team. */
  datatype Row = Row(
    team: nat, org: string, resource: string, resourceId: string,
    member: Option<string>, role: Option<string>, level: string)

  /** A role membership of the user. */
  datatype RoleRow = RoleRow(member: string, role: string)

  /** The user's memberships by organization, the organizations with advanced permissions, and the rows. */
  datatype Tables = Tables(
    memberships: map<string, Membership>, advanced: set<string>, rows: seq<Row>, roleRows: seq<RoleRow>)

  // ------------------------------------------------------------------ prefetching

  /** The rows of one key, in table order. */
  function RowsOf(rows: seq<Row>, orgs: set<string>, team: nat): seq<Row> {
    if rows == [] then []
    else
      var last := rows[|rows| - 1];
      RowsOf(rows[..|rows| - 1], orgs, team) +
      if last.org in orgs && last.resource == "project" && last.team == team then [last] else []
  }

  function RolesOf(rows: seq<RoleRow>, member: string): seq<string> {
    if rows == [] then []
    else
      RolesOf(rows[..|rows| - 1], member) + if rows[|rows| - 1].member == member then [rows[|rows| - 1].role] else []
  }

  function Get<K, V>(m: map<K, seq<V>>, key: K): seq<V> {
    if key in m then m[key] else []
  }

  method PrefetchAccessControls(rows: seq<Row>, orgs: set<string>) returns (result: map<nat, seq<Row>>)
    ensures forall team: nat :: Get(result, team) == RowsOf(rows, orgs, team)
  {
    result := map[];
    for i := 0 to |rows|
      invariant forall team: nat :: Get(result, team) == RowsOf(rows[..i], orgs, team)
    {
      assert rows[..i + 1][..i] == rows[..i];
      var row := rows[i];
      if row.org in orgs && row.resource == "project" {
        if row.team !in result {
          result := result[row.team := []];
        }
        result := result[row.team := result[row.team] + [row]];
      }
    }
    assert rows[..|rows|] == rows;
  }

  method PrefetchRoleMemberships(rows: seq<RoleRow>) returns (result: map<string, seq<string>>)
    ensures forall member: string :: Get(result, member) == RolesOf(rows, member)
  {
    result := map[];
    for i := 0 to |rows|
      invariant forall member: string :: Get(result, member) == RolesOf(rows[..i], member)
    {
      assert rows[..i + 1][..i] == rows[..i];
      var row := rows[i];
      if row.member !in result {
        result := result[row.member := []];
      }
      result := result[row.member := result[row.member] + [row.role]];
    }
    assert rows[..|rows|] == rows;
  }

  // -------------------------------------------------------------------- the search

  predicate Direct(row: Row, team: Team, member: string, level: string) {
    row.resourceId == Decimal(team.id) && row.member == Some(member) && row.level == level
  }

  predicate ByRole(row: Row, team: Team, roles: seq<string>, level: string) {
    row.resourceId == Decimal(team.id) && row.role.Some? && row.role.value in roles && row.level == level
  }

  predicate IsDefault(row: Row, team: Team) {
    row.resourceId == Decimal(team.id) && row.member.None? && row.role.None?
  }

  /** The level of the first default row. */
  function FirstDefault(rows: seq<Row>, team: Team): Option<string> {
    if rows == [] then None
    else if IsDefault(rows[0], team) then Some(rows[0].level)
    else FirstDefault(rows[1..], team)
  }

  /** What a default row grants: nothing for "none", and admin for everything but "member". */
  function DefaultLevel(level: Option<string>): Option<int> {
    if level == Some("none") then None else if level == Some("member") then Some(MEMBER) else Some(ADMIN)
  }

  function LevelFromRows(team: Team, m: Membership, rows: seq<Row>, roles: seq<string>): Option<int> {
    if m.level >= ADMIN then Some(m.level)
    else if exists row :: row in rows && Direct(row, team, m.id, "admin") then Some(ADMIN)
    else if roles != [] && exists row :: row in rows && ByRole(row, team, roles, "admin") then Some(ADMIN)
    else if roles != [] && exists row :: row in rows && ByRole(row, team, roles, "member") then Some(MEMBER)
    else if exists row :: row in rows && Direct(row, team, m.id, "member") then Some(MEMBER)
    else DefaultLevel(FirstDefault(rows, team))
  }

  /** `effective_membership_level`, from the prefetched maps. */
  function LevelFor(t: Tables, prefetched: map<nat, seq<Row>>, roles: map<string, seq<string>>, team: Team)
    : Option<int>
  {
    if team.org !in t.memberships then None
    else
      var m := t.memberships[team.org];
      if team.org !in t.advanced then Some(m.level)
      else LevelFromRows(team, m, Get(prefetched, team.id), Get(roles, m.id))
  }

  // ----------------------------------------------------- the level over the whole table

  /** The user holds this row, directly or through a role, in this team. */
  predicate Holds(t: Tables, row: Row, team: Team, m: Membership) {
    row.resource == "project" && row.team == team.id && row.resourceId == Decimal(team.id) &&
    (row.member == Some(m.id) || (row.role.Some? && RoleRow(m.id, row.role.value) in t.roleRows))
  }

  /** What a held row grants explicitly. */
  function Grant(row: Row): int {
    if row.level == "admin" then ADMIN else if row.level == "member" then MEMBER else 0
  }

  /** The highest explicit grant in the table; 0 when there is none. */
  function HighestGrant(t: Tables, rows: seq<Row>, team: Team, m: Membership): int {
    if rows == [] then 0
    else
      var best := HighestGrant(t, rows[..|rows| - 1], team, m);
      var last := rows[|rows| - 1];
      if Holds(t, last, team, m) && Grant(last) > best then Grant(last) else best
  }

  predicate IsTableDefault(row: Row, team: Team) {
    row.resource == "project" && row.team == team.id && IsDefault(row, team)
  }

  /** The first default row of the team in the table. */
  function TableDefault(rows: seq<Row>, team: Team): Option<string> {
    if rows == [] then None
    else if IsTableDefault(rows[0], team) then Some(rows[0].level)
    else TableDefault(rows[1..], team)
  }

  /** The level as the rules put it: the highest explicit grant, else the default row, else admin. */
  function Level(t: Tables, team: Team): Option<int> {
    if team.org !in t.memberships then None
    else
      var m := t.memberships[team.org];
      if team.org !in t.advanced || m.level >= ADMIN then Some(m.level)
      else
        var grant := HighestGrant(t, t.rows, team, m);
        if grant > 0 then Some(grant) else DefaultLevel(TableDefault(t.rows, team))
  }

  lemma {:induction false} RowsOfMembers(rows: seq<Row>, orgs: set<string>, team: nat, row: Row)
    ensures row in RowsOf(rows, orgs, team) <==>
            row in rows && row.org in orgs && row.resource == "project" && row.team == team
  {
    if rows != [] {
      RowsOfMembers(rows[..|rows| - 1], orgs, team, row);
      assert rows == rows[..|rows| - 1] + [rows[|rows| - 1]];
    }
  }

  lemma {:induction false} RolesOfMembers(rows: seq<RoleRow>, member: string, role: string)
    ensures role in RolesOf(rows, member) <==> RoleRow(member, role) in rows
  {
    if rows != [] {
      RolesOfMembers(rows[..|rows| - 1], member, role);
      assert rows == rows[..|rows| - 1] + [rows[|rows| - 1]];
    }
  }

  /** The highest grant is reached by some held row and passed by none. */
  lemma {:induction false} HighestGrantIsMaximum(t: Tables, rows: seq<Row>, team: Team, m: Membership)
    ensures var best := HighestGrant(t, rows, team, m);
            && (best == 0 || exists row :: row in rows && Holds(t, row, team, m) && Grant(row) == best)
            && (forall row :: row in rows && Holds(t, row, team, m) ==> Grant(row) <= best)
            && (best == 0 || best == MEMBER || best == ADMIN)
  {
    if rows != [] {
      var front, last := rows[..|rows| - 1], rows[|rows| - 1];
      HighestGrantIsMaximum(t, front, team, m);
      assert rows == front + [last];
      assert last in rows;
    }
  }

  lemma {:induction false} FirstDefaultSplit(a: seq<Row>, b: seq<Row>, team: Team)
    ensures FirstDefault(a + b, team) ==
            if FirstDefault(a, team).Some? then FirstDefault(a, team) else FirstDefault(b, team)
  {
    if a == [] {
      assert a + b == b;
    } else {
      assert (a + b)[1..] == a[1..] + b;
      FirstDefaultSplit(a[1..], b, team);
    }
  }

  lemma {:induction false} TableDefaultSplit(a: seq<Row>, b: seq<Row>, team: Team)
    ensures TableDefault(a + b, team) ==
            if TableDefault(a, team).Some? then TableDefault(a, team) else TableDefault(b, team)
  {
    if a == [] {
      assert a + b == b;
    } else {
      assert (a + b)[1..] == a[1..] + b;
      TableDefaultSplit(a[1..], b, team);
    }
  }

  /** A row's organization is that of its team. */
  ghost predicate Consistent(t: Tables, team: Team) {
    forall row :: row in t.rows && row.team == team.id ==> row.org == team.org
  }

  /** The first default row among the prefetched rows is the first in the table. */
  lemma {:induction false} SameDefault(rows: seq<Row>, orgs: set<string>, team: Team)
    requires team.org in orgs && forall row :: row in rows && row.team == team.id ==> row.org == team.org
    ensures FirstDefault(RowsOf(rows, orgs, team.id), team) == TableDefault(rows, team)
  {
    if rows != [] {
      var front, last := rows[..|rows| - 1], rows[|rows| - 1];
      assert rows == front + [last] && last in rows;
      SameDefault(front, orgs, team);
      TableDefaultSplit(front, [last], team);
      var kept := RowsOf(front, orgs, team.id);
      FirstDefaultSplit(kept, [last], team);
      assert RowsOf(rows, orgs, team.id) ==
             if last.resource == "project" && last.team == team.id then kept + [last] else kept;
      assert TableDefault([last], team) == if IsTableDefault(last, team) then Some(last.level) else None;
    }
  }

  ghost predicate SomeHeld(t: Tables, team: Team, m: Membership, level: string) {
    exists row :: row in t.rows && Holds(t, row, team, m) && row.level == level
  }

  /** Direct and role rows found among the prefetched ones are the rows the user holds in the table. */
  lemma FoundIsHeld(t: Tables, team: Team, m: Membership, rows: seq<Row>, roles: seq<string>, level: string)
    requires forall row :: row in rows <==> row in t.rows && row.resource == "project" && row.team == team.id
    requires forall role :: role in roles <==> RoleRow(m.id, role) in t.roleRows
    ensures SomeHeld(t, team, m, level) <==>
            || (exists row :: row in rows && Direct(row, team, m.id, level))
            || (roles != [] && exists row :: row in rows && ByRole(row, team, roles, level))
  {
    if SomeHeld(t, team, m, level) {
      var row :| row in t.rows && Holds(t, row, team, m) && row.level == level;
      assert row in rows;
      assert Direct(row, team, m.id, level) || ByRole(row, team, roles, level);
    }
    if row :| row in rows && Direct(row, team, m.id, level) {
      assert Holds(t, row, team, m);
    }
    if row :| row in rows && ByRole(row, team, roles, level) {
      assert Holds(t, row, team, m);
    }
  }

  lemma HighestGrantByHolding(t: Tables, team: Team, m: Membership)
    ensures HighestGrant(t, t.rows, team, m) ==
            if SomeHeld(t, team, m, "admin") then ADMIN else if SomeHeld(t, team, m, "member") then MEMBER else 0
  {
    HighestGrantIsMaximum(t, t.rows, team, m);
  }

  /** The search in order of priority finds the maximum: prefetched maps or whole table, the level is the same. */
  lemma PrefetchedLevel(t: Tables, prefetched: map<nat, seq<Row>>, roles: map<string, seq<string>>, team: Team)
    requires Get(prefetched, team.id) == RowsOf(t.rows, t.memberships.Keys, team.id)
    requires forall member :: Get(roles, member) == RolesOf(t.roleRows, member)
    requires Consistent(t, team)
    ensures LevelFor(t, prefetched, roles, team) == Level(t, team)
  {
    if team.org in t.memberships {
      var m := t.memberships[team.org];
      var rows, held := Get(prefetched, team.id), Get(roles, m.id);
      forall row ensures row in rows <==> row in t.rows && row.resource == "project" && row.team == team.id {
        RowsOfMembers(t.rows, t.memberships.Keys, team.id, row);
      }
      forall role ensures role in held <==> RoleRow(m.id, role) in t.roleRows {
        RolesOfMembers(t.roleRows, m.id, role);
      }
      LevelFromRowsIsHighest(t, team, m, rows, held);
      SameDefault(t.rows, t.memberships.Keys, team);
    }
  }

  lemma LevelFromRowsIsHighest(t: Tables, team: Team, m: Membership, rows: seq<Row>, roles: seq<string>)
    requires forall row :: row in rows <==> row in t.rows && row.resource == "project" && row.team == team.id
    requires forall role :: role in roles <==> RoleRow(m.id, role) in t.roleRows
    ensures m.level < ADMIN ==>
              LevelFromRows(team, m, rows, roles) ==
              var grant := HighestGrant(t, t.rows, team, m);
              if grant > 0 then Some(grant) else DefaultLevel(FirstDefault(rows, team))
  {
    FoundIsHeld(t, team, m, rows, roles, "admin");
    FoundIsHeld(t, team, m, rows, roles, "member");
    HighestGrantByHolding(t, team, m);
  }

  // ----------------------------------------------------------- the level, case by case

  /** Some row of the team's project gives the user this level, directly or through one of the user's roles. */
  ghost predicate Granted(t: Tables, team: Team, m: Membership, level: string) {
    exists row ::
      && row in t.rows && row.level == level
      && row.resource == "project" && row.team == team.id && row.resourceId == Decimal(team.id)
      && (row.member == Some(m.id) || exists role :: row.role == Some(role) && RoleRow(m.id, role) in t.roleRows)
  }

  /** The row speaks for the team's project to nobody in particular. */
  predicate ForAll(row: Row, team: Team) {
    && row.resource == "project" && row.team == team.id && row.resourceId == Decimal(team.id)
    && row.member == None && row.role == None
  }

  /** Row k is the first for nobody in particular. */
  ghost predicate FirstForAll(rows: seq<Row>, team: Team, k: nat) {
    k < |rows| && ForAll(rows[k], team) && forall j :: 0 <= j < k ==> !ForAll(rows[j], team)
  }

  lemma GrantedIsHeld(t: Tables, team: Team, m: Membership, level: string)
    ensures Granted(t, team, m, level) <==> SomeHeld(t, team, m, level)
  {
    if SomeHeld(t, team, m, level) {
      var row :| row in t.rows && Holds(t, row, team, m) && row.level == level;
      assert row.member != Some(m.id) ==>
               row.role == Some(row.role.value) && RoleRow(m.id, row.role.value) in t.roleRows;
    }
    if Granted(t, team, m, level) {
      var row :|
        && row in t.rows && row.level == level
        && row.resource == "project" && row.team == team.id && row.resourceId == Decimal(team.id)
        && (row.member == Some(m.id) || exists role :: row.role == Some(role) && RoleRow(m.id, role) in t.roleRows);
      assert Holds(t, row, team, m);
    }
  }

  lemma {:induction false} TableDefaultIsFirst(rows: seq<Row>, team: Team)
    ensures forall k: nat :: FirstForAll(rows, team, k) ==> TableDefault(rows, team) == Some(rows[k].level)
    ensures (forall k: nat :: !FirstForAll(rows, team, k)) ==> TableDefault(rows, team) == None
  {
    if rows != [] {
      TableDefaultIsFirst(rows[1..], team);
      assert IsTableDefault(rows[0], team) <==> ForAll(rows[0], team);
      if IsTableDefault(rows[0], team) {
        assert FirstForAll(rows, team, 0);
      } else {
        forall k: nat ensures FirstForAll(rows, team, k + 1) <==> FirstForAll(rows[1..], team, k) {
          FirstInRest(rows, team, k);
        }
        assert !FirstForAll(rows, team, 0);
        forall k: nat | FirstForAll(rows, team, k) ensures TableDefault(rows, team) == Some(rows[k].level) {
          assert FirstForAll(rows[1..], team, k - 1);
        }
        if forall k: nat :: !FirstForAll(rows, team, k) {
          forall k: nat ensures !FirstForAll(rows[1..], team, k) {
            assert !FirstForAll(rows, team, k + 1);
          }
        }
      }
    }
  }

  lemma FirstInRest(rows: seq<Row>, team: Team, k: nat)
    requires rows != [] && !ForAll(rows[0], team)
    ensures FirstForAll(rows, team, k + 1) <==> FirstForAll(rows[1..], team, k)
  {
    if FirstForAll(rows, team, k + 1) {
      assert rows[1..][k] == rows[k + 1];
      forall j | 0 <= j < k ensures !ForAll(rows[1..][j], team) {
        assert rows[1..][j] == rows[j + 1];
      }
    }
    if FirstForAll(rows[1..], team, k) {
      forall j | 0 <= j < k + 1 ensures !ForAll(rows[j], team) {
        if j > 0 {
          assert rows[1..][j - 1] == rows[j];
        }
      }
    }
  }

  /**
   The level in words of the table. No membership, no level; without advanced permissions, and for admins and
   owners, the membership's own; else admin or member as granted; else as the first row for all says, where "none"
   hides the team, "member" makes a member, and anything else, or no such row, makes an admin.
   */
  lemma LevelIsExact(t: Tables, team: Team, k: nat)
    ensures team.org !in t.memberships ==> Level(t, team) == None
    ensures team.org in t.memberships ==>
              var m := t.memberships[team.org];
              if team.org !in t.advanced || m.level >= 8 then Level(t, team) == Some(m.level)
              else if Granted(t, team, m, "admin") then Level(t, team) == Some(8)
              else if Granted(t, team, m, "member") then Level(t, team) == Some(1)
              else
                && ((forall i: nat :: !FirstForAll(t.rows, team, i)) ==> Level(t, team) == Some(8))
                && (FirstForAll(t.rows, team, k) ==>
                    Level(t, team) ==
                    if t.rows[k].level == "none" then None
                    else if t.rows[k].level == "member" then Some(1)
                    else Some(8))
  {
    TableDefaultIsFirst(t.rows, team);
    if team.org in t.memberships {
      var m := t.memberships[team.org];
      GrantedIsHeld(t, team, m, "admin");
      GrantedIsHeld(t, team, m, "member");
      HighestGrantByHolding(t, team, m);
    }
  }

  // --------------------------------------------------------------- order of the rows

  lemma {:induction false} TableDefaultIsSome(rows: seq<Row>, team: Team)
    ensures TableDefault(rows, team).Some? <==> exists row :: row in rows && IsTableDefault(row, team)
    ensures TableDefault(rows, team).Some? ==>
              exists row :: row in rows && IsTableDefault(row, team) && TableDefault(rows, team) == Some(row.level)
  {
    if rows != [] {
      TableDefaultIsSome(rows[1..], team);
      assert rows == [rows[0]] + rows[1..];
      assert rows[0] in rows;
    }
  }

  /** When the default rows of a team agree, in particular when there is one, the order of all rows is irrelevant. */
  lemma RowOrderDoesNotMatter(t: Tables, rows: seq<Row>, team: Team)
    requires multiset(rows) == multiset(t.rows)
    requires forall r, s :: r in rows && s in rows && IsTableDefault(r, team) && IsTableDefault(s, team) ==>
               r.level == s.level
    ensures Level(t.(rows := rows), team) == Level(t, team)
  {
    var u := t.(rows := rows);
    forall row ensures row in rows <==> row in t.rows {
      assert row in rows <==> row in multiset(rows);
      assert row in t.rows <==> row in multiset(t.rows);
    }
    TableDefaultIsSome(rows, team);
    TableDefaultIsSome(t.rows, team);
    if team.org in t.memberships {
      var m := t.memberships[team.org];
      HighestGrantByHolding(t, team, m);
      HighestGrantByHolding(u, team, m);
      assert forall row :: Holds(u, row, team, m) <==> Holds(t, row, team, m);
    }
  }

  // ------------------------------------------------------------------- visible teams

  function VisibleTeams(t: Tables, teams: seq<Team>): seq<Team> {
    if teams == [] then []
    else
      var last := teams[|teams| - 1];
      VisibleTeams(t, teams[..|teams| - 1]) + if last.org in t.memberships && Level(t, last).Some? then [last] else []
  }

  /** A team is visible exactly when the user has a level in it. */
  lemma {:induction false} VisibleIsExact(t: Tables, teams: seq<Team>, team: Team)
    ensures team in VisibleTeams(t, teams) <==> team in teams && Level(t, team).Some?
  {
    if teams != [] {
      VisibleIsExact(t, teams[..|teams| - 1], team);
      assert teams == teams[..|teams| - 1] + [teams[|teams| - 1]];
    }
  }

  /** The object behind one request: rows prefetched once, levels remembered per team. */
  class Permissions {
    const tables: Tables
    const prefetched: map<nat, seq<Row>>
    const roles: map<string, seq<string>>
    var known: map<nat, (Team, Option<int>)>

    ghost predicate Valid()
      reads this
    {
      && (forall team: nat :: Get(prefetched, team) == RowsOf(tables.rows, tables.memberships.Keys, team))
      && (forall member: string :: Get(roles, member) == RolesOf(tables.roleRows, member))
      && forall id :: id in known ==> known[id].0.id == id && known[id].1 == Level(tables, known[id].0)
    }

    constructor (tables: Tables, prefetched: map<nat, seq<Row>>, roles: map<string, seq<string>>)
      requires forall team: nat :: Get(prefetched, team) == RowsOf(tables.rows, tables.memberships.Keys, team)
      requires forall member: string :: Get(roles, member) == RolesOf(tables.roleRows, member)
      ensures Valid() && this.tables == tables && known == map[]
    {
      this.tables, this.prefetched, this.roles, known := tables, prefetched, roles, map[];
    }

    /** `team(...)`: permissions are remembered under the primary key of the team first asked about. */
    method TeamLevel(team: Team) returns (level: Option<int>)
      requires Valid() && Consistent(tables, team) && (team.id in known ==> known[team.id].0 == team)
      modifies this
      ensures Valid() && level == Level(tables, team)
      ensures known == old(known)[team.id := (team, level)]
    {
      if team.id !in known {
        PrefetchedLevel(tables, prefetched, roles, team);
        known := known[team.id := (team, LevelFor(tables, prefetched, roles, team))];
      }
      level := known[team.id].1;
      assert known == old(known)[team.id := (team, level)];
    }

    /** `teams_visible_for_user`, over the teams of the user's organizations. */
    method TeamsVisible(teams: seq<Team>) returns (visible: seq<Team>)
      requires Valid() && forall t :: t in teams ==> Consistent(tables, t)
      requires forall s, t :: s in teams && t in teams && s.id == t.id ==> s == t
      requires forall t :: t in teams && t.id in known ==> known[t.id].0 == t
      modifies this
      ensures Valid() && visible == VisibleTeams(tables, teams)
    {
      visible := [];
      for i := 0 to |teams|
        invariant Valid() && visible == VisibleTeams(tables, teams[..i])
        invariant forall t :: t in teams && t.id in known ==> known[t.id].0 == t
      {
        assert teams[..i + 1][..i] == teams[..i];
        if teams[i].org in tables.memberships {
          var level := TeamLevel(teams[i]);
          if level.Some? {
            visible := visible + [teams[i]];
          }
        }
      }
      assert teams[..|teams|] == teams;
    }
  }
}
