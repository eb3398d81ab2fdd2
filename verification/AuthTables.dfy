/** The user, role, membership and rule tables, and the repository calls that read and write them.
    A row that has been soft deleted stays in its table, is invisible to reads, and still occupies
    its unique keys. */
module AuthTables {
  import opened Wrappers
  import opened Acl

  datatype UserRow = UserRow(id: nat, username: string, passwordHash: string, enabled: bool, live: bool)
  datatype RoleRow = RoleRow(id: nat, name: string, live: bool)
  datatype RuleRow = RuleRow(id: nat, roleId: nat, rule: Rule, live: bool)
  datatype MemberRow = MemberRow(userId: nat, roleId: nat, live: bool)

  datatype Tables = Tables(
    users: seq<UserRow>, roles: seq<RoleRow>, rules: seq<RuleRow>, members: seq<MemberRow>,
    nextUser: nat, nextRole: nat, nextRule: nat)

  /** Unique indexes, fresh automatic ids, and foreign keys. */
  ghost predicate Valid(t: Tables) {
    && (forall i, j | 0 <= i < j < |t.users| :: t.users[i].username != t.users[j].username && t.users[i].id != t.users[j].id)
    && (forall i, j | 0 <= i < j < |t.roles| :: t.roles[i].name != t.roles[j].name && t.roles[i].id != t.roles[j].id)
    && (forall i, j | 0 <= i < j < |t.rules| :: !SameKey(t.rules[i], t.rules[j]))
    && (forall u | u in t.users :: u.id < t.nextUser)
    && (forall r | r in t.roles :: r.id < t.nextRole)
    && (forall r | r in t.rules :: r.id < t.nextRule && r.roleId < t.nextRole)
    && (forall m | m in t.members :: m.userId < t.nextUser && m.roleId < t.nextRole)
  }

  predicate SameKey(a: RuleRow, b: RuleRow) {
    a.roleId == b.roleId && a.rule == b.rule
  }

  // ---------- Reads ----------

  predicate Visible(u: UserRow, username: string) {
    u.live && u.enabled && u.username == username
  }

  function FirstEnabled(users: seq<UserRow>, username: string): (found: Option<UserRow>)
    ensures found.Some? ==> found.value in users && Visible(found.value, username)
    ensures found.None? ==> forall u | u in users :: !Visible(u, username)
  {
    if users == [] then None
    else if Visible(users[0], username) then Some(users[0])
    else FirstEnabled(users[1..], username)
  }

  function FirstRole(roles: seq<RoleRow>, name: string): (found: Option<RoleRow>)
    ensures found.Some? ==> found.value in roles && found.value.live && found.value.name == name
    ensures found.None? ==> forall r | r in roles :: !(r.live && r.name == name)
  {
    if roles == [] then None
    else if roles[0].live && roles[0].name == name then Some(roles[0])
    else FirstRole(roles[1..], name)
  }

  function LiveUsers(users: seq<UserRow>): nat {
    if users == [] then 0 else LiveUsers(users[..|users| - 1]) + if users[|users| - 1].live then 1 else 0
  }

  lemma {:induction false} NoLiveUsers(users: seq<UserRow>)
    ensures LiveUsers(users) == 0 <==> forall u | u in users :: !u.live
  {
    if users != [] {
      var last := users[|users| - 1];
      NoLiveUsers(users[..|users| - 1]);
      assert forall u | u in users :: u == last || u in users[..|users| - 1];
    }
  }

  predicate IsMember(t: Tables, userId: nat, roleId: nat) {
    exists m | m in t.members :: m.live && m.userId == userId && m.roleId == roleId
  }

  predicate Holds(t: Tables, userId: nat, row: RuleRow) {
    && row.live && IsMember(t, userId, row.roleId)
    && exists r | r in t.roles :: r.live && r.id == row.roleId
  }

  /** The rules a user holds: live rules of the live roles that a live membership links to the user. */
  function HeldRules(t: Tables, userId: nat): set<Rule> {
    set row | row in t.rules && Holds(t, userId, row) :: row.rule
  }

  function RulesOfRole(rules: seq<RuleRow>, roleId: nat): (held: seq<Rule>)
    ensures forall rule :: rule in held <==>
                           exists row | row in rules :: row.live && row.roleId == roleId && row.rule == rule
  {
    if rules == [] then [] else
      var rest := RulesOfRole(rules[1..], roleId);
      assert rules == [rules[0]] + rules[1..];
      if rules[0].live && rules[0].roleId == roleId then [rules[0].rule] + rest else rest
  }

  function LoadRole(t: Tables, r: RoleRow): Role {
    Role(r.id, r.name, RulesOfRole(t.rules, r.id))
  }

  function RolesOfUser(t: Tables, roles: seq<RoleRow>, userId: nat): (held: seq<Role>)
    ensures forall h | h in held :: exists r | r in roles :: r.live && IsMember(t, userId, r.id) && h == LoadRole(t, r)
    ensures forall r | r in roles && r.live && IsMember(t, userId, r.id) :: LoadRole(t, r) in held
  {
    if roles == [] then [] else
      var rest := RolesOfUser(t, roles[1..], userId);
      assert roles == [roles[0]] + roles[1..];
      if roles[0].live && IsMember(t, userId, roles[0].id) then [LoadRole(t, roles[0])] + rest else rest
  }

  /** Preloading roles and then rules collects exactly the rules the user holds. */
  lemma PreloadComplete(t: Tables, userId: nat)
    ensures RulesOf(RolesOfUser(t, t.roles, userId)) == HeldRules(t, userId)
  {
    var held := RolesOfUser(t, t.roles, userId);
    forall rule ensures rule in RulesOf(held) <==> rule in HeldRules(t, userId) {
      if rule in RulesOf(held) {
        var i, j :| 0 <= i < |held| && 0 <= j < |held[i].rules| && held[i].rules[j] == rule;
        assert held[i] in held;
        var r :| r in t.roles && r.live && IsMember(t, userId, r.id) && held[i] == LoadRole(t, r);
        assert rule in RulesOfRole(t.rules, r.id);
        var row :| row in t.rules && row.live && row.roleId == r.id && row.rule == rule;
        assert Holds(t, userId, row);
      }
      if rule in HeldRules(t, userId) {
        var row :| row in t.rules && Holds(t, userId, row) && row.rule == rule;
        var r :| r in t.roles && r.live && r.id == row.roleId;
        assert LoadRole(t, r) in held && rule in LoadRole(t, r).rules;
        var i :| 0 <= i < |held| && held[i] == LoadRole(t, r);
        var j :| 0 <= j < |held[i].rules| && held[i].rules[j] == rule;
      }
    }
  }

  // ---------- The same, row by row ----------

  /** The rows that together give a user a rule. */
  predicate Linked(userId: nat, m: MemberRow, r: RoleRow, row: RuleRow) {
    && m.live && m.userId == userId
    && r.live && r.id == m.roleId
    && row.live && row.roleId == m.roleId
  }

  lemma HeldByRows(t: Tables, userId: nat, rule: Rule)
    ensures rule in HeldRules(t, userId) <==>
            exists m, r, row | m in t.members && r in t.roles && row in t.rules ::
              Linked(userId, m, r, row) && row.rule == rule
  {
    if rule in HeldRules(t, userId) {
      var row :| row in t.rules && Holds(t, userId, row) && row.rule == rule;
      var m :| m in t.members && m.live && m.userId == userId && m.roleId == row.roleId;
      var r :| r in t.roles && r.live && r.id == row.roleId;
      assert Linked(userId, m, r, row);
    }
    if m, r, row :| m in t.members && r in t.roles && row in t.rules && Linked(userId, m, r, row) && row.rule == rule {
      assert IsMember(t, userId, row.roleId);
      assert Holds(t, userId, row);
    }
  }

  lemma UserByRows(t: Tables, username: string, u: UserRow)
    requires Valid(t)
    ensures FirstEnabled(t.users, username) == Some(u) <==>
            u in t.users && u.live && u.enabled && u.username == username
  {
    if u in t.users && u.live && u.enabled && u.username == username {
      var found := FirstEnabled(t.users, username);
      assert Visible(u, username);
      var i :| 0 <= i < |t.users| && t.users[i] == u;
      var j :| 0 <= j < |t.users| && t.users[j] == found.value;
    }
  }

  // ---------- Writes ----------

  function InsertRole(t: Tables, name: string): Tables {
    t.(roles := t.roles + [RoleRow(t.nextRole, name, true)], nextRole := t.nextRole + 1)
  }

  predicate RuleKeyTaken(t: Tables, roleId: nat, rule: Rule) {
    exists row | row in t.rules :: row.roleId == roleId && row.rule == rule
  }

  function InsertRule(t: Tables, roleId: nat, rule: Rule): Tables {
    if RuleKeyTaken(t, roleId, rule) then t
    else t.(rules := t.rules + [RuleRow(t.nextRule, roleId, rule, true)], nextRule := t.nextRule + 1)
  }

  function InsertUser(t: Tables, username: string, hash: string): Tables {
    t.(users := t.users + [UserRow(t.nextUser, username, hash, true, true)], nextUser := t.nextUser + 1)
  }

  function InsertMember(t: Tables, userId: nat, roleId: nat): Tables {
    if exists m | m in t.members :: m.userId == userId && m.roleId == roleId then t
    else t.(members := t.members + [MemberRow(userId, roleId, true)])
  }

  function InsertRules(t: Tables, roleId: nat, rules: seq<Rule>): Tables
    decreases rules
  {
    if rules == [] then t else InsertRules(InsertRule(t, roleId, rules[0]), roleId, rules[1..])
  }

  predicate UsernameTaken(t: Tables, username: string) {
    exists u | u in t.users :: u.username == username
  }

  predicate RoleNameTaken(t: Tables, name: string) {
    exists r | r in t.roles :: r.name == name
  }

  datatype LookupError = NotFound | DatabaseError

  /** One database handle. `healthy` says whether the statement reaches the database at all. */
  class Database {
    var tables: Tables

    constructor (tables: Tables)
      ensures this.tables == tables
    {
      this.tables := tables;
    }

    method FindEnabledWithRoles(username: string, healthy: bool) returns (found: Option<seq<Role>>)
      ensures found.Some? <==> healthy && FirstEnabled(tables.users, username).Some?
      ensures found.Some? <==>
              healthy && exists u | u in tables.users :: u.live && u.enabled && u.username == username
      ensures found.Some? ==> RulesOf(found.value) == HeldRules(tables, FirstEnabled(tables.users, username).value.id)
      ensures found.Some? ==> forall role | role in found.value ::
                exists r | r in tables.roles :: r.live && r.id == role.id && r.name == role.name
    {
      if !healthy {
        return None;
      }
      var user := FirstEnabled(tables.users, username);
      match user
      case None => return None;
      case Some(u) =>
        PreloadComplete(tables, u.id);
        return Some(RolesOfUser(tables, tables.roles, u.id));
    }

    method CountUsers(healthy: bool) returns (count: Option<nat>)
      ensures count == if healthy then Some(LiveUsers(tables.users)) else None
    {
      count := if healthy then Some(LiveUsers(tables.users)) else None;
    }

    method FindRoleByName(name: string, healthy: bool) returns (role: Option<RoleRow>, error: Outcome<LookupError>)
      ensures !healthy ==> error == Fail(DatabaseError)
      ensures healthy ==> role == FirstRole(tables.roles, name) && error == if role.Some? then Pass else Fail(NotFound)
    {
      if !healthy {
        return None, Fail(DatabaseError);
      }
      role := FirstRole(tables.roles, name);
      error := if role.Some? then Pass else Fail(NotFound);
    }

    method CreateRole(name: string, healthy: bool) returns (ok: bool, id: nat)
      modifies this
      ensures ok <==> healthy && !RoleNameTaken(old(tables), name)
      ensures tables == if ok then InsertRole(old(tables), name) else old(tables)
      ensures id == old(tables.nextRole)
    {
      id := tables.nextRole;
      ok := healthy && !RoleNameTaken(tables, name);
      if ok {
        tables := InsertRole(tables, name);
      }
    }

    method CreateRulesIgnoreConflicts(roleId: nat, rules: seq<Rule>, healthy: bool) returns (ok: bool)
      modifies this
      ensures ok == healthy
      ensures tables == if ok then InsertRules(old(tables), roleId, rules) else old(tables)
    {
      ok := healthy;
      if ok {
        tables := InsertRules(tables, roleId, rules);
      }
    }

    method CreateUser(username: string, hash: string, healthy: bool) returns (ok: bool, id: nat)
      modifies this
      ensures ok <==> healthy && !UsernameTaken(old(tables), username)
      ensures tables == if ok then InsertUser(old(tables), username, hash) else old(tables)
      ensures id == old(tables.nextUser)
    {
      id := tables.nextUser;
      ok := healthy && !UsernameTaken(tables, username);
      if ok {
        tables := InsertUser(tables, username, hash);
      }
    }

    method AddRole(userId: nat, roleId: nat, healthy: bool) returns (ok: bool)
      modifies this
      ensures ok == healthy
      ensures tables == if ok then InsertMember(old(tables), userId, roleId) else old(tables)
    {
      ok := healthy;
      if ok {
        tables := InsertMember(tables, userId, roleId);
      }
    }
  }
}
