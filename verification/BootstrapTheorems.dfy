/** What the first-start transaction guarantees, alone, over a run, and together with the ACL check. */
module BootstrapTheorems {
  import opened Wrappers
  import opened TopicFilter
  import opened FilterAlgebra
  import opened Acl
  import opened AuthTables
  import opened AclHook
  import opened Bootstrap

  lemma InitializedUsers(t: Tables, hash: string)
    ensures Initialized(t, hash).users == t.users + [UserRow(t.nextUser, ROOT, hash, true, true)]
    ensures Initialized(t, hash).roles == WithAdmin(t).roles
    ensures Initialized(t, hash).rules == InsertRules(WithAdmin(t), AdminId(t), AdminRules()).rules
  {
    OnlyRulesChange(WithAdmin(t), AdminId(t), AdminRules());
  }

  /** A call reports a creation exactly when it took the number of live users from none to one;
      otherwise it changed nothing and hands out no password. */
  lemma AllOrNothing(t: Tables, attempt: Attempt)
    ensures var r := EnsureRoot(t, attempt);
            && (r.created <==> LiveUsers(t.users) == 0 && LiveUsers(r.tables.users) == 1)
            && (r.created ==> !r.failed && r.password == attempt.password)
            && (!r.created ==> r.tables == t && r.password == "")
            && (r.failed <==> Path(t) * attempt.faults != {} || (LiveUsers(t.users) == 0 && Conflict(t)))
  {
    InitializedUsers(t, attempt.hash);
    var users := Initialized(t, attempt.hash).users;
    assert users[..|users| - 1] == t.users;
  }

  /** Exactly when a call fails, and when it creates, in terms of the calls that fail and the rows. */
  lemma OutcomeByRows(t: Tables, attempt: Attempt)
    ensures var r := EnsureRoot(t, attempt);
            && (r.failed <==>
                || Begin in attempt.faults || CountUsers in attempt.faults || Commit in attempt.faults
                || (&& (forall u | u in t.users :: !u.live)
                    && (|| RandomBytes in attempt.faults || HashPassword in attempt.faults || FindRole in attempt.faults
                        || CreateRules in attempt.faults || CreateUser in attempt.faults || AddRole in attempt.faults
                        || (exists u | u in t.users :: u.username == "root")
                        || (&& (forall r | r in t.roles :: !(r.live && r.name == "admin"))
                            && (CreateRole in attempt.faults || exists r | r in t.roles :: r.name == "admin")))))
            && (r.created <==> !r.failed && forall u | u in t.users :: !u.live)
  {
    NoLiveUsers(t.users);
    PathByRows(t);
    var hit := Path(t) * attempt.faults;
    if hit != {} {
      var step :| step in hit;
      assert step in Path(t) && step in attempt.faults;
    }
    forall step | step in attempt.faults && step in Path(t) ensures hit != {} {
      assert step in hit;
    }
  }

  lemma PathByRows(t: Tables)
    ensures forall step :: step in Path(t) <==>
              || step in {Begin, CountUsers, Commit}
              || (&& (forall u | u in t.users :: !u.live)
                  && (|| step in {RandomBytes, HashPassword, FindRole, CreateRules, CreateUser, AddRole}
                      || (step == CreateRole && forall r | r in t.roles :: !(r.live && r.name == "admin"))))
  {
    NoLiveUsers(t.users);
  }

  /** Whether no row of any state holds the key of a rule. */
  predicate KeyFree(rules: seq<RuleRow>, roleId: nat, rule: Rule) {
    forall row | row in rules :: !(row.roleId == roleId && row.rule == rule)
  }

  /** The rows a creation adds, every earlier row staying in place: the user and its membership, ... */
  predicate AddsRoot(t: Tables, after: Tables, admin: nat, hash: string) {
    && after.users == t.users + [UserRow(id := t.nextUser, username := "root", passwordHash := hash,
                                         enabled := true, live := true)]
    && after.members == t.members + [MemberRow(userId := t.nextUser, roleId := admin, live := true)]
    && after.nextUser == t.nextUser + 1
  }

  /** ... the admin role if there is no live one, ... */
  predicate AddsRole(t: Tables, after: Tables, admin: nat) {
    if exists r | r in t.roles :: r.live && r.name == "admin" then
      && after.roles == t.roles && after.nextRole == t.nextRole
      && exists r | r in t.roles :: r.live && r.name == "admin" && r.id == admin
    else
      && admin == t.nextRole && after.nextRole == t.nextRole + 1
      && after.roles == t.roles + [RoleRow(id := admin, name := "admin", live := true)]
  }

  /** ... and of the two rules those whose key is free. */
  predicate AddsRules(t: Tables, after: Tables, admin: nat) {
    var publish, subscribe := Rule("publish", "allow", "#"), Rule("subscribe", "allow", "#");
    var first := if KeyFree(t.rules, admin, publish)
                 then [RuleRow(id := t.nextRule, roleId := admin, rule := publish, live := true)] else [];
    var second := if KeyFree(t.rules, admin, subscribe)
                  then [RuleRow(id := t.nextRule + |first|, roleId := admin, rule := subscribe, live := true)] else [];
    after.rules == t.rules + first + second && after.nextRule == t.nextRule + |first| + |second|
  }

  lemma CreatedRules(t: Tables, hash: string)
    ensures AddsRules(t, Initialized(t, hash), AdminId(t))
  {
    OnlyRulesChange(WithAdmin(t), AdminId(t), AdminRules());
    InsertedAdminRules(WithAdmin(t), AdminId(t));
  }

  lemma CreatedRoot(t: Tables, hash: string)
    requires Valid(t)
    ensures AddsRoot(t, Initialized(t, hash), AdminId(t), hash)
  {
    OnlyRulesChange(WithAdmin(t), AdminId(t), AdminRules());
    assert forall m | m in t.members :: m.userId != t.nextUser;
  }

  lemma CreatedRole(t: Tables, hash: string)
    ensures AddsRole(t, Initialized(t, hash), AdminId(t))
  {
    OnlyRulesChange(WithAdmin(t), AdminId(t), AdminRules());
  }

  /** A creation keeps every row there was and adds exactly these. */
  lemma CreatedRows(t: Tables, attempt: Attempt) returns (admin: nat)
    requires Valid(t) && EnsureRoot(t, attempt).created
    ensures var after := EnsureRoot(t, attempt).tables;
            AddsRoot(t, after, admin, attempt.hash) && AddsRole(t, after, admin) && AddsRules(t, after, admin)
  {
    admin := AdminId(t);
    CreatedRole(t, attempt.hash);
    CreatedRoot(t, attempt.hash);
    CreatedRules(t, attempt.hash);
  }

  lemma InsertedAdminRules(t: Tables, roleId: nat)
    ensures AddsRules(t, InsertRules(t, roleId, AdminRules()), roleId)
  {
    var publish, subscribe := Rule("publish", "allow", "#"), Rule("subscribe", "allow", "#");
    var next := InsertRule(t, roleId, publish);
    assert AdminRules()[1..] == [subscribe] && [subscribe][1..] == [];
    assert InsertRules(t, roleId, AdminRules()) == InsertRule(next, roleId, subscribe);
    assert forall row :: row in next.rules ==> row in t.rules || row.rule == publish;
    assert forall row :: row in t.rules ==> row in next.rules;
    assert publish.operation[0] != subscribe.operation[0];
  }

  // ---------- Over a run ----------

  /** Between starts the administrator may change anything, short of removing the last live user. */
  datatype Event = Start(attempt: Attempt) | Administer(after: Tables)

  function Next(t: Tables, e: Event): Tables {
    match e
    case Start(attempt) => EnsureRoot(t, attempt).tables
    case Administer(after) => after
  }

  predicate KeepsUser(t: Tables, run: seq<Event>)
    decreases run
  {
    run == [] ||
    (&& (LiveUsers(t.users) > 0 ==> LiveUsers(Next(t, run[0]).users) > 0)
     && KeepsUser(Next(t, run[0]), run[1..]))
  }

  function Creates(t: Tables, e: Event): bool {
    e.Start? && EnsureRoot(t, e.attempt).created
  }

  function Creations(t: Tables, run: seq<Event>): nat
    decreases run
  {
    if run == [] then 0 else (if Creates(t, run[0]) then 1 else 0) + Creations(Next(t, run[0]), run[1..])
  }

  /** The tables just before event i of a run. */
  function Before(t: Tables, run: seq<Event>, i: nat): Tables
    requires i < |run|
    decreases i
  {
    if i == 0 then t else Before(Next(t, run[0]), run[1..], i - 1)
  }

  /** Once there is a user, every start that follows changes nothing and returns an empty password. */
  lemma {:induction false} LaterStartsAreNoOps(t: Tables, run: seq<Event>, i: nat)
    requires KeepsUser(t, run) && LiveUsers(t.users) > 0
    requires i < |run| && run[i].Start?
    ensures var r := EnsureRoot(Before(t, run, i), run[i].attempt);
            r.tables == Before(t, run, i) && !r.created && r.password == ""
    decreases i
  {
    if i > 0 {
      LaterStartsAreNoOps(Next(t, run[0]), run[1..], i - 1);
    }
  }

  /** At most one start of a run creates the root user. */
  lemma {:induction false} CreatedAtMostOnce(t: Tables, run: seq<Event>)
    requires KeepsUser(t, run)
    ensures Creations(t, run) <= if LiveUsers(t.users) > 0 then 0 else 1
    decreases run
  {
    if run != [] {
      CreatedAtMostOnce(Next(t, run[0]), run[1..]);
      if run[0].Start? {
        AllOrNothing(t, run[0].attempt);
      }
    }
  }

  // ---------- The tables stay consistent ----------

  lemma InsertRuleValid(t: Tables, roleId: nat, rule: Rule)
    requires Valid(t) && roleId < t.nextRole
    ensures Valid(InsertRule(t, roleId, rule))
  {
    var after := InsertRule(t, roleId, rule);
    forall i, j | 0 <= i < j < |after.rules| ensures !SameKey(after.rules[i], after.rules[j]) {
      if j == |t.rules| {
        assert t.rules[i] in t.rules;
      }
    }
  }

  lemma {:induction false} InsertRulesValid(t: Tables, roleId: nat, rules: seq<Rule>)
    requires Valid(t) && roleId < t.nextRole
    ensures Valid(InsertRules(t, roleId, rules))
    decreases rules
  {
    if rules != [] {
      InsertRuleValid(t, roleId, rules[0]);
      InsertRulesValid(InsertRule(t, roleId, rules[0]), roleId, rules[1..]);
    }
  }

  lemma WithAdminValid(t: Tables)
    requires Valid(t) && !Conflict(t)
    ensures Valid(WithAdmin(t)) && AdminId(t) < WithAdmin(t).nextRole
  {
    var after := WithAdmin(t);
    forall i, j | 0 <= i < j < |after.roles|
      ensures after.roles[i].name != after.roles[j].name && after.roles[i].id != after.roles[j].id
    {
      if j == |t.roles| {
        assert t.roles[i] in t.roles;
      }
    }
  }

  lemma EnsureRootValid(t: Tables, attempt: Attempt)
    requires Valid(t)
    ensures Valid(EnsureRoot(t, attempt).tables)
  {
    if EnsureRoot(t, attempt).created {
      WithAdminValid(t);
      OnlyRulesChange(WithAdmin(t), AdminId(t), AdminRules());
      InsertRulesValid(WithAdmin(t), AdminId(t), AdminRules());
      InsertUserValid(InsertRules(WithAdmin(t), AdminId(t), AdminRules()), ROOT, attempt.hash);
    }
  }

  lemma InsertUserValid(t: Tables, username: string, hash: string)
    requires Valid(t) && !UsernameTaken(t, username)
    ensures Valid(InsertUser(t, username, hash))
  {
    var after := InsertUser(t, username, hash);
    forall i, j | 0 <= i < j < |after.users|
      ensures after.users[i].username != after.users[j].username && after.users[i].id != after.users[j].id
    {
      if j == |t.users| {
        assert t.users[i] in t.users;
      }
    }
  }

  // ---------- Together with the ACL check ----------

  predicate LiveRule(t: Tables, roleId: nat, rule: Rule) {
    exists row | row in t.rules :: row.live && row.roleId == roleId && row.rule == rule
  }

  lemma {:induction false} LiveRulesAfterInsert(t: Tables, roleId: nat, rules: seq<Rule>, rule: Rule)
    ensures LiveRule(InsertRules(t, roleId, rules), roleId, rule) <==>
            LiveRule(t, roleId, rule) || (rule in rules && !RuleKeyTaken(t, roleId, rule))
    decreases rules
  {
    if rules != [] {
      var next := InsertRule(t, roleId, rules[0]);
      LiveRulesAfterInsert(next, roleId, rules[1..], rule);
      if !RuleKeyTaken(t, roleId, rules[0]) {
        assert next.rules[|t.rules|] in next.rules;
        assert forall row :: row in next.rules <==> row in t.rules || row == next.rules[|t.rules|];
      }
      assert rules == [rules[0]] + rules[1..];
    }
  }

  /** After a creation root holds the admin role's live rules and the two new ones whose key was free. */
  lemma RootHolds(t: Tables, hash: string, rule: Rule)
    requires Valid(t) && !Conflict(t)
    ensures FirstEnabled(Initialized(t, hash).users, ROOT) == Some(UserRow(t.nextUser, ROOT, hash, true, true))
    ensures rule in HeldRules(Initialized(t, hash), t.nextUser) <==>
            LiveRule(t, AdminId(t), rule) || (rule in AdminRules() && !RuleKeyTaken(t, AdminId(t), rule))
  {
    var after, id := Initialized(t, hash), AdminId(t);
    InitializedUsers(t, hash);
    RootFound(t, after.users, hash);
    OnlyRulesChange(WithAdmin(t), id, AdminRules());
    LiveRulesAfterInsert(WithAdmin(t), id, AdminRules(), rule);
    RootMembership(t, hash);
    AdminRoleLive(t);
    if rule in HeldRules(after, t.nextUser) {
      var row :| row in after.rules && Holds(after, t.nextUser, row) && row.rule == rule;
      assert row.roleId == id;
    }
    if LiveRule(after, id, rule) {
      var row :| row in after.rules && row.live && row.roleId == id && row.rule == rule;
      assert Holds(after, t.nextUser, row);
    }
  }

  lemma AdminRoleLive(t: Tables)
    ensures exists r | r in WithAdmin(t).roles :: r.live && r.id == AdminId(t)
  {
    if FirstRole(t.roles, ADMIN).None? {
      assert WithAdmin(t).roles[|t.roles|] in WithAdmin(t).roles;
    }
  }

  lemma RootMembership(t: Tables, hash: string)
    requires Valid(t)
    ensures forall roleId: nat :: IsMember(Initialized(t, hash), t.nextUser, roleId) <==> roleId == AdminId(t)
  {
    var after := Initialized(t, hash);
    OnlyRulesChange(WithAdmin(t), AdminId(t), AdminRules());
    var m := MemberRow(t.nextUser, AdminId(t), true);
    assert after.members == t.members + [m];
    assert m in after.members;
    assert forall other :: other in after.members <==> other in t.members || other == m;
  }

  lemma RootFound(t: Tables, users: seq<UserRow>, hash: string)
    requires !UsernameTaken(t, ROOT)
    requires users == t.users + [UserRow(t.nextUser, ROOT, hash, true, true)]
    ensures FirstEnabled(users, ROOT) == Some(UserRow(t.nextUser, ROOT, hash, true, true))
  {
    var root := users[|t.users|];
    assert root in users && Visible(root, ROOT);
    assert forall u :: u in users <==> u in t.users || u == root;
  }

  predicate AllowsAll(rule: Rule, operation: string) {
    Concerns(rule, operation, ALLOW) && Levels.Split(rule.topicFilter)[0] == HASH
  }

  /** What the database must look like beforehand for an operation: no live deny rule on the admin role,
      and nothing soft deleted in the key of the new rule unless some live rule does its work. */
  predicate AdminOpen(t: Tables, operation: string) {
    var id := AdminId(t);
    && (forall row | row in t.rules && row.live && row.roleId == id :: !Concerns(row.rule, operation, DENY))
    && (|| !RuleKeyTaken(t, id, Rule(operation, ALLOW, ALL_TOPICS))
        || exists row | row in t.rules :: row.live && row.roleId == id && AllowsAll(row.rule, operation))
  }

  lemma RootGrants(t: Tables, hash: string, write: bool)
    requires Valid(t) && !Conflict(t)
    ensures (forall topic: string :: Permitted(Initialized(t, hash), ROOT, write, topic)) <==>
            AdminOpen(t, OperationOf(write))
  {
    var op, id := OperationOf(write), AdminId(t);
    var held := HeldRules(Initialized(t, hash), t.nextUser);
    forall rule ensures rule in held <==>
                        LiveRule(t, id, rule) || (rule in AdminRules() && !RuleKeyTaken(t, id, rule)) {
      RootHolds(t, hash, rule);
    }
    RootHolds(t, hash, Rule(op, ALLOW, ALL_TOPICS));
    assert forall topic :: Permitted(Initialized(t, hash), ROOT, write, topic) <==> Granted(held, op, topic);
    if forall topic: string :: Permitted(Initialized(t, hash), ROOT, write, topic) {
      OpenWhenAllGranted(t, held, op);
    }
    if AdminOpen(t, op) {
      forall topic: string ensures Granted(held, op, topic) {
        GrantedWhenOpen(t, held, op, topic);
      }
    }
  }

  ghost predicate RootRules(t: Tables, held: set<Rule>) {
    forall rule :: rule in held <==>
                   LiveRule(t, AdminId(t), rule) || (rule in AdminRules() && !RuleKeyTaken(t, AdminId(t), rule))
  }

  lemma OpenWhenAllGranted(t: Tables, held: set<Rule>, operation: string)
    requires RootRules(t, held) && operation in {PUBLISH, SUBSCRIBE}
    requires forall topic: string :: Granted(held, operation, topic)
    ensures AdminOpen(t, operation)
  {
    forall row | row in t.rules && row.live && row.roleId == AdminId(t) ensures !Concerns(row.rule, operation, DENY) {
      assert LiveRule(t, AdminId(t), row.rule);
      CoverageReflexive(row.rule.topicFilter);
      CoverageImpliesOverlap(row.rule.topicFilter, row.rule.topicFilter);
      assert Granted(held, operation, row.rule.topicFilter);
    }
    assert Granted(held, operation, HASH);
    var allow :| allow in held && Allows(allow, operation, HASH);
    CoversHash(allow.topicFilter);
    assert AllowsAll(allow, operation);
    if !LiveRule(t, AdminId(t), allow) {
      assert allow == Rule(operation, ALLOW, ALL_TOPICS);
    }
  }

  lemma GrantedWhenOpen(t: Tables, held: set<Rule>, operation: string, topic: string)
    requires RootRules(t, held) && operation in {PUBLISH, SUBSCRIBE} && AdminOpen(t, operation)
    ensures Granted(held, operation, topic)
  {
    var all := Rule(operation, ALLOW, ALL_TOPICS);
    if !RuleKeyTaken(t, AdminId(t), all) {
      assert all in held && Levels.Split(ALL_TOPICS) == [HASH];
      CoversEverything(ALL_TOPICS);
      assert Allows(all, operation, topic);
    } else {
      var row :| row in t.rules && row.live && row.roleId == AdminId(t) && AllowsAll(row.rule, operation);
      assert LiveRule(t, AdminId(t), row.rule);
      CoversEverything(row.rule.topicFilter);
      assert Allows(row.rule, operation, topic);
    }
    forall deny | deny in held ensures !Denies(deny, operation, topic) {
      assert deny in AdminRules() ==> deny.effect == ALLOW;
      assert ALLOW != DENY;
    }
  }

  /** End to end: after a reported creation root may publish and subscribe to everything
      exactly when the admin role was open for both operations beforehand. */
  lemma BootstrapEndToEnd(t: Tables, attempt: Attempt)
    requires Valid(t) && EnsureRoot(t, attempt).created
    ensures (forall write: bool, topic: string :: Permitted(EnsureRoot(t, attempt).tables, ROOT, write, topic)) <==>
            AdminOpen(t, PUBLISH) && AdminOpen(t, SUBSCRIBE)
  {
    RootGrants(t, attempt.hash, true);
    RootGrants(t, attempt.hash, false);
  }

  /** In particular when there was no admin role, as on an empty database. */
  lemma FreshRoleIsOpen(t: Tables, operation: string)
    requires Valid(t) && FirstRole(t.roles, ADMIN).None?
    ensures AdminOpen(t, operation)
  {
  }

  /** It can be closed: with no users, and an admin role on which someone has put a deny rule, the start
      creates a root that may not publish to the denied topic. */
  lemma DeniedRoot(attempt: Attempt)
    requires attempt.faults == {}
    ensures var t := Tables([], [RoleRow(0, ADMIN, true)], [RuleRow(0, 0, Rule(PUBLISH, DENY, "a"), true)], [], 0, 1, 1);
            && Valid(t) && EnsureRoot(t, attempt).created && !AdminOpen(t, PUBLISH)
            && !Permitted(EnsureRoot(t, attempt).tables, ROOT, true, "a")
  {
    var deny := RuleRow(0, 0, Rule(PUBLISH, DENY, "a"), true);
    var t := Tables([], [RoleRow(0, ADMIN, true)], [deny], [], 0, 1, 1);
    assert deny in t.rules;
    RootHolds(t, attempt.hash, deny.rule);
    CoverageReflexive("a");
    CoverageImpliesOverlap("a", "a");
    assert Denies(deny.rule, PUBLISH, "a");
  }
}
