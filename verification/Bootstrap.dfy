/** First start: one transaction that creates the root user, the admin role and its two rules. */
module Bootstrap {
  import opened Wrappers
  import opened Acl
  import opened AuthTables

  const ADMIN := "admin"
  const ROOT := "root"
  const ALL_TOPICS := "#"

  /** The calls that can fail, in the order they are made. */
  datatype Step =
    | Begin | CountUsers | RandomBytes | HashPassword | FindRole
    | CreateRole | CreateRules | CreateUser | AddRole | Commit

  function AdminRules(): seq<Rule> {
    [Rule(PUBLISH, ALLOW, ALL_TOPICS), Rule(SUBSCRIBE, ALLOW, ALL_TOPICS)]
  }

  // ---------- What one call does ----------

  /** The calls made when nothing goes wrong. */
  function Path(t: Tables): set<Step> {
    if LiveUsers(t.users) > 0 then {Begin, CountUsers, Commit}
    else {Begin, CountUsers, RandomBytes, HashPassword, FindRole, CreateRules, CreateUser, AddRole, Commit}
         + if FirstRole(t.roles, ADMIN).None? then {CreateRole} else {}
  }

  /** A soft-deleted row in the way of an insert. */
  predicate Conflict(t: Tables) {
    || (FirstRole(t.roles, ADMIN).None? && RoleNameTaken(t, ADMIN))
    || UsernameTaken(t, ROOT)
  }

  predicate Fails(t: Tables, faults: set<Step>) {
    Path(t) * faults != {} || (LiveUsers(t.users) == 0 && Conflict(t))
  }

  function WithAdmin(t: Tables): Tables {
    if FirstRole(t.roles, ADMIN).None? then InsertRole(t, ADMIN) else t
  }

  function AdminId(t: Tables): nat {
    match FirstRole(t.roles, ADMIN)
    case None => t.nextRole
    case Some(role) => role.id
  }

  function Initialized(t: Tables, hash: string): Tables {
    InsertMember(InsertUser(InsertRules(WithAdmin(t), AdminId(t), AdminRules()), ROOT, hash), t.nextUser, AdminId(t))
  }

  datatype Attempt = Attempt(password: string, hash: string, faults: set<Step>)
  datatype Result = Result(tables: Tables, password: string, created: bool, failed: bool)

  /** All or nothing: an error or a database with users leaves every table as it was. */
  function EnsureRoot(t: Tables, attempt: Attempt): Result {
    if Fails(t, attempt.faults) then Result(t, "", false, true)
    else if LiveUsers(t.users) > 0 then Result(t, "", false, false)
    else Result(Initialized(t, attempt.hash), attempt.password, true, false)
  }

  // ---------- The transaction ----------

  class RootInitializer {
    const db: Database

    constructor (db: Database)
      ensures this.db == db
    {
      this.db := db;
    }

    /** The admin role, created if it is not there yet. */
    method FindOrCreateAdmin(faults: set<Step>) returns (ok: bool, roleId: nat)
      modifies db
      ensures ok <==> FindRole !in faults && (FirstRole(old(db.tables).roles, ADMIN).None? ==>
                        CreateRole !in faults && !RoleNameTaken(old(db.tables), ADMIN))
      ensures ok ==> db.tables == WithAdmin(old(db.tables)) && roleId == AdminId(old(db.tables))
    {
      roleId := 0;
      var role, error := db.FindRoleByName(ADMIN, FindRole !in faults);
      if error.Fail? && error.error != NotFound {
        return false, roleId;
      }
      if error == Fail(NotFound) {
        ok, roleId := db.CreateRole(ADMIN, CreateRole !in faults);
      } else {
        ok, roleId := true, role.value.id;
      }
    }

    /** The transaction body. It may leave some writes behind when it fails. */
    method Initialize(attempt: Attempt) returns (ok: bool, password: string, created: bool)
      modifies db
      ensures ok <==> !Fails(old(db.tables), attempt.faults - {Begin, Commit})
      ensures ok ==> db.tables == EnsureRoot(old(db.tables), attempt.(faults := {})).tables
      ensures ok ==> created == (LiveUsers(old(db.tables).users) == 0)
      ensures ok ==> password == if created then attempt.password else ""
    {
      ghost var t := db.tables;
      ghost var faults := attempt.faults - {Begin, Commit};
      ok, password, created := false, "", false;
      var count := db.CountUsers(CountUsers !in attempt.faults);
      if count.None? {
        assert CountUsers in Path(t) * faults;
        return;
      }
      if count.value > 0 {
        return true, password, created;
      }
      if RandomBytes in attempt.faults {
        assert RandomBytes in Path(t) * faults;
        return;
      }
      password := attempt.password;
      if HashPassword in attempt.faults {
        assert HashPassword in Path(t) * faults;
        return;
      }
      var roleId;
      ok, roleId := FindOrCreateAdmin(attempt.faults);
      if !ok {
        assert FindRole in attempt.faults ==> FindRole in Path(t) * faults;
        assert CreateRole in attempt.faults && FirstRole(t.roles, ADMIN).None? ==> CreateRole in Path(t) * faults;
        return;
      }
      ok := db.CreateRulesIgnoreConflicts(roleId, AdminRules(), CreateRules !in attempt.faults);
      if !ok {
        assert CreateRules in Path(t) * faults;
        return;
      }
      OnlyRulesChange(WithAdmin(t), roleId, AdminRules());
      var userId;
      ok, userId := db.CreateUser(ROOT, attempt.hash, CreateUser !in attempt.faults);
      if !ok {
        assert CreateUser in attempt.faults ==> CreateUser in Path(t) * faults;
        return;
      }
      ok := db.AddRole(userId, roleId, AddRole !in attempt.faults);
      if !ok {
        assert AddRole in Path(t) * faults;
        return;
      }
      created := true;
    }

    method EnsureInitialRoot(attempt: Attempt) returns (password: string, created: bool, failed: bool)
      modifies db
      ensures Result(db.tables, password, created, failed) == EnsureRoot(old(db.tables), attempt)
    {
      ghost var t := db.tables;
      if Begin in attempt.faults {
        assert Begin in Path(t) * attempt.faults;
        return "", false, true;
      }
      var snapshot := db.tables;
      var ok;
      ok, password, created := Initialize(attempt);
      PathSplit(t, attempt.faults);
      if !ok || Commit in attempt.faults {
        db.tables := snapshot;
        return "", false, true;
      }
      failed := false;
    }
  }

  lemma PathSplit(t: Tables, faults: set<Step>)
    requires Begin !in faults
    ensures Fails(t, faults) <==> Fails(t, faults - {Begin, Commit}) || Commit in faults
  {
    var inner := faults - {Begin, Commit};
    assert Commit in Path(t);
    if Path(t) * faults != {} {
      var step :| step in Path(t) * faults;
      assert step in inner || step == Commit;
      assert step in inner ==> step in Path(t) * inner;
    }
    if Path(t) * inner != {} {
      var step :| step in Path(t) * inner;
      assert step in Path(t) * faults;
    }
    if Commit in faults {
      assert Commit in Path(t) * faults;
    }
  }

  lemma {:induction false} OnlyRulesChange(t: Tables, roleId: nat, rules: seq<Rule>)
    ensures var after := InsertRules(t, roleId, rules);
            after == t.(rules := after.rules, nextRule := after.nextRule)
    decreases rules
  {
    if rules != [] {
      OnlyRulesChange(InsertRule(t, roleId, rules[0]), roleId, rules[1..]);
    }
  }
}
