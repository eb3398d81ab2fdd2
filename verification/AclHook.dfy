/** The broker's ACL hook: the nested loop over a user's roles and rules. */
module AclHook {
  import opened TopicFilter
  import opened FilterAlgebra
  import opened Acl
  import opened AuthTables
  import TopicLoops

  /** What a check answers when the database can be read. */
  predicate Permitted(t: Tables, username: string, write: bool, topic: string) {
    var user := FirstEnabled(t.users, username);
    user.Some? && Granted(HeldRules(t, user.value.id), OperationOf(write), topic)
  }

  /** The same answer from the rows: a live enabled user of that name, a live allow rule of the operation linked to
      the user that covers the topic, and no deny rule so linked that overlaps it. */
  ghost predicate RowsPermit(t: Tables, username: string, operation: string, topic: string) {
    exists u | u in t.users :: u.live && u.enabled && u.username == username && RowsGrant(t, u.id, operation, topic)
  }

  ghost predicate RowsGrant(t: Tables, userId: nat, operation: string, topic: string) {
    && (exists m, r, row | m in t.members && r in t.roles && row in t.rules ::
          Linked(userId, m, r, row) && row.rule.operation == operation && row.rule.effect == "allow"
          && CoveredBy(row.rule.topicFilter, topic))
    && (forall m, r, row | m in t.members && r in t.roles && row in t.rules && Linked(userId, m, r, row) ::
          row.rule.operation == operation && row.rule.effect == "deny" ==> !Overlaps(row.rule.topicFilter, topic))
  }

  lemma GrantedByRows(t: Tables, userId: nat, operation: string, topic: string)
    ensures Granted(HeldRules(t, userId), operation, topic) <==> RowsGrant(t, userId, operation, topic)
  {
    var held := HeldRules(t, userId);
    forall rule
      ensures rule in held <==>
              exists m, r, row | m in t.members && r in t.roles && row in t.rules ::
                Linked(userId, m, r, row) && row.rule == rule
    {
      HeldByRows(t, userId, rule);
    }
    assert (exists rule | rule in held :: Allows(rule, operation, topic)) <==>
           (exists m, r, row | m in t.members && r in t.roles && row in t.rules ::
              Linked(userId, m, r, row) && Allows(row.rule, operation, topic));
    forall m, r, row | m in t.members && r in t.roles && row in t.rules && Linked(userId, m, r, row)
      ensures row.rule in held
    {
    }
  }

  lemma PermittedByRows(t: Tables, username: string, write: bool, topic: string)
    requires Valid(t)
    ensures Permitted(t, username, write, topic) <==>
            RowsPermit(t, username, if write then "publish" else "subscribe", topic)
  {
    var operation := if write then "publish" else "subscribe";
    if Permitted(t, username, write, topic) {
      var u := FirstEnabled(t.users, username).value;
      UserByRows(t, username, u);
      GrantedByRows(t, u.id, operation, topic);
    }
    if RowsPermit(t, username, operation, topic) {
      var u :| u in t.users && u.live && u.enabled && u.username == username && RowsGrant(t, u.id, operation, topic);
      UserByRows(t, username, u);
      GrantedByRows(t, u.id, operation, topic);
    }
  }

  /** For a concrete topic the answer is plain matching against the linked rules. */
  lemma ConcreteCheck(t: Tables, username: string, write: bool, topic: string)
    requires Valid(t) && IsTopic(topic)
    ensures var operation := if write then "publish" else "subscribe";
            Permitted(t, username, write, topic) <==>
            exists u | u in t.users ::
              && u.live && u.enabled && u.username == username
              && (exists m, r, row | m in t.members && r in t.roles && row in t.rules ::
                    Linked(u.id, m, r, row) && row.rule.operation == operation && row.rule.effect == "allow"
                    && Matches(row.rule.topicFilter, topic))
              && (forall m, r, row | m in t.members && r in t.roles && row in t.rules && Linked(u.id, m, r, row) ::
                    row.rule.operation == operation && row.rule.effect == "deny"
                    ==> !Matches(row.rule.topicFilter, topic))
  {
    PermittedByRows(t, username, write, topic);
    forall row | row in t.rules
      ensures CoveredBy(row.rule.topicFilter, topic) <==> Matches(row.rule.topicFilter, topic)
      ensures Overlaps(row.rule.topicFilter, topic) <==> Matches(row.rule.topicFilter, topic)
    {
      ConcreteTopic(row.rule.topicFilter, topic);
    }
  }

  function OperationOf(write: bool): string {
    if write then PUBLISH else SUBSCRIBE
  }

  class AuthAclHook {
    const users: Database

    constructor (users: Database)
      ensures this.users == users
    {
      this.users := users;
    }

    method OnACLCheck(username: string, topic: string, write: bool, healthy: bool) returns (allowed: bool)
      ensures allowed <==> healthy && Permitted(users.tables, username, write, topic)
      ensures Valid(users.tables) ==>
                (allowed <==>
                 healthy && RowsPermit(users.tables, username, if write then "publish" else "subscribe", topic))
    {
      if Valid(users.tables) {
        PermittedByRows(users.tables, username, write, topic);
      }
      var operation := SUBSCRIBE;
      if write {
        operation := PUBLISH;
      }
      var user := users.FindEnabledWithRoles(username, healthy);
      if user.None? {
        return false;
      }
      allowed := Decide(user.value, operation, topic);
    }

    static method Decide(roles: seq<Role>, operation: string, topic: string) returns (allowed: bool)
      ensures allowed <==> Granted(RulesOf(roles), operation, topic)
    {
      allowed := false;
      for i := 0 to |roles|
        invariant forall k, j | 0 <= k < i && 0 <= j < |roles[k].rules| :: !Denies(roles[k].rules[j], operation, topic)
        invariant allowed <==> exists k, j | 0 <= k < i && 0 <= j < |roles[k].rules| ::
                    Allows(roles[k].rules[j], operation, topic)
      {
        ghost var before := allowed;
        var rules := roles[i].rules;
        for j := 0 to |rules|
          invariant forall n | 0 <= n < j :: !Denies(rules[n], operation, topic)
          invariant allowed <==> before || exists n | 0 <= n < j :: Allows(rules[n], operation, topic)
        {
          var rule := rules[j];
          if rule.operation != operation {
            continue;
          }
          var overlap := TopicLoops.TopicFiltersOverlap(rule.topicFilter, topic);
          if rule.effect == DENY && overlap {
            assert rule in RulesOf(roles) && Denies(rule, operation, topic);
            return false;
          }
          var covered := TopicLoops.TopicCoveredBy(rule.topicFilter, topic);
          if rule.effect == ALLOW && covered {
            allowed := true;
          }
        }
      }
      if allowed {
        var k, j :| 0 <= k < |roles| && 0 <= j < |roles[k].rules| && Allows(roles[k].rules[j], operation, topic);
        assert roles[k].rules[j] in RulesOf(roles);
      }
    }
  }
}
