/** The decision an ACL makes, as a property of the set of rules a user holds. */
module Acl {
  import opened TopicFilter
  import opened FilterAlgebra
  import opened FilterExactness

  const PUBLISH := "publish"
  const SUBSCRIBE := "subscribe"
  const ALLOW := "allow"
  const DENY := "deny"

  /** Operation and effect are free text in the database; only the four values above have a meaning. */
  datatype Rule = Rule(operation: string, effect: string, topicFilter: string)

  datatype Role = Role(id: nat, name: string, rules: seq<Rule>)

  predicate Allows(rule: Rule, operation: string, topic: string) {
    rule.operation == operation && rule.effect == ALLOW && CoveredBy(rule.topicFilter, topic)
  }

  predicate Denies(rule: Rule, operation: string, topic: string) {
    rule.operation == operation && rule.effect == DENY && Overlaps(rule.topicFilter, topic)
  }

  function RulesOf(roles: seq<Role>): set<Rule> {
    set i, j | 0 <= i < |roles| && 0 <= j < |roles[i].rules| :: roles[i].rules[j]
  }

  /** Some allow rule covers the request and no deny rule overlaps it. */
  predicate Granted(rules: set<Rule>, operation: string, topic: string) {
    && (exists rule | rule in rules :: Allows(rule, operation, topic))
    && (forall rule | rule in rules :: !Denies(rule, operation, topic))
  }

  // ---------- Independence of order, grouping and repetition ----------

  function AllRules(roles: seq<Role>): seq<Rule> {
    if roles == [] then [] else roles[0].rules + AllRules(roles[1..])
  }

  lemma {:induction false} RulesOfIsAllRules(roles: seq<Role>)
    ensures forall rule :: rule in RulesOf(roles) <==> rule in AllRules(roles)
  {
    if roles != [] {
      RulesOfIsAllRules(roles[1..]);
      forall rule ensures rule in RulesOf(roles) <==> rule in roles[0].rules || rule in RulesOf(roles[1..]) {
        if rule in RulesOf(roles) {
          var i, j :| 0 <= i < |roles| && 0 <= j < |roles[i].rules| && roles[i].rules[j] == rule;
          if i > 0 {
            assert roles[1..][i - 1] == roles[i];
          }
        }
        if rule in RulesOf(roles[1..]) {
          var i, j :| 0 <= i < |roles| - 1 && 0 <= j < |roles[1..][i].rules| && roles[1..][i].rules[j] == rule;
          assert roles[i + 1].rules[j] == rule;
        }
      }
    }
  }

  /** Roles that hold the same rules, in whatever order and however grouped, decide alike. */
  lemma RegroupingInvariance(before: seq<Role>, after: seq<Role>, operation: string, topic: string)
    requires multiset(AllRules(before)) == multiset(AllRules(after))
    ensures Granted(RulesOf(before), operation, topic) <==> Granted(RulesOf(after), operation, topic)
  {
    RulesOfIsAllRules(before);
    RulesOfIsAllRules(after);
    assert forall rule :: rule in AllRules(before) <==> rule in multiset(AllRules(before));
    assert forall rule :: rule in AllRules(after) <==> rule in multiset(AllRules(after));
    assert RulesOf(before) == RulesOf(after);
  }

  // ---------- Rules nobody validated ----------

  function Truncated(rules: set<Rule>): set<Rule> {
    set rule | rule in rules :: rule.(topicFilter := Truncate(rule.topicFilter))
  }

  /** Rule filters reach the table unchecked. Whatever follows a "#" level in one plays no part. */
  lemma TruncationOfRules(rules: set<Rule>, operation: string, topic: string)
    ensures Granted(Truncated(rules), operation, topic) <==> Granted(rules, operation, topic)
  {
    forall rule | rule in rules
      ensures rule.(topicFilter := Truncate(rule.topicFilter)) in Truncated(rules)
      ensures Allows(rule.(topicFilter := Truncate(rule.topicFilter)), operation, topic) <==> Allows(rule, operation, topic)
      ensures Denies(rule.(topicFilter := Truncate(rule.topicFilter)), operation, topic) <==> Denies(rule, operation, topic)
    {
      TruncationOfOne(rule.topicFilter, topic);
    }
  }

  // ---------- Deny overrides ----------

  /** Denies only take away, and any rule that is not a deny only adds. */
  lemma RuleMonotonicity(rules: set<Rule>, rule: Rule, operation: string, topic: string)
    ensures rule.effect != ALLOW && Granted(rules + {rule}, operation, topic) ==> Granted(rules, operation, topic)
    ensures rule.effect != DENY && Granted(rules, operation, topic) ==> Granted(rules + {rule}, operation, topic)
  {
    if rule.effect != ALLOW && Granted(rules + {rule}, operation, topic) {
      var allow :| allow in rules + {rule} && Allows(allow, operation, topic);
      assert allow in rules;
      assert forall deny | deny in rules :: deny in rules + {rule};
    }
    if rule.effect != DENY && Granted(rules, operation, topic) {
      var allow :| allow in rules && Allows(allow, operation, topic);
      assert allow in rules + {rule};
    }
  }

  // ---------- Downward closure ----------

  /** A grant for a filter is a grant for everything the filter covers; no rule need be well formed. */
  lemma DownwardClosed(rules: set<Rule>, operation: string, wide: string, narrow: string)
    requires Granted(rules, operation, wide) && CoveredBy(wide, narrow)
    ensures Granted(rules, operation, narrow)
  {
    var allow :| allow in rules && Allows(allow, operation, wide);
    CoverageTransitive(allow.topicFilter, wide, narrow);
    assert Allows(allow, operation, narrow);
    forall deny | deny in rules ensures !Denies(deny, operation, narrow) {
      if Denies(deny, operation, narrow) {
        OverlapMonotone(deny.topicFilter, narrow, wide);
      }
    }
  }

  /** So a granted filter lets every topic it matches through. */
  lemma GrantedFilterGrantsItsTopics(rules: set<Rule>, operation: string, filter: string, topic: string)
    requires Granted(rules, operation, filter) && IsTopic(topic) && Matches(filter, topic)
    ensures Granted(rules, operation, topic)
  {
    ConcreteTopic(filter, topic);
    DownwardClosed(rules, operation, filter, topic);
  }

  // ---------- Meaning ----------

  predicate Concerns(rule: Rule, operation: string, effect: string) {
    rule.operation == operation && rule.effect == effect
  }

  /** For a concrete topic the decision is plain matching, whatever the rule filters look like. */
  lemma ConcreteDecision(rules: set<Rule>, operation: string, topic: string)
    requires IsTopic(topic)
    ensures Granted(rules, operation, topic) <==>
            && (exists rule | rule in rules :: Concerns(rule, operation, ALLOW) && Matches(rule.topicFilter, topic))
            && (forall rule | rule in rules :: Concerns(rule, operation, DENY) ==> !Matches(rule.topicFilter, topic))
  {
    forall rule | rule in rules
      ensures Allows(rule, operation, topic) <==> Concerns(rule, operation, ALLOW) && Matches(rule.topicFilter, topic)
      ensures Denies(rule, operation, topic) <==> Concerns(rule, operation, DENY) && Matches(rule.topicFilter, topic)
    {
      ConcreteTopic(rule.topicFilter, topic);
    }
  }

  predicate WellFormedRules(rules: set<Rule>) {
    forall rule | rule in rules :: WellFormed(rule.topicFilter)
  }

  /** For a filter: one allow rule has all its topics and no deny rule shares one, gaps aside. */
  lemma FilterDecision(rules: set<Rule>, operation: string, filter: string)
    requires WellFormedRules(rules) && WellFormed(filter)
    ensures Granted(rules, operation, filter) <==>
            && (exists rule | rule in rules ::
                  Concerns(rule, operation, ALLOW)
                  && Included(filter, rule.topicFilter) && !CoverageGap(rule.topicFilter, filter))
            && (forall rule | rule in rules ::
                  Concerns(rule, operation, DENY)
                  ==> !ShareTopic(rule.topicFilter, filter) && !OverlapGap(rule.topicFilter, filter))
  {
    forall rule | rule in rules
      ensures CoveredBy(rule.topicFilter, filter) <==>
              Included(filter, rule.topicFilter) && !CoverageGap(rule.topicFilter, filter)
      ensures Overlaps(rule.topicFilter, filter) <==>
              ShareTopic(rule.topicFilter, filter) || OverlapGap(rule.topicFilter, filter)
    {
      CoverageExact(rule.topicFilter, filter);
      OverlapExact(rule.topicFilter, filter);
    }
    assert forall rule | rule in rules ::
        Allows(rule, operation, filter) <==>
        Concerns(rule, operation, ALLOW)
        && Included(filter, rule.topicFilter) && !CoverageGap(rule.topicFilter, filter);
    assert forall rule | rule in rules ::
        !Denies(rule, operation, filter) <==>
        (Concerns(rule, operation, DENY)
         ==> !ShareTopic(rule.topicFilter, filter) && !OverlapGap(rule.topicFilter, filter));
  }

  /** Soundness of a grant in terms of topics alone. */
  lemma GrantSound(rules: set<Rule>, operation: string, filter: string)
    requires WellFormedRules(rules) && WellFormed(filter) && Granted(rules, operation, filter)
    ensures exists rule | rule in rules :: Concerns(rule, operation, ALLOW) && Included(filter, rule.topicFilter)
    ensures forall rule | rule in rules && Concerns(rule, operation, DENY) :: !ShareTopic(rule.topicFilter, filter)
  {
    FilterDecision(rules, operation, filter);
  }
}
