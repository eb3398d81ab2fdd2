# Verification of the mkrab broker's filters, ACL, audit trail and first start

This Dafny project models the part of the mkrab MQTT broker that decides who may do what and that
records what happened:

- topic filters: splitting, the grammar of section 4.7.1 of MQTT Version 3.1.1, what a filter matches, and the
  two relations `topicCoveredBy` and `topicFiltersOverlap` (`Levels`, `TopicFilter`, `FilterGrammar`,
  `FilterAlgebra`, `FilterExactness`, `TopicLoops`);
- configuration loading after YAML decoding, with `validateFilter` (`Config`);
- the ACL decision over roles and rules, and the user, role, membership and rule tables it reads
  (`Acl`, `AuthTables`, `AclHook`);
- the first-start transaction that creates `root` (`Bootstrap`, `BootstrapTheorems`);
- the connection records and the hook that keeps them (`ConnectionAudit`, `ConnectionTrace`,
  `ConnectionStatus`, `ConnectionInterleaving`, `ConnectionUniqueness`);
- the message store with its topic table (`MessageStore`).

`dafny verify dfyconfig.toml` checks everything. Code that works in place is modelled by methods and classes,
each tied by its contract to a specification function or relation; the theorems are about those.

## What is proved

Definitions that a method body and its contract share are pinned a second time, row by row and column by column, by
statements that use none of them: `RowsPermit`, `SessionSaved`, `SessionEnded`, the contract of `Save`, `OutcomeByRows`
and `CreatedRows`.

**Filters.** A topic is a non-empty string without `+` and `#`. The two loops are shown equal to relations stated
with quantifiers over levels, on every pair of strings. On well-formed filters coverage is inclusion of
topics and overlap is having a common topic, with witnesses, outside a short list of pairs where the code answers
differently from the languages:

| relation | pairs | the code says | the languages say |
|---|---|---|---|
| covered by | `+/#` over `#` | no | included |
| covered by | `/+/#` over `/#` | no | included |
| covered by | `+/+/#` over `/#` | no | included |
| overlap | `+` with `/#` (either order) | yes | nothing shared |

The first pair differs because `#` has no zero-level topic. The others rest on the empty string not being a topic:
`/#` would otherwise match it as its parent level. All four answers err on the side of refusing. The theorems are
exact: these pairs and no others. On arbitrary strings, which is what the ACL tables hold, the same two equivalences are
proved over strings without a wildcard level, with the first pair (up to truncation) as the only gap. Coverage is a preorder on all strings whose equivalence is agreement up to the first
`#` level, hence a partial order on well-formed filters.

**ACL.** The nested loop with early return equals "some allow rule covers the request and no deny rule
overlaps it" over the set of rules held. From it: independence of order and grouping, deny overrides, downward
closure (for arbitrary rule strings), and the decision in terms of topics alone, as an if-and-only-if.

**Connections.** After any run of hook calls, any database calls failing, each client's row is a function of the history.
"Connected" and "has an open session" do not always agree, and the project says exactly when each direction fails,
with a run for each: a takeover that leaves an open session marked disconnected, and a failed update that leaves a
closed one marked connected. The read and the write of `CreateOrUpdate` may interleave, and so may the two halves of a
disconnect. Rows stay unique exactly when no two calls of a client without a row overlap so that one writes first and
the other still writes later, a condition on the calls and the starting rows alone. Under one call per client at a time
every interleaving is equivalent to whole calls in the order of their last statements.

**Message store and bootstrap.** The log is exactly the selected publications whose inserts succeeded; topic rows without a
message are characterised. The bootstrap is all-or-nothing, creates at most once, and afterwards `root` passes every
check exactly when the admin role was open beforehand; a live deny rule on an existing admin role is an input where it
is not.

## Model

| member | source | states |
|---|---|---|
| Levels.JoinOfSplit | mkrab/internal/broker/topic.go:6 | splitting on `/` loses nothing: joining the levels gives the string back |
| Levels.SplitOfJoin | mkrab/internal/broker/topic.go:6 | every non-empty list of slash-free levels is the split of its join |
| TopicLoops.TopicFiltersOverlap | mkrab/internal/broker/topic.go:5-18 | the unbounded loop terminates within bounds and answers whether the level counts can agree and the commonly fixed levels are compatible |
| TopicLoops.TopicCoveredBy | mkrab/internal/broker/topic.go:20-40 | the loop answers whether every fixed level of the allowed filter is present in the requested one and accepts it |
| FilterExactness.CoverageExact | mkrab/internal/broker/topic.go:20-40 | for well-formed filters, covered if and only if every topic of the requested filter is a topic of the allowed one, except for three named pairs where inclusion holds and the code says no |
| FilterExactness.Uncovered | mkrab/internal/broker/topic.go:20-40 | for every other uncovered pair, a topic of the requested filter outside the allowed one |
| FilterExactness.OverlapExact | mkrab/internal/broker/topic.go:5-18 | for well-formed filters, a common topic exists if and only if the code says overlap and the pair is not `+` with `/#` |
| FilterExactness.CommonTopic | mkrab/internal/broker/topic.go:5-18 | the common topic of an overlapping pair |
| FilterExactness.CoverageExactOnStrings | mkrab/internal/broker/topic.go:20-40 | for arbitrary strings, covered if and only if every string without a wildcard level that the requested one matches is matched by the allowed one, except `+/#` over `#` up to what follows the `#` |
| FilterExactness.OverlapExactOnStrings | mkrab/internal/broker/topic.go:5-18 | for arbitrary strings, overlap if and only if some string without a wildcard level is matched by both |
| FilterExactness.InclusionNotAntisymmetric | mkrab/internal/broker/topic.go:20-40 | `#` and `+/#` have the same topics though neither string is the other |
| FilterAlgebra.CoverageTransitive | mkrab/internal/broker/topic.go:20-40 | coverage is transitive on all strings |
| FilterAlgebra.MutualCoverage | mkrab/internal/broker/topic.go:20-40 | two strings cover each other if and only if they agree up to their first `#` level |
| FilterAlgebra.CoverageAntisymmetric | mkrab/internal/broker/topic.go:20-40 | well-formed filters that cover each other are equal |
| FilterAlgebra.OverlapMonotone | mkrab/internal/broker/topic.go:5-40 | a filter that overlaps a request overlaps everything covering the request, for all strings |
| FilterAlgebra.TruncationInvariance | mkrab/internal/broker/topic.go:8-39 | both relations are unchanged when both arguments are cut after their first `#` level |
| FilterAlgebra.TruncationOfOne | mkrab/internal/broker/topic.go:8-39 | the same when only one argument is cut |
| FilterAlgebra.AgainstWildcardFree | mkrab/internal/broker/topic.go:5-40 | the same against any string without a wildcard level |
| FilterAlgebra.ConcreteTopic | mkrab/internal/broker/topic.go:5-40 | against a concrete topic both relations are matching, for any filter string |
| FilterAlgebra.CoversEverything | mkrab/internal/broker/topic.go:22-25 | the strings covering every string are those whose first level is `#` |
| FilterAlgebra.MatchesIsStepwise | mkrab/internal/broker/topic.go:20-40 | the quantified meaning of matching is consuming filter and topic one level at a time, up to the first `#` level |
| FilterGrammar.GrammarByLevels | mkrab/internal/config/config.go:108-116 | the level test accepts exactly the strings the character grammar of section 4.7.1 accepts |
| Config.ValidateFilter | mkrab/internal/config/config.go:104-118 | passes if and only if the string is well formed; otherwise names the complaint of the first bad level |
| Config.OneComplaint | mkrab/internal/config/config.go:105-116 | a filter has at most one complaint |
| Config.ApplyListenerDefaults | mkrab/internal/config/config.go:95-102 | only an absent switch or empty address is replaced |
| Config.Load | mkrab/internal/config/config.go:58-92 | which input fails with which error, which complaint a bad store topic carries, all defaults, that certificate and key paths are kept, and that a loaded configuration has a listener, its certificates and a well-formed filter for an enabled store |
| AclHook.AuthAclHook.OnACLCheck | mkrab/internal/broker/auth.go:34-60 | on consistent tables, true if and only if the database is readable and the rows hold a live enabled user of that name, a live allow rule of the operation linked to it by a live membership and role that covers the topic, and no deny rule so linked that overlaps it |
| AclHook.ConcreteCheck | mkrab/internal/broker/auth.go:34-60 | for a concrete topic the same with plain matching in place of coverage and overlap |
| AclHook.AuthAclHook.Decide | mkrab/internal/broker/auth.go:45-59 | the nested loop equals "some allow covers, no deny overlaps" |
| Acl.RegroupingInvariance | mkrab/internal/broker/auth.go:45-59 | roles holding the same rules, in any order and grouping, decide alike |
| Acl.RuleMonotonicity | mkrab/internal/broker/auth.go:51-56 | adding a deny never grants, adding an allow never refuses |
| Acl.TruncationOfRules | mkrab/internal/broker/auth.go:45-59 | cutting every rule filter after its first `#` level changes no decision |
| Acl.DownwardClosed | mkrab/internal/broker/auth.go:45-59 | a grant for a filter is a grant for every filter it covers |
| Acl.GrantedFilterGrantsItsTopics | mkrab/internal/broker/auth.go:45-59 | a grant for a filter is a grant for every topic it matches |
| Acl.ConcreteDecision | mkrab/internal/broker/auth.go:45-59 | for a concrete topic: granted if and only if some allow rule matches and no deny rule matches |
| Acl.FilterDecision | mkrab/internal/broker/auth.go:45-59 | for a filter: granted if and only if one allow rule has all its topics and no deny rule shares one, the named pairs aside |
| Acl.GrantSound | mkrab/internal/broker/auth.go:45-59 | a granted filter lies inside one allow rule and shares no topic with any deny rule |
| AuthTables.PreloadComplete | mkrab/internal/data/repo/auth.go:19-22 | preloading roles and rules collects exactly the live rules of live roles linked by live memberships |
| AuthTables.HeldByRows | mkrab/internal/data/repo/auth.go:19-22 | a rule is held if and only if a live membership, a live role and a live rule row link it to the user |
| AuthTables.UserByRows | mkrab/internal/data/repo/auth.go:21 | the user found is the live enabled row with that username |
| AuthTables.Database.FindEnabledWithRoles | mkrab/internal/data/repo/auth.go:19-22 | finds a user if and only if some row of that name is live and enabled, with live roles and exactly the rules it holds |
| BootstrapTheorems.WithAdminValid | mkrab/internal/data/repo/auth.go:48-50 | creating the admin role where no row of any state has its name keeps names and ids unique and its id in range |
| BootstrapTheorems.LiveRulesAfterInsert | mkrab/internal/data/repo/auth.go:54-56 | after an insert that ignores conflicts a rule is live if it was live, or was inserted and no row of any state held its key |
| BootstrapTheorems.InsertUserValid | mkrab/internal/data/repo/auth.go:33-35 | creating a user whose name no row of any state has keeps usernames and ids unique |
| BootstrapTheorems.RootMembership | mkrab/internal/data/repo/auth.go:37-39 | after a creation root is a member of the admin role and of no other |
| Bootstrap.RootInitializer.Initialize | mkrab/internal/data/bootstrap.go:18-60 | the transaction body succeeds exactly when no call on its path fails and no soft-deleted row is in the way |
| Bootstrap.RootInitializer.EnsureInitialRoot | mkrab/internal/data/bootstrap.go:17-65 | tables and all three results of a call, for every choice of failing calls, the rollback included |
| BootstrapTheorems.AllOrNothing | mkrab/internal/data/bootstrap.go:17-65 | created if and only if live users went from none to one; otherwise no table changed and the password is empty |
| BootstrapTheorems.OutcomeByRows | mkrab/internal/data/bootstrap.go:19-60 | exactly which failing calls and which rows make a start fail, and when it creates |
| BootstrapTheorems.CreatedRows | mkrab/internal/data/bootstrap.go:34-58 | a creation keeps every row in place and adds one user, one membership, the admin role if there is no live one, and those of the two rules whose key is free, with all their columns |
| BootstrapTheorems.LaterStartsAreNoOps | mkrab/internal/data/bootstrap.go:20-23 | in a run that keeps a user every later start changes nothing |
| BootstrapTheorems.CreatedAtMostOnce | mkrab/internal/data/bootstrap.go:16-65 | a run that keeps a user creates root at most once, and never if there was a user |
| BootstrapTheorems.EnsureRootValid | mkrab/internal/data/model/model.go:20-53 | unique keys, fresh ids and foreign keys survive a start |
| BootstrapTheorems.RootHolds | mkrab/internal/data/bootstrap.go:34-58 | after a creation root holds exactly the admin role's live rules and the new ones whose key was free |
| BootstrapTheorems.BootstrapEndToEnd | mkrab/internal/data/bootstrap.go:34-58 | after a creation root is granted every string for both operations if and only if the admin role had no live deny rule and no soft-deleted row blocked a new rule that no live rule replaces |
| BootstrapTheorems.DeniedRoot | mkrab/internal/data/bootstrap.go:34-58 | a valid database on which a start creates a root that may not publish everything |
| BootstrapTheorems.FreshRoleIsOpen | mkrab/internal/data/bootstrap.go:38-43 | without a live admin role that condition always holds |
| ConnectionAudit.ConnectionRepository.CreateOrUpdate | mkrab/internal/data/repo/audit.go:35-53 | inserts or refreshes the client's first row, keeps its disconnect columns, and fills in the record's id |
| ConnectionTrace.EndRow | mkrab/internal/data/repo/audit.go:55-62 | marking an id disconnected changes status and disconnect columns of the client whose row has it; every row keeps its place, ids and connect columns, and rows with other ids are untouched |
| ConnectionAudit.ClientConnectionHook.OnSessionEstablished | mkrab/internal/broker/connection.go:33-44 | one step of the state machine; the six connect columns of the client's first or new row come from the client and the clock, its disconnect columns stay, the handle is remembered with the row's id; a failed call changes neither table nor map |
| ConnectionAudit.EstablishedSaves | mkrab/internal/data/repo/audit.go:35-53 | the step sets those columns and touches no other row |
| ConnectionAudit.ClientConnectionHook.OnDisconnect | mkrab/internal/broker/connection.go:46-59 | one step of the state machine; the remembered row gets time, remote host, error text and expired flag in their columns, no other row changes, and the handle is forgotten even when the update fails |
| ConnectionTrace.StepRow | mkrab/internal/data/repo/audit.go:35-62 | the whole effect of any step on the first row of any client |
| ConnectionTrace.StepLaterRow | mkrab/internal/data/repo/audit.go:35-62 | no step touches a row that is not its client's first |
| ConnectionTrace.LaterRowsUntouched | mkrab/internal/data/repo/audit.go:35-62 | duplicates a table starts with are left alone by every run |
| ConnectionTrace.StepKeepsInv | mkrab/internal/broker/connection.go:43-50 | every remembered handle names the existing first row of its own client id |
| ConnectionTrace.RunKeepsInv | mkrab/internal/data/repo/audit.go:45-52 | over any run rows stay in place with their ids and client ids, and new ids were never used |
| ConnectionTrace.RepeatedDisconnect | mkrab/internal/broker/connection.go:47-50 | a second disconnect of a handle changes nothing |
| ConnectionTrace.HandlesAreRegistered | mkrab/internal/broker/connection.go:43-50 | the map holds exactly the handles whose last saved session was not followed by a disconnect |
| ConnectionTrace.RunExplained | mkrab/internal/broker/connection.go:33-59 | from any table, after any run with any failures: connect columns from the last saved session, disconnect columns from the last registered disconnect, status from the later of the two |
| ConnectionStatus.DisconnectedHeldExactly | mkrab/internal/data/repo/audit.go:55-62 | exactly which disconnect leaves a connected row without a session |
| ConnectionStatus.StepConnectedExactly | mkrab/internal/broker/connection.go:46-59 | exactly which step makes an open session's row disconnected |
| ConnectionStatus.HeldIsConnectedExactly | mkrab/internal/broker/connection.go:33-59 | open sessions have connected rows throughout a run if and only if no session ends with a successful update while another of its client is open |
| ConnectionStatus.ConnectedIsHeldExactly | mkrab/internal/broker/connection.go:33-59 | connected rows have an open session throughout a run if and only if the update for the last open session of a connected client never fails |
| ConnectionStatus.TakeoverMarksDisconnected | mkrab/internal/broker/connection.go:33-59 | a run in which the open session of a client that reconnected has a disconnected row |
| ConnectionStatus.FailedUpdateStaysConnected | mkrab/internal/broker/connection.go:46-59 | a run in which a connected row has no open session |
| ConnectionStatus.StatusAgrees | mkrab/internal/broker/connection.go:33-59 | without overlapping sessions and failing updates the two agree |
| ConnectionInterleaving.StepLinearizes | mkrab/internal/broker/connection.go:39-55 | while what an in-flight call read still holds, its write does what the whole call would do, and the update that ends a disconnect does what the whole disconnect would |
| ConnectionInterleaving.ReadThenWrite | mkrab/internal/data/repo/audit.go:35-53 | a read and a write with nothing in between are the whole call, whichever of them fails |
| ConnectionInterleaving.ForgetThenMark | mkrab/internal/broker/connection.go:46-59 | the two halves of a disconnect with nothing in between are the whole one |
| ConnectionInterleaving.InterleavingLinearizes | mkrab/internal/broker/connection.go:33-59 | with one call per client at a time, any interleaving of reads, writes, handle removals and row updates ends as the whole calls in the order of their last statements |
| ConnectionInterleaving.InterleavingExplained | mkrab/internal/broker/connection.go:33-59 | so the rows after an interleaving are those the history of the whole calls gives |
| ConnectionUniqueness.RunExplainsReads | mkrab/internal/data/repo/audit.go:37-50 | which clients have rows, and which calls were open at which writes, told from the events and the starting rows alone |
| ConnectionUniqueness.UniqueUnlessRace | mkrab/internal/data/model/model.go:90 | one row per client at the end of any interleaving if and only if no client without a row had a call open at its first successful write that later wrote successfully too |
| ConnectionUniqueness.DisciplineKeepsUnique | mkrab/internal/data/model/model.go:90 | with one call per client at a time rows stay unique |
| ConnectionUniqueness.TwoCallsOfOneClient | mkrab/internal/data/repo/audit.go:35-53 | two interleaved calls of one client leave two rows |
| MessageStore.MessageStore.Save | mkrab/internal/broker/message.go:42-59 | both tables after a publication, for either insert failing, and the result; the eight columns of the stored message come from the packet, the publisher and the clock |
| MessageStore.MessageStore.OnPublished | mkrab/internal/broker/message.go:32-40 | the same tables whatever `Save` returns |
| MessageStore.RunKeepsStoreInv | mkrab/internal/data/repo/audit.go:29-31 | over any run with failures: distinct topics, a topic row for every message, no `$SYS` topic |
| MessageStore.MessagesAreTheLog | mkrab/internal/broker/message.go:42-59 | the log grows by exactly the selected publications, in order, minus those whose own inserts failed |
| MessageStore.TopicsOfRun | mkrab/internal/data/repo/audit.go:29-31 | topic rows are those of selected publications whose topic insert succeeded |
| MessageStore.HealthyRun | mkrab/internal/broker/message.go:42-59 | from any consistent store whose topics all have messages: without failures the log grows by the selected publications and the topic rows stay exactly its topics |
| MessageStore.OrphanTopics | mkrab/internal/broker/message.go:46-58 | from any store, exactly which topic rows are left without a message |
| MessageStore.OrphanLeftBehind | mkrab/internal/broker/message.go:46-58 | a failing message insert leaves a topic row without a message |

## Left out

- The MQTT server library (parsing, delivery, takeover, shared subscriptions) is not part of this model; only the hook calls it makes are.
- The rule of section 4.7.2 on topics starting with `$`, and the U+0000 and length limits of section 4.7.3: `topic.go` does not implement them; matching here is plain section 4.7.1.
- Completeness of the ACL for a filter covered only by several allow rules together: the code asks for one covering rule.
- The generated GORM queries: each call is an abstract table operation; a failing call is assumed to leave the tables as they were, and a rolled-back transaction to restore them with their id counters.
- `AddRole` in GORM also saves the role it is given; that role exists already and the save ignores the conflict.
- Soft deletion as a step: rows carry a live flag where a deleted row can block an insert (users, roles, rules, memberships); the connection and topic tables hold live rows only.
- Storing the row id in the handle map is folded into the write of its call in the interleaving model, which takes the two hooks of one client object to be called one after the other; memory access to `sync.Map` is not modelled.
- `remoteHost` and `net.SplitHostPort`: the remote address enters already reduced to its host. Times, password, hash and error texts are opaque arguments.
- A client object is a handle that carries its client id, which the server settles before the session starts.
- The order in which `Load` visits the TLS and WSS listeners is a map order in Go; both missing certificates are one error here. Reading the file and decoding YAML are not part of this model.
- Row timestamps, and ids of messages and topics.
- `OnConnectAuthenticate` (a password hash comparison), the listeners, the admin web interface, command line and wiring, and all of `mbot`.
