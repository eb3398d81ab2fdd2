/** The message store: published packets that pass the configured filter go to a log of messages,
    with one row per distinct topic beside it. Two inserts, no transaction around them. */
module MessageStore {
  import opened Wrappers
  import opened TopicFilter
  import opened FilterAlgebra
  import Config
  import TopicLoops

  const SYS := "$SYS"

  datatype Publisher = Publisher(id: string, username: string)

  datatype Packet = Packet(topicName: string, payload: string, qos: nat, retain: bool, dup: bool)

  datatype Message = Message(receivedAt: int, clientId: string, username: string, topic: string, payload: string,
                             qos: nat, retained: bool, duplicate: bool)

  datatype State = State(topics: seq<string>, messages: seq<Message>)

  /** One publication, and whether each of the two inserts would succeed. */
  datatype Event = Event(from: Option<Publisher>, packet: Packet, at: int, topicHealthy: bool, messageHealthy: bool)

  predicate Wanted(filter: string, topic: string) {
    !(SYS <= topic) && CoveredBy(filter, topic)
  }

  function MessageOf(e: Event): Message {
    var (clientId, username) := match e.from { case None => ("", "") case Some(p) => (p.id, p.username) };
    Message(e.at, clientId, username, e.packet.topicName, e.packet.payload, e.packet.qos, e.packet.retain, e.packet.dup)
  }

  function AddTopic(topics: seq<string>, topic: string): seq<string> {
    if topic in topics then topics else topics + [topic]
  }

  predicate Logs(filter: string, e: Event) {
    Wanted(filter, e.packet.topicName) && e.topicHealthy && e.messageHealthy
  }

  predicate Registers(filter: string, e: Event) {
    Wanted(filter, e.packet.topicName) && e.topicHealthy
  }

  function Step(filter: string, s: State, e: Event): State {
    State(if Registers(filter, e) then AddTopic(s.topics, e.packet.topicName) else s.topics,
          if Logs(filter, e) then s.messages + [MessageOf(e)] else s.messages)
  }

  // ---------- The classes ----------

  class TopicRepository {
    var topics: seq<string>

    constructor ()
      ensures topics == []
    {
      topics := [];
    }

    method CreateIgnoreConflict(topic: string, healthy: bool) returns (ok: bool)
      modifies this
      ensures ok == healthy
      ensures topics == if ok then AddTopic(old(topics), topic) else old(topics)
    {
      ok := healthy;
      if ok && topic !in topics {
        topics := topics + [topic];
      }
    }
  }

  class MessageRepository {
    var messages: seq<Message>

    constructor ()
      ensures messages == []
    {
      messages := [];
    }

    method Create(message: Message, healthy: bool) returns (ok: bool)
      modifies this
      ensures ok == healthy
      ensures messages == if ok then old(messages) + [message] else old(messages)
    {
      ok := healthy;
      if ok {
        messages := messages + [message];
      }
    }
  }

  class MessageStore {
    const repository: MessageRepository
    const topics: TopicRepository
    const filter: string

    constructor (cfg: Config.BrokerConfig, repository: MessageRepository, topics: TopicRepository)
      ensures this.repository == repository && this.topics == topics && filter == cfg.storeTopic
    {
      this.repository, this.topics, filter := repository, topics, cfg.storeTopic;
    }

    function Current(): State
      reads repository, topics
    {
      State(topics.topics, repository.messages)
    }

    method OnPublished(e: Event)
      modifies repository, topics
      ensures Current() == Step(filter, old(Current()), e)
    {
      var ok := Save(e);
    }

    method Save(e: Event) returns (ok: bool)
      modifies repository, topics
      ensures Current() == Step(filter, old(Current()), e)
      ensures var topic := e.packet.topicName;
              var wanted := !("$SYS" <= topic) && CoveredBy(filter, topic);
              && (ok <==> wanted ==> e.topicHealthy && e.messageHealthy)
              && topics.topics == (if wanted && e.topicHealthy && topic !in old(topics.topics)
                                   then old(topics.topics) + [topic] else old(topics.topics))
              && repository.messages == (if wanted && e.topicHealthy && e.messageHealthy
                                         then old(repository.messages) + [Message(
                                           receivedAt := e.at,
                                           clientId := if e.from.Some? then e.from.value.id else "",
                                           username := if e.from.Some? then e.from.value.username else "",
                                           topic := topic,
                                           payload := e.packet.payload,
                                           qos := e.packet.qos,
                                           retained := e.packet.retain,
                                           duplicate := e.packet.dup)]
                                         else old(repository.messages))
    {
      var topic := e.packet.topicName;
      if SYS <= topic {
        return true;
      }
      var covered := TopicLoops.TopicCoveredBy(filter, topic);
      if !covered {
        return true;
      }
      ok := topics.CreateIgnoreConflict(topic, e.topicHealthy);
      if !ok {
        return;
      }
      var message := Message(e.at, "", "", topic, e.packet.payload, e.packet.qos, e.packet.retain, e.packet.dup);
      if e.from.Some? {
        message := message.(clientId := e.from.value.id, username := e.from.value.username);
      }
      ok := repository.Create(message, e.messageHealthy);
    }
  }

  // ---------- Runs ----------

  function Run(filter: string, s: State, run: seq<Event>): State {
    if run == [] then s else Step(filter, Run(filter, s, run[..|run| - 1]), run[|run| - 1])
  }

  ghost predicate Distinct(topics: seq<string>) {
    forall i, j | 0 <= i < j < |topics| :: topics[i] != topics[j]
  }

  ghost predicate StoreInv(s: State) {
    && Distinct(s.topics)
    && (forall m | m in s.messages :: m.topic in s.topics)
    && (forall t | t in s.topics :: !(SYS <= t))
  }

  /** Kept by every run, whichever inserts fail. */
  lemma {:induction false} RunKeepsStoreInv(filter: string, s: State, run: seq<Event>)
    requires StoreInv(s)
    ensures StoreInv(Run(filter, s, run))
  {
    if run != [] {
      RunKeepsStoreInv(filter, s, run[..|run| - 1]);
      StepKeepsStoreInv(filter, Run(filter, s, run[..|run| - 1]), run[|run| - 1]);
    }
  }

  lemma StepKeepsStoreInv(filter: string, s: State, e: Event)
    requires StoreInv(s)
    ensures StoreInv(Step(filter, s, e))
  {
  }

  /** What passes the filter, in words of section 4.7.1, for a topic name without wildcards. */
  predicate Selected(filter: string, e: Event) {
    Matches(filter, e.packet.topicName) && !(SYS <= e.packet.topicName)
  }

  predicate AllTopics(run: seq<Event>) {
    forall i | 0 <= i < |run| :: IsTopic(run[i].packet.topicName)
  }

  predicate NoFailures(run: seq<Event>) {
    forall i | 0 <= i < |run| :: run[i].topicHealthy && run[i].messageHealthy
  }

  predicate Kept(filter: string, e: Event) {
    Selected(filter, e) && e.topicHealthy && e.messageHealthy
  }

  /** The messages of the publications, in order, that are selected and not lost to a failing insert. */
  function LogOf(filter: string, run: seq<Event>): seq<Message> {
    if run == [] then []
    else if Kept(filter, run[0]) then [MessageOf(run[0])] + LogOf(filter, run[1..])
    else LogOf(filter, run[1..])
  }

  lemma {:induction false} LogOfSnoc(filter: string, run: seq<Event>, e: Event)
    ensures LogOf(filter, run + [e]) ==
            if Kept(filter, e) then LogOf(filter, run) + [MessageOf(e)] else LogOf(filter, run)
  {
    if run == [] {
      assert [e][1..] == [];
      assert [] + [e] == [e];
    } else {
      LogOfSnoc(filter, run[1..], e);
      assert (run + [e])[1..] == run[1..] + [e];
    }
  }

  lemma WantedIsSelected(filter: string, e: Event)
    requires IsTopic(e.packet.topicName)
    ensures Wanted(filter, e.packet.topicName) <==> Selected(filter, e)
  {
    ConcreteTopic(filter, e.packet.topicName);
  }

  /** The log is the selected subsequence of the publications, minus exactly those whose own inserts failed. */
  lemma {:induction false} MessagesAreTheLog(filter: string, s: State, run: seq<Event>)
    requires AllTopics(run)
    ensures Run(filter, s, run).messages == s.messages + LogOf(filter, run)
  {
    if run != [] {
      var n := |run| - 1;
      MessagesAreTheLog(filter, s, run[..n]);
      assert run == run[..n] + [run[n]];
      LogOfSnoc(filter, run[..n], run[n]);
      WantedIsSelected(filter, run[n]);
    }
  }

  /** The topic rows are those of the selected publications whose topic insert succeeded. */
  lemma {:induction false} TopicsOfRun(filter: string, s: State, run: seq<Event>, t: string)
    requires AllTopics(run)
    ensures t in Run(filter, s, run).topics <==>
            t in s.topics || exists i | 0 <= i < |run| ::
              Selected(filter, run[i]) && run[i].topicHealthy && run[i].packet.topicName == t
  {
    if run != [] {
      var n := |run| - 1;
      TopicsOfRun(filter, s, run[..n], t);
      WantedIsSelected(filter, run[n]);
      assert forall i | 0 <= i < n :: run[..n][i] == run[i];
    }
  }

  lemma {:induction false} TopicsOfLog(filter: string, run: seq<Event>, t: string)
    ensures (exists m | m in LogOf(filter, run) :: m.topic == t) <==>
            exists i | 0 <= i < |run| ::
              Kept(filter, run[i]) && run[i].packet.topicName == t
  {
    if run != [] {
      var n := |run| - 1;
      var prefix, e := run[..n], run[n];
      assert run == prefix + [e];
      TopicsOfLog(filter, prefix, t);
      LogOfSnoc(filter, prefix, e);
      var log := LogOf(filter, prefix);
      assert forall i | 0 <= i < n :: prefix[i] == run[i];
      if Kept(filter, e) {
        assert MessageOf(e) in log + [MessageOf(e)];
        assert forall m :: m in log + [MessageOf(e)] <==> m in log || m == MessageOf(e);
      }
    }
  }

  ghost predicate HasMessage(s: State, t: string) {
    exists m | m in s.messages :: m.topic == t
  }

  lemma MessagesOfRun(filter: string, s: State, run: seq<Event>, t: string)
    requires AllTopics(run)
    ensures HasMessage(Run(filter, s, run), t) <==>
            HasMessage(s, t) || exists i | 0 <= i < |run| :: Kept(filter, run[i]) && run[i].packet.topicName == t
  {
    MessagesAreTheLog(filter, s, run);
    TopicsOfLog(filter, run, t);
    var log := LogOf(filter, run);
    assert forall m :: m in s.messages + log <==> m in s.messages || m in log;
  }

  /** With no failing insert, a store whose topic rows are exactly the topics of its log stays so, and its log
      has grown by exactly the selected publications. */
  lemma HealthyRun(filter: string, s: State, run: seq<Event>)
    requires StoreInv(s) && forall t | t in s.topics :: HasMessage(s, t)
    requires AllTopics(run) && NoFailures(run)
    ensures var after := Run(filter, s, run);
            && after.messages == s.messages + LogOf(filter, run)
            && Distinct(after.topics)
            && (forall t :: t in after.topics <==> HasMessage(after, t))
  {
    var after := Run(filter, s, run);
    MessagesAreTheLog(filter, s, run);
    RunKeepsStoreInv(filter, s, run);
    forall t ensures t in after.topics <==> HasMessage(after, t) {
      TopicsOfRun(filter, s, run, t);
      MessagesOfRun(filter, s, run, t);
    }
  }

  /** In general a topic row is left without a message exactly when the topic was there or some selected
      publication got its topic insert through, but no message of it was there and none got both inserts through. */
  lemma OrphanTopics(filter: string, s: State, run: seq<Event>, t: string)
    requires AllTopics(run)
    ensures var after := Run(filter, s, run);
            (t in after.topics && !HasMessage(after, t)) <==>
            (&& (|| t in s.topics
                 || exists i | 0 <= i < |run| ::
                      Selected(filter, run[i]) && run[i].topicHealthy && run[i].packet.topicName == t)
             && !HasMessage(s, t)
             && (forall i | 0 <= i < |run| && run[i].packet.topicName == t :: !Kept(filter, run[i])))
  {
    TopicsOfRun(filter, s, run, t);
    MessagesOfRun(filter, s, run, t);
  }

  /** That happens: a first publication whose message insert fails leaves its topic row behind. */
  lemma OrphanLeftBehind(e: Event)
    requires e.packet.topicName == "a" && e.topicHealthy && !e.messageHealthy
    ensures StoreInv(State([], [])) && Run("#", State([], []), [e]) == State(["a"], [])
  {
    CoversEverything("#");
    assert Wanted("#", "a");
    assert [e][..0] == [];
  }
}
