/** Connection records: the table, the repository calls on it, and the broker hook that drives them. */
module ConnectionAudit {
  import opened Wrappers

  const CONNECTED := "connected"
  const DISCONNECTED := "disconnected"

  /** A client connection object of the MQTT server. Its client id is settled before the session starts. */
  datatype Handle = Handle(serial: nat, clientId: string)

  /** The columns written when a session starts. */
  datatype Session = Session(username: string, remoteAddress: string, listener: string,
                             protocolVersion: nat, cleanSession: bool, connectedAt: int)

  /** What a hook call sees of its client, the remote address already reduced to its host. */
  datatype Client = Client(handle: Handle, username: string, remoteHost: string, listener: string,
                           protocolVersion: nat, clean: bool)

  function SessionOf(cl: Client, now: int): Session {
    Session(cl.username, cl.remoteHost, cl.listener, cl.protocolVersion, cl.clean, now)
  }

  /** The columns written when one ends. */
  datatype Departure = Departure(at: Option<int>, lastIp: string, reason: string, expired: bool)

  const NEVER := Departure(None, "", "", false)

  datatype Row = Row(id: nat, clientId: string, status: string, session: Session, departure: Departure)

  /** Rows in id order; `nextId` is larger than every id ever given out. */
  datatype Table = Table(rows: seq<Row>, nextId: nat)

  ghost predicate ValidTable(t: Table) {
    && (forall i, j | 0 <= i < j < |t.rows| :: t.rows[i].id < t.rows[j].id)
    && (forall i | 0 <= i < |t.rows| :: t.rows[i].id < t.nextId)
  }

  /** The place of the first row of a client, or the number of rows when there is none. */
  function Find(rows: seq<Row>, clientId: string): (i: nat)
    ensures i <= |rows|
    ensures forall k | 0 <= k < i :: rows[k].clientId != clientId
    ensures i < |rows| ==> rows[i].clientId == clientId
  {
    if rows == [] || rows[0].clientId == clientId then 0 else 1 + Find(rows[1..], clientId)
  }

  predicate HasRow(t: Table, clientId: string) {
    Find(t.rows, clientId) < |t.rows|
  }

  function RowOf(t: Table, clientId: string): (r: Row)
    requires HasRow(t, clientId)
    ensures r in t.rows && r.clientId == clientId
  {
    t.rows[Find(t.rows, clientId)]
  }

  // ---------- Statements on the table ----------

  function Insert(t: Table, clientId: string, session: Session): Table {
    Table(t.rows + [Row(t.nextId, clientId, CONNECTED, session, NEVER)], t.nextId + 1)
  }

  function Refreshed(r: Row, session: Session): Row {
    r.(status := CONNECTED, session := session)
  }

  function Ended(r: Row, departure: Departure): Row {
    r.(status := DISCONNECTED, departure := departure)
  }

  function Refresh(t: Table, id: nat, session: Session): Table {
    t.(rows := seq(|t.rows|, i requires 0 <= i < |t.rows| =>
                 if t.rows[i].id == id then Refreshed(t.rows[i], session) else t.rows[i]))
  }

  function End(t: Table, id: nat, departure: Departure): Table {
    t.(rows := seq(|t.rows|, i requires 0 <= i < |t.rows| =>
                 if t.rows[i].id == id then Ended(t.rows[i], departure) else t.rows[i]))
  }

  function Upsert(t: Table, clientId: string, session: Session): Table {
    if HasRow(t, clientId) then Refresh(t, RowOf(t, clientId).id, session) else Insert(t, clientId, session)
  }

  function UpsertId(t: Table, clientId: string): nat {
    if HasRow(t, clientId) then RowOf(t, clientId).id else t.nextId
  }

  // ---------- The state machine of the hook ----------

  datatype State = State(table: Table, handles: map<Handle, nat>)

  datatype Fault = NoFault | ReadFault | WriteFault

  datatype Event =
    | Established(handle: Handle, session: Session, fault: Fault)
    | Disconnected(handle: Handle, at: int, remoteHost: string, error: Option<string>, expired: bool, healthy: bool)

  function DepartureOf(e: Event): Departure
    requires e.Disconnected?
  {
    Departure(Some(e.at), e.remoteHost, if e.error.Some? then e.error.value else "", e.expired)
  }

  function Step(s: State, e: Event): State {
    match e
    case Established(handle, session, fault) =>
      if fault != NoFault then s
      else State(Upsert(s.table, handle.clientId, session), s.handles[handle := UpsertId(s.table, handle.clientId)])
    case Disconnected(handle, _, _, _, _, healthy) =>
      if handle !in s.handles then s
      else State(if healthy then End(s.table, s.handles[handle], DepartureOf(e)) else s.table, s.handles - {handle})
  }

  // ---------- What the hooks promise, column by column ----------

  /** A saved session: the first row of the client gets the client's columns and keeps its disconnect columns,
      or a new row appears; the handle is remembered with the id of that row; nothing else changes. */
  ghost predicate SessionSaved(before: State, after: State, cl: Client, now: int) {
    var rows, c := before.table.rows, cl.handle.clientId;
    var session := Session(username := cl.username, remoteAddress := cl.remoteHost, listener := cl.listener,
                           protocolVersion := cl.protocolVersion, cleanSession := cl.clean, connectedAt := now);
    && ((forall r | r in rows :: r.clientId != c) ==>
          && after.table.rows == rows + [Row(id := before.table.nextId, clientId := c, status := "connected",
                                             session := session, departure := Departure(None, "", "", false))]
          && after.table.nextId == before.table.nextId + 1
          && after.handles == before.handles[cl.handle := before.table.nextId])
    && (forall i | 0 <= i < |rows| && rows[i].clientId == c && (forall k | 0 <= k < i :: rows[k].clientId != c) ::
          && after.table.rows == rows[i := Row(id := rows[i].id, clientId := c, status := "connected",
                                               session := session, departure := rows[i].departure)]
          && after.table.nextId == before.table.nextId
          && after.handles == before.handles[cl.handle := rows[i].id])
  }

  /** An ended session: the handle is forgotten, and the row remembered for it gets the disconnect columns
      unless the update fails; nothing else changes. */
  ghost predicate SessionEnded(before: State, after: State, cl: Client, now: int,
                               error: Option<string>, expired: bool, healthy: bool) {
    var rows := before.table.rows;
    if cl.handle !in before.handles then after == before
    else
      && after.handles == before.handles - {cl.handle}
      && after.table.nextId == before.table.nextId && |after.table.rows| == |rows|
      && forall i | 0 <= i < |rows| ::
           after.table.rows[i] ==
           if healthy && rows[i].id == before.handles[cl.handle]
           then Row(id := rows[i].id, clientId := rows[i].clientId, status := "disconnected", session := rows[i].session,
                    departure := Departure(at := Some(now), lastIp := cl.remoteHost,
                                           reason := match error { case None => "" case Some(text) => text },
                                           expired := expired))
           else rows[i]
  }

  lemma EstablishedSaves(s: State, cl: Client, now: int)
    requires ValidTable(s.table)
    ensures SessionSaved(s, Step(s, Established(cl.handle, SessionOf(cl, now), NoFault)), cl, now)
  {
    var rows, c := s.table.rows, cl.handle.clientId;
    var k := Find(rows, c);
    assert k < |rows| ==> rows[k] in rows;
    forall i | 0 <= i < |rows| && rows[i].clientId == c && (forall j | 0 <= j < i :: rows[j].clientId != c)
      ensures i == k
    {
    }
  }

  // ---------- The classes ----------

  /** The record a caller hands over; saving it fills in its id. */
  class ClientConnection {
    var id: nat
    const clientId: string
    const session: Session

    constructor (clientId: string, session: Session)
      ensures this.clientId == clientId && this.session == session
    {
      this.id, this.clientId, this.session := 0, clientId, session;
    }
  }

  class ConnectionRepository {
    var table: Table

    constructor (table: Table)
      ensures this.table == table
    {
      this.table := table;
    }

    method First(clientId: string) returns (found: Option<Row>)
      ensures found == if HasRow(table, clientId) then Some(RowOf(table, clientId)) else None
    {
      found := if HasRow(table, clientId) then Some(RowOf(table, clientId)) else None;
    }

    method Create(connection: ClientConnection, healthy: bool) returns (ok: bool)
      modifies this, connection
      ensures ok == healthy
      ensures table == if ok then Insert(old(table), connection.clientId, connection.session) else old(table)
      ensures ok ==> connection.id == old(table.nextId)
    {
      ok := healthy;
      if ok {
        connection.id := table.nextId;
        table := Insert(table, connection.clientId, connection.session);
      }
    }

    method CreateOrUpdate(connection: ClientConnection, fault: Fault) returns (ok: bool)
      modifies this, connection
      ensures ok <==> fault == NoFault
      ensures table == if ok then Upsert(old(table), connection.clientId, connection.session) else old(table)
      ensures ok ==> connection.id == UpsertId(old(table), connection.clientId)
    {
      if fault == ReadFault {
        return false;
      }
      var existing := First(connection.clientId);
      if existing.None? {
        ok := Create(connection, fault == NoFault);
        return;
      }
      connection.id := existing.value.id;
      ok := fault == NoFault;
      if ok {
        table := Refresh(table, existing.value.id, connection.session);
      }
    }

    method MarkDisconnected(id: nat, departure: Departure, healthy: bool) returns (ok: bool)
      modifies this
      ensures ok == healthy
      ensures table == if ok then End(old(table), id, departure) else old(table)
    {
      ok := healthy;
      if ok {
        table := End(table, id, departure);
      }
    }
  }

  class ClientConnectionHook {
    const repository: ConnectionRepository
    var connectionIds: map<Handle, nat>

    constructor (repository: ConnectionRepository)
      ensures this.repository == repository && connectionIds == map[]
    {
      this.repository, connectionIds := repository, map[];
    }

    function Current(): State
      reads this, repository
    {
      State(repository.table, connectionIds)
    }

    method OnSessionEstablished(cl: Client, now: int, fault: Fault)
      modifies this, repository
      ensures Current() == Step(old(Current()), Established(cl.handle, SessionOf(cl, now), fault))
      ensures fault != NoFault ==> Current() == old(Current())
      ensures fault == NoFault && old(ValidTable(repository.table)) ==>
                SessionSaved(old(Current()), Current(), cl, now)
    {
      ghost var before := Current();
      var record := new ClientConnection(cl.handle.clientId, SessionOf(cl, now));
      var ok := repository.CreateOrUpdate(record, fault);
      if !ok {
        return;
      }
      connectionIds := connectionIds[cl.handle := record.id];
      assert Current() == Step(before, Established(cl.handle, SessionOf(cl, now), NoFault));
      if ValidTable(before.table) {
        EstablishedSaves(before, cl, now);
      }
    }

    method OnDisconnect(cl: Client, now: int, error: Option<string>, expired: bool, healthy: bool)
      modifies this, repository
      ensures Current() == Step(old(Current()), Disconnected(cl.handle, now, cl.remoteHost, error, expired, healthy))
      ensures SessionEnded(old(Current()), Current(), cl, now, error, expired, healthy)
    {
      if cl.handle !in connectionIds {
        return;
      }
      var id := connectionIds[cl.handle];
      connectionIds := connectionIds - {cl.handle};
      var reason := "";
      if error.Some? {
        reason := error.value;
      }
      var ok := repository.MarkDisconnected(id, Departure(Some(now), cl.remoteHost, reason, expired), healthy);
    }
  }
}
