/** When the status column agrees with the sessions the hook remembers. */
module ConnectionStatus {
  import opened Wrappers
  import opened ConnectionAudit
  import opened ConnectionTrace

  ghost predicate IsHeld(handles: map<Handle, nat>, id: nat) {
    exists h :: h in handles && handles[h] == id
  }

  /** A row marked connected is named by some remembered handle. */
  ghost predicate ConnectedIsHeld(s: State) {
    forall row | row in s.table.rows && row.status == CONNECTED :: IsHeld(s.handles, row.id)
  }

  /** A remembered handle's row is marked connected. */
  ghost predicate HeldIsConnected(s: State)
    requires Inv(s)
  {
    forall h | h in s.handles :: RowOf(s.table, h.clientId).status == CONNECTED
  }

  ghost predicate SharedBy(s: State, h: Handle) {
    exists other :: other in s.handles && other != h && other.clientId == h.clientId
  }

  // ---------- One step, exactly ----------

  lemma SameRow(s: State, h: Handle, other: Handle)
    requires Inv(s) && h in s.handles && other in s.handles
    ensures s.handles[h] == s.handles[other] <==> h.clientId == other.clientId
  {
  }

  lemma RowAfterEstablished(s: State, e: Event, row: Row)
    requires e.Established? && row in Step(s, e).table.rows
    ensures row in s.table.rows || (e.fault == NoFault && row.id == UpsertId(s.table, e.handle.clientId))
  {
  }

  lemma HandlesAfterEstablished(s: State, e: Event, h: Handle)
    requires Inv(s) && e.Established? && h in s.handles
    ensures h in Step(s, e).handles && Step(s, e).handles[h] == s.handles[h]
  {
  }

  lemma EstablishedKeepsHeld(s: State, e: Event)
    requires Inv(s) && e.Established? && ConnectedIsHeld(s)
    ensures ConnectedIsHeld(Step(s, e))
  {
    var s' := Step(s, e);
    forall row | row in s'.table.rows && row.status == CONNECTED ensures IsHeld(s'.handles, row.id) {
      RowAfterEstablished(s, e, row);
      if row in s.table.rows {
        var h :| h in s.handles && s.handles[h] == row.id;
        HandlesAfterEstablished(s, e, h);
      } else {
        assert s'.handles[e.handle] == row.id;
      }
    }
  }

  predicate Loses(s: State, e: Event)
    requires e.Disconnected?
  {
    e.handle in s.handles && !e.healthy && HasRow(s.table, e.handle.clientId)
    && RowOf(s.table, e.handle.clientId).status == CONNECTED
  }

  lemma LostRow(s: State, e: Event)
    requires Inv(s) && e.Disconnected? && Loses(s, e) && !SharedBy(s, e.handle)
    ensures !ConnectedIsHeld(Step(s, e))
  {
    var s', row := Step(s, e), RowOf(s.table, e.handle.clientId);
    assert row in s'.table.rows;
    forall h | h in s'.handles ensures s'.handles[h] != row.id {
      SameRow(s, e.handle, h);
    }
  }

  lemma RowAfterDisconnected(s: State, e: Event, row: Row)
    requires e.Disconnected? && e.handle in s.handles
    requires row in Step(s, e).table.rows && row.status == CONNECTED
    ensures row in s.table.rows
    ensures e.healthy ==> row.id != s.handles[e.handle]
  {
  }

  /** A row still connected after a disconnect has a handle that is still there. */
  lemma KeptHandle(s: State, e: Event, row: Row) returns (kept: Handle)
    requires Inv(s) && e.Disconnected? && ConnectedIsHeld(s)
    requires e.handle in s.handles && (Loses(s, e) ==> SharedBy(s, e.handle))
    requires row in s.table.rows && row.status == CONNECTED
    requires e.healthy ==> row.id != s.handles[e.handle]
    ensures kept in s.handles && kept != e.handle && s.handles[kept] == row.id
  {
    kept :| kept in s.handles && s.handles[kept] == row.id;
    if kept == e.handle {
      SameIdSameRow(s.table, row, RowOf(s.table, kept.clientId));
      var other :| other in s.handles && other != kept && other.clientId == kept.clientId;
      SameRow(s, kept, other);
      kept := other;
    }
  }

  lemma SameIdSameRow(t: Table, a: Row, b: Row)
    requires ValidTable(t) && a in t.rows && b in t.rows && a.id == b.id
    ensures a == b
  {
  }

  lemma KeptRows(s: State, e: Event)
    requires Inv(s) && e.Disconnected? && ConnectedIsHeld(s)
    requires e.handle in s.handles && (Loses(s, e) ==> SharedBy(s, e.handle))
    ensures ConnectedIsHeld(Step(s, e))
  {
    var s' := Step(s, e);
    forall row | row in s'.table.rows && row.status == CONNECTED ensures IsHeld(s'.handles, row.id) {
      RowAfterDisconnected(s, e, row);
      var kept := KeptHandle(s, e, row);
      assert kept in s'.handles && s'.handles[kept] == row.id;
    }
  }

  /** A disconnect leaves a connected row without a handle exactly when its update fails, the row was
      connected, and no other handle of the client remains. */
  lemma DisconnectedHeldExactly(s: State, e: Event)
    requires Inv(s) && e.Disconnected? && ConnectedIsHeld(s)
    ensures ConnectedIsHeld(Step(s, e)) <==> !(Loses(s, e) && !SharedBy(s, e.handle))
  {
    if e.handle in s.handles {
      if Loses(s, e) && !SharedBy(s, e.handle) {
        LostRow(s, e);
      } else {
        KeptRows(s, e);
      }
    }
  }

  lemma StatusAfterStep(s: State, e: Event, h: Handle)
    requires Inv(s) && HeldIsConnected(s) && h in Step(s, e).handles
    ensures HasRow(Step(s, e).table, h.clientId)
    ensures RowOf(Step(s, e).table, h.clientId).status == CONNECTED <==> !Leaves(s, e, h.clientId)
  {
    StepRow(s, e, h.clientId);
    assert !Arrives(e, h.clientId) ==> h in s.handles;
    assert CONNECTED != DISCONNECTED;
  }

  /** A remembered handle loses its connected row exactly when another handle of its client disconnects. */
  lemma StepConnectedExactly(s: State, e: Event)
    requires Inv(s) && HeldIsConnected(s)
    ensures Inv(Step(s, e))
    ensures HeldIsConnected(Step(s, e)) <==>
            !(e.Disconnected? && e.healthy && e.handle in s.handles && SharedBy(s, e.handle))
  {
    StepKeepsInv(s, e);
    var s' := Step(s, e);
    forall h | h in s'.handles
      ensures RowOf(s'.table, h.clientId).status == CONNECTED <==> !Leaves(s, e, h.clientId)
    {
      StatusAfterStep(s, e, h);
    }
    if e.Disconnected? && e.healthy && e.handle in s.handles && SharedBy(s, e.handle) {
      var other :| other in s.handles && other != e.handle && other.clientId == e.handle.clientId;
      assert other in s'.handles && Leaves(s, e, other.clientId);
    }
  }

  // ---------- Whole runs, in terms of the history ----------

  ghost predicate SharedRegistration(run: seq<Event>, h: Handle) {
    exists other :: Registered(run, other) && other != h && other.clientId == h.clientId
  }

  /** At event i a session ends while another session of the same client is open. */
  ghost predicate SharedDeparture(run: seq<Event>, i: nat)
    requires i < |run|
  {
    && run[i].Disconnected? && run[i].healthy
    && Registered(run[..i], run[i].handle) && SharedRegistration(run[..i], run[i].handle)
  }

  /** At event i the last open session of a connected client ends and its update fails. */
  ghost predicate LostDeparture(run: seq<Event>, i: nat)
    requires i < |run|
  {
    && run[i].Disconnected? && !run[i].healthy
    && Registered(run[..i], run[i].handle) && !SharedRegistration(run[..i], run[i].handle)
    && LastArrival(run[..i], run[i].handle.clientId) > LastDeparture(run[..i], run[i].handle.clientId)
  }

  /** The start of the process: nothing remembered, nothing left connected. */
  ghost predicate Starts(s: State) {
    && ValidTable(s.table) && s.handles == map[]
    && forall row | row in s.table.rows :: row.status != CONNECTED
  }

  lemma SharedIsShared(s: State, run: seq<Event>, h: Handle)
    requires s.handles == map[]
    ensures SharedBy(Run(s, run), h) <==> SharedRegistration(run, h)
  {
    forall other ensures other in Run(s, run).handles <==> Registered(run, other) {
      HandlesAreRegistered(s, run, other);
    }
  }

  lemma StatusFromHistory(s: State, run: seq<Event>, h: Handle)
    requires Starts(s) && h in Run(s, run).handles && Inv(Run(s, run))
    ensures RowOf(Run(s, run).table, h.clientId).status == CONNECTED <==>
            LastArrival(run, h.clientId) > LastDeparture(run, h.clientId)
  {
    var c := h.clientId;
    RunExplained(s, run, c);
  }

  lemma {:induction false} NoSharedDeparture(s: State, run: seq<Event>)
    requires Starts(s) && forall i | 0 <= i < |run| :: !SharedDeparture(run, i)
    ensures Inv(Run(s, run)) && HeldIsConnected(Run(s, run))
  {
    if run != [] {
      var n := |run| - 1;
      forall i | 0 <= i < n ensures !SharedDeparture(run[..n], i) {
        assert !SharedDeparture(run, i) && run[..n][..i] == run[..i];
      }
      NoSharedDeparture(s, run[..n]);
      assert !SharedDeparture(run, n);
      SharedIsShared(s, run[..n], run[n].handle);
      HandlesAreRegistered(s, run[..n], run[n].handle);
      StepConnectedExactly(Run(s, run[..n]), run[n]);
    }
  }

  lemma SharedDepartureBreaks(s: State, run: seq<Event>, i: nat)
    requires Starts(s) && i < |run| && SharedDeparture(run, i)
    requires Inv(Run(s, run[..i])) && HeldIsConnected(Run(s, run[..i]))
    ensures Inv(Run(s, run[..i + 1])) && !HeldIsConnected(Run(s, run[..i + 1]))
  {
    RunOfNext(s, run, i);
    SharedIsShared(s, run[..i], run[i].handle);
    HandlesAreRegistered(s, run[..i], run[i].handle);
    StepConnectedExactly(Run(s, run[..i]), run[i]);
  }

  lemma RunOfNext(s: State, run: seq<Event>, i: nat)
    requires i < |run|
    ensures Run(s, run[..i + 1]) == Step(Run(s, run[..i]), run[i])
  {
    assert run[..i + 1][..i] == run[..i];
  }

  /** Throughout a run, remembered sessions have connected rows exactly when no session of a client
      ends while another one of the same client is open. */
  lemma HeldIsConnectedExactly(s: State, run: seq<Event>)
    requires Starts(s)
    ensures (forall n | 0 <= n <= |run| :: Inv(Run(s, run[..n])) && HeldIsConnected(Run(s, run[..n]))) <==>
            (forall i | 0 <= i < |run| :: !SharedDeparture(run, i))
  {
    if forall i | 0 <= i < |run| :: !SharedDeparture(run, i) {
      forall n | 0 <= n <= |run| ensures Inv(Run(s, run[..n])) && HeldIsConnected(Run(s, run[..n])) {
        forall i | 0 <= i < n ensures !SharedDeparture(run[..n], i) {
          assert !SharedDeparture(run, i) && run[..n][..i] == run[..i];
        }
        NoSharedDeparture(s, run[..n]);
      }
    }
    if forall n | 0 <= n <= |run| :: Inv(Run(s, run[..n])) && HeldIsConnected(Run(s, run[..n])) {
      forall i | 0 <= i < |run| ensures !SharedDeparture(run, i) {
        if SharedDeparture(run, i) {
          SharedDepartureBreaks(s, run, i);
        }
      }
    }
  }

  lemma {:induction false} NoLostDeparture(s: State, run: seq<Event>)
    requires Starts(s) && forall i | 0 <= i < |run| :: !LostDeparture(run, i)
    ensures ConnectedIsHeld(Run(s, run))
  {
    if run != [] {
      var n := |run| - 1;
      forall i | 0 <= i < n ensures !LostDeparture(run[..n], i) {
        assert !LostDeparture(run, i) && run[..n][..i] == run[..i];
      }
      NoLostDeparture(s, run[..n]);
      assert !LostDeparture(run, n);
      StepHeldByHistory(s, run);
    }
  }

  lemma StepHeldByHistory(s: State, run: seq<Event>)
    requires Starts(s) && run != [] && ConnectedIsHeld(Run(s, run[..|run| - 1]))
    ensures ConnectedIsHeld(Run(s, run)) <==> !LostDeparture(run, |run| - 1)
  {
    var n := |run| - 1;
    var before := Run(s, run[..n]);
    RunKeepsInv(s, run[..n]);
    if run[n].Established? {
      EstablishedKeepsHeld(before, run[n]);
    } else {
      SharedIsShared(s, run[..n], run[n].handle);
      HandlesAreRegistered(s, run[..n], run[n].handle);
      if run[n].handle in before.handles {
        StatusFromHistory(s, run[..n], run[n].handle);
      }
      DisconnectedHeldExactly(before, run[n]);
    }
  }

  lemma LostDepartureBreaks(s: State, run: seq<Event>, i: nat)
    requires Starts(s) && i < |run| && LostDeparture(run, i)
    requires ConnectedIsHeld(Run(s, run[..i]))
    ensures !ConnectedIsHeld(Run(s, run[..i + 1]))
  {
    assert run[..i + 1][..i] == run[..i];
    StepHeldByHistory(s, run[..i + 1]);
  }

  /** Throughout a run, connected rows have a remembered session exactly when the update that ends the
      last open session of a connected client never fails. */
  lemma ConnectedIsHeldExactly(s: State, run: seq<Event>)
    requires Starts(s)
    ensures (forall n | 0 <= n <= |run| :: ConnectedIsHeld(Run(s, run[..n]))) <==>
            (forall i | 0 <= i < |run| :: !LostDeparture(run, i))
  {
    if forall i | 0 <= i < |run| :: !LostDeparture(run, i) {
      forall n | 0 <= n <= |run| ensures ConnectedIsHeld(Run(s, run[..n])) {
        forall i | 0 <= i < n ensures !LostDeparture(run[..n], i) {
          assert !LostDeparture(run, i) && run[..n][..i] == run[..i];
        }
        NoLostDeparture(s, run[..n]);
      }
    }
    if forall n | 0 <= n <= |run| :: ConnectedIsHeld(Run(s, run[..n])) {
      forall i | 0 <= i < |run| ensures !LostDeparture(run, i) {
        if LostDeparture(run, i) {
          LostDepartureBreaks(s, run, i);
        }
      }
    }
  }

  // ---------- The two ordinary cases ----------

  /** Sessions of one client never overlap. */
  ghost predicate NoOverlap(run: seq<Event>) {
    forall i, h | 0 <= i < |run| && run[i].Established? && run[i].fault == NoFault && Registered(run[..i], h) ::
      h.clientId == run[i].handle.clientId ==> h == run[i].handle
  }

  lemma RegisteredEarlier(run: seq<Event>, h: Handle, j: nat, j': nat)
    requires j < j' < |run| && Opens(run[j], h) && forall k | j < k < |run| :: !Closes(run[k], h)
    ensures Registered(run[..j'], h)
  {
  }

  lemma OneSessionPerClient(run: seq<Event>, n: nat, h: Handle, other: Handle)
    requires NoOverlap(run) && n <= |run|
    requires Registered(run[..n], h) && Registered(run[..n], other) && h.clientId == other.clientId
    ensures h == other
  {
    var p := run[..n];
    var j :| 0 <= j < n && Opens(p[j], h) && forall k | j < k < n :: !Closes(p[k], h);
    var j' :| 0 <= j' < n && Opens(p[j'], other) && forall k | j' < k < n :: !Closes(p[k], other);
    if j < j' {
      RegisteredEarlier(p, h, j, j');
      assert p[..j'] == run[..j'];
    } else if j' < j {
      RegisteredEarlier(p, other, j', j);
      assert p[..j] == run[..j];
    }
  }

  /** Without overlapping sessions and failed disconnect updates, status is exactly "has an open session". */
  lemma StatusAgrees(s: State, run: seq<Event>)
    requires Starts(s) && NoOverlap(run)
    requires forall i | 0 <= i < |run| && run[i].Disconnected? :: run[i].healthy
    ensures Inv(Run(s, run)) && HeldIsConnected(Run(s, run)) && ConnectedIsHeld(Run(s, run))
  {
    forall i | 0 <= i < |run| ensures !SharedDeparture(run, i) && !LostDeparture(run, i) {
      if SharedDeparture(run, i) {
        var other :| Registered(run[..i], other) && other != run[i].handle && other.clientId == run[i].handle.clientId;
        OneSessionPerClient(run, i, run[i].handle, other);
      }
    }
    NoSharedDeparture(s, run);
    NoLostDeparture(s, run);
  }

  // ---------- Both directions do fail ----------

  /** A client that reconnects before its old session is ended, as in a takeover, ends up marked
      disconnected with its new session open. */
  lemma TakeoverMarksDisconnected(c: string, session: Session, at: int)
    ensures var empty := State(Table([], 0), map[]);
            var run := [Established(Handle(0, c), session, NoFault), Established(Handle(1, c), session, NoFault),
                        Disconnected(Handle(0, c), at, "", None, false, true)];
            && Starts(empty) && SharedDeparture(run, 2)
            && Run(empty, run).handles == map[Handle(1, c) := 0]
            && Run(empty, run).table.rows ==
               [Row(0, c, DISCONNECTED, session, Departure(Some(at), "", "", false))]
  {
    var empty := State(Table([], 0), map[]);
    var run := [Established(Handle(0, c), session, NoFault), Established(Handle(1, c), session, NoFault),
                Disconnected(Handle(0, c), at, "", None, false, true)];
    var row := Row(0, c, CONNECTED, session, NEVER);
    RunOfNext(empty, run, 0);
    RunOfNext(empty, run, 1);
    RunOfNext(empty, run, 2);
    assert run[..0] == [] && run[..3] == run;
    assert Run(empty, run[..1]) == State(Table([row], 1), map[Handle(0, c) := 0]);
    assert Run(empty, run[..2]) == State(Table([row], 1), map[Handle(0, c) := 0, Handle(1, c) := 0]);
    HandlesAreRegistered(empty, run[..2], Handle(0, c));
    HandlesAreRegistered(empty, run[..2], Handle(1, c));
  }

  /** A session whose closing update fails leaves its row marked connected with no session open. */
  lemma FailedUpdateStaysConnected(c: string, session: Session, at: int)
    ensures var empty := State(Table([], 0), map[]);
            var run := [Established(Handle(0, c), session, NoFault),
                        Disconnected(Handle(0, c), at, "", None, false, false)];
            && Starts(empty)
            && Run(empty, run) == State(Table([Row(0, c, CONNECTED, session, NEVER)], 1), map[])
            && !ConnectedIsHeld(Run(empty, run))
  {
    var empty := State(Table([], 0), map[]);
    var run := [Established(Handle(0, c), session, NoFault),
                Disconnected(Handle(0, c), at, "", None, false, false)];
    var row := Row(0, c, CONNECTED, session, NEVER);
    RunOfNext(empty, run, 0);
    RunOfNext(empty, run, 1);
    assert run[..0] == [] && run[..2] == run;
    assert Run(empty, run[..1]) == State(Table([row], 1), map[Handle(0, c) := 0]);
    assert row in Run(empty, run).table.rows;
  }
}
