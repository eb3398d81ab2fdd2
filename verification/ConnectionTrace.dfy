/** Runs of the connection hook: what every step keeps, and what the rows say about the event history. */
module ConnectionTrace {
  import opened Wrappers
  import opened ConnectionAudit

  // ---------- One step ----------

  /** Every remembered handle names the row its client would be looked up under. */
  ghost predicate Inv(s: State) {
    && ValidTable(s.table)
    && forall h | h in s.handles :: HasRow(s.table, h.clientId) && RowOf(s.table, h.clientId).id == s.handles[h]
  }

  /** The later table has the earlier rows in place, with the same ids and client ids, and ids given out since are new. */
  ghost predicate Extends(before: Table, after: Table) {
    && |before.rows| <= |after.rows| && before.nextId <= after.nextId
    && (forall i | 0 <= i < |before.rows| ::
          after.rows[i].id == before.rows[i].id && after.rows[i].clientId == before.rows[i].clientId)
    && (forall i | |before.rows| <= i < |after.rows| :: after.rows[i].id >= before.nextId)
  }

  predicate Arrives(e: Event, clientId: string) {
    e.Established? && e.fault == NoFault && e.handle.clientId == clientId
  }

  /** A disconnect that reaches the row of its client. */
  predicate Leaves(s: State, e: Event, clientId: string) {
    e.Disconnected? && e.healthy && e.handle in s.handles && e.handle.clientId == clientId
  }

  lemma {:induction false} FindSame(rows: seq<Row>, after: seq<Row>, clientId: string)
    requires |rows| <= |after| && forall i | 0 <= i < |rows| :: after[i].clientId == rows[i].clientId
    ensures Find(rows, clientId) < |rows| ==> Find(after, clientId) == Find(rows, clientId)
    ensures Find(rows, clientId) == |rows| ==> Find(after, clientId) >= |rows|
  {
  }

  lemma RefreshRow(t: Table, id: nat, session: Session, c: string)
    requires ValidTable(t)
    ensures var after := Refresh(t, id, session);
            && ValidTable(after) && Extends(t, after)
            && (HasRow(after, c) <==> HasRow(t, c))
            && (HasRow(t, c) ==>
                  RowOf(after, c) == if RowOf(t, c).id == id then Refreshed(RowOf(t, c), session) else RowOf(t, c))
  {
    FindSame(t.rows, Refresh(t, id, session).rows, c);
  }

  lemma InsertRow(t: Table, clientId: string, session: Session, c: string)
    requires ValidTable(t) && !HasRow(t, clientId)
    ensures var after := Insert(t, clientId, session);
            && ValidTable(after) && Extends(t, after)
            && (HasRow(after, c) <==> HasRow(t, c) || c == clientId)
            && (HasRow(after, c) ==>
                  RowOf(after, c) == if HasRow(t, c) then RowOf(t, c) else Row(t.nextId, c, CONNECTED, session, NEVER))
  {
    var after := Insert(t, clientId, session);
    FindSame(t.rows, after.rows, c);
    assert after.rows[|t.rows|].clientId == clientId;
  }

  lemma UpsertRow(t: Table, clientId: string, session: Session, c: string)
    requires ValidTable(t)
    ensures var after := Upsert(t, clientId, session);
            && ValidTable(after) && Extends(t, after)
            && (HasRow(after, c) <==> HasRow(t, c) || c == clientId)
            && (c == clientId ==>
                  RowOf(after, c) == Row(UpsertId(t, c), c, CONNECTED, session,
                                         if HasRow(t, c) then RowOf(t, c).departure else NEVER))
            && (c != clientId && HasRow(t, c) ==> RowOf(after, c) == RowOf(t, c))
  {
    if HasRow(t, clientId) {
      RefreshRow(t, RowOf(t, clientId).id, session, c);
      if HasRow(t, c) {
        DistinctIds(t, c, clientId);
      }
    } else {
      InsertRow(t, clientId, session, c);
    }
  }

  lemma EndRow(t: Table, id: nat, departure: Departure, c: string)
    requires ValidTable(t)
    ensures var after := End(t, id, departure);
            && ValidTable(after) && Extends(t, after)
            && (HasRow(after, c) <==> HasRow(t, c))
            && (HasRow(t, c) ==>
                  RowOf(after, c) == if RowOf(t, c).id == id then Ended(RowOf(t, c), departure) else RowOf(t, c))
            && (forall i | 0 <= i < |t.rows| :: after.rows[i].session == t.rows[i].session)
            && (forall i | 0 <= i < |t.rows| && t.rows[i].id != id :: after.rows[i] == t.rows[i])
  {
    FindSame(t.rows, End(t, id, departure).rows, c);
  }

  lemma DistinctIds(t: Table, c: string, d: string)
    requires ValidTable(t) && HasRow(t, c) && HasRow(t, d)
    ensures RowOf(t, c).id == RowOf(t, d).id ==> c == d
  {
  }

  /** The whole effect of a step on the row of one client. */
  lemma StepRow(s: State, e: Event, c: string)
    requires Inv(s)
    ensures var s' := Step(s, e);
            && ValidTable(s'.table) && Extends(s.table, s'.table)
            && (HasRow(s'.table, c) <==> HasRow(s.table, c) || Arrives(e, c))
            && (Arrives(e, c) ==>
                  RowOf(s'.table, c) == Row(UpsertId(s.table, c), c, CONNECTED, e.session,
                                            if HasRow(s.table, c) then RowOf(s.table, c).departure else NEVER))
            && (Leaves(s, e, c) ==> HasRow(s.table, c) && RowOf(s'.table, c) == Ended(RowOf(s.table, c), DepartureOf(e)))
            && (HasRow(s.table, c) && !Arrives(e, c) && !Leaves(s, e, c) ==> RowOf(s'.table, c) == RowOf(s.table, c))
  {
    match e
    case Established(handle, session, fault) =>
      UpsertRow(s.table, handle.clientId, session, c);
    case Disconnected(handle, _, _, _, _, healthy) =>
      if handle in s.handles && healthy {
        EndRow(s.table, s.handles[handle], DepartureOf(e), c);
        if HasRow(s.table, c) {
          DistinctIds(s.table, c, handle.clientId);
        }
      }
  }

  lemma OtherRow(t: Table, c: string, i: nat)
    requires ValidTable(t) && HasRow(t, c) && i < |t.rows| && Find(t.rows, t.rows[i].clientId) < i
    ensures RowOf(t, c).id != t.rows[i].id
  {
    assert Find(t.rows, c) != i;
  }

  /** Every row but its client's first is left alone. */
  lemma StepLaterRow(s: State, e: Event, i: nat)
    requires Inv(s) && i < |s.table.rows| && Find(s.table.rows, s.table.rows[i].clientId) < i
    ensures Step(s, e).table.rows[i] == s.table.rows[i]
  {
    var c := e.handle.clientId;
    if HasRow(s.table, c) {
      OtherRow(s.table, c, i);
    }
  }

  /** Handle-map integrity: kept by every step, failed calls included. */
  lemma StepKeepsInv(s: State, e: Event)
    requires Inv(s)
    ensures Inv(Step(s, e)) && Extends(s.table, Step(s, e).table)
  {
    var s' := Step(s, e);
    StepRow(s, e, "");
    forall h | h in s'.handles
      ensures HasRow(s'.table, h.clientId) && RowOf(s'.table, h.clientId).id == s'.handles[h]
    {
      StepRow(s, e, h.clientId);
    }
  }

  /** Disconnecting a handle twice is disconnecting it once. */
  lemma RepeatedDisconnect(s: State, e: Event, again: Event)
    requires e.Disconnected? && again.Disconnected? && e.handle == again.handle
    ensures Step(Step(s, e), again) == Step(s, e)
  {
  }

  // ---------- Runs ----------

  function Run(s: State, run: seq<Event>): State {
    if run == [] then s else Step(Run(s, run[..|run| - 1]), run[|run| - 1])
  }

  lemma ExtendsTransitive(a: Table, b: Table, c: Table)
    requires Extends(a, b) && Extends(b, c)
    ensures Extends(a, c)
  {
  }

  /** Row ids are permanent and never reused, whatever fails on the way. */
  lemma {:induction false} RunKeepsInv(s: State, run: seq<Event>)
    requires Inv(s)
    ensures Inv(Run(s, run)) && Extends(s.table, Run(s, run).table)
  {
    if run != [] {
      var prefix := run[..|run| - 1];
      RunKeepsInv(s, prefix);
      StepKeepsInv(Run(s, prefix), run[|run| - 1]);
      ExtendsTransitive(s.table, Run(s, prefix).table, Run(s, run).table);
    }
  }

  /** Duplicates that a table starts with are never touched. */
  lemma {:induction false} LaterRowsUntouched(s: State, run: seq<Event>, i: nat)
    requires Inv(s) && i < |s.table.rows| && Find(s.table.rows, s.table.rows[i].clientId) < i
    ensures i < |Run(s, run).table.rows| && Run(s, run).table.rows[i] == s.table.rows[i]
  {
    if run != [] {
      var prefix := run[..|run| - 1];
      var before, c := Run(s, prefix), s.table.rows[i].clientId;
      LaterRowsUntouched(s, prefix, i);
      RunKeepsInv(s, prefix);
      FindSame(s.table.rows, before.table.rows, c);
      StepKeepsInv(before, run[|run| - 1]);
      StepLaterRow(before, run[|run| - 1], i);
    }
  }

  // ---------- The history ----------

  predicate Opens(e: Event, h: Handle) {
    e.Established? && e.fault == NoFault && e.handle == h
  }

  predicate Closes(e: Event, h: Handle) {
    e.Disconnected? && e.handle == h
  }

  /** A saved session of the handle has not been followed by a disconnect of it. */
  ghost predicate Registered(run: seq<Event>, h: Handle) {
    exists j :: 0 <= j < |run| && Opens(run[j], h) && forall k | j < k < |run| :: !Closes(run[k], h)
  }

  /** A successful disconnect of a handle that was registered at that point. */
  ghost predicate DepartsAt(run: seq<Event>, i: nat, c: string)
    requires i < |run|
  {
    && run[i].Disconnected? && run[i].healthy && run[i].handle.clientId == c
    && Registered(run[..i], run[i].handle)
  }

  /** The index of the client's last saved session, or -1. */
  function LastArrival(run: seq<Event>, c: string): (last: int)
    ensures -1 <= last < |run|
    ensures last >= 0 ==> Arrives(run[last], c)
    ensures forall i | last < i < |run| :: !Arrives(run[i], c)
  {
    if run == [] then -1
    else if Arrives(run[|run| - 1], c) then |run| - 1
    else LastArrival(run[..|run| - 1], c)
  }

  lemma DepartsAtPrefix(run: seq<Event>, n: nat, i: nat, c: string)
    requires i < n <= |run|
    ensures DepartsAt(run[..n], i, c) <==> DepartsAt(run, i, c)
  {
    assert run[..n][..i] == run[..i];
  }

  /** The index of the client's last departure, or -1. */
  ghost function LastDeparture(run: seq<Event>, c: string): (last: int)
    ensures -1 <= last < |run|
    ensures last >= 0 ==> DepartsAt(run, last, c)
    ensures forall i | last < i < |run| :: !DepartsAt(run, i, c)
  {
    if run == [] then -1
    else if DepartsAt(run, |run| - 1, c) then |run| - 1
    else
      var prefix := run[..|run| - 1];
      var last := LastDeparture(prefix, c);
      assert last >= 0 ==> DepartsAt(run, last, c) by {
        if last >= 0 {
          DepartsAtPrefix(run, |run| - 1, last, c);
        }
      }
      assert forall i | last < i < |run| :: !DepartsAt(run, i, c) by {
        forall i | last < i < |run| ensures !DepartsAt(run, i, c) {
          if i < |run| - 1 {
            DepartsAtPrefix(run, |run| - 1, i, c);
            assert !DepartsAt(prefix, i, c);
          }
        }
      }
      last
  }

  /** The hook remembers exactly the registered handles. */
  lemma {:induction false} HandlesAreRegistered(s: State, run: seq<Event>, h: Handle)
    requires s.handles == map[]
    ensures h in Run(s, run).handles <==> Registered(run, h)
  {
    if run != [] {
      var n := |run| - 1;
      var prefix := run[..n];
      HandlesAreRegistered(s, prefix, h);
      RegisteredStep(prefix, run[n], h);
      assert run == prefix + [run[n]];
    }
  }

  lemma RegisteredStep(prefix: seq<Event>, e: Event, h: Handle)
    ensures Registered(prefix + [e], h) <==> Opens(e, h) || (Registered(prefix, h) && !Closes(e, h))
  {
    var run := prefix + [e];
    if Opens(e, h) {
      assert Opens(run[|prefix|], h);
    }
    if Registered(prefix, h) && !Closes(e, h) {
      var j :| 0 <= j < |prefix| && Opens(prefix[j], h) && forall k | j < k < |prefix| :: !Closes(prefix[k], h);
      assert Opens(run[j], h);
    }
    if Registered(run, h) && !Opens(e, h) {
      var j :| 0 <= j < |run| && Opens(run[j], h) && forall k | j < k < |run| :: !Closes(run[k], h);
      assert Opens(prefix[j], h);
      assert !Closes(run[|prefix|], h);
      assert forall k | j < k < |prefix| :: !Closes(prefix[k], h) by {
        assert forall k | j < k < |prefix| :: prefix[k] == run[k];
      }
    }
  }

  /** The disconnect columns as a disconnect event gives them. */
  predicate WrittenBy(d: Departure, e: Event)
    requires e.Disconnected?
  {
    && d.at == Some(e.at)
    && d.lastIp == e.remoteHost
    && d.reason == (match e.error { case None => "" case Some(text) => text })
    && d.expired == e.expired
  }

  /** The row a client must have after a run, read off the history alone: connect columns from the last saved
      session, disconnect columns from the last departure, status from whichever came later, and what the
      table held before where the run has nothing to say. */
  ghost predicate Explains(before: Table, run: seq<Event>, c: string, row: Row)
    requires LastArrival(run, c) >= 0 || HasRow(before, c)
  {
    var arrival, departure := LastArrival(run, c), LastDeparture(run, c);
    && row.clientId == c
    && (HasRow(before, c) ==> row.id == RowOf(before, c).id)
    && row.session == (if arrival >= 0 then run[arrival].session else RowOf(before, c).session)
    && (departure >= 0 ==> WrittenBy(row.departure, run[departure]))
    && (departure < 0 ==>
          row.departure == if HasRow(before, c) then RowOf(before, c).departure else Departure(None, "", "", false))
    && row.status == (if arrival < 0 && departure < 0 then RowOf(before, c).status
                      else if arrival > departure then "connected" else "disconnected")
  }

  /** Rows refine the history, from any table, over any run, with any calls failing. */
  lemma {:induction false} RunExplained(s: State, run: seq<Event>, c: string)
    requires ValidTable(s.table) && s.handles == map[]
    ensures HasRow(Run(s, run).table, c) <==> HasRow(s.table, c) || LastArrival(run, c) >= 0
    ensures HasRow(Run(s, run).table, c) ==> Explains(s.table, run, c, RowOf(Run(s, run).table, c))
  {
    if run != [] {
      var n := |run| - 1;
      RunExplained(s, run[..n], c);
      RunKeepsInv(s, run[..n]);
      if run[n].Disconnected? {
        HandlesAreRegistered(s, run[..n], run[n].handle);
      }
      StepExplained(s.table, run, Run(s, run[..n]), c);
    }
  }

  lemma StepExplained(before: Table, run: seq<Event>, s: State, c: string)
    requires run != [] && Inv(s)
    requires var prefix := run[..|run| - 1];
             && (HasRow(s.table, c) <==> HasRow(before, c) || LastArrival(prefix, c) >= 0)
             && (HasRow(s.table, c) ==> Explains(before, prefix, c, RowOf(s.table, c)))
    requires Leaves(s, run[|run| - 1], c) <==> DepartsAt(run, |run| - 1, c)
    ensures var after := Step(s, run[|run| - 1]).table;
            && (HasRow(after, c) <==> HasRow(before, c) || LastArrival(run, c) >= 0)
            && (HasRow(after, c) ==> Explains(before, run, c, RowOf(after, c)))
  {
    var n := |run| - 1;
    StepRow(s, run[n], c);
    LastSteps(run, c);
    assert LastArrival(run[..n], c) >= 0 ==> run[..n][LastArrival(run[..n], c)] == run[LastArrival(run[..n], c)];
    assert LastDeparture(run[..n], c) >= 0 ==> run[..n][LastDeparture(run[..n], c)] == run[LastDeparture(run[..n], c)];
  }

  lemma LastSteps(run: seq<Event>, c: string)
    requires run != []
    ensures var n := |run| - 1;
            && LastArrival(run, c) == (if Arrives(run[n], c) then n else LastArrival(run[..n], c))
            && LastDeparture(run, c) == (if DepartsAt(run, n, c) then n else LastDeparture(run[..n], c))
  {
  }
}
