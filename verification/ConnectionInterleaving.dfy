/** The hooks take several steps each: saving a session is a read, then a write, with no transaction around
    the two and no unique index on the client id; ending one is the removal of the handle, then an update of
    the row. Here calls of arbitrarily many clients interleave between those steps. */
module ConnectionInterleaving {
  import opened Wrappers
  import opened ConnectionAudit
  import opened ConnectionTrace

  /** A call that has read and not yet written; `found` is what its read returned. */
  datatype Pending = Pending(handle: Handle, session: Session, found: Option<nat>)

  /** `leaving` holds the row ids of handles already removed whose row is not updated yet. */
  datatype SplitState = SplitState(table: Table, handles: map<Handle, nat>,
                                   inFlight: map<nat, Pending>, leaving: map<Handle, nat>)

  datatype SplitEvent =
    | Read(call: nat, handle: Handle, session: Session, healthy: bool)
    | Write(call: nat, healthy: bool)
    | Forget(handle: Handle)
    | Mark(event: Event)

  function Lookup(t: Table, clientId: string): Option<nat> {
    if HasRow(t, clientId) then Some(RowOf(t, clientId).id) else None
  }

  function SplitStep(s: SplitState, e: SplitEvent): SplitState {
    match e
    case Read(call, handle, session, healthy) =>
      if !healthy || call in s.inFlight then s
      else s.(inFlight := s.inFlight[call := Pending(handle, session, Lookup(s.table, handle.clientId))])
    case Write(call, healthy) =>
      if call !in s.inFlight then s
      else
        var p := s.inFlight[call];
        var rest := s.(inFlight := s.inFlight - {call});
        if !healthy then rest
        else if p.found.None? then
          rest.(table := Insert(s.table, p.handle.clientId, p.session), handles := s.handles[p.handle := s.table.nextId])
        else
          rest.(table := Refresh(s.table, p.found.value, p.session), handles := s.handles[p.handle := p.found.value])
    case Forget(handle) =>
      if handle !in s.handles then s
      else s.(handles := s.handles - {handle}, leaving := s.leaving[handle := s.handles[handle]])
    case Mark(event) =>
      if !event.Disconnected? || event.handle !in s.leaving then s
      else
        var rest := s.(leaving := s.leaving - {event.handle});
        if event.healthy then rest.(table := End(s.table, s.leaving[event.handle], DepartureOf(event))) else rest
  }

  function SplitRun(s: SplitState, run: seq<SplitEvent>): SplitState {
    if run == [] then s else SplitStep(SplitRun(s, run[..|run| - 1]), run[|run| - 1])
  }

  /** The state as whole calls see it: a handle on its way out has not left yet. */
  function Atomic(s: SplitState): State {
    State(s.table, s.handles + s.leaving)
  }

  // ---------- The protocol ----------

  /** A call may start when no call of the same client is in flight, and the two hooks of one client object
      are called one after the other. Ends of a client's other sessions interleave freely. */
  ghost predicate Disciplined(s: SplitState, e: SplitEvent) {
    && (e.Read? ==>
          && e.handle !in s.leaving
          && forall call | call in s.inFlight :: s.inFlight[call].handle.clientId != e.handle.clientId)
    && (e.Forget? ==> forall call | call in s.inFlight :: s.inFlight[call].handle != e.handle)
  }

  ghost predicate DisciplinedRun(s: SplitState, run: seq<SplitEvent>) {
    forall i | 0 <= i < |run| :: Disciplined(SplitRun(s, run[..i]), run[i])
  }

  ghost predicate ReadsCurrent(s: SplitState) {
    forall call | call in s.inFlight :: s.inFlight[call].found == Lookup(s.table, s.inFlight[call].handle.clientId)
  }

  ghost predicate DifferentClients(inFlight: map<nat, Pending>) {
    forall call, other | call in inFlight && other in inFlight && call != other ::
      inFlight[call].handle.clientId != inFlight[other].handle.clientId
  }

  ghost predicate SeparateHandles(s: SplitState) {
    && s.handles.Keys !! s.leaving.Keys
    && forall call | call in s.inFlight :: s.inFlight[call].handle !in s.leaving
  }

  /** What every in-flight call has read still holds, in-flight calls are for different clients,
      and no handle is on its way in and out at once. */
  ghost predicate SplitInv(s: SplitState) {
    Inv(Atomic(s)) && ReadsCurrent(s) && DifferentClients(s.inFlight) && SeparateHandles(s)
  }

  /** The whole call that a split step stands for, if it is the one that takes effect: its last statement. */
  function Linearization(s: SplitState, e: SplitEvent): seq<Event> {
    match e
    case Read(_, handle, session, healthy) =>
      if healthy then [] else [Established(handle, session, ReadFault)]
    case Write(call, healthy) =>
      if call !in s.inFlight then []
      else [Established(s.inFlight[call].handle, s.inFlight[call].session, if healthy then NoFault else WriteFault)]
    case Forget(_) => []
    case Mark(event) => if event.Disconnected? && event.handle in s.leaving then [event] else []
  }

  function LinearizedRun(s: SplitState, run: seq<SplitEvent>): seq<Event> {
    if run == [] then [] else
      var prefix := run[..|run| - 1];
      LinearizedRun(s, prefix) + Linearization(SplitRun(s, prefix), run[|run| - 1])
  }

  lemma MapUpdates<K, V>(a: map<K, V>, b: map<K, V>, k: K, v: V)
    requires k !in b
    ensures a[k := v] + b == (a + b)[k := v]
    ensures k in a ==> (a - {k}) + b[k := a[k]] == a + b
    ensures k !in a ==> a + (b[k := v] - {k}) == (a + b[k := v]) - {k}
  {
  }

  lemma WriteLinearizes(s: SplitState, call: nat)
    requires SplitInv(s) && call in s.inFlight
    ensures Atomic(SplitStep(s, Write(call, true))) ==
            Step(Atomic(s), Established(s.inFlight[call].handle, s.inFlight[call].session, NoFault))
  {
    var h := s.inFlight[call].handle;
    MapUpdates(s.handles, s.leaving, h, UpsertId(s.table, h.clientId));
  }

  lemma ForgetLinearizes(s: SplitState, h: Handle)
    requires SeparateHandles(s)
    ensures Atomic(SplitStep(s, Forget(h))) == Atomic(s)
  {
    if h in s.handles {
      MapUpdates(s.handles, s.leaving, h, s.handles[h]);
    }
  }

  lemma MarkLinearizes(s: SplitState, event: Event)
    requires SeparateHandles(s) && event.Disconnected? && event.handle in s.leaving
    ensures Atomic(SplitStep(s, Mark(event))) == Step(Atomic(s), event)
  {
    var h := event.handle;
    var others := s.leaving - {h};
    assert s.leaving == others[h := s.leaving[h]];
    MapUpdates(s.handles, others, h, s.leaving[h]);
  }

  /** Each split step does what the whole call it stands for would do in one go. */
  lemma StepLinearizes(s: SplitState, e: SplitEvent)
    requires SplitInv(s)
    ensures var atomic := Linearization(s, e);
            && |atomic| <= 1
            && Atomic(SplitStep(s, e)) == if atomic == [] then Atomic(s) else Step(Atomic(s), atomic[0])
  {
    match e
    case Read(_, _, _, _) =>
    case Write(call, healthy) =>
      if call in s.inFlight && healthy {
        WriteLinearizes(s, call);
      }
    case Forget(handle) =>
      ForgetLinearizes(s, handle);
    case Mark(event) =>
      if event.Disconnected? && event.handle in s.leaving {
        MarkLinearizes(s, event);
      }
  }

  /** With nothing in between, a read and a write are the whole call, failures included. */
  lemma ReadThenWrite(s: SplitState, call: nat, h: Handle, session: Session, readHealthy: bool, writeHealthy: bool)
    requires call !in s.inFlight
    ensures var fault := if !readHealthy then ReadFault else if !writeHealthy then WriteFault else NoFault;
            var after := SplitStep(SplitStep(s, Read(call, h, session, readHealthy)), Write(call, writeHealthy));
            && State(after.table, after.handles) == Step(State(s.table, s.handles), Established(h, session, fault))
            && after.inFlight == s.inFlight && after.leaving == s.leaving
  {
  }

  /** And the two halves of a disconnect are the whole one. */
  lemma ForgetThenMark(s: SplitState, e: Event)
    requires e.Disconnected? && e.handle !in s.leaving
    ensures var after := SplitStep(SplitStep(s, Forget(e.handle)), Mark(e));
            && State(after.table, after.handles) == Step(State(s.table, s.handles), e)
            && after.inFlight == s.inFlight && after.leaving == s.leaving
  {
  }

  lemma LookupKept(s: State, e: Event, c: string)
    requires Inv(s) && !Arrives(e, c)
    ensures Lookup(Step(s, e).table, c) == Lookup(s.table, c)
  {
    StepRow(s, e, c);
  }

  lemma OthersUntouched(s: SplitState, e: SplitEvent, call: nat)
    requires DifferentClients(s.inFlight) && call in s.inFlight && call in SplitStep(s, e).inFlight
    ensures SplitStep(s, e).inFlight[call] == s.inFlight[call]
    ensures Linearization(s, e) != [] ==> !Arrives(Linearization(s, e)[0], s.inFlight[call].handle.clientId)
  {
  }

  lemma PendingKept(s: SplitState, e: SplitEvent, call: nat)
    requires SplitInv(s) && call in s.inFlight && call in SplitStep(s, e).inFlight
    ensures SplitStep(s, e).inFlight[call] == s.inFlight[call]
    ensures s.inFlight[call].found == Lookup(Atomic(SplitStep(s, e)).table, s.inFlight[call].handle.clientId)
  {
    StepLinearizes(s, e);
    OthersUntouched(s, e, call);
    if Linearization(s, e) != [] {
      LookupKept(Atomic(s), Linearization(s, e)[0], s.inFlight[call].handle.clientId);
    }
  }

  lemma NewReadCurrent(s: SplitState, e: SplitEvent, call: nat)
    requires call !in s.inFlight && call in SplitStep(s, e).inFlight
    ensures var s' := SplitStep(s, e); s'.inFlight[call].found == Lookup(s'.table, s'.inFlight[call].handle.clientId)
  {
  }

  lemma ReadsStayCurrent(s: SplitState, e: SplitEvent)
    requires SplitInv(s)
    ensures ReadsCurrent(SplitStep(s, e))
  {
    var s' := SplitStep(s, e);
    forall call | call in s'.inFlight
      ensures s'.inFlight[call].found == Lookup(s'.table, s'.inFlight[call].handle.clientId)
    {
      if call in s.inFlight {
        PendingKept(s, e, call);
        assert Atomic(s').table == s'.table;
      } else {
        NewReadCurrent(s, e, call);
      }
    }
  }

  lemma ClientsStayDifferent(s: SplitState, e: SplitEvent)
    requires DifferentClients(s.inFlight) && Disciplined(s, e)
    ensures DifferentClients(SplitStep(s, e).inFlight)
  {
  }

  lemma HandlesStaySeparate(s: SplitState, e: SplitEvent)
    requires SeparateHandles(s) && Disciplined(s, e)
    ensures SeparateHandles(SplitStep(s, e))
  {
  }

  lemma StepKeepsSplitInv(s: SplitState, e: SplitEvent)
    requires SplitInv(s) && Disciplined(s, e)
    ensures SplitInv(SplitStep(s, e))
  {
    StepLinearizes(s, e);
    if Linearization(s, e) != [] {
      StepKeepsInv(Atomic(s), Linearization(s, e)[0]);
    }
    ReadsStayCurrent(s, e);
    ClientsStayDifferent(s, e);
    HandlesStaySeparate(s, e);
  }

  lemma RunSnoc(s: State, run: seq<Event>, more: seq<Event>)
    requires |more| <= 1
    ensures Run(s, run + more) == if more == [] then Run(s, run) else Step(Run(s, run), more[0])
  {
    if more == [] {
      assert run + more == run;
    } else {
      assert (run + more)[..|run|] == run;
    }
  }

  /** Under the protocol any interleaving ends with the table and handles of the calls made one after the other,
      in the order of their last statements. */
  lemma {:induction false} InterleavingLinearizes(s: SplitState, run: seq<SplitEvent>)
    requires SplitInv(s) && DisciplinedRun(s, run)
    ensures SplitInv(SplitRun(s, run))
    ensures Atomic(SplitRun(s, run)) == Run(Atomic(s), LinearizedRun(s, run))
  {
    if run != [] {
      var n := |run| - 1;
      forall i | 0 <= i < n ensures Disciplined(SplitRun(s, run[..n][..i]), run[..n][i]) {
        assert run[..n][..i] == run[..i];
      }
      InterleavingLinearizes(s, run[..n]);
      var before := SplitRun(s, run[..n]);
      assert Disciplined(before, run[n]);
      StepKeepsSplitInv(before, run[n]);
      StepLinearizes(before, run[n]);
      RunSnoc(Atomic(s), LinearizedRun(s, run[..n]), Linearization(before, run[n]));
    }
  }

  /** So from the start of the process the rows say of the whole calls, in that order, what they would
      say of a run without interleaving. */
  lemma InterleavingExplained(s: SplitState, run: seq<SplitEvent>, c: string)
    requires SplitInv(s) && DisciplinedRun(s, run) && s.handles == map[] && s.leaving == map[]
    ensures var t := SplitRun(s, run).table;
            && (HasRow(t, c) <==> HasRow(s.table, c) || LastArrival(LinearizedRun(s, run), c) >= 0)
            && (HasRow(t, c) ==> Explains(s.table, LinearizedRun(s, run), c, RowOf(t, c)))
  {
    InterleavingLinearizes(s, run);
    RunExplained(Atomic(s), LinearizedRun(s, run), c);
  }
}
