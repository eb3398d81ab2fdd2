/** There is no unique index on the client id of a connection row. When interleaved calls keep one row
    per client all the same. */
module ConnectionUniqueness {
  import opened ConnectionAudit
  import opened ConnectionTrace
  import opened ConnectionInterleaving

  // ---------- Stale writes ----------

  ghost predicate UniqueClients(t: Table) {
    forall i, j | 0 <= i < j < |t.rows| :: t.rows[i].clientId != t.rows[j].clientId
  }

  /** A write that is about to insert a client that has meanwhile got a row. */
  predicate Stale(s: SplitState, e: SplitEvent) {
    && e.Write? && e.healthy && e.call in s.inFlight && s.inFlight[e.call].found.None?
    && HasRow(s.table, s.inFlight[e.call].handle.clientId)
  }

  /** With or without the protocol, a step keeps rows unique exactly when it is not a stale write. */
  lemma StepUniqueExactly(s: SplitState, e: SplitEvent)
    requires UniqueClients(s.table)
    ensures UniqueClients(SplitStep(s, e).table) <==> !Stale(s, e)
  {
    var after := SplitStep(s, e).table;
    if Stale(s, e) {
      var c := s.inFlight[e.call].handle.clientId;
      assert after.rows[Find(s.table.rows, c)].clientId == after.rows[|s.table.rows|].clientId;
    } else if |after.rows| == |s.table.rows| {
      assert forall i | 0 <= i < |after.rows| :: after.rows[i].clientId == s.table.rows[i].clientId;
    }
  }

  /** Client ids of rows never change and rows never go away. */
  lemma StepKeepsRows(s: SplitState, e: SplitEvent)
    ensures |s.table.rows| <= |SplitStep(s, e).table.rows|
    ensures forall i | 0 <= i < |s.table.rows| :: SplitStep(s, e).table.rows[i].clientId == s.table.rows[i].clientId
  {
  }

  predicate StaleAt(s: SplitState, run: seq<SplitEvent>, i: nat)
    requires i < |run|
  {
    Stale(SplitRun(s, run[..i]), run[i])
  }

  ghost predicate NoStaleWrite(s: SplitState, run: seq<SplitEvent>) {
    forall i | 0 <= i < |run| :: !StaleAt(s, run, i)
  }

  lemma StaleAtPrefix(s: SplitState, run: seq<SplitEvent>, n: nat, i: nat)
    requires i < n <= |run|
    ensures StaleAt(s, run[..n], i) <==> StaleAt(s, run, i)
  {
    assert run[..n][..i] == run[..i];
  }

  lemma NoStaleWriteSnoc(s: SplitState, run: seq<SplitEvent>, n: nat)
    requires |run| == n + 1
    ensures NoStaleWrite(s, run) <==> NoStaleWrite(s, run[..n]) && !StaleAt(s, run, n)
  {
    forall i | 0 <= i < n ensures StaleAt(s, run[..n], i) <==> StaleAt(s, run, i) {
      StaleAtPrefix(s, run, n, i);
    }
  }

  lemma DuplicatesStay(s: SplitState, e: SplitEvent)
    requires !UniqueClients(s.table)
    ensures !UniqueClients(SplitStep(s, e).table)
  {
    var i, j :| 0 <= i < j < |s.table.rows| && s.table.rows[i].clientId == s.table.rows[j].clientId;
    StepKeepsRows(s, e);
    assert SplitStep(s, e).table.rows[i].clientId == SplitStep(s, e).table.rows[j].clientId;
  }

  /** Over any run rows stay unique exactly while no write is stale. */
  lemma {:induction false} UniqueExactly(s: SplitState, run: seq<SplitEvent>)
    requires UniqueClients(s.table)
    ensures UniqueClients(SplitRun(s, run).table) <==> NoStaleWrite(s, run)
  {
    if run != [] {
      var n := |run| - 1;
      UniqueExactly(s, run[..n]);
      NoStaleWriteSnoc(s, run, n);
      var before := SplitRun(s, run[..n]);
      if UniqueClients(before.table) {
        StepUniqueExactly(before, run[n]);
      } else {
        DuplicatesStay(before, run[n]);
      }
    }
  }

  // ---------- Overlapping calls ----------

  /** The calls in flight after an event, and their handles. The table plays no part in it. */
  function OpenStep(open: map<nat, Handle>, e: SplitEvent): map<nat, Handle> {
    match e
    case Read(call, handle, _, healthy) => if healthy && call !in open then open[call := handle] else open
    case Write(call, _) => open - {call}
    case Forget(_) => open
    case Mark(_) => open
  }

  function OpenAfter(open: map<nat, Handle>, run: seq<SplitEvent>): map<nat, Handle> {
    if run == [] then open else OpenStep(OpenAfter(open, run[..|run| - 1]), run[|run| - 1])
  }

  function HandlesOf(inFlight: map<nat, Pending>): map<nat, Handle> {
    map call | call in inFlight :: inFlight[call].handle
  }

  lemma {:induction false} OpenIsInFlight(s: SplitState, run: seq<SplitEvent>)
    ensures OpenAfter(HandlesOf(s.inFlight), run) == HandlesOf(SplitRun(s, run).inFlight)
  {
    if run != [] {
      OpenIsInFlight(s, run[..|run| - 1]);
    }
  }

  /** Event i is the successful write of an open call of the client. */
  predicate WritesFor(open: map<nat, Handle>, run: seq<SplitEvent>, i: nat, c: string)
    requires i < |run|
  {
    && run[i].Write? && run[i].healthy
    && var before := OpenAfter(open, run[..i]);
       run[i].call in before && before[run[i].call].clientId == c
  }

  /** The call is open just before event i and is not written from there to the end of the run. */
  predicate OpenSince(open: map<nat, Handle>, run: seq<SplitEvent>, i: nat, call: nat)
    requires i <= |run|
  {
    && call in OpenAfter(open, run[..i])
    && forall k | i <= k < |run| :: !(run[k].Write? && run[k].call == call)
  }

  /** Event i is the first successful write for a client that had no row, and event j is the successful write
      of another call of that client which was already open at i. */
  predicate Race(before: Table, open: map<nat, Handle>, run: seq<SplitEvent>, i: nat, j: nat, c: string) {
    && i < j < |run| && !HasRow(before, c)
    && WritesFor(open, run, i, c) && (forall k | 0 <= k < i :: !WritesFor(open, run, k, c))
    && WritesFor(open, run, j, c) && OpenSince(open, run[..j], i, run[j].call)
  }

  lemma WritesForPrefix(open: map<nat, Handle>, run: seq<SplitEvent>, n: nat, c: string)
    requires n <= |run|
    ensures forall k | 0 <= k < n :: WritesFor(open, run[..n], k, c) <==> WritesFor(open, run, k, c)
  {
    assert forall k | 0 <= k < n :: run[..n][..k] == run[..k];
  }

  lemma StepKeepsRow(s: SplitState, e: SplitEvent, c: string)
    requires HasRow(s.table, c)
    ensures HasRow(SplitStep(s, e).table, c)
  {
    StepKeepsRows(s, e);
    FindSame(s.table.rows, SplitStep(s, e).table.rows, c);
    var i, after := Find(s.table.rows, c), SplitStep(s, e).table.rows;
    assert after[i].clientId == c;
  }

  /** A call that read a row has one; a call that read none is of a client without a row to begin with,
      and was open at every successful write for that client since. */
  ghost predicate ReadExplained(s: SplitState, run: seq<SplitEvent>, call: nat)
    requires call in SplitRun(s, run).inFlight
  {
    var now := SplitRun(s, run);
    var c := now.inFlight[call].handle.clientId;
    if now.inFlight[call].found.Some? then HasRow(now.table, c)
    else
      && !HasRow(s.table, c)
      && forall k | 0 <= k < |run| :: WritesFor(HandlesOf(s.inFlight), run, k, c) ==>
           OpenSince(HandlesOf(s.inFlight), run, k, call)
  }

  predicate SomeWrite(open: map<nat, Handle>, run: seq<SplitEvent>, c: string) {
    exists k | 0 <= k < |run| :: WritesFor(open, run, k, c)
  }

  predicate RowExplained(s: SplitState, run: seq<SplitEvent>, c: string) {
    HasRow(SplitRun(s, run).table, c) <==> HasRow(s.table, c) || SomeWrite(HandlesOf(s.inFlight), run, c)
  }

  ghost predicate RowsExplained(s: SplitState, run: seq<SplitEvent>) {
    forall c :: RowExplained(s, run, c)
  }

  ghost predicate ReadsExplained(s: SplitState, run: seq<SplitEvent>) {
    forall call | call in SplitRun(s, run).inFlight :: ReadExplained(s, run, call)
  }

  /** An event that does not write for the client gives it no row. */
  lemma StepAddsNoRow(s: SplitState, e: SplitEvent, c: string)
    requires !HasRow(s.table, c)
    requires !(e.Write? && e.healthy && e.call in s.inFlight && s.inFlight[e.call].handle.clientId == c)
    ensures !HasRow(SplitStep(s, e).table, c)
  {
    var rows, after := s.table.rows, SplitStep(s, e).table.rows;
    StepKeepsRows(s, e);
    assert forall i | 0 <= i < |rows| :: rows[i].clientId != c;
    assert forall i | 0 <= i < |after| :: after[i].clientId != c;
  }

  /** A successful write leaves its client with a row, whatever its read had found. */
  lemma WriteGivesRow(s: SplitState, run: seq<SplitEvent>, e: SplitEvent)
    requires ReadsExplained(s, run)
    requires var now := SplitRun(s, run); e.Write? && e.healthy && e.call in now.inFlight
    ensures var now := SplitRun(s, run); HasRow(SplitStep(now, e).table, now.inFlight[e.call].handle.clientId)
  {
    var now := SplitRun(s, run);
    var p := now.inFlight[e.call];
    assert ReadExplained(s, run, e.call);
    if p.found.Some? {
      StepKeepsRow(now, e, p.handle.clientId);
    } else {
      assert SplitStep(now, e).table.rows[|now.table.rows|].clientId == p.handle.clientId;
    }
  }

  lemma SomeWriteStep(open: map<nat, Handle>, run: seq<SplitEvent>, n: nat, c: string)
    requires |run| == n + 1
    ensures SomeWrite(open, run, c) <==> SomeWrite(open, run[..n], c) || WritesFor(open, run, n, c)
  {
    WritesForPrefix(open, run, n, c);
    if SomeWrite(open, run[..n], c) {
      var k :| 0 <= k < n && WritesFor(open, run[..n], k, c);
      assert WritesFor(open, run, k, c);
    }
  }

  lemma WritesForNow(s: SplitState, run: seq<SplitEvent>, n: nat, c: string)
    requires n < |run|
    ensures var before := SplitRun(s, run[..n]);
            WritesFor(HandlesOf(s.inFlight), run, n, c) <==>
            run[n].Write? && run[n].healthy && run[n].call in before.inFlight
            && before.inFlight[run[n].call].handle.clientId == c
  {
    OpenIsInFlight(s, run[..n]);
  }

  lemma RowExplainedStep(s: SplitState, run: seq<SplitEvent>, n: nat, c: string)
    requires |run| == n + 1 && RowExplained(s, run[..n], c) && ReadsExplained(s, run[..n])
    ensures RowExplained(s, run, c)
  {
    var open, before := HandlesOf(s.inFlight), SplitRun(s, run[..n]);
    WritesForNow(s, run, n, c);
    SomeWriteStep(open, run, n, c);
    if WritesFor(open, run, n, c) {
      WriteGivesRow(s, run[..n], run[n]);
    } else if HasRow(before.table, c) {
      StepKeepsRow(before, run[n], c);
    } else {
      StepAddsNoRow(before, run[n], c);
    }
  }

  lemma OpenSinceStep(open: map<nat, Handle>, run: seq<SplitEvent>, n: nat, k: nat, call: nat)
    requires |run| == n + 1 && k <= n && OpenSince(open, run[..n], k, call)
    requires !(run[n].Write? && run[n].call == call)
    ensures OpenSince(open, run, k, call)
  {
    assert run[..n][..k] == run[..k];
    assert forall m | k <= m < n :: run[..n][m] == run[m];
  }

  lemma KeptReadExplained(s: SplitState, run: seq<SplitEvent>, n: nat, call: nat)
    requires |run| == n + 1 && call in SplitRun(s, run).inFlight
    requires call in SplitRun(s, run[..n]).inFlight && ReadExplained(s, run[..n], call)
    ensures ReadExplained(s, run, call)
  {
    var open, before := HandlesOf(s.inFlight), SplitRun(s, run[..n]);
    var c := before.inFlight[call].handle.clientId;
    assert SplitRun(s, run).inFlight[call] == before.inFlight[call];
    if before.inFlight[call].found.Some? {
      StepKeepsRow(before, run[n], c);
    } else {
      WritesForPrefix(open, run, n, c);
      OpenIsInFlight(s, run[..n]);
      forall k | 0 <= k < |run| && WritesFor(open, run, k, c) ensures OpenSince(open, run, k, call) {
        if k < n {
          assert WritesFor(open, run[..n], k, c);
          OpenSinceStep(open, run, n, k, call);
        }
      }
    }
  }

  lemma NewReadExplained(s: SplitState, run: seq<SplitEvent>, n: nat, call: nat)
    requires |run| == n + 1 && call in SplitRun(s, run).inFlight
    requires call !in SplitRun(s, run[..n]).inFlight && RowsExplained(s, run[..n])
    ensures ReadExplained(s, run, call)
  {
    var open, before, now := HandlesOf(s.inFlight), SplitRun(s, run[..n]), SplitRun(s, run);
    var c := now.inFlight[call].handle.clientId;
    assert now.table == before.table && now.inFlight[call].found == Lookup(before.table, c);
    assert RowExplained(s, run[..n], c);
    SomeWriteStep(open, run, n, c);
    WritesForNow(s, run, n, c);
    assert forall k | 0 <= k < |run| && WritesFor(open, run, k, c) :: SomeWrite(open, run, c);
  }

  /** Rows and reads told from the events alone. */
  lemma {:induction false} RunExplainsReads(s: SplitState, run: seq<SplitEvent>)
    requires ReadsCurrent(s)
    ensures RowsExplained(s, run) && ReadsExplained(s, run)
  {
    if run != [] {
      var n := |run| - 1;
      RunExplainsReads(s, run[..n]);
      forall c ensures RowExplained(s, run, c) {
        RowExplainedStep(s, run, n, c);
      }
      forall call | call in SplitRun(s, run).inFlight ensures ReadExplained(s, run, call) {
        if call in SplitRun(s, run[..n]).inFlight {
          KeptReadExplained(s, run, n, call);
        } else {
          NewReadExplained(s, run, n, call);
        }
      }
    }
  }

  lemma {:induction false} FirstWrite(open: map<nat, Handle>, run: seq<SplitEvent>, k: nat, c: string) returns (i: nat)
    requires k < |run| && WritesFor(open, run, k, c)
    ensures i <= k && WritesFor(open, run, i, c)
    ensures forall m | 0 <= m < i :: !WritesFor(open, run, m, c)
  {
    if m: nat :| m < k && WritesFor(open, run, m, c) {
      i := FirstWrite(open, run, m, c);
    } else {
      i := k;
    }
  }

  lemma StaleIsRace(s: SplitState, run: seq<SplitEvent>, j: nat) returns (i: nat, c: string)
    requires ReadsCurrent(s) && j < |run| && Stale(SplitRun(s, run[..j]), run[j])
    ensures Race(s.table, HandlesOf(s.inFlight), run, i, j, c)
  {
    var before, open := SplitRun(s, run[..j]), HandlesOf(s.inFlight);
    c := before.inFlight[run[j].call].handle.clientId;
    RunExplainsReads(s, run[..j]);
    OpenIsInFlight(s, run[..j]);
    WritesForPrefix(open, run, j, c);
    assert ReadExplained(s, run[..j], run[j].call);
    assert RowExplained(s, run[..j], c);
    var k :| 0 <= k < j && WritesFor(open, run[..j], k, c);
    i := FirstWrite(open, run, k, c);
    assert WritesFor(open, run[..j], i, c);
  }

  lemma StepKeepsPending(s: SplitState, e: SplitEvent, call: nat)
    requires call in s.inFlight && !(e.Write? && e.call == call)
    ensures call in SplitStep(s, e).inFlight && SplitStep(s, e).inFlight[call] == s.inFlight[call]
  {
  }

  lemma {:induction false} PendingStays(s: SplitState, run: seq<SplitEvent>, i: nat, call: nat)
    requires i <= |run| && OpenSince(HandlesOf(s.inFlight), run, i, call)
    ensures call in SplitRun(s, run[..i]).inFlight && call in SplitRun(s, run).inFlight
    ensures SplitRun(s, run).inFlight[call] == SplitRun(s, run[..i]).inFlight[call]
  {
    OpenIsInFlight(s, run[..i]);
    if i == |run| {
      assert run[..i] == run;
    } else {
      var n := |run| - 1;
      assert run[..n][..i] == run[..i];
      assert forall k | i <= k < n :: run[..n][k] == run[k];
      PendingStays(s, run[..n], i, call);
      StepKeepsPending(SplitRun(s, run[..n]), run[n], call);
    }
  }

  lemma RaceIsStale(s: SplitState, run: seq<SplitEvent>, i: nat, j: nat, c: string)
    requires ReadsCurrent(s) && Race(s.table, HandlesOf(s.inFlight), run, i, j, c)
    ensures Stale(SplitRun(s, run[..j]), run[j])
  {
    var open, call := HandlesOf(s.inFlight), run[j].call;
    assert run[..j][..i] == run[..i];
    PendingStays(s, run[..j], i, call);
    OpenIsInFlight(s, run[..j]);
    RunExplainsReads(s, run[..i]);
    RunExplainsReads(s, run[..j]);
    WritesForPrefix(open, run, i, c);
    WritesForPrefix(open, run, j, c);
    assert RowExplained(s, run[..i], c) && !SomeWrite(open, run[..i], c);
    assert ReadExplained(s, run[..i], call);
    assert WritesFor(open, run[..j], i, c);
    assert RowExplained(s, run[..j], c);
  }

  /** From a table with one row per client, any interleaving ends with one row per client exactly when no two calls
      of a client without a row overlap so that the one writes for it first and the other still writes later. */
  lemma UniqueUnlessRace(s: SplitState, run: seq<SplitEvent>)
    requires UniqueClients(s.table) && ReadsCurrent(s)
    ensures UniqueClients(SplitRun(s, run).table) <==>
            forall i: nat, j: nat, c :: !Race(s.table, HandlesOf(s.inFlight), run, i, j, c)
  {
    UniqueExactly(s, run);
    if !NoStaleWrite(s, run) {
      var j :| 0 <= j < |run| && StaleAt(s, run, j);
      var i, c := StaleIsRace(s, run, j);
    } else {
      forall i: nat, j: nat, c ensures !Race(s.table, HandlesOf(s.inFlight), run, i, j, c) {
        if Race(s.table, HandlesOf(s.inFlight), run, i, j, c) {
          RaceIsStale(s, run, i, j, c);
          assert StaleAt(s, run, j);
        }
      }
    }
  }

  // ---------- The protocol ----------

  /** The protocol rules stale writes out, so it keeps one row per client over every interleaving. */
  lemma DisciplineKeepsUnique(s: SplitState, run: seq<SplitEvent>)
    requires SplitInv(s) && DisciplinedRun(s, run) && UniqueClients(s.table)
    ensures UniqueClients(SplitRun(s, run).table)
  {
    forall i | 0 <= i < |run| ensures !StaleAt(s, run, i) {
      forall k | 0 <= k < i ensures Disciplined(SplitRun(s, run[..i][..k]), run[..i][k]) {
        assert run[..i][..k] == run[..k];
      }
      InterleavingLinearizes(s, run[..i]);
    }
    UniqueExactly(s, run);
  }

  /** Without it, two calls of one client that both read an empty table leave two rows. */
  lemma TwoCallsOfOneClient(c: string, session: Session)
    ensures var h, g := Handle(0, c), Handle(1, c);
            var empty := SplitState(Table([], 0), map[], map[], map[]);
            var run := [Read(0, h, session, true), Read(1, g, session, true), Write(0, true), Write(1, true)];
            && SplitInv(empty)
            && SplitRun(empty, run).table.rows ==
               [Row(0, c, CONNECTED, session, NEVER), Row(1, c, CONNECTED, session, NEVER)]
  {
    var h, g := Handle(0, c), Handle(1, c);
    var s0 := SplitState(Table([], 0), map[], map[], map[]);
    var run := [Read(0, h, session, true), Read(1, g, session, true), Write(0, true), Write(1, true)];
    var s1 := SplitStep(s0, run[0]);
    var s2 := SplitStep(s1, run[1]);
    var s3 := SplitStep(s2, run[2]);
    var s4 := SplitStep(s3, run[3]);
    assert run[..1] == [run[0]] && run[..1][..0] == [];
    assert run[..2][..1] == run[..1] && run[..3][..2] == run[..2] && run[..4] == run && run[..4][..3] == run[..3];
    assert SplitRun(s0, run[..1]) == s1;
    assert SplitRun(s0, run[..2]) == s2;
    assert SplitRun(s0, run[..3]) == s3;
    assert SplitRun(s0, run) == s4;
  }
}
