/** Settle convergence with everything else interleaved: the row may sit anywhere in its batch, and
    any step of any other actor may come between the cycle's read, its probes and its writes. */
module LifecycleSettling {
  import opened Machine
  import opened TipRows
  import opened Sweep
  import opened Lifecycle
  import opened LifecycleTheorems
  import opened LifecycleOutcomes

  predicate Queued(c: Cycle, id: TipId) {
    c.Busy? && exists i :: 0 <= i < |c.queue| && c.queue[i].terms.id == id
  }

  predicate AtHead(c: Cycle, id: TipId) {
    c.Busy? && c.queue != [] && c.queue[0].terms.id == id
  }

  /** The event is the cycle's write for this row. */
  predicate Writes(s: Sys, e: Event, id: TipId) {
    e.ConfirmWrite? && HasProbe(s.confirm) && AtHead(s.confirm, id)
  }

  /** The probe shows exactly these spends, in some order, with the winner at depth. */
  predicate ShowsDue(snap: Row, result: ProbeResult, seen: ProbeResult) {
    SameSpends(seen, result) && DueWinner(snap, result).Some?
  }

  /** The pass goes on: it is not ended, this row is not skipped, a probe of this row shows the fixed
      spends at depth, and the sender does not take the tip back. Everything else may happen. */
  predicate Undisturbed(s: Sys, e: Event, id: TipId, seen: ProbeResult)
    requires id in s.rows
  {
    && !e.ConfirmEnd?
    && (e.ConfirmSkip? ==> !AtHead(s.confirm, id))
    && e != Call(id, Clawback(s.rows[id].terms.sender))
    && (e.ConfirmProbe? && AtHead(s.confirm, id) && s.confirm.probe.None? ==>
          ShowsDue(s.confirm.queue[0], Probe(s.confirm.queue[0], e.answer), seen))
  }

  /** The run is undisturbed and ends with the cycle's write for this row, its first. */
  predicate ReachesRow(s: Sys, es: seq<Event>, id: TipId, seen: ProbeResult)
    decreases |es|
  {
    es != [] && id in s.rows
    && if |es| == 1 then Writes(s, es[0], id)
       else Undisturbed(s, es[0], id, seen) && !Writes(s, es[0], id) && ReachesRow(Step(s, es[0]), es[1..], id, seen)
  }

  /** The row waits in the cycle, still claiming, and a probe held for it shows the fixed spends. */
  predicate WaitsToSettle(s: Sys, id: TipId, seen: ProbeResult) {
    && id in s.rows && s.rows[id].status == Claiming
    && Queued(s.confirm, id)
    && (AtHead(s.confirm, id) && s.confirm.probe.Some? ==> ShowsDue(s.confirm.queue[0], s.confirm.probe.value, seen))
  }

  lemma StaysClaiming(s: Sys, e: Event, id: TipId)
    requires Inv(s) && id in s.rows && s.rows[id].status == Claiming
    requires !Writes(s, e, id) && e != Call(id, Clawback(s.rows[id].terms.sender))
    ensures id in Step(s, e).rows && Step(s, e).rows[id].status == Claiming
  {
    MoveIsDocumented(s, e, id);
    assert Step(s, e).rows[id] == RowAfter(s, e, id);
  }

  lemma StaysQueued(s: Sys, e: Event, id: TipId, seen: ProbeResult)
    requires id in s.rows && Queued(s.confirm, id) && Undisturbed(s, e, id, seen) && !Writes(s, e, id)
    requires AtHead(s.confirm, id) && s.confirm.probe.Some?
      ==> ShowsDue(s.confirm.queue[0], s.confirm.probe.value, seen)
    ensures var c := ConfirmAfter(s, e);
      && Queued(c, id)
      && (AtHead(c, id) && c.probe.Some? ==> ShowsDue(c.queue[0], c.probe.value, seen))
  {
    var i :| 0 <= i < |s.confirm.queue| && s.confirm.queue[i].terms.id == id;
    if (e.ConfirmWrite? && HasProbe(s.confirm)) || e.ConfirmSkip? {
      assert i > 0;
      assert s.confirm.queue[1..][i - 1].terms.id == id;
    }
  }

  /** The row is settled to the winner of these spends. */
  predicate SettledTo(s: Sys, id: TipId, seen: ProbeResult) {
    && ClaimedIn(s, id)
    && seen.ProbeOk? && PickWinner(seen.spends).Some?
    && s.rows[id].sweepTxid == Some(PickWinner(seen.spends).value.txid)
  }

  lemma WinnerIsWritten(s: Sys, e: Event, id: TipId, seen: ProbeResult)
    requires Inv(s) && WaitsToSettle(s, id, seen) && Writes(s, e, id)
    ensures SettledTo(Step(s, e), id, seen)
  {
    assert RowInv(s.rows[id]);
    WriteConfirm(s, id);
    WinnerIgnoresOrder(s.confirm.probe.value.spends, seen.spends);
  }

  lemma KeepsWaiting(s: Sys, e: Event, id: TipId, seen: ProbeResult)
    requires Inv(s) && WaitsToSettle(s, id, seen) && Undisturbed(s, e, id, seen) && !Writes(s, e, id)
    ensures Inv(Step(s, e)) && WaitsToSettle(Step(s, e), id, seen)
  {
    StaysClaiming(s, e, id);
    StaysQueued(s, e, id, seen);
    StepKeepsInv(s, e);
  }

  /** The run taken from its first event; used in the induction below. */
  function RunOn(s: Sys, es: seq<Event>): Sys
    decreases |es|
  {
    if es == [] then s else RunOn(Step(s, es[0]), es[1..])
  }

  lemma {:induction false} RunOnIsRun(s: Sys, es: seq<Event>)
    ensures RunOn(s, es) == Run(s, es)
    decreases |es|
  {
    if es != [] {
      RunOnIsRun(Step(s, es[0]), es[1..]);
      RunFirst(s, es[0], es[1..]);
      assert es == [es[0]] + es[1..];
    }
  }

  lemma {:induction false} ReachedRowSettlesOn(s: Sys, es: seq<Event>, id: TipId, seen: ProbeResult)
    requires Inv(s) && WaitsToSettle(s, id, seen) && ReachesRow(s, es, id, seen)
    ensures SettledTo(RunOn(s, es), id, seen)
    decreases |es|
  {
    if |es| == 1 {
      WinnerIsWritten(s, es[0], id, seen);
    } else {
      KeepsWaiting(s, es[0], id, seen);
      ReachedRowSettlesOn(Step(s, es[0]), es[1..], id, seen);
    }
  }

  /** Nothing but its own write settles the waiting row, and its write settles it to the winner. */
  lemma ReachedRowSettles(s: Sys, es: seq<Event>, id: TipId, seen: ProbeResult)
    requires Inv(s) && WaitsToSettle(s, id, seen) && ReachesRow(s, es, id, seen)
    ensures SettledTo(Run(s, es), id, seen)
  {
    ReachedRowSettlesOn(s, es, id, seen);
    RunOnIsRun(s, es);
  }

  /** A batch a confirm cycle may read now. */
  predicate MayBegin(s: Sys, ids: seq<TipId>) {
    && s.confirm.Idle? && 0 < |ids| <= BATCH_SIZE && Distinct(ids)
    && forall k :: 0 <= k < |ids| ==> ids[k] in s.rows && AwaitingSweep(s.rows[ids[k]], s.now)
  }

  lemma BeginBatch(s: Sys, ids: seq<TipId>, i: nat, seen: ProbeResult)
    requires Inv(s) && MayBegin(s, ids) && i < |ids|
    ensures Inv(Step(s, ConfirmBegin(ids))) && WaitsToSettle(Step(s, ConfirmBegin(ids)), ids[i], seen)
  {
    StepKeepsInv(s, ConfirmBegin(ids));
    NoWrites(s, ConfirmBegin(ids));
    assert Step(s, ConfirmBegin(ids)).confirm.queue[i].terms.id == ids[i];
  }

  lemma KeptWhileSeen(settled: Sys, id: TipId, seen: ProbeResult, later: seq<Event>)
    requires Inv(settled) && SettledTo(settled, id, seen) && ReorgSeesOnly(settled, later, id, seen)
    ensures KeepsSettlement(settled.rows[id], settled, later, id)
    ensures KeptIn(settled.rows[id], Run(settled, later), id)
  {
    SameSpendsNeverContradict(settled, later, id, seen, PickWinner(seen.spends).value);
    SettledStaysExactly(settled.rows[id], settled, later, id);
    KeptAtTheEnd(settled.rows[id], settled, later, id);
  }

  /** Settle convergence. Take any batch that a confirm cycle may read, and any claiming row in it. Let
      users, the other workers, the collector, the clock and the rest of the batch do anything between
      the cycle's steps, except that the sender does not take this tip back and the cycle gets to its
      write. If the probe of this row shows a fixed set of spends with the winner at depth, the row
      settles to the winner of that set. Nothing that happens later changes it while reorg checks fail
      or show the same spends, whatever order they list them in. */
  lemma SettleConverges(s: Sys, ids: seq<TipId>, i: nat, seen: ProbeResult, es: seq<Event>, later: seq<Event>)
    requires Inv(s) && MayBegin(s, ids) && i < |ids|
    requires ReachesRow(Step(s, ConfirmBegin(ids)), es, ids[i], seen)
    requires ReorgSeesOnly(Run(Step(s, ConfirmBegin(ids)), es), later, ids[i], seen)
    ensures var settled := Run(Step(s, ConfirmBegin(ids)), es);
      && SettledTo(settled, ids[i], seen)
      && KeepsSettlement(settled.rows[ids[i]], settled, later, ids[i])
      && KeptIn(settled.rows[ids[i]], Run(settled, later), ids[i])
  {
    var id, begun := ids[i], Step(s, ConfirmBegin(ids));
    BeginBatch(s, ids, i, seen);
    ReachedRowSettles(begun, es, id, seen);
    RunKeepsInv(begun, es);
    KeptWhileSeen(Run(begun, es), id, seen, later);
  }

  /** The clawback is the one thing that must not intervene: it ends the row at any moment of the pass. */
  lemma ClawbackIntervenes(s: Sys, id: TipId, es: seq<Event>)
    requires Inv(s) && id in s.rows && s.rows[id].status == Claiming
    ensures var gone := Step(s, Call(id, Clawback(s.rows[id].terms.sender)));
      id in Run(gone, es).rows && Run(gone, es).rows[id].status == ClawedBack
  {
    var call := Call(id, Clawback(s.rows[id].terms.sender));
    assert RowInv(s.rows[id]);
    StepKeepsInv(s, call);
    ClawedBackIsFinal(Step(s, call), es, id);
  }
}
