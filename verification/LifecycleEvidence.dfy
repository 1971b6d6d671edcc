/** What backs a settled and a verified row in every run: the read, the probe and the write of one
    worker, on one snapshot, in this order. */
module LifecycleEvidence {
  import opened Machine
  import opened Chain
  import opened TipRows
  import opened Sweep
  import opened Answers
  import Receipts
  import opened Lifecycle
  import opened LifecycleTheorems
  import Funding

  /** A prefix of a run has the states of the run. */
  lemma SameState(es: seq<Event>, n: nat, k: nat)
    requires k <= n <= |es|
    ensures StateAt(INIT, es[..n], k) == StateAt(INIT, es, k)
    ensures k < n ==> es[..n][k] == es[k]
  {
    assert es[..n][..k] == es[..k];
  }

  // ---------------------------------------------------------------- settlement

  /** The cycle starts here with this row, exactly as it is in the table. */
  predicate BeginsWith(s: Sys, e: Event, snap: Row) {
    var id := snap.terms.id;
    && e.ConfirmBegin? && s.confirm.Idle? && id in e.ids
    && id in s.rows && s.rows[id] == snap && AwaitingSweep(snap, s.now)
  }

  predicate BeginIn(es: seq<Event>, snap: Row, i: nat) {
    i < |es| && BeginsWith(StateAt(INIT, es, i), es[i], snap)
  }

  /** The cycle probes this snapshot, at the head of its queue, with no probe held. */
  predicate Probes(s: Sys, e: Event, snap: Row) {
    e.ConfirmProbe? && s.confirm.Busy? && s.confirm.queue != [] && s.confirm.queue[0] == snap && s.confirm.probe.None?
  }

  predicate ProbeIn(es: seq<Event>, snap: Row, j: nat) {
    j < |es| && Probes(StateAt(INIT, es, j), es[j], snap)
  }

  lemma BeginCarries(es: seq<Event>, n: nat, snap: Row, i: nat)
    requires n <= |es| && BeginIn(es[..n], snap, i)
    ensures BeginIn(es, snap, i)
  {
    SameState(es, n, i);
  }

  lemma ProbeCarries(es: seq<Event>, n: nat, snap: Row, j: nat)
    requires n <= |es| && ProbeIn(es[..n], snap, j)
    ensures ProbeIn(es, snap, j) && es[..n][j] == es[j]
  {
    SameState(es, n, j);
  }

  lemma QueueStep(s: Sys, e: Event, m: nat)
    requires RowsInv(s.rows) && ConfirmAfter(s, e).Busy? && m < |ConfirmAfter(s, e).queue|
    ensures var q := ConfirmAfter(s, e).queue;
      if s.confirm.Idle? then BeginsWith(s, e, q[m])
      else s.confirm.queue == q || (|s.confirm.queue| == |q| + 1 && s.confirm.queue[1..] == q)
  {
  }

  /** Every queued snapshot was read by the event that began the cycle. */
  lemma {:induction false} QueuedWasRead(es: seq<Event>, m: nat) returns (i: nat)
    requires Run(INIT, es).confirm.Busy? && m < |Run(INIT, es).confirm.queue|
    ensures BeginIn(es, Run(INIT, es).confirm.queue[m], i)
  {
    var n := |es| - 1;
    var c := Run(INIT, es[..n]).confirm;
    RunKeepsInv(INIT, es[..n]);
    QueueStep(Run(INIT, es[..n]), es[n], m);
    if c.Idle? {
      i := n;
    } else {
      var advanced := c.queue != Run(INIT, es).confirm.queue;
      i := QueuedWasRead(es[..n], if advanced then m + 1 else m);
      BeginCarries(es, n, Run(INIT, es).confirm.queue[m], i);
    }
  }

  /** A held probe was taken of the snapshot at the head, which was read before. */
  lemma {:induction false} HeldProbeWasTaken(es: seq<Event>) returns (i: nat, j: nat)
    requires HasProbe(Run(INIT, es).confirm)
    ensures i < j && BeginIn(es, Run(INIT, es).confirm.queue[0], i) && ProbeIn(es, Run(INIT, es).confirm.queue[0], j)
    ensures Run(INIT, es).confirm.probe == Some(Probe(Run(INIT, es).confirm.queue[0], es[j].answer))
  {
    var n, snap := |es| - 1, Run(INIT, es).confirm.queue[0];
    if es[n].ConfirmProbe? && Run(INIT, es[..n]).confirm.probe.None? {
      j := n;
      i := QueuedWasRead(es[..n], 0);
    } else {
      i, j := HeldProbeWasTaken(es[..n]);
      ProbeCarries(es, n, snap, j);
    }
    BeginCarries(es, n, snap, i);
  }

  /** The confirm write about to happen settles `row` with the due winner of its probe. */
  predicate SettlesAs(s: Sys, row: Row, answer: ChainAnswer) {
    && HasProbe(s.confirm)
    && var snap := s.confirm.queue[0];
    && snap.terms == row.terms
    && s.confirm.probe == Some(Probe(snap, answer))
    && var due := DueWinner(snap, Probe(snap, answer));
    && due.Some?
    && row.sweepTxid == Some(due.value.txid)
    && row.sweepBlockHeight == Some(I64AsI32(due.value.blockHeight))
    && row.sweepBlockHash == due.value.blockHash
  }

  /** Event `k` writes, with the answer of event `j`, the snapshot read at event `i`. */
  predicate SettleEvents(es: seq<Event>, row: Row, i: nat, j: nat, k: nat) {
    && i < j < k < |es|
    && es[j].ConfirmProbe? && es[k].ConfirmWrite?
    && SettlesAs(StateAt(INIT, es, k), row, es[j].answer)
    && BeginIn(es, StateAt(INIT, es, k).confirm.queue[0], i)
    && ProbeIn(es, StateAt(INIT, es, k).confirm.queue[0], j)
  }

  /** Those events settled row `id` for good: it has been claimed ever since. */
  predicate SettledBy(es: seq<Event>, id: TipId, i: nat, j: nat, k: nat) {
    && id in Run(INIT, es).rows
    && SettleEvents(es, Run(INIT, es).rows[id], i, j, k)
    && ClaimedSince(es, id, k)
  }

  /** The row is claimed after event `k` and after every later event. */
  predicate ClaimedSince(es: seq<Event>, id: TipId, k: nat)
    requires k < |es|
  {
    ClaimedIn(Run(INIT, es), id) && (k + 1 == |es| || ClaimedSince(es[..|es| - 1], id, k))
  }

  lemma SettleStepEvidence(s: Sys, e: Event, id: TipId)
    requires Inv(s) && id in s.rows && s.rows[id].status != Claimed && RowAfter(s, e, id).status == Claimed
    ensures e.ConfirmWrite? && HasProbe(s.confirm)
    ensures forall answer ::
      s.confirm.probe == Some(Probe(s.confirm.queue[0], answer)) ==> SettlesAs(s, RowAfter(s, e, id), answer)
  {
    MoveIsDocumented(s, e, id);
    assert Current(s.rows, s.confirm.queue[0]);
  }

  /** The evidence speaks only of terms, sweep and height. */
  lemma SameEvidence(s: Sys, row: Row, row': Row, answer: ChainAnswer)
    requires SettlesAs(s, row, answer) && SameSettlement(row, row')
    ensures SettlesAs(s, row', answer)
  {
  }

  lemma SettleEventsCarry(es: seq<Event>, n: nat, row: Row, row': Row, i: nat, j: nat, k: nat)
    requires n <= |es| && SettleEvents(es[..n], row, i, j, k) && SameSettlement(row, row')
    ensures SettleEvents(es, row', i, j, k)
  {
    SameState(es, n, k);
    var snap := StateAt(INIT, es, k).confirm.queue[0];
    BeginCarries(es, n, snap, i);
    ProbeCarries(es, n, snap, j);
    SameEvidence(StateAt(INIT, es, k), row, row', es[j].answer);
  }

  lemma SettleEventsHappen(es: seq<Event>, id: TipId) returns (i: nat, j: nat)
    requires es != [] && ClaimedIn(Run(INIT, es), id) && !ClaimedIn(Run(INIT, es[..|es| - 1]), id)
    ensures SettleEvents(es, Run(INIT, es).rows[id], i, j, |es| - 1)
  {
    var n := |es| - 1;
    var s := Run(INIT, es[..n]);
    RunKeepsInv(INIT, es[..n]);
    assert id in s.rows;
    SettleStepEvidence(s, es[n], id);
    i, j := HeldProbeWasTaken(es[..n]);
    BeginCarries(es, n, s.confirm.queue[0], i);
    ProbeCarries(es, n, s.confirm.queue[0], j);
  }

  /** In every run, a claimed row was settled by one confirm cycle: it read the row as awaiting its
      sweep, probed that snapshot successfully, and wrote the canonical winner past the depth gate,
      which is the recorded sweep; and the row has been claimed ever since. */
  lemma {:induction false} ClaimedHasEvidence(es: seq<Event>, id: TipId) returns (i: nat, j: nat, k: nat)
    requires ClaimedIn(Run(INIT, es), id)
    ensures SettledBy(es, id, i, j, k)
  {
    var n := |es| - 1;
    var s := Run(INIT, es[..n]);
    if ClaimedIn(s, id) {
      RunKeepsInv(INIT, es[..n]);
      SettledStep(s, es[n], id);
      i, j, k := ClaimedHasEvidence(es[..n], id);
      SettleEventsCarry(es, n, s.rows[id], Run(INIT, es).rows[id], i, j, k);
    } else {
      i, j := SettleEventsHappen(es, id);
      k := n;
    }
  }

  /** The answer that settled the row shows the recorded sweep, no earlier spend, and a tip at the asset's
      depth (or two or more blocks below the sweep); the row keeps that spend's height in 32 bits. */
  lemma SettledAtDepth(es: seq<Event>, id: TipId) returns (i: nat, j: nat, k: nat, height: int)
    requires ClaimedIn(Run(INIT, es), id)
    ensures SettledBy(es, id, i, j, k)
    ensures var row := Run(INIT, es).rows[id];
      && row.sweepTxid.Some? && row.sweepBlockHash.None? && row.sweepBlockHeight == Some(I64AsI32(height))
      && BacksSweep(StateAt(INIT, es, k).confirm.queue[0], es[j].answer, row.sweepTxid.value, height)
  {
    i, j, k := ClaimedHasEvidence(es, id);
    var snap := StateAt(INIT, es, k).confirm.queue[0];
    height := DueWinner(snap, Probe(snap, es[j].answer)).value.blockHeight;
    DueWinnerIsBacked(snap, es[j].answer);
  }

  // ---------------------------------------------------------------- reverts

  /** The reorg cycle starts here with this row, exactly as it is in the table. */
  predicate ReorgBeginsWith(s: Sys, e: Event, snap: Row) {
    var id := snap.terms.id;
    && e.ReorgBegin? && s.reorg.Idle? && id in e.ids
    && id in s.rows && s.rows[id] == snap && AwaitingReorgCheck(snap, s.now)
  }

  predicate ReorgBeginIn(es: seq<Event>, snap: Row, i: nat) {
    i < |es| && ReorgBeginsWith(StateAt(INIT, es, i), es[i], snap)
  }

  lemma ReorgQueueStep(s: Sys, e: Event, m: nat)
    requires RowsInv(s.rows) && ReorgAfter(s, e).Busy? && m < |ReorgAfter(s, e).queue|
    ensures var q := ReorgAfter(s, e).queue;
      if s.reorg.Idle? then ReorgBeginsWith(s, e, q[m])
      else s.reorg.queue == q || (|s.reorg.queue| == |q| + 1 && s.reorg.queue[1..] == q)
  {
  }

  /** The reorg cycle probes this snapshot, at the head of its queue, with no probe held. */
  predicate ReorgProbeIn(es: seq<Event>, snap: Row, j: nat) {
    && j < |es|
    && var c := StateAt(INIT, es, j).reorg;
    && es[j].ReorgProbe? && c.Busy? && c.queue != [] && c.queue[0] == snap && c.probe.None?
  }

  lemma ReorgBeginCarries(es: seq<Event>, n: nat, snap: Row, i: nat)
    requires n <= |es| && ReorgBeginIn(es[..n], snap, i)
    ensures ReorgBeginIn(es, snap, i)
  {
    SameState(es, n, i);
  }

  lemma ReorgProbeCarries(es: seq<Event>, n: nat, snap: Row, j: nat)
    requires n <= |es| && ReorgProbeIn(es[..n], snap, j)
    ensures ReorgProbeIn(es, snap, j) && es[..n][j] == es[j]
  {
    SameState(es, n, j);
  }

  lemma {:induction false} ReorgQueuedWasRead(es: seq<Event>, m: nat) returns (i: nat)
    requires Run(INIT, es).reorg.Busy? && m < |Run(INIT, es).reorg.queue|
    ensures ReorgBeginIn(es, Run(INIT, es).reorg.queue[m], i)
  {
    var n := |es| - 1;
    var c := Run(INIT, es[..n]).reorg;
    RunKeepsInv(INIT, es[..n]);
    ReorgQueueStep(Run(INIT, es[..n]), es[n], m);
    if c.Idle? {
      i := n;
    } else {
      var advanced := c.queue != Run(INIT, es).reorg.queue;
      i := ReorgQueuedWasRead(es[..n], if advanced then m + 1 else m);
      ReorgBeginCarries(es, n, Run(INIT, es).reorg.queue[m], i);
    }
  }

  lemma {:induction false} HeldReorgProbeWasTaken(es: seq<Event>) returns (i: nat, j: nat)
    requires HasProbe(Run(INIT, es).reorg)
    ensures i < j && ReorgBeginIn(es, Run(INIT, es).reorg.queue[0], i)
    ensures ReorgProbeIn(es, Run(INIT, es).reorg.queue[0], j)
    ensures Run(INIT, es).reorg.probe == Some(Probe(Run(INIT, es).reorg.queue[0], es[j].answer))
  {
    var n, snap := |es| - 1, Run(INIT, es).reorg.queue[0];
    if es[n].ReorgProbe? && Run(INIT, es[..n]).reorg.probe.None? {
      j := n;
      i := ReorgQueuedWasRead(es[..n], 0);
    } else {
      i, j := HeldReorgProbeWasTaken(es[..n]);
      ReorgProbeCarries(es, n, snap, j);
    }
    ReorgBeginCarries(es, n, snap, i);
  }

  /** In every run, a settled row leaves `Claimed` only at a reorg write whose cycle read the row as settled
      by its present sweep and probed it with a usable answer that shows no spend by that sweep. */
  lemma RevertHasEvidence(es: seq<Event>, k: nat, id: TipId) returns (snap: Row, i: nat, j: nat)
    requires k < |es| && id in StateAt(INIT, es, k).rows && id in StateAt(INIT, es, k + 1).rows
    requires StateAt(INIT, es, k).rows[id].status == Claimed
    requires StateAt(INIT, es, k + 1).rows[id].status != Claimed
    ensures i < j < k && es[j].ReorgProbe? && es[k].ReorgWrite?
    ensures ReorgBeginIn(es, snap, i) && ReorgProbeIn(es, snap, j)
    ensures var row := StateAt(INIT, es, k).rows[id];
      && snap.terms == row.terms && snap.sweepTxid == row.sweepTxid
      && row.sweepTxid.Some? && LostSweep(snap, es[j].answer, row.sweepTxid.value)
  {
    RevertIsJustified(es, k, id);
    StateStep(INIT, es, k);
    var s := StateAt(INIT, es, k);
    snap := s.reorg.queue[0];
    assert StillSettled(s.rows, snap);
    i, j := HeldReorgProbeWasTaken(es[..k]);
    ReorgBeginCarries(es, k, snap, i);
    ReorgProbeCarries(es, k, snap, j);
    LostSweepExactly(snap, es[j].answer, snap.sweepTxid.value);
  }

  // ---------------------------------------------------------------- verification

  /** Worker `w` starts here on this row, exactly as it is in the table. */
  predicate Reads(s: Sys, e: Event, w: WorkerId, snap: Row) {
    var id := snap.terms.id;
    && e == FundingRead(w, id) && w !in s.funding
    && id in s.rows && s.rows[id] == snap && AwaitingVerification(snap, s.now)
  }

  predicate ReadIn(es: seq<Event>, w: WorkerId, snap: Row, i: nat) {
    i < |es| && Reads(StateAt(INIT, es, i), es[i], w, snap)
  }

  /** Worker `w` probes the snapshot it holds. */
  predicate ProbesFor(s: Sys, e: Event, w: WorkerId, snap: Row) {
    e.FundingProbe? && e.worker == w && w in s.funding && s.funding[w] == FundingTask(snap, None)
  }

  predicate FundingProbeIn(es: seq<Event>, w: WorkerId, snap: Row, j: nat) {
    j < |es| && ProbesFor(StateAt(INIT, es, j), es[j], w, snap)
  }

  /** Worker `w` writes the verdict of this answer on its snapshot, and the row still awaits it. */
  predicate WritesVerdict(s: Sys, e: Event, w: WorkerId, snap: Row, answer: ChainAnswer) {
    var id := snap.terms.id;
    && e == FundingWrite(w) && w in s.funding && s.funding[w] == FundingTask(snap, FundingVerdict(snap, answer))
    && id in s.rows && s.rows[id].status == PendingConfirmation
  }

  /** The answer covers the declared amount, and the row records what it showed. */
  predicate VerdictOn(snap: Row, row: Row, answer: ChainAnswer) {
    && snap.terms == row.terms
    && var verdict := FundingVerdict(snap, answer);
    && verdict.Some? && verdict.value.Verified?
    && verdict.value.observed >= row.terms.amount
    && row.observed == Some(U64ToI64Saturating(verdict.value.observed))
  }

  /** One worker read the row when it was confirmed deeply enough and unverified, probed that very
      snapshot, and wrote the verdict that made the row pending. */
  predicate VerifiedBy(es: seq<Event>, row: Row, snap: Row, i: nat, j: nat, k: nat) {
    && i < j < k < |es| && es[j].FundingProbe? && es[k].FundingWrite?
    && ReadIn(es, es[k].worker, snap, i)
    && FundingProbeIn(es, es[k].worker, snap, j)
    && WritesVerdict(StateAt(INIT, es, k), es[k], es[k].worker, snap, es[j].answer)
    && VerdictOn(snap, row, es[j].answer)
    && snap.confirmations >= row.terms.required
  }

  lemma ReadCarries(es: seq<Event>, n: nat, w: WorkerId, snap: Row, i: nat)
    requires n <= |es| && ReadIn(es[..n], w, snap, i)
    ensures ReadIn(es, w, snap, i)
  {
    SameState(es, n, i);
  }

  lemma FundingProbeCarries(es: seq<Event>, n: nat, w: WorkerId, snap: Row, j: nat)
    requires n <= |es| && FundingProbeIn(es[..n], w, snap, j)
    ensures FundingProbeIn(es, w, snap, j) && es[..n][j] == es[j]
  {
    SameState(es, n, j);
  }

  /** A task is new only when its worker reads; until then its snapshot stays. */
  lemma TaskStep(s: Sys, e: Event, w: WorkerId)
    requires RowsInv(s.rows) && w in FundingAfter(s, e)
    ensures if w in s.funding then FundingAfter(s, e)[w].snap == s.funding[w].snap
      else Reads(s, e, w, FundingAfter(s, e)[w].snap)
  {
  }

  lemma {:induction false} HeldTaskWasRead(es: seq<Event>, w: WorkerId) returns (i: nat)
    requires w in Run(INIT, es).funding
    ensures ReadIn(es, w, Run(INIT, es).funding[w].snap, i)
  {
    var n := |es| - 1;
    RunKeepsInv(INIT, es[..n]);
    TaskStep(Run(INIT, es[..n]), es[n], w);
    if w in Run(INIT, es[..n]).funding {
      i := HeldTaskWasRead(es[..n], w);
      ReadCarries(es, n, w, Run(INIT, es).funding[w].snap, i);
    } else {
      i := n;
    }
  }

  lemma {:induction false} HeldVerdictWasTaken(es: seq<Event>, w: WorkerId) returns (i: nat, j: nat)
    requires w in Run(INIT, es).funding && Run(INIT, es).funding[w].verdict.Some?
    ensures i < j && ReadIn(es, w, Run(INIT, es).funding[w].snap, i)
    ensures FundingProbeIn(es, w, Run(INIT, es).funding[w].snap, j)
    ensures Run(INIT, es).funding[w].verdict == FundingVerdict(Run(INIT, es).funding[w].snap, es[j].answer)
  {
    var n, task := |es| - 1, Run(INIT, es).funding[w];
    var before := Run(INIT, es[..n]).funding;
    if w in before && before[w] == task {
      i, j := HeldVerdictWasTaken(es[..n], w);
      FundingProbeCarries(es, n, w, task.snap, j);
    } else {
      i := HeldTaskWasRead(es[..n], w);
      j := n;
    }
    ReadCarries(es, n, w, task.snap, i);
  }

  predicate Fundable(status: Status) {
    status in {Pending, Claiming, Claimed}
  }

  predicate FundableIn(s: Sys, id: TipId) {
    id in s.rows && Fundable(s.rows[id].status)
  }

  /** Only the verifier's write makes a row fundable, and later updates keep what it recorded. */
  lemma FundableMoves(u: Update, r: Row, now: nat)
    requires RowInv(r)
    ensures var r' := Apply(u, r, now);
      && r'.terms == r.terms
      && (Fundable(r'.status) ==>
            if Fundable(r.status) then r'.observed == r.observed
            else u.MarkVerified? && r.status == PendingConfirmation && r'.observed == Some(u.observed))
  {
  }

  lemma StaysFundable(s: Sys, e: Event, id: TipId)
    requires Inv(s) && FundableIn(s, id) && Fundable(RowAfter(s, e, id).status)
    ensures RowAfter(s, e, id).observed == s.rows[id].observed && RowAfter(s, e, id).terms == s.rows[id].terms
  {
    assert RowInv(s.rows[id]);
    if UpdateFor(s, e, id).Some? {
      FundableMoves(UpdateFor(s, e, id).value, s.rows[id], s.now);
    }
  }

  lemma BecomesFundable(s: Sys, e: Event, id: TipId)
    requires Inv(s) && id in s.rows && !Fundable(s.rows[id].status) && Fundable(RowAfter(s, e, id).status)
    ensures e.FundingWrite? && e.worker in s.funding && s.funding[e.worker].verdict.Some?
    ensures s.funding[e.worker].snap.terms.id == id
    ensures forall answer :: s.funding[e.worker].verdict == FundingVerdict(s.funding[e.worker].snap, answer) ==>
      && WritesVerdict(s, e, e.worker, s.funding[e.worker].snap, answer)
      && VerdictOn(s.funding[e.worker].snap, RowAfter(s, e, id), answer)
  {
    assert RowInv(s.rows[id]);
    FundableMoves(UpdateFor(s, e, id).value, s.rows[id], s.now);
    UpdatesHaveIssuers(s, e, id);
    assert FundingInv(s.rows, s.funding[e.worker]);
  }

  lemma VerifyEventsHappen(es: seq<Event>, id: TipId) returns (snap: Row, i: nat, j: nat)
    requires es != [] && FundableIn(Run(INIT, es), id) && !FundableIn(Run(INIT, es[..|es| - 1]), id)
    ensures VerifiedBy(es, Run(INIT, es).rows[id], snap, i, j, |es| - 1)
  {
    var n := |es| - 1;
    var s := Run(INIT, es[..n]);
    RunKeepsInv(INIT, es[..n]);
    assert id in s.rows;
    BecomesFundable(s, es[n], id);
    snap := s.funding[es[n].worker].snap;
    i, j := HeldVerdictWasTaken(es[..n], es[n].worker);
    ReadCarries(es, n, es[n].worker, snap, i);
    FundingProbeCarries(es, n, es[n].worker, snap, j);
  }

  lemma VerifiedCarries(es: seq<Event>, n: nat, row: Row, row': Row, snap: Row, i: nat, j: nat, k: nat)
    requires n <= |es| && VerifiedBy(es[..n], row, snap, i, j, k)
    requires row'.terms == row.terms && row'.observed == row.observed
    ensures VerifiedBy(es, row', snap, i, j, k)
  {
    SameState(es, n, k);
    ReadCarries(es, n, es[k].worker, snap, i);
    FundingProbeCarries(es, n, es[k].worker, snap, j);
  }

  lemma {:induction false} FundableHasEvents(es: seq<Event>, id: TipId) returns (snap: Row, i: nat, j: nat, k: nat)
    requires FundableIn(Run(INIT, es), id)
    ensures VerifiedBy(es, Run(INIT, es).rows[id], snap, i, j, k)
  {
    var n := |es| - 1;
    var s := Run(INIT, es[..n]);
    if FundableIn(s, id) {
      RunKeepsInv(INIT, es[..n]);
      StaysFundable(s, es[n], id);
      snap, i, j, k := FundableHasEvents(es[..n], id);
      VerifiedCarries(es, n, s.rows[id], Run(INIT, es).rows[id], snap, i, j, k);
    } else {
      snap, i, j := VerifyEventsHappen(es, id);
      k := n;
    }
  }

  /** In every run, a row that is pending, claiming or claimed was verified by one worker: it read the
      row with its required confirmations and still unverified, probed that very snapshot, and its write
      turned the row from pending confirmation to pending. The answer it probed with proves `observed`, at
      least the declared amount: for grin the commitment is in the output set, otherwise the confirmed
      receipts exceed the sends by that much. The row still records it, capped at 63 bits. */
  lemma ClaimableWasVerified(es: seq<Event>, id: TipId) returns (snap: Row, i: nat, j: nat, k: nat, observed: nat)
    requires FundableIn(Run(INIT, es), id)
    ensures VerifiedBy(es, Run(INIT, es).rows[id], snap, i, j, k)
    ensures Receipts.CallsFor(snap, es[j].answer, Funding.Verified(observed))
    ensures var row := Run(INIT, es).rows[id];
      && observed >= row.terms.amount
      && row.observed == Some(if observed <= 0x7fff_ffff_ffff_ffff then observed else 0x7fff_ffff_ffff_ffff)
  {
    snap, i, j, k := FundableHasEvents(es, id);
    observed := FundingVerdict(snap, es[j].answer).value.observed;
    Receipts.FundingVerdictExactly(snap, es[j].answer, Funding.Verified(observed));
  }
}
