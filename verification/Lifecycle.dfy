/** The whole tip system as a state machine: user calls, the funding workers, the confirm and reorg
    cycles, garbage collection and the clock, interleaved freely. Every worker's read, probe and
    guarded write are separate steps, and the chain may answer any probe with anything. */
module Lifecycle {
  import opened Machine
  import opened Chain
  import opened TipRows
  import opened Sweep
  import Funding

  type WorkerId = nat

  /** A cycle that must hold its advisory lock: at most one runs, over the rows it read at its start. */
  datatype Cycle = Idle | Busy(queue: seq<Row>, probe: Option<ProbeResult>)

  /** One funding worker (these take no lock) between its read and its write. */
  datatype FundingTask = FundingTask(snap: Row, verdict: Option<Funding.Verdict>)

  datatype Sys = Sys(
    rows: map<TipId, Row>,
    now: nat,
    confirm: Cycle,
    reorg: Cycle,
    funding: map<WorkerId, FundingTask>)

  const INIT := Sys(map[], 0, Idle, Idle, map[])

  datatype Event =
    | Create(terms: Terms, fundingTxid: Option<string>)
    | Call(id: TipId, update: Update)
    | Count(id: TipId, count: int)
    | Stamp(id: TipId, reorgStamp: bool)
    | GcDrafts
    | GcStuckPending
    | FundingRead(worker: WorkerId, id: TipId)
    | FundingProbe(worker: WorkerId, answer: ChainAnswer)
    | FundingWrite(worker: WorkerId)
    | FundingDrop(worker: WorkerId)
    | ConfirmBegin(ids: seq<TipId>)
    | ConfirmProbe(answer: ChainAnswer)
    | ConfirmWrite
    | ConfirmSkip
    | ConfirmEnd
    | ReorgBegin(ids: seq<TipId>)
    | ReorgProbe(answer: ChainAnswer)
    | ReorgWrite
    | ReorgSkip
    | ReorgEnd
    | Tick(seconds: nat)

  // ---------------------------------------------------------------- transitions

  predicate HasProbe(c: Cycle) {
    c.Busy? && c.queue != [] && c.probe.Some?
  }

  /** The guarded update this event issues at row `id`, if any. An event that is not enabled issues none. */
  function UpdateFor(s: Sys, e: Event, id: TipId): Option<Update> {
    match e
    case Call(i, u) => if i == id && ValidCall(u) then Some(u) else None
    case Count(i, n) => if i == id then Some(UpdateConfirmations(n)) else None
    case Stamp(i, reorgStamp) =>
      if i != id then None else if reorgStamp then Some(StampReorgNotified) else Some(StampSweepNotified)
    case GcDrafts => Some(CancelOldDraft)
    case GcStuckPending => Some(CancelStuckPending)
    case FundingWrite(w) =>
      if w in s.funding && s.funding[w].verdict.Some? && s.funding[w].snap.terms.id == id
      then Some(DecideFunding(s.funding[w].verdict.value)) else None
    case ConfirmWrite =>
      if HasProbe(s.confirm) && s.confirm.queue[0].terms.id == id
      then Some(DecideSettle(s.confirm.queue[0], s.confirm.probe.value)) else None
    case ReorgWrite =>
      if HasProbe(s.reorg) && s.reorg.queue[0].terms.id == id
      then Some(DecideReorg(s.reorg.queue[0], s.reorg.probe.value)) else None
    case _ => None
  }

  /** Row `id` after the event, given that it existed before. */
  function RowAfter(s: Sys, e: Event, id: TipId): Row
    requires id in s.rows
  {
    var u := UpdateFor(s, e, id);
    if u.None? then s.rows[id] else Apply(u.value, s.rows[id], s.now)
  }

  predicate Creates(s: Sys, e: Event) {
    e.Create? && e.terms.id !in s.rows && Creatable(e.terms, e.fundingTxid, s.now)
  }

  function RowsAfter(s: Sys, e: Event): map<TipId, Row> {
    (map id | id in s.rows :: RowAfter(s, e, id))
    + (if Creates(s, e) then map[e.terms.id := NewRow(e.terms, e.fundingTxid)] else map[])
  }

  predicate Distinct(ids: seq<TipId>) {
    forall i, j :: 0 <= i < j < |ids| ==> ids[i] != ids[j]
  }

  function Begin(c: Cycle, rows: map<TipId, Row>, ids: seq<TipId>, due: Row -> bool): Cycle {
    if c.Idle? && 0 < |ids| <= BATCH_SIZE && Distinct(ids)
       && forall i :: 0 <= i < |ids| ==> ids[i] in rows && due(rows[ids[i]])
    then Busy(seq(|ids|, i requires 0 <= i < |ids| && ids[i] in rows => rows[ids[i]]), None)
    else c
  }

  /** Done with the head of the queue. */
  function Advance(c: Cycle): Cycle {
    if c.Busy? && c.queue != [] then Busy(c.queue[1..], None) else c
  }

  function WithProbe(c: Cycle, answer: ChainAnswer): Cycle {
    if c.Busy? && c.queue != [] && c.probe.None? then c.(probe := Some(Probe(c.queue[0], answer))) else c
  }

  function ConfirmAfter(s: Sys, e: Event): Cycle {
    match e
    case ConfirmBegin(ids) => Begin(s.confirm, s.rows, ids, (r: Row) => AwaitingSweep(r, s.now))
    case ConfirmProbe(answer) => WithProbe(s.confirm, answer)
    case ConfirmWrite => if HasProbe(s.confirm) then Advance(s.confirm) else s.confirm
    case ConfirmSkip => Advance(s.confirm)
    case ConfirmEnd => Idle
    case _ => s.confirm
  }

  function ReorgAfter(s: Sys, e: Event): Cycle {
    match e
    case ReorgBegin(ids) => Begin(s.reorg, s.rows, ids, (r: Row) => AwaitingReorgCheck(r, s.now))
    case ReorgProbe(answer) => WithProbe(s.reorg, answer)
    case ReorgWrite => if HasProbe(s.reorg) then Advance(s.reorg) else s.reorg
    case ReorgSkip => Advance(s.reorg)
    case ReorgEnd => Idle
    case _ => s.reorg
  }

  function FundingAfter(s: Sys, e: Event): map<WorkerId, FundingTask> {
    match e
    case FundingRead(w, id) =>
      if w !in s.funding && id in s.rows && AwaitingVerification(s.rows[id], s.now)
      then s.funding[w := FundingTask(s.rows[id], None)] else s.funding
    case FundingProbe(w, answer) =>
      if w in s.funding && s.funding[w].verdict.None?
      then s.funding[w := s.funding[w].(verdict := FundingVerdict(s.funding[w].snap, answer))] else s.funding
    case FundingWrite(w) => if w in s.funding && s.funding[w].verdict.Some? then s.funding - {w} else s.funding
    case FundingDrop(w) => s.funding - {w}
    case _ => s.funding
  }

  function Step(s: Sys, e: Event): Sys {
    Sys(RowsAfter(s, e), if e.Tick? then s.now + e.seconds else s.now,
        ConfirmAfter(s, e), ReorgAfter(s, e), FundingAfter(s, e))
  }

  function Run(s: Sys, es: seq<Event>): Sys {
    if es == [] then s else Step(Run(s, es[..|es| - 1]), es[|es| - 1])
  }

  /** The state just before event `k`. */
  function StateAt(s: Sys, es: seq<Event>, k: nat): Sys
    requires k <= |es|
  {
    Run(s, es[..k])
  }

  // ---------------------------------------------------------------- the invariant

  /** Facts about one row that every update keeps. */
  predicate RowInv(r: Row) {
    && 0 < r.terms.amount <= I64_MAX
    && (r.sweepConfirmedAt.Some? <==> r.status == Claimed)
    && (r.sweepBlockHeight.Some? <==> r.status == Claimed)
    && (r.status == Claimed ==> r.sweepTxid.Some?)
    && (r.status in {Pending, Claiming, Claimed, FundingMismatch} ==> Probeable(r.terms))
    && (r.clawedBackAt.Some? <==> r.status == ClawedBack)
    && (r.status == Draft ==> r.fundingTxid.None?)
    && (r.status !in {Draft, Cancelled, ClawedBack} ==> r.fundingTxid.Some?)
    && (r.status in {Draft, PendingConfirmation, Cancelled} ==> !r.amountVerified && r.observed.None?)
    && (r.status in {Pending, Claiming, Claimed} ==>
          r.amountVerified && r.observed.Some? && r.observed.value >= r.terms.amount)
    && (r.status == FundingMismatch ==>
          r.amountVerified && r.observed.Some? && 0 < r.observed.value < r.terms.amount)
    && (r.status in {Claiming, Claimed} ==> r.claimedAt.Some?)
    && (r.sweepTxid.Some? ==> r.status in {Claiming, Claimed, ClawedBack})
    && (r.terms.asset == Grin && !r.terms.isPublic ==> r.sweepTxid.None?)
    && (r.terms.asset == Grin ==> r.sweepTxid != Some(""))
  }

  /** What a worker must have established before it may issue this update on this row. */
  predicate Sound(u: Update, r: Row) {
    match u
    case RecordSweep(_, txid) => txid != ""
    case MarkVerified(observed) => Probeable(r.terms) && observed >= r.terms.amount
    case MarkMismatch(observed) => Probeable(r.terms) && 0 < observed < r.terms.amount
    case SettleKeepingClaimer(txid, _, _) => r.sweepTxid == Some(txid)
    case SettleClearingClaimer(txid, _, _) => r.terms.asset != Grin
    case _ => true
  }

  lemma ApplyKeepsRowInv(u: Update, r: Row, now: nat)
    requires RowInv(r) && Sound(u, r)
    ensures RowInv(Apply(u, r, now))
    ensures Apply(u, r, now).terms == r.terms
  {
  }

  /** A snapshot still describes its row: same terms, and a recorded sweep has not been replaced. */
  predicate Current(rows: map<TipId, Row>, snap: Row) {
    var id := snap.terms.id;
    && id in rows
    && rows[id].terms == snap.terms
    && (snap.sweepTxid.Some? ==> rows[id].sweepTxid == snap.sweepTxid)
  }

  predicate DistinctRows(queue: seq<Row>) {
    forall i, j :: 0 <= i < j < |queue| ==> queue[i].terms.id != queue[j].terms.id
  }

  predicate ProbeInv(c: Cycle) {
    c.Busy? && c.probe.Some? ==> c.queue != [] && ProbeFits(c.queue[0], c.probe.value)
  }

  predicate ConfirmInv(rows: map<TipId, Row>, c: Cycle) {
    && ProbeInv(c)
    && (c.Busy? ==> DistinctRows(c.queue) && forall i :: 0 <= i < |c.queue| ==> Current(rows, c.queue[i]))
  }

  predicate StillSettled(rows: map<TipId, Row>, snap: Row) {
    Current(rows, snap) && rows[snap.terms.id].status == Claimed && snap.sweepTxid.Some?
  }

  /** Every row still queued for a reorg check is still settled with the sweep the cycle read. */
  predicate ReorgInv(rows: map<TipId, Row>, c: Cycle) {
    && ProbeInv(c)
    && (c.Busy? ==> DistinctRows(c.queue) && forall i :: 0 <= i < |c.queue| ==> StillSettled(rows, c.queue[i]))
  }

  predicate VerdictFits(snap: Row, verdict: Funding.Verdict) {
    && (verdict.Verified? ==> Probeable(snap.terms) && verdict.observed >= snap.terms.amount)
    && (verdict.Short? ==> Probeable(snap.terms) && 0 < verdict.observed < snap.terms.amount)
  }

  predicate FundingInv(rows: map<TipId, Row>, task: FundingTask) {
    && task.snap.terms.id in rows
    && rows[task.snap.terms.id].terms == task.snap.terms
    && (task.verdict.Some? ==> VerdictFits(task.snap, task.verdict.value))
  }

  predicate RowsInv(rows: map<TipId, Row>) {
    forall id :: id in rows ==> rows[id].terms.id == id && RowInv(rows[id])
  }

  predicate TasksInv(rows: map<TipId, Row>, funding: map<WorkerId, FundingTask>) {
    forall w :: w in funding ==> FundingInv(rows, funding[w])
  }

  predicate Inv(s: Sys) {
    && RowsInv(s.rows)
    && ConfirmInv(s.rows, s.confirm)
    && ReorgInv(s.rows, s.reorg)
    && TasksInv(s.rows, s.funding)
  }

  /** In a reachable state every issued update is backed by what its worker observed. */
  lemma IssuedUpdatesAreSound(s: Sys, e: Event, id: TipId)
    requires Inv(s) && id in s.rows && UpdateFor(s, e, id).Some?
    ensures Sound(UpdateFor(s, e, id).value, s.rows[id])
  {
    if e.ConfirmWrite? {
      var snap, result := s.confirm.queue[0], s.confirm.probe.value;
      assert Current(s.rows, snap);
      if DueWinner(snap, result).Some? {
        assert DueWinner(snap, result).value in result.spends;
      }
    }
  }

  /** What one update can do to the fields the snapshots rely on. */
  lemma ApplyMoves(u: Update, r: Row, now: nat)
    ensures var r' := Apply(u, r, now);
      && r'.terms == r.terms
      && (r.sweepTxid.Some? && !IsSettle(u) ==> r'.sweepTxid == r.sweepTxid)
      && (r.status == Claimed && u != RevertOnReorg ==> r'.status == Claimed && r'.sweepTxid == r.sweepTxid)
  {
  }

  lemma SettlesAndRevertsAreWrites(s: Sys, e: Event, id: TipId)
    requires UpdateFor(s, e, id).Some?
    ensures IsSettle(UpdateFor(s, e, id).value) ==> e.ConfirmWrite?
    ensures UpdateFor(s, e, id) == Some(RevertOnReorg) ==> e.ReorgWrite?
  {
  }

  /** Status and recorded sweep of one row can move only in these ways. */
  lemma SweepFieldsMove(s: Sys, e: Event, id: TipId)
    requires Inv(s) && id in s.rows
    ensures var r, r' := s.rows[id], RowAfter(s, e, id);
      && r'.terms == r.terms && RowInv(r')
      && (r.sweepTxid.Some? && !e.ConfirmWrite? ==> r'.sweepTxid == r.sweepTxid)
      && (r.status == Claimed && !e.ReorgWrite? ==> r'.status == Claimed && r'.sweepTxid == r.sweepTxid)
  {
    if UpdateFor(s, e, id).Some? {
      IssuedUpdatesAreSound(s, e, id);
      SettlesAndRevertsAreWrites(s, e, id);
      ApplyMoves(UpdateFor(s, e, id).value, s.rows[id], s.now);
      ApplyKeepsRowInv(UpdateFor(s, e, id).value, s.rows[id], s.now);
    }
  }

  /** What the snapshots of row `id` rely on is still there. */
  predicate Kept(rows: map<TipId, Row>, rows': map<TipId, Row>, id: TipId) {
    id in rows ==>
      && id in rows'
      && rows'[id].terms == rows[id].terms
      && (rows[id].sweepTxid.Some? ==> rows'[id].sweepTxid == rows[id].sweepTxid)
  }

  lemma RowsAreKept(s: Sys, e: Event, id: TipId)
    requires RowsInv(s.rows)
    requires UpdateFor(s, e, id).Some? ==> !IsSettle(UpdateFor(s, e, id).value)
    ensures Kept(s.rows, RowsAfter(s, e), id)
  {
    var u := UpdateFor(s, e, id);
    if id in s.rows && u.Some? {
      ApplyMoves(u.value, s.rows[id], s.now);
    }
  }

  lemma ClaimedIsKept(s: Sys, e: Event, id: TipId)
    requires RowsInv(s.rows) && id in s.rows && s.rows[id].status == Claimed
    requires UpdateFor(s, e, id) != Some(RevertOnReorg)
    ensures RowsAfter(s, e)[id].status == Claimed && Kept(s.rows, RowsAfter(s, e), id)
  {
    var u := UpdateFor(s, e, id);
    if u.Some? {
      ApplyMoves(u.value, s.rows[id], s.now);
    }
  }

  lemma ConfirmMovesOn(s: Sys, e: Event)
    requires Inv(s)
    ensures ConfirmInv(s.rows, ConfirmAfter(s, e))
  {
    if e.ConfirmProbe? && s.confirm.Busy? && s.confirm.queue != [] {
      ProbeAlwaysFits(s.confirm.queue[0], e.answer);
    }
  }

  lemma QueuedRowIsKept(s: Sys, e: Event, i: nat)
    requires Inv(s) && ConfirmAfter(s, e).Busy? && i < |ConfirmAfter(s, e).queue|
    ensures Kept(s.rows, RowsAfter(s, e), ConfirmAfter(s, e).queue[i].terms.id)
  {
    var id := ConfirmAfter(s, e).queue[i].terms.id;
    assert e.ConfirmWrite? && HasProbe(s.confirm) ==> s.confirm.queue[i + 1].terms.id == id;
    RowsAreKept(s, e, id);
  }

  /** The lock admits one confirm cycle and its rows are distinct, so no queued row is settled behind its back. */
  lemma ConfirmStaysCurrent(s: Sys, e: Event)
    requires Inv(s)
    ensures ConfirmInv(RowsAfter(s, e), ConfirmAfter(s, e))
  {
    ConfirmMovesOn(s, e);
    var c' := ConfirmAfter(s, e);
    if c'.Busy? {
      forall i | 0 <= i < |c'.queue|
        ensures Kept(s.rows, RowsAfter(s, e), c'.queue[i].terms.id)
      {
        QueuedRowIsKept(s, e, i);
      }
    }
  }

  lemma ReorgMovesOn(s: Sys, e: Event)
    requires Inv(s)
    ensures ReorgInv(s.rows, ReorgAfter(s, e))
  {
    if e.ReorgProbe? && s.reorg.Busy? && s.reorg.queue != [] {
      ProbeAlwaysFits(s.reorg.queue[0], e.answer);
    }
  }

  lemma RevertIsAtTheHead(s: Sys, e: Event, id: TipId)
    ensures UpdateFor(s, e, id) == Some(RevertOnReorg) ==>
      e.ReorgWrite? && HasProbe(s.reorg) && s.reorg.queue[0].terms.id == id
  {
    if UpdateFor(s, e, id).Some? {
      SettlesAndRevertsAreWrites(s, e, id);
    }
  }

  lemma QueuedRowStaysSettled(s: Sys, e: Event, i: nat)
    requires Inv(s) && ReorgInv(s.rows, ReorgAfter(s, e))
    requires ReorgAfter(s, e).Busy? && i < |ReorgAfter(s, e).queue|
    ensures StillSettled(RowsAfter(s, e), ReorgAfter(s, e).queue[i])
  {
    var snap := ReorgAfter(s, e).queue[i];
    assert StillSettled(s.rows, snap);
    assert e.ReorgWrite? && HasProbe(s.reorg) ==> s.reorg.queue[i + 1].terms.id == snap.terms.id;
    RevertIsAtTheHead(s, e, snap.terms.id);
    ClaimedIsKept(s, e, snap.terms.id);
  }

  /** Likewise no queued settled row is reverted behind the reorg cycle's back. */
  lemma ReorgStaysSettled(s: Sys, e: Event)
    requires Inv(s)
    ensures ReorgInv(RowsAfter(s, e), ReorgAfter(s, e))
  {
    ReorgMovesOn(s, e);
    var c' := ReorgAfter(s, e);
    if c'.Busy? {
      forall i | 0 <= i < |c'.queue|
        ensures StillSettled(RowsAfter(s, e), c'.queue[i])
      {
        QueuedRowStaysSettled(s, e, i);
      }
    }
  }

  lemma FundingVerdictFits(snap: Row, answer: ChainAnswer)
    requires 0 < snap.terms.amount <= I64_MAX
    ensures var v := FundingVerdict(snap, answer); v.Some? ==> VerdictFits(snap, v.value)
  {
  }

  lemma TasksMoveOn(s: Sys, e: Event)
    requires Inv(s)
    ensures TasksInv(s.rows, FundingAfter(s, e))
  {
    if e.FundingProbe? && e.worker in s.funding {
      assert FundingInv(s.rows, s.funding[e.worker]);
      FundingVerdictFits(s.funding[e.worker].snap, e.answer);
    }
  }

  lemma TasksStayBacked(rows: map<TipId, Row>, rows': map<TipId, Row>, funding: map<WorkerId, FundingTask>)
    requires TasksInv(rows, funding)
    requires forall id :: id in rows ==> id in rows' && rows'[id].terms == rows[id].terms
    ensures TasksInv(rows', funding)
  {
  }

  predicate RowGood(rows: map<TipId, Row>, id: TipId) {
    id in rows ==> rows[id].terms.id == id && RowInv(rows[id])
  }

  lemma RowStaysGood(s: Sys, e: Event, id: TipId)
    requires Inv(s)
    ensures RowGood(RowsAfter(s, e), id)
    ensures id in s.rows ==> id in RowsAfter(s, e) && RowsAfter(s, e)[id].terms == s.rows[id].terms
  {
    if id in s.rows {
      SweepFieldsMove(s, e, id);
      assert RowsAfter(s, e)[id] == RowAfter(s, e, id);
    }
  }

  lemma RowsStayGood(s: Sys, e: Event)
    requires Inv(s)
    ensures RowsInv(RowsAfter(s, e))
    ensures forall id :: id in s.rows ==> id in RowsAfter(s, e) && RowsAfter(s, e)[id].terms == s.rows[id].terms
  {
    forall id
      ensures RowGood(RowsAfter(s, e), id)
      ensures id in s.rows ==> id in RowsAfter(s, e) && RowsAfter(s, e)[id].terms == s.rows[id].terms
    {
      RowStaysGood(s, e, id);
    }
  }

  lemma StepKeepsInv(s: Sys, e: Event)
    requires Inv(s)
    ensures Inv(Step(s, e))
  {
    RowsStayGood(s, e);
    ConfirmStaysCurrent(s, e);
    ReorgStaysSettled(s, e);
    TasksMoveOn(s, e);
    TasksStayBacked(s.rows, RowsAfter(s, e), FundingAfter(s, e));
  }

  lemma {:induction false} RunKeepsInv(s: Sys, es: seq<Event>)
    requires Inv(s)
    ensures Inv(Run(s, es))
  {
    if es != [] {
      RunKeepsInv(s, es[..|es| - 1]);
      StepKeepsInv(Run(s, es[..|es| - 1]), es[|es| - 1]);
    }
  }
}
