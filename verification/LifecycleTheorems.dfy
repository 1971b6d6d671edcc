/** What holds over every run of the tip lifecycle. */
module LifecycleTheorems {
  import opened Machine
  import opened Chain
  import opened TipRows
  import opened Sweep
  import opened Lifecycle
  import Funding

  // ---------------------------------------------------------------- runs

  lemma {:induction false} RunAppend(s: Sys, a: seq<Event>, b: seq<Event>)
    ensures Run(s, a + b) == Run(Run(s, a), b)
  {
    if b == [] {
      assert a + b == a;
    } else {
      assert (a + b)[..|a + b| - 1] == a + b[..|b| - 1];
      RunAppend(s, a, b[..|b| - 1]);
    }
  }

  lemma RunOne(s: Sys, e: Event)
    ensures Run(s, [e]) == Step(s, e)
  {
    assert [e][..0] == [];
  }

  lemma {:induction false} RunFirst(s: Sys, e: Event, es: seq<Event>)
    ensures Run(s, [e] + es) == Run(Step(s, e), es)
  {
    RunAppend(s, [e], es);
    RunOne(s, e);
  }

  /** State `k + 1` of a run is one step after state `k`. */
  lemma StateStep(s: Sys, es: seq<Event>, k: nat)
    requires k < |es| && Inv(s)
    ensures StateAt(s, es, k + 1) == Step(StateAt(s, es, k), es[k])
    ensures Inv(StateAt(s, es, k))
  {
    assert es[..k + 1][..k] == es[..k];
    RunKeepsInv(s, es[..k]);
  }

  lemma {:induction false} RowsStay(s: Sys, es: seq<Event>, id: TipId)
    requires id in s.rows
    ensures id in Run(s, es).rows
  {
    if es != [] {
      RowsStay(s, es[..|es| - 1], id);
    }
  }

  // ---------------------------------------------------------------- documented moves

  /** The lifecycle of the schema comment and the garbage collector, as moves of one update. */
  predicate Documented(r: Row, to: Status, u: Update) {
    match (r.status, to)
    case (Draft, PendingConfirmation) => u.AttachFunding? && u.user == r.terms.sender
    case (Draft, Cancelled) => u.CancelOldDraft? || u == CancelDraft(r.terms.sender)
    case (PendingConfirmation, Pending) => u.MarkVerified?
    case (PendingConfirmation, FundingMismatch) => u.MarkMismatch?
    case (PendingConfirmation, Cancelled) => u.CancelStuckPending?
    case (Pending, Claiming) => u.MarkClaiming? && IsClaimable(r)
    case (Claiming, Claimed) => IsSettle(u)
    case (Claimed, Claiming) => u.RevertOnReorg?
    case (from, ClawedBack) =>
      from in {Pending, PendingConfirmation, Claiming, FundingMismatch, Cancelled} && u == Clawback(r.terms.sender)
    case _ => false
  }

  /** Who may issue an update: users only their own calls, each worker only its own writes. */
  predicate IssuedBy(u: Update, e: Event) {
    match u
    case MarkVerified(_) => e.FundingWrite?
    case MarkMismatch(_) => e.FundingWrite?
    case SettleKeepingClaimer(_, _, _) => e.ConfirmWrite?
    case SettleClearingClaimer(_, _, _) => e.ConfirmWrite?
    case RevertOnReorg => e.ReorgWrite?
    case CancelOldDraft => e.GcDrafts?
    case CancelStuckPending => e.GcStuckPending?
    case UpdateConfirmations(_) => e.Count?
    case StampSweepNotified => e.Stamp?
    case StampReorgNotified => e.Stamp?
    case TouchLastCheck => e.FundingWrite? || e.ConfirmWrite? || e.ReorgWrite?
    case _ => e.Call? && e.update == u
  }

  lemma UpdatesMoveAsDocumented(u: Update, r: Row, now: nat)
    ensures Apply(u, r, now).status == r.status || Documented(r, Apply(u, r, now).status, u)
  {
  }

  lemma UpdatesHaveIssuers(s: Sys, e: Event, id: TipId)
    requires UpdateFor(s, e, id).Some?
    ensures IssuedBy(UpdateFor(s, e, id).value, e)
  {
  }

  /** This event moved the row from `r` to `r'` along a documented edge, by its documented actor. */
  predicate MovedBy(s: Sys, e: Event, r: Row, r': Row) {
    var u := UpdateFor(s, e, r.terms.id);
    && r'.terms == r.terms
    && (r'.status != r.status ==> u.Some? && IssuedBy(u.value, e) && Documented(r, r'.status, u.value))
  }

  lemma MoveIsDocumented(s: Sys, e: Event, id: TipId)
    requires Inv(s) && id in s.rows
    ensures MovedBy(s, e, s.rows[id], RowAfter(s, e, id))
  {
    SweepFieldsMove(s, e, id);
    if UpdateFor(s, e, id).Some? {
      UpdatesHaveIssuers(s, e, id);
      UpdatesMoveAsDocumented(UpdateFor(s, e, id).value, s.rows[id], s.now);
    }
  }

  /** Every status change in every run is a documented move by its documented actor. */
  lemma EveryMoveIsDocumented(es: seq<Event>, k: nat, id: TipId)
    requires k < |es| && id in StateAt(INIT, es, k).rows
    ensures id in StateAt(INIT, es, k + 1).rows
    ensures MovedBy(StateAt(INIT, es, k), es[k], StateAt(INIT, es, k).rows[id], StateAt(INIT, es, k + 1).rows[id])
  {
    StateStep(INIT, es, k);
    MoveIsDocumented(StateAt(INIT, es, k), es[k], id);
  }

  /** Terminal rows are skipped by the verifier and the sweep reconciler, and exactly two updates can
      still move one: the reorg revert of a settled row and the sender's clawback of a cancelled one. */
  lemma TerminalMoves(u: Update, r: Row, now: nat)
    requires RowInv(r) && IsTerminal(r.status)
    ensures !AwaitingVerification(r, now) && !AwaitingSweep(r, now)
    ensures Apply(u, r, now).status != r.status
       <==> (r.status == Claimed && u == RevertOnReorg) || (r.status == Cancelled && u == Clawback(r.terms.sender))
  {
  }

  /** The confirmations a new tip of this asset must reach before its amount is verified. */
  predicate RequiredFor(asset: Asset, required: int) {
    match asset
    case Btc => required == 0
    case Ltc => required == 0
    case Wow => required == 4
    case Xmr => required == 10
    case Grin => required == 10
    case OtherAsset(_) => false
  }

  /** New rows appear only through create, for a supported asset, a positive amount and either a public tip
      or one recipient. The row is a draft or, when a funding transaction came along, awaits confirmation;
      nothing else has happened to it. */
  lemma RowsAreCreated(es: seq<Event>, k: nat, id: TipId)
    requires k < |es| && id !in StateAt(INIT, es, k).rows && id in StateAt(INIT, es, k + 1).rows
    ensures es[k].Create? && es[k].terms.id == id && 0 < es[k].terms.amount <= 0x7fff_ffff_ffff_ffff
    ensures RequiredFor(es[k].terms.asset, es[k].terms.required)
    ensures es[k].terms.isPublic <==> es[k].terms.recipient.None?
    ensures es[k].terms.createdAt == StateAt(INIT, es, k).now
    ensures es[k].fundingTxid.None? ==> es[k].terms.tipAddress.Some?
    ensures var r := StateAt(INIT, es, k + 1).rows[id];
      && r.terms == es[k].terms && r.fundingTxid == es[k].fundingTxid && r.fundingTxid != Some("")
      && (r.status == if r.fundingTxid.Some? then PendingConfirmation else Draft)
      && r.confirmations == 0 && r.confirmedAt.None? && r.lastCheck.None? && !r.amountVerified && r.observed.None?
      && r.claimedAt.None? && r.claimedBy.None? && r.clawedBackAt.None? && r.sweepTxid.None?
      && r.sweepConfirmedAt.None? && r.sweepBlockHeight.None? && r.sweepBlockHash.None?
      && r.sweepNotifiedAt.None? && r.reorgNotifiedAt.None?
  {
    StateStep(INIT, es, k);
  }

  /** And create succeeds on every such request whose id is new. */
  lemma CreateSucceeds(s: Sys, terms: Terms, fundingTxid: Option<string>)
    requires terms.id !in s.rows && 0 < terms.amount <= 0x7fff_ffff_ffff_ffff
    requires RequiredFor(terms.asset, terms.required) && terms.createdAt == s.now
    requires terms.isPublic <==> terms.recipient.None?
    requires if fundingTxid.Some? then fundingTxid.value != "" else terms.tipAddress.Some?
    ensures terms.id in Step(s, Create(terms, fundingTxid)).rows
  {
  }

  // ---------------------------------------------------------------- one step at a settled row

  predicate ClaimedIn(s: Sys, id: TipId) {
    id in s.rows && s.rows[id].status == Claimed
  }

  /** The reorg write about to happen acts on this row with a probe that no longer lists `txid`. */
  predicate Contradicts(s: Sys, e: Event, id: TipId, txid: string) {
    && e.ReorgWrite? && HasProbe(s.reorg) && s.reorg.queue[0].terms.id == id
    && s.reorg.probe.value.ProbeOk? && forall t :: t in s.reorg.probe.value.spends ==> t.txid != txid
  }

  predicate SameSettlement(a: Row, b: Row) {
    && b.status == Claimed
    && b.terms == a.terms
    && b.sweepTxid == a.sweepTxid
    && b.sweepConfirmedAt == a.sweepConfirmedAt
    && b.sweepBlockHeight == a.sweepBlockHeight
    && b.sweepBlockHash == a.sweepBlockHash
    && b.claimedBy == a.claimedBy
    && b.observed == a.observed
  }

  lemma ApplyToSettled(u: Update, r: Row, now: nat)
    requires RowInv(r) && r.status == Claimed
    ensures if u == RevertOnReorg then Apply(u, r, now).status == Claiming else SameSettlement(r, Apply(u, r, now))
  {
  }

  /** A settled row is told to revert exactly by a reorg write whose probe has lost its sweep. */
  lemma RevertIssuedExactly(s: Sys, e: Event, id: TipId)
    requires Inv(s) && id in s.rows && s.rows[id].status == Claimed
    ensures s.rows[id].sweepTxid.Some?
    ensures UpdateFor(s, e, id) == Some(RevertOnReorg) <==> Contradicts(s, e, id, s.rows[id].sweepTxid.value)
  {
    assert RowInv(s.rows[id]);
    if e.ReorgWrite? && HasProbe(s.reorg) && s.reorg.queue[0].terms.id == id {
      assert StillSettled(s.rows, s.reorg.queue[0]);
      RevertDecidedExactly(s.reorg.queue[0], s.reorg.probe.value);
    } else if UpdateFor(s, e, id).Some? {
      UpdatesHaveIssuers(s, e, id);
    }
  }

  lemma SettledStep(s: Sys, e: Event, id: TipId)
    requires Inv(s) && id in s.rows && s.rows[id].status == Claimed
    ensures var r, r' := s.rows[id], RowAfter(s, e, id);
      && r.sweepTxid.Some?
      && (r'.status == Claimed <==> !Contradicts(s, e, id, r.sweepTxid.value))
      && (r'.status == Claimed ==> SameSettlement(r, r'))
  {
    RevertIssuedExactly(s, e, id);
    if UpdateFor(s, e, id).Some? {
      ApplyToSettled(UpdateFor(s, e, id).value, s.rows[id], s.now);
    }
  }

  // ---------------------------------------------------------------- reverts are justified

  /** In every run, a settled row goes back to claiming only when the reorg cycle holds a successful
      probe of it that does not list the sweep the row records at that very moment. */
  lemma RevertIsJustified(es: seq<Event>, k: nat, id: TipId)
    requires k < |es| && id in StateAt(INIT, es, k).rows && id in StateAt(INIT, es, k + 1).rows
    requires StateAt(INIT, es, k).rows[id].status == Claimed
    requires StateAt(INIT, es, k + 1).rows[id].status != Claimed
    ensures StateAt(INIT, es, k).rows[id].sweepTxid.Some?
    ensures Contradicts(StateAt(INIT, es, k), es[k], id, StateAt(INIT, es, k).rows[id].sweepTxid.value)
  {
    StateStep(INIT, es, k);
    SettledStep(StateAt(INIT, es, k), es[k], id);
  }

  // ---------------------------------------------------------------- a settled row stays settled

  predicate KeptIn(row: Row, s: Sys, id: TipId) {
    id in s.rows && SameSettlement(row, s.rows[id])
  }

  /** Every state of the run from `s` still has the settlement of `row`. */
  predicate KeepsSettlement(row: Row, s: Sys, es: seq<Event>, id: TipId)
    decreases |es|
  {
    KeptIn(row, s, id) && (es != [] ==> KeepsSettlement(row, Step(s, es[0]), es[1..], id))
  }

  /** No reorg write of the run acts on a probe of this row that has lost `txid`. */
  predicate NeverContradicted(s: Sys, es: seq<Event>, id: TipId, txid: string)
    decreases |es|
  {
    es != [] ==> !Contradicts(s, es[0], id, txid) && NeverContradicted(Step(s, es[0]), es[1..], id, txid)
  }

  lemma SettledStepExactly(row: Row, s: Sys, e: Event, id: TipId)
    requires Inv(s) && KeptIn(row, s, id)
    ensures row.sweepTxid.Some?
    ensures KeptIn(row, Step(s, e), id) <==> !Contradicts(s, e, id, row.sweepTxid.value)
  {
    SettledStep(s, e, id);
  }

  /** Whatever users, workers and the collector do from a settled state on, the row keeps its
      settlement through the whole run exactly when no reorg write acts on a probe that has lost it. */
  lemma {:induction false} SettledStaysExactly(row: Row, s: Sys, es: seq<Event>, id: TipId)
    requires Inv(s) && KeptIn(row, s, id)
    ensures row.sweepTxid.Some?
    ensures KeepsSettlement(row, s, es, id) <==> NeverContradicted(s, es, id, row.sweepTxid.value)
    decreases |es|
  {
    SettledStepExactly(row, s, GcDrafts, id);
    if es != [] {
      SettledStepExactly(row, s, es[0], id);
      if KeptIn(row, Step(s, es[0]), id) {
        StepKeepsInv(s, es[0]);
        SettledStaysExactly(row, Step(s, es[0]), es[1..], id);
      }
    }
  }

  lemma {:induction false} KeptAtTheEnd(row: Row, s: Sys, es: seq<Event>, id: TipId)
    requires KeepsSettlement(row, s, es, id)
    ensures KeptIn(row, Run(s, es), id)
    decreases |es|
  {
    if es != [] {
      KeptAtTheEnd(row, Step(s, es[0]), es[1..], id);
      RunFirst(s, es[0], es[1..]);
      assert es == [es[0]] + es[1..];
    }
  }
}
