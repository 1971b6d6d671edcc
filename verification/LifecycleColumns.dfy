/** Where the columns of a tip come from, over every run: counts and times are those of the events that
    wrote them, the collector leaves young rows alone, and each worker selects exactly the rows it is for. */
module LifecycleColumns {
  import opened Machine
  import opened Text
  import opened Chain
  import opened TipRows
  import opened Sweep
  import opened Lifecycle
  import opened LifecycleTheorems

  // ---------------------------------------------------------------- confirmation counts

  /** The last count reported for the row since it exists. */
  function LastCount(es: seq<Event>, id: TipId): int {
    if es == [] then 0
    else
      var n := |es| - 1;
      if id !in Run(INIT, es[..n]).rows then 0
      else if es[n].Count? && es[n].id == id then es[n].count
      else LastCount(es[..n], id)
  }

  /** When the row was first reported with its required confirmations. */
  function FirstDeep(es: seq<Event>, id: TipId): Option<nat> {
    if es == [] then None
    else
      var n := |es| - 1;
      var s := Run(INIT, es[..n]);
      if id !in s.rows then None
      else if FirstDeep(es[..n], id).Some? then FirstDeep(es[..n], id)
      else if es[n].Count? && es[n].id == id && es[n].count >= s.rows[id].terms.required then Some(s.now)
      else None
  }

  lemma CountStep(s: Sys, e: Event, id: TipId)
    requires id in s.rows
    ensures var r, r' := s.rows[id], RowAfter(s, e, id);
      if e.Count? && e.id == id then
        && r'.confirmations == e.count && r'.lastCheck == Some(s.now)
        && (r'.confirmedAt == if r.confirmedAt.None? && e.count >= r.terms.required then Some(s.now) else r.confirmedAt)
      else r'.confirmations == r.confirmations && r'.confirmedAt == r.confirmedAt
  {
  }

  /** In every run a row holds the last count reported for it, and the time of the first that was deep enough,
      even if the count has gone down since. */
  lemma {:induction false} CountsAreStored(es: seq<Event>, id: TipId)
    requires id in Run(INIT, es).rows
    ensures Run(INIT, es).rows[id].confirmations == LastCount(es, id)
    ensures Run(INIT, es).rows[id].confirmedAt == FirstDeep(es, id)
  {
    var n := |es| - 1;
    var s := Run(INIT, es[..n]);
    if id in s.rows {
      CountsAreStored(es[..n], id);
      CountStep(s, es[n], id);
    }
  }

  // ---------------------------------------------------------------- times

  lemma UpdateIsStamped(u: Update, r: Row, now: nat)
    ensures var r' := Apply(u, r, now);
      r'.status != r.status ==>
        && (r'.status == ClawedBack ==> r'.clawedBackAt == Some(now))
        && (r'.status == Claimed ==> r'.sweepConfirmedAt == Some(now))
        && (u.MarkClaiming? ==> r'.claimedAt == Some(now) && r'.claimedBy == Some(u.user))
        && (u.AttachFunding? ==> r'.fundingTxid == Some(u.txid))
  {
  }

  /** Every clawback, settlement and first claim is stamped with the time of the event that made it, a claim
      also with its caller, and a draft leaves with the transaction it was funded by. */
  lemma MovesAreStamped(es: seq<Event>, k: nat, id: TipId)
    requires k < |es| && id in StateAt(INIT, es, k).rows && id in StateAt(INIT, es, k + 1).rows
    requires StateAt(INIT, es, k + 1).rows[id].status != StateAt(INIT, es, k).rows[id].status
    ensures var s, r, r' := StateAt(INIT, es, k), StateAt(INIT, es, k).rows[id], StateAt(INIT, es, k + 1).rows[id];
      && (r'.status == ClawedBack ==> r'.clawedBackAt == Some(s.now))
      && (r'.status == Claimed ==> r'.sweepConfirmedAt == Some(s.now))
      && (r.status == Pending && r'.status == Claiming ==>
            es[k].Call? && es[k].update.MarkClaiming?
            && r'.claimedAt == Some(s.now) && r'.claimedBy == Some(es[k].update.user))
      && (r.status == Draft && r'.status == PendingConfirmation ==>
            es[k].Call? && es[k].update.AttachFunding? && r'.fundingTxid == Some(es[k].update.txid))
  {
    StateStep(INIT, es, k);
    var s := StateAt(INIT, es, k);
    MoveIsDocumented(s, es[k], id);
    UpdateIsStamped(UpdateFor(s, es[k], id).value, s.rows[id], s.now);
  }

  // ---------------------------------------------------------------- what each call writes

  /** A transaction id the handlers let through. */
  predicate Tidy(txid: string) {
    1 <= |txid| <= 128 && Trimmed(txid)
  }

  function RowAfterCall(es: seq<Event>, id: TipId, call: Update): Row
    requires id in Run(INIT, es).rows
  {
    RowAfter(Run(INIT, es), Call(id, call), id)
  }

  /** A record call in a reachable state: on a public tip that is being claimed, with no other sweep recorded,
      a tidy id is recorded and fills in a missing claimer and claim time; otherwise nothing is written. */
  lemma RecordTakesEffect(es: seq<Event>, id: TipId, user: UserId, txid: string)
    requires id in Run(INIT, es).rows
    ensures var now, r := Run(INIT, es).now, Run(INIT, es).rows[id];
      RowAfterCall(es, id, RecordSweep(user, txid))
      == if Tidy(txid) && r.status == Claiming && r.terms.isPublic && (r.sweepTxid.None? || r.sweepTxid == Some(txid))
         then r.(sweepTxid := Some(txid),
                 claimedBy := if r.claimedBy.Some? then r.claimedBy else Some(user),
                 claimedAt := if r.claimedAt.Some? then r.claimedAt else Some(now))
         else r
  {
    RunKeepsInv(INIT, es);
    assert RowInv(Run(INIT, es).rows[id]);
  }

  /** A claim call: a public tip, or the recipient's own, that is pending or claiming and still has its
      confirmations, is claimed for the caller from now on, replacing an earlier claimer. */
  lemma ClaimTakesEffect(es: seq<Event>, id: TipId, user: UserId)
    requires id in Run(INIT, es).rows
    ensures var now, r := Run(INIT, es).now, Run(INIT, es).rows[id];
      RowAfterCall(es, id, MarkClaiming(user))
      == if (r.status == Pending || r.status == Claiming) && r.confirmations >= r.terms.required
            && (r.terms.isPublic || r.terms.recipient == Some(user))
         then r.(status := Claiming, claimedAt := Some(now), claimedBy := Some(user))
         else r
  {
    RunKeepsInv(INIT, es);
    assert RowInv(Run(INIT, es).rows[id]);
  }

  /** An attach call: the sender's draft takes the transaction and awaits confirmation; no other row changes. */
  lemma AttachTakesEffect(es: seq<Event>, id: TipId, user: UserId, txid: string)
    requires id in Run(INIT, es).rows
    ensures var r := Run(INIT, es).rows[id];
      RowAfterCall(es, id, AttachFunding(user, txid))
      == if Tidy(txid) && r.terms.sender == user && r.status == Draft
         then r.(status := PendingConfirmation, fundingTxid := Some(txid))
         else r
  {
    RunKeepsInv(INIT, es);
    assert RowInv(Run(INIT, es).rows[id]);
  }

  /** The sender's two ways out: a draft is cancelled, and a tip that is neither a draft nor finished for good
      is clawed back. */
  lemma ReturnTakesEffect(es: seq<Event>, id: TipId, user: UserId)
    requires id in Run(INIT, es).rows
    ensures var r := Run(INIT, es).rows[id];
      RowAfterCall(es, id, CancelDraft(user))
      == if r.terms.sender == user && r.status == Draft then r.(status := Cancelled) else r
    ensures var now, r := Run(INIT, es).now, Run(INIT, es).rows[id];
      RowAfterCall(es, id, Clawback(user))
      == if r.terms.sender == user && r.status != Draft && r.status != Claimed && r.status != ClawedBack
         then r.(status := ClawedBack, clawedBackAt := Some(now)) else r
  {
    RunKeepsInv(INIT, es);
    assert RowInv(Run(INIT, es).rows[id]);
  }

  // ---------------------------------------------------------------- garbage collection

  /** What one collection makes of a row: cancelled iff it is in the collected status and seven days have
      passed since it was created. */
  lemma CollectedExactly(s: Sys, id: TipId)
    requires id in s.rows
    ensures var r := s.rows[id];
      RowAfter(s, GcDrafts, id) == if r.status == Draft && s.now - r.terms.createdAt > 604_800
                                   then r.(status := Cancelled) else r
    ensures var r := s.rows[id];
      RowAfter(s, GcStuckPending, id) == if r.status == PendingConfirmation && s.now - r.terms.createdAt > 604_800
                                         then r.(status := Cancelled) else r
  {
  }

  lemma CancelsAreOldOrOwn(s: Sys, e: Event, id: TipId)
    requires Inv(s) && id in s.rows
    requires s.rows[id].status != Cancelled && RowAfter(s, e, id).status == Cancelled
    ensures e == Call(id, CancelDraft(s.rows[id].terms.sender)) || s.now - s.rows[id].terms.createdAt > 604_800
  {
    MoveIsDocumented(s, e, id);
  }

  /** In every run, a tip that is cancelled within seven days of its creation was cancelled by its sender. */
  lemma {:induction false} YoungRowsAreNotCollected(es: seq<Event>, id: TipId) returns (k: nat)
    requires id in Run(INIT, es).rows && Run(INIT, es).rows[id].status == Cancelled
    requires Run(INIT, es).now <= Run(INIT, es).rows[id].terms.createdAt + 604_800
    ensures k < |es| && es[k] == Call(id, CancelDraft(Run(INIT, es).rows[id].terms.sender))
  {
    var n := |es| - 1;
    var s := Run(INIT, es[..n]);
    RunKeepsInv(INIT, es[..n]);
    if id in s.rows {
      SweepFieldsMove(s, es[n], id);
      if s.rows[id].status == Cancelled {
        k := YoungRowsAreNotCollected(es[..n], id);
      } else {
        CancelsAreOldOrOwn(s, es[n], id);
        k := n;
      }
    }
  }

  // ---------------------------------------------------------------- selection

  /** Not checked within the last thirty seconds. */
  predicate Unchecked(r: Row, now: nat) {
    r.lastCheck.Some? ==> now > r.lastCheck.value + 30
  }

  /** In every reachable state the verifier selects exactly the rows that await confirmation and have it, the
      settle cycle exactly the claiming rows and the reorg cycle exactly the claimed ones, each at most every
      thirty seconds; so the three never want one row at once. */
  lemma SelectionsExactly(es: seq<Event>, id: TipId)
    requires id in Run(INIT, es).rows
    ensures var s := Run(INIT, es);
      var r := s.rows[id];
      && (AwaitingVerification(r, s.now) <==>
            r.status == PendingConfirmation && r.confirmations >= r.terms.required && Unchecked(r, s.now))
      && (AwaitingSweep(r, s.now) <==> r.status == Claiming && Unchecked(r, s.now))
      && (AwaitingReorgCheck(r, s.now) <==> r.status == Claimed && Unchecked(r, s.now))
  {
    RunKeepsInv(INIT, es);
    assert RowInv(Run(INIT, es).rows[id]);
  }

  /** No cycle ever holds more than fifty rows. */
  lemma {:induction false} CyclesAreBounded(es: seq<Event>)
    ensures Run(INIT, es).confirm.Busy? ==> |Run(INIT, es).confirm.queue| <= 50
    ensures Run(INIT, es).reorg.Busy? ==> |Run(INIT, es).reorg.queue| <= 50
  {
    if es != [] {
      CyclesAreBounded(es[..|es| - 1]);
    }
  }
}
