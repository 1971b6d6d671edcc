/** Who is credited with a settled tip. A settle keeps the claimer when the recorded sweep is the
    winner, on the ground that the claimer recorded it; this is exactly when that ground holds. */
module LifecycleCredit {
  import opened Machine
  import opened TipRows
  import opened Sweep
  import opened Lifecycle
  import opened LifecycleTheorems
  import opened LifecycleOutcomes
  import opened LifecycleWitnesses
  import opened WorkerRuns
  import opened TipWorkers

  predicate SweepIs(s: Sys, id: TipId, txid: string) {
    id in s.rows && s.rows[id].sweepTxid == Some(txid)
  }

  /** The call by which this user puts this sweep on a row that records none. */
  predicate Records(s: Sys, e: Event, id: TipId, user: UserId, txid: string) {
    && e == Call(id, RecordSweep(user, txid)) && ValidCall(e.update)
    && id in s.rows && Guard(e.update, s.rows[id], s.now) && s.rows[id].sweepTxid.None?
  }

  /** The user a call names as claimer: a claim that hits, or a record that hits an unclaimed row. */
  function Names(s: Sys, e: Event, id: TipId): Option<UserId> {
    if e.Call? && e.id == id && ValidCall(e.update) && id in s.rows && Guard(e.update, s.rows[id], s.now)
       && (e.update.MarkClaiming? || (e.update.RecordSweep? && s.rows[id].claimedBy.None?))
    then Some(e.update.user) else None
  }

  /** The sweep was put on the row at event `k` and has been there since. */
  predicate SweepSince(es: seq<Event>, id: TipId, k: nat, txid: string)
    requires k < |es|
  {
    SweepIs(Run(INIT, es), id, txid) && (k + 1 == |es| || SweepSince(es[..|es| - 1], id, k, txid))
  }

  predicate SweepSetAt(es: seq<Event>, id: TipId, k: nat, txid: string) {
    && k < |es|
    && !SweepIs(StateAt(INIT, es, k), id, txid)
    && SweepSince(es, id, k, txid)
  }

  predicate RecordedAt(es: seq<Event>, id: TipId, k: nat, txid: string) {
    k < |es| && es[k].Call? && es[k].update.RecordSweep?
      && Records(StateAt(INIT, es, k), es[k], id, es[k].update.user, txid)
  }

  /** From the record at event `k` on, the last call that named a claimer named `user`: at the record
      the row named nobody else, or a later claim by `user` hit and no other after it. */
  predicate NamedLast(es: seq<Event>, id: TipId, k: nat, user: UserId)
    requires k < |es|
  {
    var n := |es| - 1;
    var s := StateAt(INIT, es, n);
    if k == n then id in s.rows && s.rows[id].claimedBy in {None, Some(user)}
    else
      match Names(s, es[n], id)
      case Some(named) => named == user
      case None => NamedLast(es[..n], id, k, user)
  }

  // ---------------------------------------------------------------- one step

  /** A sweep gets onto a row only by a first record or by a settle. */
  lemma SweepStep(s: Sys, e: Event, id: TipId, txid: string)
    requires SweepIs(Step(s, e), id, txid) && !SweepIs(s, id, txid)
    ensures e.ConfirmWrite? || (e.Call? && e.update.RecordSweep? && Records(s, e, id, e.update.user, txid))
  {
    if id in s.rows && UpdateFor(s, e, id).Some? {
      UpdatesHaveIssuers(s, e, id);
      SweepUpdate(UpdateFor(s, e, id).value, s.rows[id], s.now, txid);
    }
  }

  lemma SweepUpdate(u: Update, r: Row, now: nat, txid: string)
    requires Apply(u, r, now).sweepTxid == Some(txid) && r.sweepTxid != Some(txid)
    ensures IsSettle(u) || (u.RecordSweep? && u.txid == txid && Guard(u, r, now) && r.sweepTxid.None?)
  {
  }

  lemma ClaimerUpdate(u: Update, r: Row, now: nat)
    requires Apply(u, r, now).claimedBy.Some?
    ensures Apply(u, r, now).claimedBy
         == if Guard(u, r, now) && (u.MarkClaiming? || (u.RecordSweep? && r.claimedBy.None?)) then Some(u.user)
           else r.claimedBy
  {
  }

  /** A row with a claimer names the user named by this event, or the one it named before. */
  lemma ClaimerStepExactly(s: Sys, e: Event, id: TipId)
    requires id in s.rows && RowAfter(s, e, id).claimedBy.Some?
    ensures RowAfter(s, e, id).claimedBy == if Names(s, e, id).Some? then Names(s, e, id) else s.rows[id].claimedBy
  {
    if UpdateFor(s, e, id).Some? {
      UpdatesHaveIssuers(s, e, id);
      ClaimerUpdate(UpdateFor(s, e, id).value, s.rows[id], s.now);
    }
  }

  // ---------------------------------------------------------------- whole runs

  /** The recorded sweep of a row has one origin: the event that put it there. */
  lemma {:induction false} SweepHasOrigin(es: seq<Event>, id: TipId, txid: string) returns (k: nat)
    requires SweepIs(Run(INIT, es), id, txid)
    ensures SweepSetAt(es, id, k, txid)
    ensures es[k].ConfirmWrite? || RecordedAt(es, id, k, txid)
  {
    var n := |es| - 1;
    if SweepIs(Run(INIT, es[..n]), id, txid) {
      k := SweepHasOrigin(es[..n], id, txid);
      assert es[..n][..k] == es[..k] && es[..n][k] == es[k];
    } else {
      k := n;
      SweepStep(Run(INIT, es[..n]), es[n], id, txid);
    }
  }

  /** The row names this user. */
  predicate NamedBy(s: Sys, id: TipId, user: UserId) {
    id in s.rows && s.rows[id].claimedBy == Some(user)
  }

  predicate HasClaimer(s: Sys, id: TipId) {
    id in s.rows && s.rows[id].claimedBy.Some?
  }

  lemma NamedAfterRecord(s: Sys, e: Event, id: TipId, user: UserId, txid: string)
    requires Records(s, e, id, user, txid) && HasClaimer(Step(s, e), id)
    ensures NamedBy(Step(s, e), id, user) <==> s.rows[id].claimedBy in {None, Some(user)}
  {
  }

  lemma NamedAfterStep(s: Sys, e: Event, id: TipId, user: UserId)
    requires id in s.rows && HasClaimer(Step(s, e), id)
    ensures match Names(s, e, id)
      case Some(named) => NamedBy(Step(s, e), id, user) <==> named == user
      case None => HasClaimer(s, id) && (NamedBy(Step(s, e), id, user) <==> NamedBy(s, id, user))
  {
    ClaimerStepExactly(s, e, id);
    assert Step(s, e).rows[id] == RowAfter(s, e, id);
  }

  lemma RowStays(s: Sys, e: Event, id: TipId)
    requires id in s.rows
    ensures id in Step(s, e).rows
  {
  }

  lemma {:induction false} RowsStayFrom(es: seq<Event>, id: TipId, k: nat)
    requires k <= |es| && id in StateAt(INIT, es, k).rows
    ensures id in Run(INIT, es).rows
  {
    var n := |es| - 1;
    if k == |es| {
      assert es[..k] == es;
    } else {
      assert es[..n][..k] == es[..k];
      RowsStayFrom(es[..n], id, k);
      RowStays(Run(INIT, es[..n]), es[n], id);
    }
  }

  lemma {:induction false} RecorderIsNamedExactly(es: seq<Event>, id: TipId, k: nat, txid: string)
    requires RecordedAt(es, id, k, txid) && HasClaimer(Run(INIT, es), id)
    ensures NamedBy(Run(INIT, es), id, es[k].update.user) <==> NamedLast(es, id, k, es[k].update.user)
  {
    var n, user := |es| - 1, es[k].update.user;
    var s := Run(INIT, es[..n]);
    if k < n {
      assert es[..n][..k] == es[..k] && es[..n][k] == es[k];
      RowsStayFrom(es[..n], id, k);
      NamedAfterStep(s, es[n], id, user);
      if Names(s, es[n], id).None? {
        RecorderIsNamedExactly(es[..n], id, k, txid);
      }
    } else {
      NamedAfterRecord(s, es[n], id, user, txid);
    }
  }

  /** Whole-run attribution. Take any row of any run that names a claimer and records a sweep, in
      particular any settled row with a claimer. Event `k` put that sweep there. The named claimer is
      the user who recorded it exactly when a call put it there, not a settle, and the last call from
      that record on that named a claimer named the recorder. */
  lemma CreditExactly(es: seq<Event>, id: TipId) returns (k: nat)
    requires HasClaimer(Run(INIT, es), id) && Run(INIT, es).rows[id].sweepTxid.Some?
    ensures var r := Run(INIT, es).rows[id];
      && SweepSetAt(es, id, k, r.sweepTxid.value)
      && (es[k].ConfirmWrite? || RecordedAt(es, id, k, r.sweepTxid.value))
      && (es[k] == Call(id, RecordSweep(r.claimedBy.value, r.sweepTxid.value))
          <==> es[k].Call? && NamedLast(es, id, k, es[k].update.user))
  {
    var r := Run(INIT, es).rows[id];
    k := SweepHasOrigin(es, id, r.sweepTxid.value);
    if es[k].Call? {
      RecorderIsNamedExactly(es, id, k, r.sweepTxid.value);
    }
  }

  /** No other user is named by the row at event `k` or by any call after it. */
  predicate NobodyElseNamed(es: seq<Event>, id: TipId, k: nat, user: UserId)
    requires k < |es|
  {
    var n := |es| - 1;
    var s := StateAt(INIT, es, n);
    if k == n then id in s.rows && s.rows[id].claimedBy in {None, Some(user)}
    else Names(s, es[n], id) in {None, Some(user)} && NobodyElseNamed(es[..n], id, k, user)
  }

  lemma {:induction false} NobodyElseIsLast(es: seq<Event>, id: TipId, k: nat, user: UserId)
    requires k < |es| && NobodyElseNamed(es, id, k, user)
    ensures NamedLast(es, id, k, user)
  {
    if k < |es| - 1 {
      NobodyElseIsLast(es[..|es| - 1], id, k, user);
    }
  }

  /** In particular a recorder whom no other claimer preceded or followed is the one a settle credits. */
  lemma SoleRecorderIsCredited(es: seq<Event>, id: TipId, k: nat, txid: string)
    requires RecordedAt(es, id, k, txid) && NobodyElseNamed(es, id, k, es[k].update.user)
    requires HasClaimer(Run(INIT, es), id)
    ensures NamedBy(Run(INIT, es), id, es[k].update.user)
  {
    NobodyElseIsLast(es, id, k, es[k].update.user);
    RecorderIsNamedExactly(es, id, k, txid);
  }

  // ---------------------------------------------------------------- runs that credit someone else

  /** The only record call of the run is this one. */
  predicate OnlyRecord(es: seq<Event>, user: UserId, txid: string) {
    forall e :: e in es && e.Call? && e.update.RecordSweep? ==> e.update == RecordSweep(user, txid)
  }

  lemma ConfirmPassAlone(r: Row, now: nat, u: Update)
    requires AwaitingSweep(r, now) && DecideSettle(r, Probe(r, SweptAnswer(r.terms))) == u
    ensures Run(Alone(r, now), ConfirmPass(r.terms.id, SweptAnswer(r.terms)))
         == Alone(r, now).(rows := Updated(map[r.terms.id := r], r.terms.id, u, now), confirm := Busy([], None))
  {
    var id, answer, s := r.terms.id, SweptAnswer(r.terms), Alone(r, now);
    BeginConfirm(s, id);
    RunFirst(s, ConfirmBegin([id]), [ConfirmProbe(answer), ConfirmWrite]);
    assert ConfirmPass(id, answer) == [ConfirmBegin([id])] + [ConfirmProbe(answer), ConfirmWrite];
    ProbeAndWrite(Step(s, ConfirmBegin([id])), r, answer, u);
  }

  lemma UpdatedAlone(r: Row, now: nat, u: Update)
    ensures Updated(map[r.terms.id := r], r.terms.id, u, now) == map[r.terms.id := Apply(u, r, now)]
    ensures Apply(u, r, now).terms == r.terms
  {
    ApplyMoves(u, r, now);
  }

  lemma OnlyRecordAppend(a: seq<Event>, b: seq<Event>, user: UserId, txid: string)
    requires OnlyRecord(a, user, txid) && OnlyRecord(b, user, txid)
    ensures OnlyRecord(a + b, user, txid)
  {
  }

  lemma ClaimRunRecordsNothing(t: Terms, claimer: UserId, user: UserId, txid: string)
    requires Fresh(t)
    ensures OnlyRecord(ClaimRun(t, claimer), user, txid)
  {
  }

  /** A confirm pass over a lone row, and the end of its cycle. */
  lemma ConfirmAlone(r: Row, now: nat, u: Update)
    requires AwaitingSweep(r, now) && DecideSettle(r, Probe(r, SweptAnswer(r.terms))) == u
    ensures Run(Alone(r, now), ConfirmPass(r.terms.id, SweptAnswer(r.terms)) + [ConfirmEnd])
      == Alone(Apply(u, r, now), now)
  {
    var pass := ConfirmPass(r.terms.id, SweptAnswer(r.terms));
    ConfirmPassAlone(r, now, u);
    UpdatedAlone(r, now, u);
    RunAppend(Alone(r, now), pass, [ConfirmEnd]);
    RunOne(Run(Alone(r, now), pass), ConfirmEnd);
    EndAndWait(Run(Alone(r, now), pass), 0);
  }

  lemma ReorgPassAlone(r: Row, now: nat)
    requires AwaitingReorgCheck(r, now) && Probeable(r.terms) && r.sweepTxid.Some?
    ensures Run(Alone(r, now), ReorgPass(r.terms.id, QuietAnswer(r.terms)))
         == Alone(r, now).(rows := Updated(map[r.terms.id := r], r.terms.id, RevertOnReorg, now),
                           reorg := Busy([], None))
  {
    var id, answer, s := r.terms.id, QuietAnswer(r.terms), Alone(r, now);
    QuietAnswerReverts(r);
    RunThree(s, ReorgBegin([id]), ReorgProbe(answer), ReorgWrite);
    BeginReorg(s, id);
    ProbeReorg(Step(s, ReorgBegin([id])), answer);
    ReorgWriteRow(Step(Step(s, ReorgBegin([id])), ReorgProbe(answer)));
    assert [r][1..] == [];
  }

  /** A reorg pass over a lone settled row that no longer shows its sweep. */
  lemma RevertAlone(r: Row, now: nat)
    requires AwaitingReorgCheck(r, now) && Probeable(r.terms) && r.sweepTxid.Some?
    ensures Run(Alone(r, now), ReorgPass(r.terms.id, QuietAnswer(r.terms)) + [ReorgEnd])
      == Alone(Apply(RevertOnReorg, r, now), now)
  {
    var pass := ReorgPass(r.terms.id, QuietAnswer(r.terms));
    ReorgPassAlone(r, now);
    UpdatedAlone(r, now, RevertOnReorg);
    RunAppend(Alone(r, now), pass, [ReorgEnd]);
    RunOne(Run(Alone(r, now), pass), ReorgEnd);
    EndAndWait(Run(Alone(r, now), pass), 0);
  }

  lemma CallAlone(r: Row, now: nat, u: Update)
    requires ValidCall(u)
    ensures Run(Alone(r, now), [Call(r.terms.id, u)]) == Alone(Apply(u, r, now), now)
  {
    RunOne(Alone(r, now), Call(r.terms.id, u));
    UpdateAlone(r, now, Call(r.terms.id, u), u);
  }

  lemma KeepDecision(r: Row)
    requires r.terms.asset == Btc && r.terms.tipAddress.Some? && r.sweepTxid == Some("w")
    ensures DecideSettle(r, Probe(r, SweptAnswer(r.terms))) == SettleKeepingClaimer("w", 1, None)
  {
    SweptElectrum(r);
    OnlySpendWins(r, ConfirmedSpend("w", 1, None));
  }

  lemma ClearDecision(r: Row)
    requires r.terms.asset == Btc && r.terms.tipAddress.Some? && r.sweepTxid.Some? && r.sweepTxid != Some("w")
    ensures DecideSettle(r, Probe(r, SweptAnswer(r.terms))) == SettleClearingClaimer("w", 1, None)
  {
    SweptElectrum(r);
    OnlySpendWins(r, ConfirmedSpend("w", 1, None));
  }

  lemma OnlySpendWins(r: Row, spend: ConfirmedSpend)
    requires spend.blockHeight == 1
    ensures DueWinner(r, ProbeOk([spend], 100)) == Some(spend)
  {
    OneOldSpendIsDue(r, ProbeOk([spend], 100));
    assert PickWinner([spend]).value in [spend];
  }

  /** User 1 claims and records; user 2 claims over them before the sweep settles. */
  function OvertakenRun(): seq<Event> {
    [Call(7, RecordSweep(1, "w"))] + [Call(7, MarkClaiming(2))]
      + (ConfirmPass(7, SweptAnswer(PublicTip())) + [ConfirmEnd])
  }

  function Recorded(user: UserId, txid: string): Row
    requires Fresh(PublicTip())
  {
    Apply(RecordSweep(user, txid), ClaimingRow(PublicTip(), user), 31)
  }

  lemma PublicTipIsFresh()
    ensures Fresh(PublicTip())
  {
  }

  lemma RecordedFacts(user: UserId, txid: string)
    requires Fresh(PublicTip())
    ensures var r := Recorded(user, txid);
      && r.terms == PublicTip() && r.status == Claiming && r.sweepTxid == Some(txid) && r.claimedBy == Some(user)
      && r.confirmations == 0 && r.amountVerified && AwaitingSweep(r, 31)
  {
    ClaimingRowFacts(PublicTip(), user);
  }

  lemma OvertakenSettles()
    requires Fresh(PublicTip())
    ensures var r := Apply(MarkClaiming(2), Recorded(1, "w"), 31);
      && Run(Alone(ClaimingRow(PublicTip(), 1), 31), OvertakenRun())
        == Alone(Apply(SettleKeepingClaimer("w", 1, None), r, 31), 31)
      && r.claimedBy == Some(2) && r.status == Claiming && r.sweepConfirmedAt.None? && r.terms == PublicTip()
  {
    var t := PublicTip();
    ClaimingRowFacts(t, 1);
    RecordedFacts(1, "w");
    var r0, r1 := ClaimingRow(t, 1), Recorded(1, "w");
    var r2 := Apply(MarkClaiming(2), r1, 31);
    CallAlone(r0, 31, RecordSweep(1, "w"));
    CallAlone(r1, 31, MarkClaiming(2));
    KeepDecision(r2);
    ConfirmAlone(r2, 31, SettleKeepingClaimer("w", 1, None));
    RunAppend(Alone(r0, 31), [Call(7, RecordSweep(1, "w"))] + [Call(7, MarkClaiming(2))],
      ConfirmPass(7, SweptAnswer(t)) + [ConfirmEnd]);
    RunAppend(Alone(r0, 31), [Call(7, RecordSweep(1, "w"))], [Call(7, MarkClaiming(2))]);
  }

  lemma OvertakenRecordsOnce()
    ensures OnlyRecord(OvertakenRun(), 1, "w")
  {
  }

  /** From the empty table: the only record of the run is user 1's, it is the sweep that settles, and
      user 2 is credited. */
  lemma AnotherClaimerIsCredited()
    ensures Fresh(PublicTip())
    ensures var es := ClaimRun(PublicTip(), 1) + OvertakenRun();
      && OnlyRecord(es, 1, "w")
      && ClaimedIn(Run(INIT, es), 7)
      && Run(INIT, es).rows[7].sweepTxid == Some("w")
      && Run(INIT, es).rows[7].claimedBy == Some(2)
  {
    PublicTipIsFresh();
    ClaimRunRecordsNothing(PublicTip(), 1, 1, "w");
    OvertakenRecordsOnce();
    OnlyRecordAppend(ClaimRun(PublicTip(), 1), OvertakenRun(), 1, "w");
    EveryTipCanBeClaimed(PublicTip(), 1);
    RunAppend(INIT, ClaimRun(PublicTip(), 1), OvertakenRun());
    OvertakenSettles();
    KeepingSettles(Apply(MarkClaiming(2), Recorded(1, "w"), 31), 31);
  }

  /** A settle that keeps the claimer. */
  lemma KeepingSettles(r: Row, now: nat)
    requires r.status == Claiming && r.sweepConfirmedAt.None?
    ensures var r' := Apply(SettleKeepingClaimer("w", 1, None), r, now);
      r'.terms == r.terms && r'.status == Claimed && r'.sweepTxid == Some("w") && r'.claimedBy == r.claimedBy
  {
  }

  /** User 2 claims and records "c"; a stranger's "w" settles instead and clears the claimer; a reorg
      takes the settlement back, user 2 claims again, and "w" settles again. */
  function ReclaimedRun(): seq<Event> {
    var pass := ConfirmPass(7, SweptAnswer(PublicTip())) + [ConfirmEnd];
    var back := ReorgPass(7, QuietAnswer(PublicTip())) + [ReorgEnd];
    ([Call(7, RecordSweep(2, "c"))] + (pass + back)) + ([Call(7, MarkClaiming(2))] + pass)
  }

  /** The row after the stranger's settle and the revert. */
  function RevertedRow(): Row
    requires Fresh(PublicTip())
  {
    Apply(RevertOnReorg, Apply(SettleClearingClaimer("w", 1, None), Recorded(2, "c"), 31), 31)
  }

  lemma RevertedFacts()
    requires Fresh(PublicTip())
    ensures var r := RevertedRow();
      && r.terms == PublicTip() && r.status == Claiming && r.sweepTxid == Some("w") && r.claimedBy.None?
      && r.confirmations == 0 && r.amountVerified && AwaitingSweep(r, 31)
    ensures var r := Apply(SettleClearingClaimer("w", 1, None), Recorded(2, "c"), 31);
      r.terms == PublicTip() && r.sweepTxid == Some("w") && AwaitingReorgCheck(r, 31)
  {
    RecordedFacts(2, "c");
  }

  lemma StrangerSettlesAndReverts()
    requires Fresh(PublicTip())
    ensures var pass := ConfirmPass(7, SweptAnswer(PublicTip())) + [ConfirmEnd];
      Run(Alone(Recorded(2, "c"), 31), pass + (ReorgPass(7, QuietAnswer(PublicTip())) + [ReorgEnd]))
        == Alone(RevertedRow(), 31)
  {
    var t, r1 := PublicTip(), Recorded(2, "c");
    RecordedFacts(2, "c");
    RevertedFacts();
    ClearDecision(r1);
    ConfirmAlone(r1, 31, SettleClearingClaimer("w", 1, None));
    RevertAlone(Apply(SettleClearingClaimer("w", 1, None), r1, 31), 31);
    RunAppend(Alone(r1, 31), ConfirmPass(7, SweptAnswer(t)) + [ConfirmEnd], ReorgPass(7, QuietAnswer(t)) + [ReorgEnd]);
  }

  lemma ReclaimedFacts()
    requires Fresh(PublicTip())
    ensures var r := Apply(MarkClaiming(2), RevertedRow(), 31);
      && r.claimedBy == Some(2) && r.status == Claiming && r.sweepConfirmedAt.None? && r.terms == PublicTip()
      && r.sweepTxid == Some("w") && AwaitingSweep(r, 31)
  {
    RevertedFacts();
  }

  /** The second half: user 2 claims again and "w" settles. */
  lemma ReclaimTail()
    requires Fresh(PublicTip())
    ensures Run(Alone(RevertedRow(), 31),
                [Call(7, MarkClaiming(2))] + (ConfirmPass(7, SweptAnswer(PublicTip())) + [ConfirmEnd]))
         == Alone(Apply(SettleKeepingClaimer("w", 1, None), Apply(MarkClaiming(2), RevertedRow(), 31), 31), 31)
  {
    RevertedFacts();
    ReclaimedFacts();
    var r := Apply(MarkClaiming(2), RevertedRow(), 31);
    CallAlone(RevertedRow(), 31, MarkClaiming(2));
    KeepDecision(r);
    ConfirmAlone(r, 31, SettleKeepingClaimer("w", 1, None));
    RunAppend(Alone(RevertedRow(), 31), [Call(7, MarkClaiming(2))],
      ConfirmPass(7, SweptAnswer(PublicTip())) + [ConfirmEnd]);
  }

  lemma ReclaimedSettles()
    requires Fresh(PublicTip())
    ensures Run(Alone(ClaimingRow(PublicTip(), 2), 31), ReclaimedRun())
         == Alone(Apply(SettleKeepingClaimer("w", 1, None), Apply(MarkClaiming(2), RevertedRow(), 31), 31), 31)
  {
    var t, r0 := PublicTip(), ClaimingRow(PublicTip(), 2);
    var pass := ConfirmPass(7, SweptAnswer(t)) + [ConfirmEnd];
    var back := ReorgPass(7, QuietAnswer(t)) + [ReorgEnd];
    var record, claim := [Call(7, RecordSweep(2, "c"))], [Call(7, MarkClaiming(2))];
    ClaimingRowFacts(t, 2);
    CallAlone(r0, 31, RecordSweep(2, "c"));
    StrangerSettlesAndReverts();
    ReclaimTail();
    RunAppend(Alone(r0, 31), record + (pass + back), claim + pass);
    RunAppend(Alone(r0, 31), record, pass + back);
  }

  lemma ReclaimedRecordsOnce()
    ensures OnlyRecord(ReclaimedRun(), 2, "c")
  {
  }

  /** From the empty table: the only record of the run is user 2's "c", yet user 2 is credited with "w". */
  lemma StrangersSweepIsCredited()
    ensures Fresh(PublicTip())
    ensures var es := ClaimRun(PublicTip(), 2) + ReclaimedRun();
      && OnlyRecord(es, 2, "c")
      && ClaimedIn(Run(INIT, es), 7)
      && Run(INIT, es).rows[7].sweepTxid == Some("w")
      && Run(INIT, es).rows[7].claimedBy == Some(2)
  {
    PublicTipIsFresh();
    ClaimRunRecordsNothing(PublicTip(), 2, 2, "c");
    ReclaimedRecordsOnce();
    OnlyRecordAppend(ClaimRun(PublicTip(), 2), ReclaimedRun(), 2, "c");
    EveryTipCanBeClaimed(PublicTip(), 2);
    RunAppend(INIT, ClaimRun(PublicTip(), 2), ReclaimedRun());
    ReclaimedSettles();
    ReclaimedFacts();
    KeepingSettles(Apply(MarkClaiming(2), RevertedRow(), 31), 31);
  }
}
