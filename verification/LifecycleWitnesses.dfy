/** Runs from the empty table that reach the states where the code falls short of its descriptions. */
module LifecycleWitnesses {
  import opened Machine
  import opened Permutations
  import opened Text
  import opened Chain
  import opened TipRows
  import opened Sweep
  import opened Lifecycle
  import opened LifecycleTheorems
  import opened LifecycleOutcomes
  import opened WorkerRuns
  import opened TipWorkers
  import Funding

  // ---------------------------------------------------------------- every tip can be claimed

  /** One row, nothing in flight. */
  function Alone(r: Row, now: nat): Sys {
    Sys(map[r.terms.id := r], now, Idle, Idle, map[])
  }

  predicate Fresh(t: Terms) {
    Creatable(t, Some("f"), 0) && Probeable(t)
  }

  /** A response that shows exactly the declared amount, confirmed. */
  function FundedAnswer(t: Terms): ChainAnswer
    requires Fresh(t)
  {
    if t.asset in {Btc, Ltc} then
      var out := Output(Some(t.amount), ScriptPubKey(t.tipAddress, None));
      ElectrumAnswer([HistoryEntry("f", 1)], 1, [Some(VerboseTx("f", [], [out]))])
    else if t.asset in {Xmr, Wow} then LwsAnswer([AddressTx("f", 1, t.amount, 0, false)], 1, None)
    else GrinAnswer(1, [GrinCommitment(t).value], None)
  }

  lemma FundedElectrum(address: string, amount: nat)
    requires 0 < amount <= I64_MAX
    ensures var tx := VerboseTx("f", [], [Output(Some(amount), ScriptPubKey(Some(address), None))]);
      Funding.ElectrumVerdict([HistoryEntry("f", 1)], [Some(tx)], address, amount) == Funding.Verified(amount)
  {
    var out := Output(Some(amount), ScriptPubKey(Some(address), None));
    var tx, h := VerboseTx("f", [], [out]), [HistoryEntry("f", 1)];
    assert [out][..0] == [] && h[..0] == [] && [Some(tx)][..0] == [];
    assert PaidTo([out], address) == Some(amount);
    assert Funding.ElectrumTotals([], [], address) == Funding.Totals(0, 0, 0);
    assert Funding.ElectrumTotals(h, [Some(tx)], address)
      == Funding.AddEntry(Funding.Totals(0, 0, 0), Some(tx), address);
    assert IsVerboseTxSpendOf(tx, address) == Some(false);
  }

  lemma FundedLws(amount: nat)
    requires 0 < amount <= I64_MAX
    ensures Funding.ClassifyFundingAmount([AddressTx("f", 1, amount, 0, false)], amount)
      == Some(Funding.Verified(amount))
  {
    var txs := [AddressTx("f", 1, amount, 0, false)];
    assert txs[..|txs| - 1] == [];
    assert Sum(Funding.ConfirmedReceived, txs) == Funding.ConfirmedReceived(txs[0]);
    assert Sum(Funding.ConfirmedSent, txs) == Funding.ConfirmedSent(txs[0]);
  }

  lemma FundedVerdict(r: Row)
    requires Fresh(r.terms)
    ensures FundingVerdict(r, FundedAnswer(r.terms)) == Some(Funding.Verified(r.terms.amount))
  {
    var t := r.terms;
    if t.asset in {Btc, Ltc} {
      FundedElectrum(t.tipAddress.value, t.amount);
    } else if t.asset in {Xmr, Wow} {
      FundedLws(t.amount);
    }
  }

  lemma CreateAlone(t: Terms)
    requires Fresh(t)
    ensures Step(INIT, Create(t, Some("f"))) == Alone(NewRow(t, Some("f")), 0)
  {
  }

  lemma UpdateAlone(r: Row, now: nat, e: Event, u: Update)
    requires e.Count? || e.Call?
    requires UpdateFor(Alone(r, now), e, r.terms.id) == Some(u)
    ensures Step(Alone(r, now), e) == Alone(Apply(u, r, now), now)
  {
    ApplyMoves(u, r, now);
  }

  lemma TickAlone(r: Row, now: nat, n: nat)
    ensures Step(Alone(r, now), Tick(n)) == Alone(r, now + n)
  {
    EndAndWait(Alone(r, now), n);
  }

  /** Confirmed, waiting for its amount to be checked. */
  function ConfirmedRow(t: Terms): Row {
    Effect(UpdateConfirmations(t.required), NewRow(t, Some("f")), 0)
  }

  function VerifiedRow(t: Terms): Row {
    Effect(MarkVerified(t.amount), ConfirmedRow(t), 31)
  }

  function ClaimingRow(t: Terms, user: UserId): Row {
    Effect(MarkClaiming(user), VerifiedRow(t), 31)
  }

  lemma CountAlone(t: Terms)
    requires Fresh(t)
    ensures Step(Alone(NewRow(t, Some("f")), 0), Count(t.id, t.required)) == Alone(ConfirmedRow(t), 0)
  {
    UpdateAlone(NewRow(t, Some("f")), 0, Count(t.id, t.required), UpdateConfirmations(t.required));
  }

  lemma ToConfirmed(t: Terms)
    requires Fresh(t)
    ensures Run(INIT, [Create(t, Some("f")), Count(t.id, t.required), Tick(31)]) == Alone(ConfirmedRow(t), 31)
  {
    RunThree(INIT, Create(t, Some("f")), Count(t.id, t.required), Tick(31));
    CreateAlone(t);
    CountAlone(t);
    TickAlone(ConfirmedRow(t), 0, 31);
  }

  lemma ReadAlone(r: Row, now: nat)
    requires AwaitingVerification(r, now)
    ensures Step(Alone(r, now), FundingRead(0, r.terms.id)) == Alone(r, now).(funding := map[0 := FundingTask(r, None)])
  {
    NoWrites(Alone(r, now), FundingRead(0, r.terms.id));
  }

  lemma ProbeAlone(r: Row, now: nat, answer: ChainAnswer)
    ensures Step(Alone(r, now).(funding := map[0 := FundingTask(r, None)]), FundingProbe(0, answer))
         == Alone(r, now).(funding := map[0 := FundingTask(r, FundingVerdict(r, answer))])
  {
    NoWrites(Alone(r, now).(funding := map[0 := FundingTask(r, None)]), FundingProbe(0, answer));
  }

  lemma WriteAlone(r: Row, now: nat, verdict: Funding.Verdict)
    ensures Step(Alone(r, now).(funding := map[0 := FundingTask(r, Some(verdict))]), FundingWrite(0))
         == Alone(Apply(DecideFunding(verdict), r, now), now)
  {
    ApplyMoves(DecideFunding(verdict), r, now);
  }

  lemma VerifyAlone(r: Row, now: nat, answer: ChainAnswer, verdict: Funding.Verdict)
    requires AwaitingVerification(r, now) && FundingVerdict(r, answer) == Some(verdict)
    ensures Run(Alone(r, now), [FundingRead(0, r.terms.id), FundingProbe(0, answer), FundingWrite(0)])
         == Alone(Apply(DecideFunding(verdict), r, now), now)
  {
    RunThree(Alone(r, now), FundingRead(0, r.terms.id), FundingProbe(0, answer), FundingWrite(0));
    ReadAlone(r, now);
    ProbeAlone(r, now, answer);
    WriteAlone(r, now, verdict);
  }

  lemma ToVerified(t: Terms)
    requires Fresh(t)
    ensures Run(Alone(ConfirmedRow(t), 31), [FundingRead(0, t.id), FundingProbe(0, FundedAnswer(t)), FundingWrite(0)])
         == Alone(VerifiedRow(t), 31)
  {
    FundedVerdict(ConfirmedRow(t));
    VerifyAlone(ConfirmedRow(t), 31, FundedAnswer(t), Funding.Verified(t.amount));
  }

  lemma ToClaiming(t: Terms, user: UserId)
    requires Fresh(t) && (t.isPublic || t.recipient == Some(user))
    ensures Run(Alone(VerifiedRow(t), 31), [Call(t.id, MarkClaiming(user))]) == Alone(ClaimingRow(t, user), 31)
  {
    RunOne(Alone(VerifiedRow(t), 31), Call(t.id, MarkClaiming(user)));
    UpdateAlone(VerifiedRow(t), 31, Call(t.id, MarkClaiming(user)), MarkClaiming(user));
  }

  /** Events that create, fund, verify and claim a tip. */
  function ClaimRun(t: Terms, user: UserId): seq<Event>
    requires Fresh(t)
  {
    [Create(t, Some("f")), Count(t.id, t.required), Tick(31)]
    + [FundingRead(0, t.id), FundingProbe(0, FundedAnswer(t)), FundingWrite(0)]
    + [Call(t.id, MarkClaiming(user))]
  }

  lemma ClaimingRowFacts(t: Terms, user: UserId)
    requires Fresh(t) && (t.isPublic || t.recipient == Some(user))
    ensures var r := ClaimingRow(t, user);
      && r.terms == t && r.status == Claiming && r.sweepTxid.None? && r.claimedBy == Some(user)
      && AwaitingSweep(r, 31)
  {
  }

  /** Every tip the create call accepts, with the columns its asset needs, can be funded and claimed by
      whoever may claim it. */
  lemma EveryTipCanBeClaimed(t: Terms, user: UserId)
    requires Fresh(t) && (t.isPublic || t.recipient == Some(user))
    ensures Run(INIT, ClaimRun(t, user)) == Alone(ClaimingRow(t, user), 31)
    ensures ClaimingRow(t, user).status == Claiming && ClaimingRow(t, user).claimedBy == Some(user)
  {
    var a := [Create(t, Some("f")), Count(t.id, t.required), Tick(31)];
    var b := [FundingRead(0, t.id), FundingProbe(0, FundedAnswer(t)), FundingWrite(0)];
    var c := [Call(t.id, MarkClaiming(user))];
    RunAppend(INIT, a + b, c);
    RunAppend(INIT, a, b);
    ToConfirmed(t);
    ToVerified(t);
    ToClaiming(t, user);
    ClaimingRowFacts(t, user);
  }

  // ---------------------------------------------------------------- a claim that can never settle

  function TargetedGrinTip(): Terms {
    Terms(7, 0, Some(1), false, Grin, 5, None, None, Some("c"), 10, 0)
  }

  /** The create call accepts a grin tip addressed to one user, and its recipient can claim it; from
      there no run settles it. */
  lemma TargetedGrinIsReached()
    ensures Fresh(TargetedGrinTip())
    ensures var s := Run(INIT, ClaimRun(TargetedGrinTip(), 1));
      && 7 in s.rows && s.rows[7].status == Claiming && TargetedGrin(s.rows[7].terms)
      && forall es :: !Settles(s, es, 7)
  {
    assert Trim("c") == "c";
    var t := TargetedGrinTip();
    EveryTipCanBeClaimed(t, 1);
    ClaimingRowFacts(t, 1);
    var s := Run(INIT, ClaimRun(t, 1));
    RunKeepsInv(INIT, ClaimRun(t, 1));
    CanSettleExactly(s, 7);
  }

  // ---------------------------------------------------------------- a dropped claimer

  function LateRecord(id: TipId, user: UserId, t: Terms): seq<Event> {
    [ConfirmBegin([id]), Call(id, RecordSweep(user, "w"))] + [ConfirmProbe(SweptAnswer(t)), ConfirmWrite]
  }

  lemma RecordEffect(r: Row, user: UserId, now: nat)
    requires r.status == Claiming && r.sweepConfirmedAt.None? && r.terms.isPublic && r.sweepTxid.None?
    ensures var r' := Apply(RecordSweep(user, "w"), r, now);
      && r'.status == Claiming && r'.sweepConfirmedAt.None? && r'.terms == r.terms
      && r'.sweepTxid == Some("w") && r'.claimedBy.Some?
  {
  }

  lemma RecordAfterRead(s: Sys, id: TipId, user: UserId)
    requires id in s.rows && AwaitingSweep(s.rows[id], s.now) && s.confirm.Idle?
    ensures Run(s, [ConfirmBegin([id]), Call(id, RecordSweep(user, "w"))])
         == s.(rows := Updated(s.rows, id, RecordSweep(user, "w"), s.now), confirm := Busy([s.rows[id]], None))
  {
    var record := Call(id, RecordSweep(user, "w"));
    assert ValidCall(RecordSweep(user, "w"));
    RunTwo(s, ConfirmBegin([id]), record);
    BeginConfirm(s, id);
    OneUpdate(Step(s, ConfirmBegin([id])), record, id, RecordSweep(user, "w"));
  }

  /** A single old spend, on a snapshot that records nothing, settles without the claimer. */
  lemma OneSpendClears(snap: Row, spend: ConfirmedSpend)
    requires snap.sweepTxid.None? && spend.blockHeight == 1
    ensures DecideSettle(snap, ProbeOk([spend], 100)) == SettleClearingClaimer(spend.txid, 1, spend.blockHash)
  {
    OneOldSpendIsDue(snap, ProbeOk([spend], 100));
    assert PickWinner([spend]).value in [spend];
  }

  lemma ProbeAndWrite(s: Sys, snap: Row, answer: ChainAnswer, u: Update)
    requires s.confirm == Busy([snap], None) && DecideSettle(snap, Probe(snap, answer)) == u
    ensures Run(s, [ConfirmProbe(answer), ConfirmWrite])
         == s.(rows := Updated(s.rows, snap.terms.id, u, s.now), confirm := Busy([], None))
  {
    RunTwo(s, ConfirmProbe(answer), ConfirmWrite);
    ProbeConfirm(s, answer);
    ConfirmWriteRow(Step(s, ConfirmProbe(answer)));
    assert [snap][1..] == [];
  }

  /** The row after the late record and the settle. */
  lemma RecordThenSettle(rows: map<TipId, Row>, id: TipId, user: UserId, now: nat)
    requires id in rows
    requires var r := rows[id];
      r.status == Claiming && r.sweepConfirmedAt.None? && r.terms.isPublic && r.sweepTxid.None?
    ensures var recorded := Updated(rows, id, RecordSweep(user, "w"), now);
      var r' := Updated(recorded, id, SettleClearingClaimer("w", 1, None), now);
      id in r' && r'[id].status == Claimed && r'[id].sweepTxid == Some("w") && r'[id].claimedBy.None?
  {
    RecordEffect(rows[id], user, now);
  }

  lemma SweptDecision(snap: Row)
    requires snap.terms.asset == Btc && snap.terms.tipAddress.Some? && snap.sweepTxid.None?
    ensures DecideSettle(snap, Probe(snap, SweptAnswer(snap.terms))) == SettleClearingClaimer("w", 1, None)
  {
    SweptElectrum(snap);
    OneSpendClears(snap, ConfirmedSpend("w", 1, None));
  }

  /** The claimer records the very sweep that settles the tip, but after the cycle read the row: the tip
      is settled by that sweep and its claimer is gone. */
  lemma LateRecordDropsClaimer(s: Sys, id: TipId, user: UserId)
    requires id in s.rows && s.rows[id].terms.id == id && AwaitingSweep(s.rows[id], s.now) && s.confirm.Idle?
    requires s.rows[id].terms.asset == Btc && s.rows[id].terms.tipAddress.Some?
    requires s.rows[id].terms.isPublic && s.rows[id].sweepTxid.None?
    ensures var r := Run(s, LateRecord(id, user, s.rows[id].terms)).rows;
      id in r && r[id].status == Claimed && r[id].sweepTxid == Some("w") && r[id].claimedBy.None?
  {
    var snap := s.rows[id];
    var answer := SweptAnswer(snap.terms);
    var early := [ConfirmBegin([id]), Call(id, RecordSweep(user, "w"))];
    RunAppend(s, early, [ConfirmProbe(answer), ConfirmWrite]);
    RecordAfterRead(s, id, user);
    SweptDecision(snap);
    ProbeAndWrite(Run(s, early), snap, answer, SettleClearingClaimer("w", 1, None));
    RecordThenSettle(s.rows, id, user, s.now);
  }

  lemma SweptElectrum(r: Row)
    requires r.terms.asset == Btc && r.terms.tipAddress.Some?
    ensures Probe(r, SweptAnswer(r.terms)) == ProbeOk([ConfirmedSpend("w", 1, None)], 100)
  {
    var history, txs := [HistoryEntry("w", 1)], [Some(VerboseTx("w", [], []))];
    assert history[..0] == [] && txs[..0] == [];
    assert ElectrumSpends([], [], r.terms.tipAddress.value) == Some([]);
    assert IsVerboseTxSpendOf(txs[0].value, r.terms.tipAddress.value) == Some(true);
    assert ElectrumSpends(history, txs, r.terms.tipAddress.value) == Some([] + [ConfirmedSpend("w", 1, None)]);
  }

  function PublicTip(): Terms {
    Terms(7, 0, None, true, Btc, 5, Some("a"), None, None, 0, 0)
  }

  lemma PublicTipIsClaimed()
    ensures Fresh(PublicTip())
    ensures var s := Run(INIT, ClaimRun(PublicTip(), 1));
      && Inv(s) && s.confirm.Idle? && 7 in s.rows && s.rows[7].terms == PublicTip()
      && AwaitingSweep(s.rows[7], s.now) && s.rows[7].sweepTxid.None? && s.rows[7].claimedBy == Some(1)
  {
    EveryTipCanBeClaimed(PublicTip(), 1);
    ClaimingRowFacts(PublicTip(), 1);
    RunKeepsInv(INIT, ClaimRun(PublicTip(), 1));
  }

  /** A run from the empty table in which the row is settled by the sweep its claimer recorded, and yet
      ends without a claimer. */
  lemma RecordedClaimerIsDropped()
    ensures Fresh(PublicTip())
    ensures var r := Run(INIT, ClaimRun(PublicTip(), 1) + LateRecord(7, 1, PublicTip())).rows;
      7 in r && r[7].status == Claimed && r[7].sweepTxid == Some("w") && r[7].claimedBy.None?
  {
    PublicTipIsClaimed();
    RunAppend(INIT, ClaimRun(PublicTip(), 1), LateRecord(7, 1, PublicTip()));
    LateRecordDropsClaimer(Run(INIT, ClaimRun(PublicTip(), 1)), 7, 1);
  }

  // ---------------------------------------------------------------- a settle on a tip below the winner

  /** A server whose reported tip lags two blocks behind the spend it lists. */
  function LaggingAnswer(): ChainAnswer {
    ElectrumAnswer([HistoryEntry("w", 5)], 3, [Some(VerboseTx("w", [], []))])
  }

  lemma LaggingProbe(r: Row)
    requires r.terms.asset == Btc && r.terms.tipAddress.Some?
    ensures Probe(r, LaggingAnswer()) == ProbeOk([ConfirmedSpend("w", 5, None)], 3)
    ensures DueWinner(r, Probe(r, LaggingAnswer())) == Some(ConfirmedSpend("w", 5, None))
  {
    var history, txs := [HistoryEntry("w", 5)], [Some(VerboseTx("w", [], []))];
    assert history[..0] == [] && txs[..0] == [];
    assert ElectrumSpends([], [], r.terms.tipAddress.value) == Some([]);
    assert IsVerboseTxSpendOf(txs[0].value, r.terms.tipAddress.value) == Some(true);
    assert ElectrumSpends(history, txs, r.terms.tipAddress.value) == Some([] + [ConfirmedSpend("w", 5, None)]);
    assert [ConfirmedSpend("w", 5, None)][..0] == [];
    assert PickWinner([ConfirmedSpend("w", 5, None)]) == Some(ConfirmedSpend("w", 5, None));
    DepthGateExactly(3, 5, Btc);
  }

  lemma LaggingPass(s: Sys, id: TipId)
    requires Inv(s) && id in s.rows && AwaitingSweep(s.rows[id], s.now) && s.confirm.Idle?
    requires s.rows[id].terms.asset == Btc
    ensures ClaimedIn(Run(s, ConfirmPass(id, LaggingAnswer())), id)
    ensures Run(s, ConfirmPass(id, LaggingAnswer())).rows[id].sweepTxid == Some("w")
  {
    assert RowInv(s.rows[id]);
    LaggingProbe(s.rows[id]);
    ConfirmPassSettles(s, id, LaggingAnswer());
  }

  /** A run from the empty table that settles a row at height 5 on a reported tip of 3. */
  lemma LaggingTipSettles()
    ensures Fresh(PublicTip())
    ensures var s := Run(INIT, ClaimRun(PublicTip(), 1) + ConfirmPass(7, LaggingAnswer()));
      && ClaimedIn(s, 7) && s.rows[7].sweepTxid == Some("w")
      && LaggingAnswer().tip < LaggingAnswer().history[0].height - 1
  {
    PublicTipIsClaimed();
    RunAppend(INIT, ClaimRun(PublicTip(), 1), ConfirmPass(7, LaggingAnswer()));
    LaggingPass(Run(INIT, ClaimRun(PublicTip(), 1)), 7);
  }
}
