/** Where a tip can end up: user calls succeed exactly as documented, only
    `clawed_back` is final, and the number of status changes is bounded. */
module LifecycleOutcomes {
  import opened Machine
  import opened Chain
  import opened TipRows
  import opened Sweep
  import opened Lifecycle
  import opened LifecycleTheorems

  // ---------------------------------------------------------------- user calls

  lemma GuardsMatchDocs(r: Row, user: UserId, now: nat)
    requires RowInv(r)
    ensures Guard(MarkClaiming(user), r, now)
      <==> IsClaimable(r) && (r.terms.isPublic || r.terms.recipient == Some(user))
    ensures Guard(Clawback(user), r, now) <==> user == r.terms.sender && r.status !in {Draft, Claimed, ClawedBack}
    ensures Guard(CancelDraft(user), r, now) <==> user == r.terms.sender && r.fundingTxid.None? && r.status == Draft
  {
  }

  /** In every reachable state a claim succeeds exactly when the row is shown as claimable and the
      caller may claim it, a clawback exactly when the caller is the sender of a row that is neither
      a draft nor finished, and a cancel exactly on the caller's own unfunded draft. */
  lemma CallsSucceedAsAdvertised(es: seq<Event>, id: TipId, user: UserId)
    requires id in Run(INIT, es).rows
    ensures var s := Run(INIT, es); var r := s.rows[id];
      && (Guard(MarkClaiming(user), r, s.now)
        <==> IsClaimable(r) && (r.terms.isPublic || r.terms.recipient == Some(user)))
      && (Guard(Clawback(user), r, s.now) <==> user == r.terms.sender && r.status !in {Draft, Claimed, ClawedBack})
      && (Guard(CancelDraft(user), r, s.now) <==> user == r.terms.sender && r.fundingTxid.None? && r.status == Draft)
  {
    RunKeepsInv(INIT, es);
    GuardsMatchDocs(Run(INIT, es).rows[id], user, Run(INIT, es).now);
  }

  /** First recorder wins: while a row is claiming, no user call replaces a recorded sweep. */
  lemma RecordedSweepIsKept(es: seq<Event>, id: TipId, call: Update)
    requires ValidCall(call) && id in Run(INIT, es).rows && Run(INIT, es).rows[id].sweepTxid.Some?
    ensures Step(Run(INIT, es), Call(id, call)).rows[id].sweepTxid == Run(INIT, es).rows[id].sweepTxid
  {
    RunKeepsInv(INIT, es);
    SweepFieldsMove(Run(INIT, es), Call(id, call), id);
  }

  lemma GrinExcessStep(s: Sys, e: Event, id: TipId)
    requires Inv(s) && id in s.rows && s.rows[id].terms.asset == Grin && s.rows[id].sweepTxid.Some?
    ensures RowAfter(s, e, id).sweepTxid == s.rows[id].sweepTxid && RowAfter(s, e, id).terms == s.rows[id].terms
  {
    SweepFieldsMove(s, e, id);
    if UpdateFor(s, e, id).Some? {
      IssuedUpdatesAreSound(s, e, id);
    }
  }

  /** For a grin tip, whose recorded sweep is the kernel excess that dates the spend, nothing at all
      replaces it: not a settle, not a reorg revert. */
  lemma {:induction false} GrinExcessIsImmutable(s: Sys, es: seq<Event>, id: TipId)
    requires Inv(s) && id in s.rows && s.rows[id].terms.asset == Grin && s.rows[id].sweepTxid.Some?
    ensures id in Run(s, es).rows && Run(s, es).rows[id].sweepTxid == s.rows[id].sweepTxid
    ensures Run(s, es).rows[id].terms == s.rows[id].terms
  {
    if es != [] {
      var before, e := es[..|es| - 1], es[|es| - 1];
      GrinExcessIsImmutable(s, before, id);
      RunKeepsInv(s, before);
      GrinExcessStep(Run(s, before), e, id);
      assert Run(s, es).rows[id] == RowAfter(Run(s, before), e, id);
    }
  }

  /** A settle keeps the claimer the row names exactly when the sweep recorded on the snapshot is the
      winner, and it keeps one only on a row that records the winner. Whether that claimer is the user
      who recorded it is another matter, settled in `LifecycleCredit`. */
  lemma AttributionExactly(s: Sys, id: TipId)
    requires Inv(s) && id in s.rows && s.rows[id].status == Claiming
    requires HasProbe(s.confirm) && s.confirm.queue[0].terms.id == id
    requires DueWinner(s.confirm.queue[0], s.confirm.probe.value).Some?
    ensures var r, r' := s.rows[id], RowAfter(s, ConfirmWrite, id);
      var winner := DueWinner(s.confirm.queue[0], s.confirm.probe.value).value.txid;
      && r'.status == Claimed && r'.sweepTxid == Some(winner)
      && r'.claimedBy == (if s.confirm.queue[0].sweepTxid == Some(winner) then r.claimedBy else None)
      && (r'.claimedBy.Some? ==> r.sweepTxid == Some(winner))
  {
    assert Current(s.rows, s.confirm.queue[0]);
  }

  /** The call by which `user` can become the recorded claimer of row `id`. */
  predicate ClaimsAs(e: Event, id: TipId, user: UserId) {
    e.Call? && e.id == id
    && (e.update == MarkClaiming(user) || (e.update.RecordSweep? && e.update.user == user))
  }

  lemma ClaimerMoves(u: Update, r: Row, now: nat)
    ensures var r' := Apply(u, r, now);
      && r'.terms == r.terms
      && (r'.claimedBy.Some? && r'.claimedBy != r.claimedBy ==>
            && (u == MarkClaiming(r'.claimedBy.value) || (u.RecordSweep? && u.user == r'.claimedBy.value))
            && (r.terms.isPublic || r.terms.recipient == r'.claimedBy))
  {
  }

  lemma ClaimerStep(s: Sys, e: Event, id: TipId)
    requires id in s.rows
    ensures var r, r' := s.rows[id], RowAfter(s, e, id);
      && r'.terms == r.terms
      && (r'.claimedBy.Some? && r'.claimedBy != r.claimedBy ==>
            ClaimsAs(e, id, r'.claimedBy.value) && (r.terms.isPublic || r.terms.recipient == r'.claimedBy))
  {
    if UpdateFor(s, e, id).Some? {
      UpdatesHaveIssuers(s, e, id);
      ClaimerMoves(UpdateFor(s, e, id).value, s.rows[id], s.now);
    }
  }

  /** In every run a recorded claimer made a claiming or recording call on that very row, and a tip
      addressed to one user is never recorded as claimed by another. */
  lemma {:induction false} ClaimerHasClaimed(es: seq<Event>, id: TipId) returns (k: nat)
    requires id in Run(INIT, es).rows && Run(INIT, es).rows[id].claimedBy.Some?
    ensures var r := Run(INIT, es).rows[id];
      && k < |es| && ClaimsAs(es[k], id, r.claimedBy.value)
      && (r.terms.isPublic || r.terms.recipient == r.claimedBy)
  {
    var n := |es| - 1;
    var s := Run(INIT, es[..n]);
    assert id in s.rows;
    ClaimerStep(s, es[n], id);
    if s.rows[id].claimedBy == Run(INIT, es).rows[id].claimedBy {
      k := ClaimerHasClaimed(es[..n], id);
      assert es[..n][k] == es[k];
    } else {
      k := n;
    }
  }

  // ---------------------------------------------------------------- convergence

  /** `answer` shows these spends, with the winner at depth. */
  predicate ShowsDueWinner(r: Row, answer: ChainAnswer) {
    DueWinner(r, Probe(r, answer)).Some?
  }

  /** One confirm pass over the row. */
  function ConfirmPass(id: TipId, answer: ChainAnswer): seq<Event> {
    [ConfirmBegin([id]), ConfirmProbe(answer), ConfirmWrite]
  }

  /** A step that issues no update and creates nothing leaves the table alone. */
  lemma NoWrites(s: Sys, e: Event)
    requires !e.Create? && forall id :: id in s.rows ==> UpdateFor(s, e, id).None?
    ensures RowsAfter(s, e) == s.rows
  {
  }

  lemma RunThree(s: Sys, a: Event, b: Event, c: Event)
    ensures Run(s, [a, b, c]) == Step(Step(Step(s, a), b), c)
  {
    RunAppend(s, [a, b], [c]);
    RunAppend(s, [a], [b]);
    RunOne(s, a);
    RunOne(Step(s, a), b);
    RunOne(Step(Step(s, a), b), c);
    assert [a, b, c] == [a, b] + [c] && [a, b] == [a] + [b];
  }

  lemma BeginConfirm(s: Sys, id: TipId)
    requires id in s.rows && AwaitingSweep(s.rows[id], s.now) && s.confirm.Idle?
    ensures Step(s, ConfirmBegin([id])) == s.(confirm := Busy([s.rows[id]], None))
  {
    NoWrites(s, ConfirmBegin([id]));
    assert ConfirmAfter(s, ConfirmBegin([id])).queue == [s.rows[id]];
  }

  lemma ProbeConfirm(s: Sys, answer: ChainAnswer)
    requires s.confirm.Busy? && s.confirm.queue != [] && s.confirm.probe.None?
    ensures Step(s, ConfirmProbe(answer))
         == s.(confirm := Busy(s.confirm.queue, Some(Probe(s.confirm.queue[0], answer))))
  {
    NoWrites(s, ConfirmProbe(answer));
  }

  lemma WriteConfirm(s: Sys, id: TipId)
    requires HasProbe(s.confirm) && id in s.rows && s.confirm.queue[0].terms.id == id
    requires s.rows[id].status == Claiming && s.rows[id].sweepConfirmedAt.None?
    requires DueWinner(s.confirm.queue[0], s.confirm.probe.value).Some?
    ensures var s' := Step(s, ConfirmWrite);
      && ClaimedIn(s', id)
      && s'.rows[id].sweepTxid == Some(DueWinner(s.confirm.queue[0], s.confirm.probe.value).value.txid)
      && s'.rows[id].terms == s.rows[id].terms
  {
  }

  lemma ConfirmPassSettles(s: Sys, id: TipId, answer: ChainAnswer)
    requires Inv(s) && id in s.rows && AwaitingSweep(s.rows[id], s.now) && s.confirm.Idle?
    requires ShowsDueWinner(s.rows[id], answer)
    ensures var s' := Run(s, ConfirmPass(id, answer));
      && Inv(s') && ClaimedIn(s', id)
      && s'.rows[id].sweepTxid == Some(DueWinner(s.rows[id], Probe(s.rows[id], answer)).value.txid)
      && s'.rows[id].terms == s.rows[id].terms
  {
    RunKeepsInv(s, ConfirmPass(id, answer));
    RunThree(s, ConfirmBegin([id]), ConfirmProbe(answer), ConfirmWrite);
    BeginConfirm(s, id);
    ProbeConfirm(Step(s, ConfirmBegin([id])), answer);
    WriteConfirm(Step(Step(s, ConfirmBegin([id])), ConfirmProbe(answer)), id);
  }

  /** Same spends as a set, however the server orders them. */
  predicate SameSpends(a: ProbeResult, b: ProbeResult) {
    && a.ProbeOk? && b.ProbeOk?
    && (forall s :: s in a.spends ==> s in b.spends)
    && (forall s :: s in b.spends ==> s in a.spends)
  }

  predicate SeesOnly(s: Sys, e: Event, id: TipId, seen: ProbeResult) {
    e.ReorgWrite? && HasProbe(s.reorg) && s.reorg.queue[0].terms.id == id ==>
      s.reorg.probe.value.ProbeFailed? || SameSpends(seen, s.reorg.probe.value)
  }

  /** Every reorg write on this row acts on a failed probe or on one showing these same spends. */
  predicate ReorgSeesOnly(s: Sys, es: seq<Event>, id: TipId, seen: ProbeResult)
    decreases |es|
  {
    es != [] ==> SeesOnly(s, es[0], id, seen) && ReorgSeesOnly(Step(s, es[0]), es[1..], id, seen)
  }

  lemma {:induction false} SameSpendsNeverContradict(s: Sys, es: seq<Event>, id: TipId, seen: ProbeResult,
                                                     winner: ConfirmedSpend)
    requires ReorgSeesOnly(s, es, id, seen) && seen.ProbeOk? && winner in seen.spends
    ensures NeverContradicted(s, es, id, winner.txid)
    decreases |es|
  {
    if es != [] {
      SameSpendsNeverContradict(Step(s, es[0]), es[1..], id, seen, winner);
      if es[0].ReorgWrite? && HasProbe(s.reorg) && SameSpends(seen, s.reorg.probe.value) {
        assert winner in s.reorg.probe.value.spends;
      }
    }
  }

  // ---------------------------------------------------------------- what is final

  predicate SameClawback(a: Row, b: Row) {
    && b.status == ClawedBack && b.clawedBackAt == a.clawedBackAt && b.sweepConfirmedAt.None?
    && b.sweepTxid == a.sweepTxid && b.claimedBy == a.claimedBy && b.terms == a.terms
  }

  lemma ApplyToClawedBack(u: Update, r: Row, now: nat)
    requires RowInv(r) && r.status == ClawedBack
    ensures SameClawback(r, Apply(u, r, now))
  {
  }

  lemma ClawedBackStep(s: Sys, e: Event, id: TipId)
    requires Inv(s) && id in s.rows && s.rows[id].status == ClawedBack
    ensures id in Step(s, e).rows && SameClawback(s.rows[id], Step(s, e).rows[id])
  {
    if UpdateFor(s, e, id).Some? {
      ApplyToClawedBack(UpdateFor(s, e, id).value, s.rows[id], s.now);
    }
  }

  /** A clawed-back tip stays clawed back in every continuation, unsettled and untouched. */
  lemma {:induction false} ClawedBackIsFinal(s: Sys, es: seq<Event>, id: TipId)
    requires Inv(s) && id in s.rows && s.rows[id].status == ClawedBack
    ensures id in Run(s, es).rows && SameClawback(s.rows[id], Run(s, es).rows[id])
  {
    if es != [] {
      var before, e := es[..|es| - 1], es[|es| - 1];
      ClawedBackIsFinal(s, before, id);
      RunKeepsInv(s, before);
      ClawedBackStep(Run(s, before), e, id);
    }
  }

  /** A well-formed response that shows no spend of the row. */
  function QuietAnswer(t: Terms): ChainAnswer {
    if t.asset in {Btc, Ltc} then ElectrumAnswer([], 0, [])
    else if t.asset in {Xmr, Wow} then LwsAnswer([], 1, None)
    else GrinAnswer(0, if GrinCommitment(t).Some? then [GrinCommitment(t).value] else [], None)
  }

  function Wait(r: Row): nat {
    if r.lastCheck.Some? then r.lastCheck.value + RECHECK_SECONDS + 1 else 0
  }

  /** One reorg pass over the row. */
  function ReorgPass(id: TipId, answer: ChainAnswer): seq<Event> {
    [ReorgBegin([id]), ReorgProbe(answer), ReorgWrite]
  }

  lemma BeginReorg(s: Sys, id: TipId)
    requires id in s.rows && AwaitingReorgCheck(s.rows[id], s.now) && s.reorg.Idle?
    ensures Step(s, ReorgBegin([id])) == s.(reorg := Busy([s.rows[id]], None))
  {
    NoWrites(s, ReorgBegin([id]));
    assert ReorgAfter(s, ReorgBegin([id])).queue == [s.rows[id]];
  }

  lemma ProbeReorg(s: Sys, answer: ChainAnswer)
    requires s.reorg.Busy? && s.reorg.queue != [] && s.reorg.probe.None?
    ensures Step(s, ReorgProbe(answer)) == s.(reorg := Busy(s.reorg.queue, Some(Probe(s.reorg.queue[0], answer))))
  {
    NoWrites(s, ReorgProbe(answer));
  }

  lemma EndAndWait(s: Sys, n: nat)
    ensures Step(s, ReorgEnd) == s.(reorg := Idle)
    ensures Step(s, ConfirmEnd) == s.(confirm := Idle)
    ensures Step(s, Tick(n)) == s.(now := s.now + n)
  {
    NoWrites(s, ReorgEnd);
    NoWrites(s, ConfirmEnd);
    NoWrites(s, Tick(n));
  }

  /** Free the lock if it is held and let the row come due again. */
  lemma ComeDue(s: Sys, id: TipId, end: Event)
    requires id in s.rows && (end.ReorgEnd? || end.ConfirmEnd?)
    ensures var s' := Run(s, [end, Tick(Wait(s.rows[id]))]);
      && s'.rows == s.rows && DueForCheck(s.rows[id], s'.now)
      && (end.ReorgEnd? ==> s'.reorg.Idle?) && (end.ConfirmEnd? ==> s'.confirm.Idle?)
  {
    var tick := Tick(Wait(s.rows[id]));
    RunFirst(s, end, [tick]);
    RunOne(Step(s, end), tick);
    assert [end, tick] == [end] + [tick];
    EndAndWait(s, 0);
    EndAndWait(Step(s, end), Wait(s.rows[id]));
  }

  /** Events that take a claimed row back: wait until it is due, then a response without its sweep. */
  function Unsettling(r: Row): seq<Event> {
    [ReorgEnd, Tick(Wait(r))] + ReorgPass(r.terms.id, QuietAnswer(r.terms))
  }

  lemma QuietAnswerReverts(r: Row)
    requires Probeable(r.terms) && r.sweepTxid.Some?
    ensures DecideReorg(r, Probe(r, QuietAnswer(r.terms))) == RevertOnReorg
  {
    assert Probe(r, QuietAnswer(r.terms)).spends == [];
  }

  lemma EscapeFromClaimed(s: Sys, id: TipId)
    requires Inv(s) && ClaimedIn(s, id)
    ensures id in Run(s, Unsettling(s.rows[id])).rows && !ClaimedIn(Run(s, Unsettling(s.rows[id])), id)
  {
    var r := s.rows[id];
    var quiet := QuietAnswer(r.terms);
    RunAppend(s, [ReorgEnd, Tick(Wait(r))], ReorgPass(id, quiet));
    ComeDue(s, id, ReorgEnd);
    var due := Run(s, [ReorgEnd, Tick(Wait(r))]);
    RunThree(due, ReorgBegin([id]), ReorgProbe(quiet), ReorgWrite);
    BeginReorg(due, id);
    ProbeReorg(Step(due, ReorgBegin([id])), quiet);
    QuietAnswerReverts(r);
    WriteReorg(Step(Step(due, ReorgBegin([id])), ReorgProbe(quiet)), id);
  }

  lemma WriteReorg(s: Sys, id: TipId)
    requires HasProbe(s.reorg) && id in s.rows && s.reorg.queue[0].terms.id == id
    requires s.rows[id].status == Claimed && s.rows[id].sweepConfirmedAt.Some?
    requires DecideReorg(s.reorg.queue[0], s.reorg.probe.value) == RevertOnReorg
    ensures id in Step(s, ReorgWrite).rows && Step(s, ReorgWrite).rows[id].status == Claiming
  {
  }

  /** The sender's own call moves any row that is neither settled nor clawed back. */
  lemma SenderMoves(r: Row, now: nat)
    requires RowInv(r) && r.status !in {Claimed, ClawedBack}
    ensures var u := if r.status == Draft then CancelDraft(r.terms.sender) else Clawback(r.terms.sender);
      ValidCall(u) && Apply(u, r, now).status != r.status
  {
  }

  lemma EscapeByCall(s: Sys, id: TipId)
    requires Inv(s) && id in s.rows && s.rows[id].status !in {Claimed, ClawedBack}
    ensures exists es :: id in Run(s, es).rows && Run(s, es).rows[id].status != s.rows[id].status
  {
    var r := s.rows[id];
    assert RowInv(r);
    SenderMoves(r, s.now);
    var call := Call(id, if r.status == Draft then CancelDraft(r.terms.sender) else Clawback(r.terms.sender));
    RunOne(s, call);
    assert Run(s, [call]).rows[id] == RowAfter(s, call, id);
  }

  /** `clawed_back` is the only final status: every reachable row in any other status, including the
      ones called terminal, has a continuation that moves it on. */
  lemma OnlyClawedBackIsFinal(s: Sys, id: TipId)
    requires Inv(s) && id in s.rows
    ensures (forall es :: id in Run(s, es).rows && Run(s, es).rows[id].status == s.rows[id].status)
       <==> s.rows[id].status == ClawedBack
  {
    var r := s.rows[id];
    if r.status == ClawedBack {
      forall es: seq<Event>
        ensures id in Run(s, es).rows && Run(s, es).rows[id].status == ClawedBack
      {
        ClawedBackIsFinal(s, es, id);
      }
    } else if r.status == Claimed {
      EscapeFromClaimed(s, id);
    } else {
      EscapeByCall(s, id);
    }
  }

  // ---------------------------------------------------------------- which claims can settle

  predicate Settles(s: Sys, es: seq<Event>, id: TipId) {
    ClaimedIn(Run(s, es), id)
  }

  predicate TargetedGrin(t: Terms) {
    t.asset == Grin && !t.isPublic
  }

  /** A response that shows one old spend of the row. */
  function SweptAnswer(t: Terms): ChainAnswer {
    if t.asset in {Btc, Ltc} then ElectrumAnswer([HistoryEntry("w", 1)], 100, [Some(VerboseTx("w", [], []))])
    else if t.asset in {Xmr, Wow} then LwsAnswer([AddressTx("w", 1, 0, 1, false)], 100, None)
    else GrinAnswer(100, [], Some(Some(1)))
  }

  lemma SweptAnswerIsDue(r: Row)
    requires RowInv(r) && r.status == Claiming
    requires r.terms.asset == Grin ==> r.sweepTxid.Some?
    ensures ShowsDueWinner(r, SweptAnswer(r.terms))
  {
    var answer := SweptAnswer(r.terms);
    if answer.ElectrumAnswer? {
      assert answer.history[..|answer.history| - 1] == [] && answer.txs[..|answer.history| - 1] == [];
      assert ElectrumSpends([], [], r.terms.tipAddress.value) == Some([]);
      assert IsVerboseTxSpendOf(answer.txs[0].value, r.terms.tipAddress.value) == Some(true);
      assert ElectrumSpends(answer.history, answer.txs, r.terms.tipAddress.value).value
        == [ConfirmedSpend("w", 1, None)];
    } else if answer.LwsAnswer? {
      assert answer.transactions[..0] == [];
      assert LwsSpends(answer.transactions) == [ConfirmedSpend("w", 1, None)];
    }
    OneOldSpendIsDue(r, Probe(r, answer));
  }

  lemma OneOldSpendIsDue(r: Row, result: ProbeResult)
    requires result.ProbeOk? && |result.spends| == 1 && result.tipHeight == 100 && result.spends[0].blockHeight == 1
    ensures DueWinner(r, result).Some?
  {
    assert result.spends[..0] == [];
    assert PickWinner(result.spends) == Some(result.spends[0]);
    DepthGateExactly(100, 1, r.terms.asset);
  }

  /** From any reachable claiming row there is a run that settles it, except for one family: a tip
      that is both targeted and grin can never settle, because only a recorded excess can date its
      spend and recording a sweep is refused on a tip that is not public. */
  lemma CanSettleExactly(s: Sys, id: TipId)
    requires Inv(s) && id in s.rows && s.rows[id].status == Claiming
    ensures (exists es :: Settles(s, es, id)) <==> !TargetedGrin(s.rows[id].terms)
  {
    var r := s.rows[id];
    if TargetedGrin(r.terms) {
      forall es: seq<Event>
        ensures !Settles(s, es, id)
      {
        TermsStay(s, es, id);
        RunKeepsInv(s, es);
      }
    } else {
      var es := SettlingRun(s, id);
      assert Settles(s, es, id);
    }
  }

  lemma {:induction false} TermsStay(s: Sys, es: seq<Event>, id: TipId)
    requires Inv(s) && id in s.rows
    ensures id in Run(s, es).rows && Run(s, es).rows[id].terms == s.rows[id].terms
  {
    if es != [] {
      var before := es[..|es| - 1];
      TermsStay(s, before, id);
      RunKeepsInv(s, before);
      SweepFieldsMove(Run(s, before), es[|es| - 1], id);
    }
  }

  lemma RecordingHits(r: Row, now: nat)
    requires RowInv(r) && r.status == Claiming && r.terms.isPublic && r.sweepTxid.None?
    ensures var u := RecordSweep(r.terms.sender, "w");
      ValidCall(u) && Apply(u, r, now).status == Claiming && Apply(u, r, now).sweepTxid == Some("w")
  {
  }

  lemma RecordingIsAccepted(s: Sys, id: TipId, record: Event)
    requires RowsInv(s.rows) && id in s.rows && s.rows[id].status == Claiming
    requires s.rows[id].terms.isPublic && s.rows[id].sweepTxid.None?
    requires record == Call(id, RecordSweep(s.rows[id].terms.sender, "w"))
    ensures id in Step(s, record).rows
    ensures Step(s, record).rows[id].status == Claiming && Step(s, record).rows[id].sweepTxid == Some("w")
  {
    RecordingHits(s.rows[id], s.now);
    assert Step(s, record).rows[id] == RowAfter(s, record, id);
  }

  lemma SettlingRun(s: Sys, id: TipId) returns (es: seq<Event>)
    requires Inv(s) && id in s.rows && s.rows[id].status == Claiming && !TargetedGrin(s.rows[id].terms)
    ensures ClaimedIn(Run(s, es), id)
  {
    var r := s.rows[id];
    if r.terms.asset == Grin && r.sweepTxid.None? {
      var record := Call(id, RecordSweep(r.terms.sender, "w"));
      RecordingIsAccepted(s, id, record);
      StepKeepsInv(s, record);
      var rest := SettleRecorded(Step(s, record), id);
      RunFirst(s, record, rest);
      es := [record] + rest;
    } else {
      es := SettleRecorded(s, id);
    }
  }

  lemma SettleRecorded(s: Sys, id: TipId) returns (es: seq<Event>)
    requires Inv(s) && id in s.rows && s.rows[id].status == Claiming
    requires s.rows[id].terms.asset == Grin ==> s.rows[id].sweepTxid.Some?
    ensures ClaimedIn(Run(s, es), id)
  {
    var r := s.rows[id];
    var wait := [ConfirmEnd, Tick(Wait(r))];
    var answer := SweptAnswer(r.terms);
    ComeDue(s, id, ConfirmEnd);
    RunKeepsInv(s, wait);
    SweptAnswerIsDue(r);
    ConfirmPassSettles(Run(s, wait), id, answer);
    RunAppend(s, wait, ConfirmPass(id, answer));
    es := wait + ConfirmPass(id, answer);
  }

  // ---------------------------------------------------------------- how often a status changes

  function Rank(status: Status): nat {
    match status
    case Draft => 4
    case PendingConfirmation => 3
    case Pending => 2
    case Claiming => 1
    case Cancelled => 1
    case FundingMismatch => 1
    case Claimed => 0
    case ClawedBack => 0
  }

  function StatusIn(s: Sys, id: TipId): Option<Status> {
    if id in s.rows then Some(s.rows[id].status) else None
  }

  function ChangeAt(s: Sys, e: Event, id: TipId): nat {
    if StatusIn(Step(s, e), id) != StatusIn(s, id) then 1 else 0
  }

  function RevertAt(s: Sys, e: Event, id: TipId): nat {
    if StatusIn(s, id) == Some(Claimed) && StatusIn(Step(s, e), id) == Some(Claiming) then 1 else 0
  }

  /** Number of events of the run that change the status of row `id`. */
  function Changes(s: Sys, es: seq<Event>, id: TipId): nat
    decreases |es|
  {
    if es == [] then 0 else ChangeAt(s, es[0], id) + Changes(Step(s, es[0]), es[1..], id)
  }

  /** Number of those that are reorg reverts. */
  function Reverts(s: Sys, es: seq<Event>, id: TipId): nat
    decreases |es|
  {
    if es == [] then 0 else RevertAt(s, es[0], id) + Reverts(Step(s, es[0]), es[1..], id)
  }

  /** Every status change but a reorg revert strictly lowers the rank; the revert raises it by one. */
  lemma MovesLowerRank(u: Update, r: Row, now: nat)
    requires Apply(u, r, now).status != r.status
    ensures var to := Apply(u, r, now).status;
      if r.status == Claimed then to == Claiming else Rank(to) < Rank(r.status)
  {
    UpdatesMoveAsDocumented(u, r, now);
  }

  lemma UpdateBalance(u: Update, r: Row, now: nat)
    ensures var r' := Apply(u, r, now);
      (if r'.status != r.status then 1 else 0) + Rank(r'.status)
      <= Rank(r.status) + (if r.status == Claimed && r'.status == Claiming then 2 else 0)
  {
    if Apply(u, r, now).status != r.status {
      MovesLowerRank(u, r, now);
    }
  }

  lemma StepBalance(s: Sys, e: Event, id: TipId)
    requires id in s.rows
    ensures id in Step(s, e).rows
    ensures ChangeAt(s, e, id) + Rank(Step(s, e).rows[id].status) <= Rank(s.rows[id].status) + 2 * RevertAt(s, e, id)
  {
    assert Step(s, e).rows[id] == RowAfter(s, e, id) || Creates(s, e);
    if UpdateFor(s, e, id).Some? {
      UpdateBalance(UpdateFor(s, e, id).value, s.rows[id], s.now);
    }
  }

  lemma {:induction false} ChangesWithinRank(s: Sys, es: seq<Event>, id: TipId)
    requires id in s.rows
    ensures Changes(s, es, id) <= Rank(s.rows[id].status) + 2 * Reverts(s, es, id)
    decreases |es|
  {
    if es != [] {
      StepBalance(s, es[0], id);
      ChangesWithinRank(Step(s, es[0]), es[1..], id);
    }
  }

  /** A run with `r` reorg reverts of a row changes its status at most `4 + 2r` times. */
  lemma ChangesAreBounded(s: Sys, es: seq<Event>, id: TipId)
    requires id in s.rows
    ensures Changes(s, es, id) <= 4 + 2 * Reverts(s, es, id)
  {
    ChangesWithinRank(s, es, id);
  }
}
