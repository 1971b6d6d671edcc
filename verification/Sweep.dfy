/** Settling and reverting: per-asset probes, the canonical winner, the depth gate, and which
    guarded update each worker issues for one row. */
module Sweep {
  import opened Machine
  import opened Text
  import opened Chain
  import opened TipRows
  import Funding

  datatype ConfirmedSpend = ConfirmedSpend(txid: string, blockHeight: int, blockHash: Option<string>)

  datatype ProbeResult = ProbeFailed | ProbeOk(spends: seq<ConfirmedSpend>, tipHeight: int)

  // ---------------------------------------------------------------- the winner

  /** Strictly earlier in the settle order: lower block, then lexicographically smaller txid. */
  predicate Before(a: ConfirmedSpend, b: ConfirmedSpend) {
    a.blockHeight < b.blockHeight || (a.blockHeight == b.blockHeight && LexLess(a.txid, b.txid))
  }

  /** `min_by`: the first of the least elements. */
  function PickWinner(spends: seq<ConfirmedSpend>): (w: Option<ConfirmedSpend>)
    ensures w.None? <==> spends == []
    ensures w.Some? ==> w.value in spends
  {
    if spends == [] then None
    else
      var last := spends[|spends| - 1];
      var best := PickWinner(spends[..|spends| - 1]);
      if best.None? || Before(last, best.value) then Some(last) else best
  }

  lemma BeforeIsStrictOrder(a: ConfirmedSpend, b: ConfirmedSpend, c: ConfirmedSpend)
    ensures Before(a, b) && Before(b, c) ==> Before(a, c)
    ensures !(Before(a, b) && Before(b, a))
    ensures Before(a, b) || Before(b, a) || (a.blockHeight == b.blockHeight && a.txid == b.txid)
  {
    LexTrichotomy(a.txid, b.txid);
    if LexLess(a.txid, b.txid) && LexLess(b.txid, c.txid) {
      LexTransitive(a.txid, b.txid, c.txid);
    }
  }

  lemma {:induction false} WinnerIsLeast(spends: seq<ConfirmedSpend>, s: ConfirmedSpend)
    requires s in spends
    ensures !Before(s, PickWinner(spends).value)
  {
    var last, init := spends[|spends| - 1], spends[..|spends| - 1];
    assert spends == init + [last];
    BeforeIsStrictOrder(s, last, s);
    if init != [] {
      var best := PickWinner(init).value;
      if s in init {
        WinnerIsLeast(init, s);
        BeforeIsStrictOrder(s, last, best);
      }
      BeforeIsStrictOrder(last, best, last);
    }
  }

  /** Any two probes that list the same spends, in any order and multiplicity, have the same winner. */
  lemma WinnerIgnoresOrder(a: seq<ConfirmedSpend>, b: seq<ConfirmedSpend>)
    requires a != []
    requires forall s :: s in a <==> s in b
    ensures PickWinner(b).Some?
    ensures PickWinner(a).value.txid == PickWinner(b).value.txid
    ensures PickWinner(a).value.blockHeight == PickWinner(b).value.blockHeight
  {
    assert a[0] in b;
    var wa, wb := PickWinner(a).value, PickWinner(b).value;
    WinnerIsLeast(a, wb);
    WinnerIsLeast(b, wa);
    BeforeIsStrictOrder(wa, wb, wa);
  }

  // ---------------------------------------------------------------- the depth gate

  function SweepConfirmThreshold(asset: Asset): nat {
    match asset
    case Btc => 1
    case Ltc => 1
    case Wow => 4
    case Xmr => 10
    case Grin => 10
    case OtherAsset(_) => 10
  }

  /** Settling waits for the confirmations funding waits for, and for at least one block. */
  lemma ThresholdAgrees(asset: Asset, unknown: string)
    ensures !asset.OtherAsset? ==>
      SweepConfirmThreshold(asset) == if ConfirmationsForAsset(asset) == 0 then 1 else ConfirmationsForAsset(asset)
    ensures 1 <= SweepConfirmThreshold(asset) <= SweepConfirmThreshold(OtherAsset(unknown)) == 10
  {
  }

  /** `tip.saturating_sub(winner).saturating_add(1)` in `i64`, compared `as u64`. */
  predicate DeepEnough(tipHeight: int, winnerHeight: int, needed: nat) {
    I64AsU64(ClampI64(ClampI64(tipHeight - winnerHeight) + 1)) >= needed
  }

  /** The exact reach of the gate: it passes at true depth, and also whenever the reported tip is
      two or more blocks below the winner, where the negative count reads as a huge `u64`. */
  lemma DepthGateExactly(tipHeight: int, winnerHeight: int, asset: Asset)
    requires IsI64(tipHeight) && IsI64(winnerHeight)
    ensures DeepEnough(tipHeight, winnerHeight, SweepConfirmThreshold(asset))
       <==> tipHeight - winnerHeight + 1 >= SweepConfirmThreshold(asset) || tipHeight < winnerHeight - 1
  {
    assert SweepConfirmThreshold(asset) <= 10;
  }

  /** The height column is 32-bit: the stored height is the real one exactly inside that range. */
  lemma StoredHeightExactly(height: int)
    ensures I64AsI32(height) == height <==> -I32_MAX - 1 <= height <= I32_MAX
  {
    var m := U32_MAX + 1;
    if 0 <= height <= I32_MAX {
      assert height % m == height;
    } else if -I32_MAX - 1 <= height < 0 {
      assert (height + m) % m == height + m;
      assert height % m == (height + m) % m;
    }
  }

  // ---------------------------------------------------------------- probes

  /** The explicit commitment column, else the tip address; trimmed, and absent when empty. */
  function GrinCommitment(terms: Terms): Option<string> {
    var raw := if terms.commitment.Some? then terms.commitment else terms.tipAddress;
    if raw.None? || Trim(raw.value) == "" then None else Some(Trim(raw.value))
  }

  /** Confirmed spends of `address` in history order; `None` when any lookup fails. */
  function ElectrumSpends(history: seq<HistoryEntry>, txs: seq<Option<VerboseTx>>,
                          address: string): Option<seq<ConfirmedSpend>>
    requires |history| == |txs|
  {
    if history == [] then Some([])
    else
      var n := |history| - 1;
      var sofar := ElectrumSpends(history[..n], txs[..n], address);
      if sofar.None? || history[n].height <= 0 then sofar
      else if txs[n].None? then None
      else
        var spend := IsVerboseTxSpendOf(txs[n].value, address);
        if spend.None? then None
        else if spend.value then Some(sofar.value + [ConfirmedSpend(history[n].txHash, history[n].height, None)])
        else sofar
  }

  lemma SpendFailureIsFinal(history: seq<HistoryEntry>, txs: seq<Option<VerboseTx>>, address: string, k: nat)
    requires k <= |history| == |txs|
    requires ElectrumSpends(history[..k], txs[..k], address).None?
    ensures ElectrumSpends(history, txs, address).None?
    decreases |history| - k
  {
    if k < |history| {
      assert history[..k + 1][..k] == history[..k] && txs[..k + 1][..k] == txs[..k];
      SpendFailureIsFinal(history, txs, address, k + 1);
    } else {
      assert history[..k] == history && txs[..k] == txs;
    }
  }

  /** The probe loop that pushes onto `spends`. */
  method CollectElectrumSpends(history: seq<HistoryEntry>, txs: seq<Option<VerboseTx>>, address: string)
    returns (result: Option<seq<ConfirmedSpend>>)
    requires |history| == |txs|
    ensures result == ElectrumSpends(history, txs, address)
  {
    var spends := [];
    for i := 0 to |history|
      invariant ElectrumSpends(history[..i], txs[..i], address) == Some(spends)
    {
      assert history[..i + 1][..i] == history[..i] && txs[..i + 1][..i] == txs[..i];
      if history[i].height > 0 {
        if txs[i].None? {
          SpendFailureIsFinal(history, txs, address, i + 1);
          return None;
        }
        var received := SumPaidTo(txs[i].value.vout, address);
        if received.None? {
          SpendFailureIsFinal(history, txs, address, i + 1);
          return None;
        }
        if received.value == 0 {
          spends := spends + [ConfirmedSpend(history[i].txHash, history[i].height, None)];
        }
      }
    }
    assert history[..|history|] == history && txs[..|txs|] == txs;
    return Some(spends);
  }

  /** What membership in the collected list means, both ways. */
  lemma {:induction false} ElectrumSpendsExactly(history: seq<HistoryEntry>, txs: seq<Option<VerboseTx>>,
                                                 address: string, s: ConfirmedSpend)
    requires |history| == |txs| && ElectrumSpends(history, txs, address).Some?
    ensures s in ElectrumSpends(history, txs, address).value
       <==> exists i :: 0 <= i < |history| && history[i].height > 0 && txs[i].Some?
              && TotalReceivedAt(txs[i].value, address) == Some(0)
              && s == ConfirmedSpend(history[i].txHash, history[i].height, None)
  {
    if history != [] {
      var n := |history| - 1;
      ElectrumSpendsExactly(history[..n], txs[..n], address, s);
      assert forall i :: 0 <= i < n ==> history[..n][i] == history[i] && txs[..n][i] == txs[i];
    }
  }

  /** The two workers read one response alike: if the funding verifier counts any send, the sweep
      probe of the same response succeeds and finds a spend. */
  lemma {:induction false} FundingSendsAreSweepSpends(history: seq<HistoryEntry>, txs: seq<Option<VerboseTx>>,
                                                      address: string)
    requires |history| == |txs|
    requires Funding.ElectrumTotals(history, txs, address).Totals?
    ensures ElectrumSpends(history, txs, address).Some?
    ensures Funding.ElectrumTotals(history, txs, address).sent > 0 ==> ElectrumSpends(history, txs, address).value != []
  {
    if history != [] {
      FundingSendsAreSweepSpends(history[..|history| - 1], txs[..|history| - 1], address);
    }
  }

  function LwsSpends(txs: seq<AddressTx>): seq<ConfirmedSpend> {
    if txs == [] then []
    else
      var t := txs[|txs| - 1];
      var sofar := LwsSpends(txs[..|txs| - 1]);
      if !t.mempool && t.height > 0 && t.sent > 0 && t.received == 0
      then sofar + [ConfirmedSpend(t.hash, U64AsI64(t.height), None)]
      else sofar
  }

  /** A light-wallet transaction is a spend exactly when it is confirmed, sends, and receives nothing. */
  lemma {:induction false} LwsSpendsExactly(txs: seq<AddressTx>, s: ConfirmedSpend)
    ensures s in LwsSpends(txs)
       <==> exists i :: 0 <= i < |txs| && Funding.Confirmed(txs[i]) && txs[i].sent > 0 && txs[i].received == 0
              && s == ConfirmedSpend(txs[i].hash, U64AsI64(txs[i].height), None)
  {
    if txs != [] {
      var n := |txs| - 1;
      LwsSpendsExactly(txs[..n], s);
      assert forall i :: 0 <= i < n ==> txs[..n][i] == txs[i];
    }
  }

  /** The recorded kernel excess, ignoring an empty one. */
  function RecordedExcess(sweepTxid: Option<string>): Option<string> {
    if sweepTxid.Some? && sweepTxid.value == "" then None else sweepTxid
  }

  function ProbeGrin(terms: Terms, sweepTxid: Option<string>, height: nat, outputs: seq<string>,
                     kernel: Option<Option<nat>>): ProbeResult {
    var commit := GrinCommitment(terms);
    var excess := RecordedExcess(sweepTxid);
    if commit.None? then ProbeFailed
    else if commit.value in outputs || excess.None? then ProbeOk([], U64AsI64(height))
    else if kernel.None? then ProbeFailed
    else if kernel.value.None? then ProbeOk([], U64AsI64(height))
    else ProbeOk([ConfirmedSpend(excess.value, U64AsI64(kernel.value.value), None)], U64AsI64(height))
  }

  /** A grin spend is reported exactly when the output is gone and the recorded, non-empty excess has
      a kernel; it carries that excess and the kernel's height. */
  lemma GrinSpendExactly(terms: Terms, sweepTxid: Option<string>, height: nat, outputs: seq<string>,
                         kernel: Option<Option<nat>>, s: ConfirmedSpend)
    ensures var result := ProbeGrin(terms, sweepTxid, height, outputs, kernel);
      result.ProbeOk? && s in result.spends
      <==> && GrinCommitment(terms).Some? && GrinCommitment(terms).value !in outputs
           && sweepTxid == Some(s.txid) && s.txid != ""
           && kernel.Some? && kernel.value.Some? && s.blockHeight == U64AsI64(kernel.value.value)
           && s.blockHash.None?
  {
  }

  /** `probe_confirmed_spends` on the snapshot the worker read. A response of the wrong shape is a
      failed call. */
  function Probe(snap: Row, answer: ChainAnswer): ProbeResult {
    var t := snap.terms;
    match answer
    case ElectrumAnswer(history, tip, txs) =>
      if t.asset !in {Btc, Ltc} || t.tipAddress.None? || |history| != |txs| then ProbeFailed
      else
        var spends := ElectrumSpends(history, txs, t.tipAddress.value);
        if spends.None? then ProbeFailed else ProbeOk(spends.value, tip)
    case LwsAnswer(txs, chainHeight, nodeHeight) =>
      if t.asset !in {Xmr, Wow} || t.tipAddress.None? || t.viewKey.None? then ProbeFailed
      else if chainHeight > 0 then ProbeOk(LwsSpends(txs), U64AsI64(chainHeight))
      else if nodeHeight.None? then ProbeFailed
      else ProbeOk(LwsSpends(txs), U64AsI64(nodeHeight.value))
    case GrinAnswer(height, outputs, kernel) =>
      if t.asset != Grin then ProbeFailed else ProbeGrin(t, snap.sweepTxid, height, outputs, kernel)
    case Unreachable => ProbeFailed
  }

  /** The columns a probe of this row needs are present. */
  predicate Probeable(terms: Terms) {
    match terms.asset
    case Btc => terms.tipAddress.Some?
    case Ltc => terms.tipAddress.Some?
    case Xmr => terms.tipAddress.Some? && terms.viewKey.Some?
    case Wow => terms.tipAddress.Some? && terms.viewKey.Some?
    case Grin => GrinCommitment(terms).Some?
    case OtherAsset(_) => false
  }

  /** Facts about a successful probe that hold whatever the chain answered: the row was probeable,
      and a grin probe can only ever report the excess recorded on the snapshot. */
  predicate ProbeFits(snap: Row, result: ProbeResult) {
    result.ProbeOk? ==>
      && Probeable(snap.terms)
      && (snap.terms.asset == Grin ==> forall s :: s in result.spends ==> snap.sweepTxid == Some(s.txid))
  }

  lemma ProbeAlwaysFits(snap: Row, answer: ChainAnswer)
    ensures ProbeFits(snap, Probe(snap, answer))
  {
  }

  // ---------------------------------------------------------------- decisions

  predicate Mentions(spends: seq<ConfirmedSpend>, txid: string) {
    exists i :: 0 <= i < |spends| && spends[i].txid == txid
  }

  /** The settle the confirm cycle would make on this probe, if any. */
  function DueWinner(snap: Row, result: ProbeResult): Option<ConfirmedSpend> {
    if result.ProbeFailed? then None
    else
      var w := PickWinner(result.spends);
      if w.Some? && DeepEnough(result.tipHeight, w.value.blockHeight, SweepConfirmThreshold(snap.terms.asset)) then w
      else None
  }

  /** The one update `process_awaiting_tip` issues. */
  function DecideSettle(snap: Row, result: ProbeResult): Update {
    match DueWinner(snap, result)
    case None => TouchLastCheck
    case Some(w) =>
      if snap.sweepTxid == Some(w.txid) then SettleKeepingClaimer(w.txid, I64AsI32(w.blockHeight), w.blockHash)
      else SettleClearingClaimer(w.txid, I64AsI32(w.blockHeight), w.blockHash)
  }

  /** The one update `process_settled_tip` issues. */
  function DecideReorg(snap: Row, result: ProbeResult): Update {
    if snap.sweepTxid.None? || result.ProbeFailed? || Mentions(result.spends, snap.sweepTxid.value) then TouchLastCheck
    else RevertOnReorg
  }

  /** The reorg worker takes a settlement back exactly when the row records a sweep, the probe succeeded
      and no spend it shows is that sweep; otherwise it only stamps the check. */
  lemma RevertDecidedExactly(snap: Row, result: ProbeResult)
    ensures DecideReorg(snap, result) == RevertOnReorg
       <==> && snap.sweepTxid.Some? && result.ProbeOk?
            && forall s :: s in result.spends ==> s.txid != snap.sweepTxid.value
    ensures DecideReorg(snap, result) != RevertOnReorg ==> DecideReorg(snap, result) == TouchLastCheck
  {
    if result.ProbeOk? && snap.sweepTxid.Some? && Mentions(result.spends, snap.sweepTxid.value) {
      var i :| 0 <= i < |result.spends| && result.spends[i].txid == snap.sweepTxid.value;
      assert result.spends[i] in result.spends;
    }
  }

  /** `verify_funding_amount` on the snapshot. `None` is the arithmetic trap: nothing is written. */
  function FundingVerdict(snap: Row, answer: ChainAnswer): Option<Funding.Verdict> {
    var t := snap.terms;
    match answer
    case ElectrumAnswer(history, _, txs) =>
      if t.asset !in {Btc, Ltc} || t.tipAddress.None? || |history| != |txs| then Some(Funding.LwsError)
      else Some(Funding.ElectrumVerdict(history, txs, t.tipAddress.value, t.amount))
    case LwsAnswer(txs, _, _) =>
      if t.asset !in {Xmr, Wow} || t.tipAddress.None? || t.viewKey.None? then Some(Funding.LwsError)
      else Funding.ClassifyFundingAmount(txs, t.amount)
    case GrinAnswer(_, outputs, _) =>
      if t.asset != Grin || GrinCommitment(t).None? then Some(Funding.LwsError)
      else Some(Funding.GrinAmountFromPresence(GrinCommitment(t).value in outputs, t.amount))
    case Unreachable => Some(Funding.LwsError)
  }

  /** The one update `process_pending_verifications` issues per tip. */
  function DecideFunding(verdict: Funding.Verdict): Update {
    match verdict
    case Verified(observed) => MarkVerified(U64ToI64Saturating(observed))
    case Short(observed) => MarkMismatch(U64ToI64Saturating(observed))
    case _ => TouchLastCheck
  }
}
