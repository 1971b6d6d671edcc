/** What a server's answer says about a tip, read off the answer's own fields: the height it reports, the
    spends it shows and the receipts it proves, and that the probes and verdicts say exactly that. */
module Answers {
  import opened Machine
  import opened Text
  import opened Permutations
  import opened Chain
  import opened TipRows
  import opened Sweep
  import Funding

  // ---------------------------------------------------------------- reading an answer

  /** The signed reading of an unsigned 64-bit height. */
  predicate SignedHeight(unsigned: nat, height: int) {
    if unsigned <= 0x7fff_ffff_ffff_ffff then height == unsigned else height == unsigned - 0x1_0000_0000_0000_0000
  }

  /** The chain height the answer reports; a light wallet that does not know it falls back to its node. */
  predicate ReportsTip(answer: ChainAnswer, height: int) {
    match answer
    case Unreachable => false
    case ElectrumAnswer(_, tip, _) => height == tip
    case LwsAnswer(_, chainHeight, nodeHeight) =>
      if chainHeight != 0 then SignedHeight(chainHeight, height)
      else nodeHeight.Some? && SignedHeight(nodeHeight.value, height)
    case GrinAnswer(tip, _, _) => SignedHeight(tip, height)
  }

  /** No output gives the address anything. */
  predicate PaysNothing(tx: VerboseTx, address: string) {
    forall i :: 0 <= i < |tx.vout| && Pays(tx.vout[i], address) ==> tx.vout[i].value == Some(0)
  }

  /** The receipt of the address cannot be told: a rejected amount, or a sum beyond 64 bits. */
  predicate Unreadable(tx: VerboseTx, address: string) {
    Rejected(tx.vout, address) || Sum(AmountTo(address), tx.vout) > 0xffff_ffff_ffff_ffff
  }

  /** The tip's grin commitment is `commit`: the commitment column, or else the address, without the white
      space around it, and not empty. */
  ghost predicate CommitsTo(terms: Terms, commit: string) {
    && commit != "" && Trimmed(commit)
    && (terms.commitment.Some? || terms.tipAddress.Some?)
    && PaddedWith(if terms.commitment.Some? then terms.commitment.value else terms.tipAddress.value, commit)
  }

  /** Confirmed history entry `i` is a transaction that pays the address nothing. */
  predicate SpendAt(history: seq<HistoryEntry>, txs: seq<Option<VerboseTx>>, address: string, i: int,
                    txid: string, height: int) {
    && 0 <= i < |history| && i < |txs|
    && history[i] == HistoryEntry(txid, height) && height > 0
    && txs[i].Some? && PaysNothing(txs[i].value, address)
  }

  /** Confirmed light-wallet transaction `i` sends and receives nothing. */
  predicate LwsSpendAt(txs: seq<AddressTx>, i: int, txid: string, height: int) {
    && 0 <= i < |txs|
    && txs[i].hash == txid && !txs[i].mempool && txs[i].height > 0 && SignedHeight(txs[i].height, height)
    && txs[i].sent > 0 && txs[i].received == 0
  }

  /** The answer shows the tip being spent by `txid` at `height`. */
  ghost predicate ShowsSpend(snap: Row, answer: ChainAnswer, txid: string, height: int) {
    match answer
    case Unreachable => false
    case ElectrumAnswer(history, _, txs) =>
      snap.terms.tipAddress.Some? && exists i :: SpendAt(history, txs, snap.terms.tipAddress.value, i, txid, height)
    case LwsAnswer(txs, _, _) => exists i :: LwsSpendAt(txs, i, txid, height)
    case GrinAnswer(_, outputs, kernel) =>
      && (exists commit :: CommitsTo(snap.terms, commit) && commit !in outputs)
      && snap.sweepTxid == Some(txid) && txid != ""
      && kernel.Some? && kernel.value.Some? && SignedHeight(kernel.value.value, height)
  }

  /** The answer is one the row's probe can use. */
  ghost predicate Usable(snap: Row, answer: ChainAnswer) {
    var t := snap.terms;
    match answer
    case Unreachable => false
    case ElectrumAnswer(history, _, txs) =>
      && (t.asset == Btc || t.asset == Ltc) && t.tipAddress.Some? && |history| == |txs|
      && forall i :: 0 <= i < |history| && history[i].height > 0 ==>
           txs[i].Some? && !Unreadable(txs[i].value, t.tipAddress.value)
    case LwsAnswer(_, chainHeight, nodeHeight) =>
      && (t.asset == Xmr || t.asset == Wow) && t.tipAddress.Some? && t.viewKey.Some?
      && (chainHeight != 0 || nodeHeight.Some?)
    case GrinAnswer(_, outputs, kernel) =>
      && t.asset == Grin
      && exists commit :: CommitsTo(t, commit)
           && (commit in outputs || snap.sweepTxid.None? || snap.sweepTxid == Some("") || kernel.Some?)
  }

  lemma SignedHeightExactly(unsigned: nat, height: int)
    ensures SignedHeight(unsigned, height) <==> height == U64AsI64(unsigned)
  {
  }

  lemma GrinCommitmentExactly(terms: Terms, commit: string)
    ensures GrinCommitment(terms) == Some(commit) <==> CommitsTo(terms, commit)
  {
    if terms.commitment.Some? {
      TrimExactly(terms.commitment.value, commit);
    } else if terms.tipAddress.Some? {
      TrimExactly(terms.tipAddress.value, commit);
    }
  }

  lemma {:induction false} ElectrumReadsExactly(history: seq<HistoryEntry>, txs: seq<Option<VerboseTx>>,
                                                address: string)
    requires |history| == |txs|
    ensures ElectrumSpends(history, txs, address).Some?
       <==> forall i :: 0 <= i < |history| && history[i].height > 0 ==>
              txs[i].Some? && !Unreadable(txs[i].value, address)
  {
    if history != [] {
      var n := |history| - 1;
      ElectrumReadsExactly(history[..n], txs[..n], address);
      assert forall i :: 0 <= i < n ==> history[..n][i] == history[i] && txs[..n][i] == txs[i];
      if txs[n].Some? {
        SpendExactly(txs[n].value, address);
      }
    }
  }

  lemma ElectrumShowsExactly(history: seq<HistoryEntry>, txs: seq<Option<VerboseTx>>, address: string,
                             s: ConfirmedSpend)
    requires |history| == |txs| && ElectrumSpends(history, txs, address).Some?
    ensures s in ElectrumSpends(history, txs, address).value
       <==> s.blockHash.None? && exists i :: SpendAt(history, txs, address, i, s.txid, s.blockHeight)
  {
    ElectrumSpendsExactly(history, txs, address, s);
    forall i | 0 <= i < |history| && txs[i].Some?
      ensures TotalReceivedAt(txs[i].value, address) == Some(0) <==> PaysNothing(txs[i].value, address)
    {
      SpendExactly(txs[i].value, address);
    }
    if s in ElectrumSpends(history, txs, address).value {
      var i :| 0 <= i < |history| && history[i].height > 0 && txs[i].Some?
        && TotalReceivedAt(txs[i].value, address) == Some(0)
        && s == ConfirmedSpend(history[i].txHash, history[i].height, None);
      assert SpendAt(history, txs, address, i, s.txid, s.blockHeight);
    }
  }

  lemma LwsShowsExactly(txs: seq<AddressTx>, s: ConfirmedSpend)
    ensures s in LwsSpends(txs) <==> s.blockHash.None? && exists i :: LwsSpendAt(txs, i, s.txid, s.blockHeight)
  {
    LwsSpendsExactly(txs, s);
    if s in LwsSpends(txs) {
      var i :| 0 <= i < |txs| && Funding.Confirmed(txs[i]) && txs[i].sent > 0 && txs[i].received == 0
        && s == ConfirmedSpend(txs[i].hash, U64AsI64(txs[i].height), None);
      assert LwsSpendAt(txs, i, s.txid, s.blockHeight);
    }
  }

  /** The probe succeeds exactly on a usable answer; it then reports the height of that answer and exactly
      the spends the answer shows. */
  lemma ProbeExactly(snap: Row, answer: ChainAnswer)
    ensures Probe(snap, answer).ProbeOk? <==> Usable(snap, answer)
    ensures Probe(snap, answer).ProbeOk? ==> ReportsTip(answer, Probe(snap, answer).tipHeight)
    ensures Probe(snap, answer).ProbeOk? ==>
      forall s :: s in Probe(snap, answer).spends
        <==> s.blockHash.None? && ShowsSpend(snap, answer, s.txid, s.blockHeight)
  {
    var t := snap.terms;
    match answer
    case Unreachable =>
    case ElectrumAnswer(history, tip, txs) =>
      if t.tipAddress.Some? && |history| == |txs| {
        ElectrumReadsExactly(history, txs, t.tipAddress.value);
        if ElectrumSpends(history, txs, t.tipAddress.value).Some? {
          forall s {
            ElectrumShowsExactly(history, txs, t.tipAddress.value, s);
          }
        }
      }
    case LwsAnswer(txs, chainHeight, nodeHeight) =>
      forall s {
        LwsShowsExactly(txs, s);
      }
    case GrinAnswer(height, outputs, kernel) =>
      forall commit {
        GrinCommitmentExactly(t, commit);
      }
      forall s {
        GrinSpendExactly(t, snap.sweepTxid, height, outputs, kernel, s);
      }
  }

  // ---------------------------------------------------------------- the settle decision

  /** Listed before the other in the settle order: the lower block, at one block the smaller txid, and of
      two entries alike in both the one listed first. */
  predicate Precedes(spends: seq<ConfirmedSpend>, k: nat, j: nat)
    requires k < |spends| && j < |spends|
  {
    var a, b := spends[k], spends[j];
    || a.blockHeight < b.blockHeight
    || (a.blockHeight == b.blockHeight && (LexLess(a.txid, b.txid) || (a.txid == b.txid && k < j)))
  }

  predicate Leads(spends: seq<ConfirmedSpend>, k: nat) {
    k < |spends| && forall j :: 0 <= j < |spends| && j != k ==> Precedes(spends, k, j)
  }

  /** The winner is the entry that precedes every other one. */
  lemma {:induction false} WinnerLeads(spends: seq<ConfirmedSpend>) returns (k: nat)
    requires spends != []
    ensures Leads(spends, k) && PickWinner(spends) == Some(spends[k])
  {
    var n := |spends| - 1;
    var init := spends[..n];
    if n == 0 {
      k := 0;
    } else {
      k := WinnerLeads(init);
      if Before(spends[n], init[k]) {
        forall j | 0 <= j < n
          ensures Precedes(spends, n, j)
        {
          assert j != k ==> Precedes(init, k, j);
          BeforeIsStrictOrder(spends[n], init[k], init[j]);
        }
        k := n;
      } else {
        BeforeIsStrictOrder(spends[n], init[k], init[k]);
        forall j | 0 <= j < |spends| && j != k
          ensures Precedes(spends, k, j)
        {
          assert j < n ==> Precedes(init, k, j);
        }
      }
    }
  }

  lemma OneLeader(spends: seq<ConfirmedSpend>, k: nat, l: nat)
    requires Leads(spends, k) && Leads(spends, l)
    ensures k == l
  {
    BeforeIsStrictOrder(spends[k], spends[l], spends[k]);
    assert k != l ==> Precedes(spends, k, l) && Precedes(spends, l, k);
  }

  /** The confirmations a sweep of this asset waits for. */
  lemma ThresholdsExactly(asset: Asset)
    ensures asset == Btc || asset == Ltc ==> SweepConfirmThreshold(asset) == 1 && ConfirmationsForAsset(asset) == 0
    ensures asset == Wow ==> SweepConfirmThreshold(asset) == 4 && ConfirmationsForAsset(asset) == 4
    ensures asset == Xmr || asset == Grin ==> SweepConfirmThreshold(asset) == 10 && ConfirmationsForAsset(asset) == 10
    ensures asset.OtherAsset? ==> SweepConfirmThreshold(asset) == 10 && ConfirmationsForAsset(asset) == 0
  {
  }

  /** A sweep in block `height` is settled when the reported tip is `tip`: it has its confirmations, or the
      tip is reported two or more blocks below it. */
  predicate SettlesAt(asset: Asset, tip: int, height: int) {
    || tip < height - 1
    || match asset
       case Btc => tip >= height
       case Ltc => tip >= height
       case Wow => tip >= height + 3
       case _ => tip >= height + 9
  }

  /** The settle decision, whole: with `k` the leading spend of a successful probe, the worker settles on
      that spend iff it is deep enough, and keeps the claimer iff the row records that very spend. */
  lemma SettleDecidedExactly(snap: Row, result: ProbeResult, k: nat)
    requires result.ProbeOk? && Leads(result.spends, k)
    requires IsI64(result.tipHeight) && IsI64(result.spends[k].blockHeight)
    ensures var w := result.spends[k];
      DecideSettle(snap, result)
      == if !SettlesAt(snap.terms.asset, result.tipHeight, w.blockHeight) then TouchLastCheck
         else if snap.sweepTxid == Some(w.txid)
         then SettleKeepingClaimer(w.txid, I64AsI32(w.blockHeight), w.blockHash)
         else SettleClearingClaimer(w.txid, I64AsI32(w.blockHeight), w.blockHash)
  {
    var l := WinnerLeads(result.spends);
    OneLeader(result.spends, k, l);
    DepthGateExactly(result.tipHeight, result.spends[k].blockHeight, snap.terms.asset);
    ThresholdsExactly(snap.terms.asset);
  }

  /** With nothing to settle on, the worker only stamps the check. */
  lemma NothingToSettle(snap: Row, result: ProbeResult)
    requires result.ProbeFailed? || result.spends == []
    ensures DecideSettle(snap, result) == TouchLastCheck
  {
  }

  // ---------------------------------------------------------------- what a settlement and a revert rest on

  /** The answer shows the spend `txid` at `height`, no spend it shows comes before that one, and the height
      it reports lets that spend be settled. */
  ghost predicate BacksSweep(snap: Row, answer: ChainAnswer, txid: string, height: int) {
    && Usable(snap, answer)
    && ShowsSpend(snap, answer, txid, height)
    && (forall t, h :: ShowsSpend(snap, answer, t, h) ==> height < h || (height == h && !LexLess(t, txid)))
    && exists tip :: ReportsTip(answer, tip)
         && (IsI64(tip) && IsI64(height) ==> SettlesAt(snap.terms.asset, tip, height))
  }

  /** A spend the confirm cycle settles on is backed by the answer it was probed with. */
  lemma DueWinnerIsBacked(snap: Row, answer: ChainAnswer)
    ensures var due := DueWinner(snap, Probe(snap, answer));
      due.Some? ==> due.value.blockHash.None? && BacksSweep(snap, answer, due.value.txid, due.value.blockHeight)
  {
    var result := Probe(snap, answer);
    var due := DueWinner(snap, result);
    if due.Some? {
      ProbeExactly(snap, answer);
      var w := due.value;
      assert w in result.spends;
      forall t, h | ShowsSpend(snap, answer, t, h)
        ensures w.blockHeight < h || (w.blockHeight == h && !LexLess(t, w.txid))
      {
        WinnerIsLeast(result.spends, ConfirmedSpend(t, h, None));
      }
      if IsI64(result.tipHeight) && IsI64(w.blockHeight) {
        DepthGateExactly(result.tipHeight, w.blockHeight, snap.terms.asset);
        ThresholdsExactly(snap.terms.asset);
      }
    }
  }

  /** The answer can be used and shows no spend by `txid` at any height. */
  ghost predicate LostSweep(snap: Row, answer: ChainAnswer, txid: string) {
    Usable(snap, answer) && forall h :: !ShowsSpend(snap, answer, txid, h)
  }

  lemma LostSweepExactly(snap: Row, answer: ChainAnswer, txid: string)
    ensures LostSweep(snap, answer, txid)
       <==> Probe(snap, answer).ProbeOk? && forall s :: s in Probe(snap, answer).spends ==> s.txid != txid
  {
    ProbeExactly(snap, answer);
    if Probe(snap, answer).ProbeOk? {
      assert forall h :: ShowsSpend(snap, answer, txid, h) ==>
        ConfirmedSpend(txid, h, None) in Probe(snap, answer).spends;
    }
  }

  /** Every height of the answer fits its field on the wire. */
  predicate OnWire(answer: ChainAnswer) {
    match answer
    case Unreachable => true
    case ElectrumAnswer(history, tip, _) => IsI64(tip) && forall i :: 0 <= i < |history| ==> IsI64(history[i].height)
    case LwsAnswer(txs, chainHeight, nodeHeight) =>
      && IsU64(chainHeight) && (nodeHeight.Some? ==> IsU64(nodeHeight.value))
      && forall i :: 0 <= i < |txs| ==> IsU64(txs[i].height)
    case GrinAnswer(height, _, kernel) =>
      IsU64(height) && (kernel.Some? && kernel.value.Some? ==> IsU64(kernel.value.value))
  }

  lemma WireHeights(snap: Row, answer: ChainAnswer, txid: string, height: int)
    requires OnWire(answer)
    ensures ReportsTip(answer, height) ==> IsI64(height)
    ensures ShowsSpend(snap, answer, txid, height) ==> IsI64(height)
  {
  }

  lemma OneTip(answer: ChainAnswer, a: int, b: int)
    requires ReportsTip(answer, a) && ReportsTip(answer, b)
    ensures a == b
  {
  }

  /** The confirm cycle settles exactly on the spend the answer backs. */
  lemma DueWinnerExactly(snap: Row, answer: ChainAnswer, txid: string, height: int)
    requires OnWire(answer)
    ensures DueWinner(snap, Probe(snap, answer)) == Some(ConfirmedSpend(txid, height, None))
       <==> BacksSweep(snap, answer, txid, height)
  {
    DueWinnerIsBacked(snap, answer);
    if BacksSweep(snap, answer, txid, height) {
      ProbeExactly(snap, answer);
      var result := Probe(snap, answer);
      var s := ConfirmedSpend(txid, height, None);
      assert s in result.spends;
      WinnerIsLeast(result.spends, s);
      var w := PickWinner(result.spends).value;
      assert w in result.spends;
      assert ShowsSpend(snap, answer, w.txid, w.blockHeight);
      BeforeIsStrictOrder(s, w, s);
      assert w == s;
      WireHeights(snap, answer, txid, height);
      WireHeights(snap, answer, txid, result.tipHeight);
      var tip :| ReportsTip(answer, tip) && (IsI64(tip) && IsI64(height) ==> SettlesAt(snap.terms.asset, tip, height));
      OneTip(answer, tip, result.tipHeight);
      DepthGateExactly(tip, height, snap.terms.asset);
      ThresholdsExactly(snap.terms.asset);
    }
  }
}
