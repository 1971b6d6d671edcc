/** Funding-amount verification: does the confirmed on-chain receipt cover the declared amount? */
module Funding {
  import opened Machine
  import opened Permutations
  import opened Chain

  datatype Verdict =
    | Verified(observed: nat)
    | Short(observed: nat)
    | Unfunded
    | Drained(net: nat, totalSent: nat)
    | LwsError

  // ---------------------------------------------------------------- ledgers

  predicate Confirmed(tx: AddressTx) {
    !tx.mempool && tx.height > 0
  }

  function ConfirmedReceived(tx: AddressTx): (amount: int)
    ensures amount >= 0
  {
    if Confirmed(tx) then tx.received else 0
  }

  function ConfirmedSent(tx: AddressTx): (amount: int)
    ensures amount >= 0
  {
    if Confirmed(tx) then tx.sent else 0
  }

  function PerTxNet(tx: AddressTx): (amount: int)
    ensures amount >= 0
  {
    SubFloor(ConfirmedReceived(tx), ConfirmedSent(tx))
  }

  function Received(txs: seq<AddressTx>): nat {
    SumNonNegative(ConfirmedReceived, txs);
    Sum(ConfirmedReceived, txs)
  }

  function Sent(txs: seq<AddressTx>): nat {
    SumNonNegative(ConfirmedSent, txs);
    Sum(ConfirmedSent, txs)
  }

  function Net(txs: seq<AddressTx>): nat {
    SubFloor(Received(txs), Sent(txs))
  }

  function Expected(amount: int): nat {
    if amount < 0 then 0 else amount
  }

  /** The four-way decision both back ends end with. */
  function Judge(received: nat, sent: nat, amount: int): Verdict {
    var net := SubFloor(received, sent);
    if net < Expected(amount) && sent > 0 then Drained(net, sent)
    else if net == 0 then Unfunded
    else if net >= Expected(amount) then Verified(net)
    else Short(net)
  }

  /** The light-wallet classifier. `None` is the overflow trap the release build keeps on
      (`overflow-checks = true`): the pass stops there and no row is written. */
  function ClassifyFundingAmount(txs: seq<AddressTx>, amount: int): Option<Verdict> {
    if Received(txs) > U64_MAX || Sent(txs) > U64_MAX then None
    else Some(Judge(Received(txs), Sent(txs), amount))
  }

  function GrinAmountFromPresence(present: bool, declared: int): Verdict {
    if present then Verified(Expected(declared)) else Unfunded
  }

  /** The order in which the server lists an address's transactions never changes the verdict. */
  lemma VerdictIgnoresOrder(a: seq<AddressTx>, b: seq<AddressTx>, amount: int)
    requires multiset(a) == multiset(b)
    ensures ClassifyFundingAmount(a, amount) == ClassifyFundingAmount(b, amount)
  {
    SumPermutes(ConfirmedReceived, a, b);
    SumPermutes(ConfirmedSent, a, b);
  }

  /** `Verified` holds exactly when the net is positive and covers the declared amount, and it
      reports that net; `Short` exactly when nothing was sent and the receipt is positive but low. */
  lemma VerdictExactly(txs: seq<AddressTx>, amount: int, observed: nat)
    requires ClassifyFundingAmount(txs, amount).Some?
    ensures ClassifyFundingAmount(txs, amount) == Some(Verified(observed))
       <==> observed == Net(txs) && 0 < Net(txs) && amount <= Net(txs)
    ensures ClassifyFundingAmount(txs, amount) == Some(Short(observed))
       <==> observed == Net(txs) && Sent(txs) == 0 && 0 < Net(txs) < amount
    ensures ClassifyFundingAmount(txs, amount).value.Drained?
       <==> Sent(txs) > 0 && Net(txs) < amount
  {
  }

  /** Adding a confirmed transaction that sends at least what it receives, at any position,
      never turns a list that was not `Verified` into one that is. */
  lemma SpendNeverVerifies(a: seq<AddressTx>, spend: AddressTx, b: seq<AddressTx>, amount: int)
    requires spend.received <= spend.sent
    requires var before := ClassifyFundingAmount(a + b, amount); before.None? || !before.value.Verified?
    ensures var after := ClassifyFundingAmount(a + [spend] + b, amount); after.None? || !after.value.Verified?
  {
    SumInsert(ConfirmedReceived, a, spend, b);
    SumInsert(ConfirmedSent, a, spend, b);
  }

  // ------------------------------------------- separate-then-subtract is never an over-report

  /** The balance of the address after the listed transactions, if it can never go below zero. */
  function Holding(txs: seq<AddressTx>): nat {
    if txs == [] then 0
    else
      var last := txs[|txs| - 1];
      SubFloor(Holding(txs[..|txs| - 1]) + ConfirmedReceived(last), ConfirmedSent(last))
  }

  /** The largest amount by which any prefix spends more than it received. */
  function Deficit(txs: seq<AddressTx>): nat {
    if txs == [] then 0
    else
      var before := Deficit(txs[..|txs| - 1]);
      var here := SubFloor(Sent(txs), Received(txs));
      if here > before then here else before
  }

  predicate Solvent(txs: seq<AddressTx>) {
    forall k :: 0 <= k <= |txs| ==> Sent(txs[..k]) <= Received(txs[..k])
  }

  lemma {:induction false} HoldingIsNetPlusDeficit(txs: seq<AddressTx>)
    ensures Holding(txs) == Received(txs) - Sent(txs) + Deficit(txs)
  {
    if txs != [] {
      HoldingIsNetPlusDeficit(txs[..|txs| - 1]);
    }
  }

  lemma {:induction false} SolventIffNoDeficit(txs: seq<AddressTx>)
    ensures Solvent(txs) <==> Deficit(txs) == 0
  {
    if txs == [] {
      assert txs[..0] == [];
    } else {
      var init := txs[..|txs| - 1];
      SolventIffNoDeficit(init);
      assert forall k :: 0 <= k <= |init| ==> init[..k] == txs[..k];
      assert txs[..|txs|] == txs;
    }
  }

  lemma {:induction false} HoldingAtMostPerTx(txs: seq<AddressTx>)
    ensures Holding(txs) <= Sum(PerTxNet, txs)
  {
    if txs != [] {
      HoldingAtMostPerTx(txs[..|txs| - 1]);
    }
  }

  /** For every list: the reported net is at most the real holding, which is at most the per-
      transaction saturating sum the earlier code used. */
  lemma {:induction false} NetNeverOverReports(txs: seq<AddressTx>)
    ensures Net(txs) <= Holding(txs) <= Sum(PerTxNet, txs)
  {
    HoldingIsNetPlusDeficit(txs);
    HoldingAtMostPerTx(txs);
  }

  /** The net is the real holding exactly when every prefix is solvent or nothing is held. */
  lemma {:induction false} NetIsHoldingExactly(txs: seq<AddressTx>)
    ensures Net(txs) == Holding(txs) <==> Solvent(txs) || Holding(txs) == 0
  {
    HoldingIsNetPlusDeficit(txs);
    SolventIffNoDeficit(txs);
  }

  // ------------------------------------------------------------ the Electrum verdict

  datatype Totals = Bailed | Totals(received: nat, sent: nat, seen: nat)

  /** One confirmed entry folded into the running totals; any failed call or rejected amount bails.
      A send is counted only for a transaction that is a spend of the address. */
  function AddEntry(t: Totals, answer: Option<VerboseTx>, address: string): Totals {
    if t.Bailed? || answer.None? then Bailed
    else
      var tx := answer.value;
      var received := TotalReceivedAt(tx, address);
      if received.None? then Bailed
      else
        var t' := Totals(AddU64Saturating(t.received, received.value), t.sent, t.seen + 1);
        if IsVerboseTxSpendOf(tx, address) != Some(true) then t'
        else match TotalSentFrom(tx, address)
          case SentRejected => Bailed
          case SentUnknown => t'
          case SentExactly(n) => t'.(sent := AddU64Saturating(t'.sent, n))
  }

  function ElectrumTotals(history: seq<HistoryEntry>, txs: seq<Option<VerboseTx>>, address: string): Totals
    requires |history| == |txs|
  {
    if history == [] then Totals(0, 0, 0)
    else
      var n := |history| - 1;
      var t := ElectrumTotals(history[..n], txs[..n], address);
      if history[n].height > 0 then AddEntry(t, txs[n], address) else t
  }

  function JudgeTotals(t: Totals, amount: int): Verdict {
    if t.Bailed? then LwsError
    else if t.seen == 0 then Unfunded
    else Judge(t.received, t.sent, amount)
  }

  function ElectrumVerdict(history: seq<HistoryEntry>, txs: seq<Option<VerboseTx>>, address: string,
                           amount: int): Verdict
    requires |history| == |txs|
  {
    JudgeTotals(ElectrumTotals(history, txs, address), amount)
  }

  lemma BailIsFinal(history: seq<HistoryEntry>, txs: seq<Option<VerboseTx>>, address: string, k: nat)
    requires k <= |history| == |txs|
    requires ElectrumTotals(history[..k], txs[..k], address).Bailed?
    ensures ElectrumTotals(history, txs, address).Bailed?
    decreases |history| - k
  {
    if k < |history| {
      assert history[..k + 1][..k] == history[..k] && txs[..k + 1][..k] == txs[..k];
      BailIsFinal(history, txs, address, k + 1);
    } else {
      assert history[..k] == history && txs[..k] == txs;
    }
  }

  /** The inline loop: running saturating totals with an early return on any failure. */
  method VerifyElectrum(history: seq<HistoryEntry>, txs: seq<Option<VerboseTx>>, address: string, amount: int)
    returns (verdict: Verdict)
    requires |history| == |txs|
    ensures verdict == ElectrumVerdict(history, txs, address, amount)
  {
    var received: nat, sent: nat, seen: nat := 0, 0, 0;
    for i := 0 to |history|
      invariant ElectrumTotals(history[..i], txs[..i], address) == Totals(received, sent, seen)
    {
      assert history[..i + 1][..i] == history[..i] && txs[..i + 1][..i] == txs[..i];
      if history[i].height > 0 {
        seen := seen + 1;
        if txs[i].None? {
          BailIsFinal(history, txs, address, i + 1);
          return LwsError;
        }
        var recv := SumPaidTo(txs[i].value.vout, address);
        if recv.None? {
          BailIsFinal(history, txs, address, i + 1);
          return LwsError;
        }
        received := AddU64Saturating(received, recv.value);
        if recv.value == 0 && AllResolved(txs[i].value) {
          var out := SumPaidTo(Prevouts(txs[i].value.vin), address);
          if out.None? {
            BailIsFinal(history, txs, address, i + 1);
            return LwsError;
          }
          sent := AddU64Saturating(sent, out.value);
        }
      }
    }
    assert history[..|history|] == history && txs[..|txs|] == txs;
    if seen == 0 {
      return Unfunded;
    }
    return Judge(received, sent, amount);
  }

  // ------------------------------------------------ the Electrum verdict against a true ledger

  /** `entry` is what truly happened to the address in a confirmed transaction answered by `tx`:
      outputs always tell the receipt, inputs tell the send only when all of them are resolved. */
  predicate Describes(entry: AddressTx, tx: VerboseTx, address: string) {
    && Confirmed(entry)
    && TotalReceivedAt(tx, address) == Some(entry.received)
    && (AllResolved(tx) ==> TotalSentFrom(tx, address) == SentExactly(entry.sent))
  }

  /** `ledger` lists the true effect of each history entry, in order. */
  predicate IsLedger(ledger: seq<AddressTx>, history: seq<HistoryEntry>, txs: seq<Option<VerboseTx>>, address: string) {
    && |ledger| == |history| == |txs|
    && forall i :: 0 <= i < |history| ==>
         if history[i].height > 0 then txs[i].Some? && Describes(ledger[i], txs[i].value, address)
         else !Confirmed(ledger[i])
  }

  predicate SumsFit(ledger: seq<AddressTx>) {
    Received(ledger) <= U64_MAX && Sent(ledger) <= U64_MAX
  }

  /** The loop misses this entry's send: it also receives, or an input is unresolved. */
  predicate Hidden(entry: AddressTx, answer: Option<VerboseTx>) {
    Confirmed(entry) && entry.sent > 0 && answer.Some? && (entry.received > 0 || !AllResolved(answer.value))
  }

  /** One true entry adds its receipt, and its send unless that is hidden. */
  lemma EntryAgainstLedger(t: Totals, entry: AddressTx, answer: Option<VerboseTx>, address: string)
    requires t.Totals? && answer.Some? && Describes(entry, answer.value, address)
    requires t.received + entry.received <= U64_MAX && t.sent + entry.sent <= U64_MAX
    ensures AddEntry(t, answer, address)
         == Totals(t.received + entry.received, t.sent + (if Hidden(entry, answer) then 0 else entry.sent), t.seen + 1)
  {
  }

  lemma {:induction false} TotalsAgainstLedger(ledger: seq<AddressTx>, history: seq<HistoryEntry>,
                                               txs: seq<Option<VerboseTx>>, address: string)
    requires IsLedger(ledger, history, txs, address) && SumsFit(ledger)
    ensures var t := ElectrumTotals(history, txs, address);
      && t.Totals?
      && t.received == Received(ledger)
      && t.sent <= Sent(ledger)
      && (t.sent == Sent(ledger) <==> forall i :: 0 <= i < |ledger| ==> !Hidden(ledger[i], txs[i]))
      && (t.seen == 0 ==> Received(ledger) == 0 && Sent(ledger) == 0)
  {
    if history != [] {
      var n := |history| - 1;
      TotalsAgainstLedger(ledger[..n], history[..n], txs[..n], address);
      assert forall i :: 0 <= i < n ==> ledger[..n][i] == ledger[i] && txs[..n][i] == txs[i];
      if history[n].height > 0 {
        EntryAgainstLedger(ElectrumTotals(history[..n], txs[..n], address), ledger[n], txs[n], address);
      }
    }
  }

  /** When no send is hidden, the Electrum loop and the light-wallet classifier agree. */
  lemma ElectrumRefinesClassifier(ledger: seq<AddressTx>, history: seq<HistoryEntry>, txs: seq<Option<VerboseTx>>,
                                  address: string, amount: int)
    requires IsLedger(ledger, history, txs, address) && SumsFit(ledger)
    requires forall i :: 0 <= i < |ledger| ==> !Hidden(ledger[i], txs[i])
    ensures Some(ElectrumVerdict(history, txs, address, amount)) == ClassifyFundingAmount(ledger, amount)
  {
    TotalsAgainstLedger(ledger, history, txs, address);
  }

  /** On any history whose sums fit, a ledger that truly covers the amount is reported `Verified`;
      the reported net is the true one exactly when no send is hidden, or both are zero. */
  lemma ElectrumNeverLosesVerified(ledger: seq<AddressTx>, history: seq<HistoryEntry>, txs: seq<Option<VerboseTx>>,
                                   address: string, amount: int)
    requires IsLedger(ledger, history, txs, address) && SumsFit(ledger)
    ensures var t := ElectrumTotals(history, txs, address);
      && t.Totals?
      && Net(ledger) <= SubFloor(t.received, t.sent)
      && (Net(ledger) == SubFloor(t.received, t.sent)
          <==> (forall i :: 0 <= i < |ledger| ==> !Hidden(ledger[i], txs[i])) || t.received <= t.sent)
    ensures ClassifyFundingAmount(ledger, amount).value.Verified?
        ==> ElectrumVerdict(history, txs, address, amount).Verified?
  {
    TotalsAgainstLedger(ledger, history, txs, address);
  }
}
