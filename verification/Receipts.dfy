/** What a server's answer proves about the funding of a tip, read off the answer's own fields, and that
    the verification verdict says exactly that. */
module Receipts {
  import opened Machine
  import opened Permutations
  import opened Chain
  import opened TipRows
  import opened Sweep
  import opened Answers
  import opened Funding

  // ---------------------------------------------------------------- the decision on two totals

  /** The verdict on a total received and a total sent. */
  predicate Judges(received: int, sent: int, amount: int, v: Verdict) {
    match v
    case Verified(observed) => observed == received - sent && observed > 0 && observed >= amount
    case Short(observed) => observed == received && sent == 0 && 0 < observed < amount
    case Drained(net, totalSent) =>
      totalSent == sent && sent > 0 && net == (if received > sent then received - sent else 0) && net < amount
    case Unfunded => received <= sent && (sent == 0 || amount <= 0)
    case LwsError => false
  }

  lemma JudgeExactly(received: nat, sent: nat, amount: int, v: Verdict)
    ensures Judge(received, sent, amount) == v <==> Judges(received, sent, amount, v)
  {
  }

  // ---------------------------------------------------------------- light wallets

  function LwsReceipt(tx: AddressTx): int {
    if !tx.mempool && tx.height > 0 then tx.received else 0
  }

  function LwsSend(tx: AddressTx): int {
    if !tx.mempool && tx.height > 0 then tx.sent else 0
  }

  lemma LwsTotalsExactly(txs: seq<AddressTx>)
    ensures Received(txs) == Sum(LwsReceipt, txs) && Sent(txs) == Sum(LwsSend, txs)
  {
    SumCongruent(ConfirmedReceived, LwsReceipt, txs);
    SumCongruent(ConfirmedSent, LwsSend, txs);
  }

  // ---------------------------------------------------------------- Electrum

  datatype Lookup = Lookup(entry: HistoryEntry, tx: Option<VerboseTx>)

  function Lookups(history: seq<HistoryEntry>, txs: seq<Option<VerboseTx>>): seq<Lookup>
    requires |history| == |txs|
  {
    seq(|history|, i requires 0 <= i < |history| => Lookup(history[i], txs[i]))
  }

  /** What an input took from the address. */
  function AmountFrom(address: string): Vin -> int {
    (vin: Vin) =>
      if vin.prevout.Some? && Pays(vin.prevout.value, address) && vin.prevout.value.value.Some?
      then vin.prevout.value.value.value else 0
  }

  /** A confirmed transaction that pays the address nothing and whose inputs are all resolved. */
  predicate KnownSpend(tx: VerboseTx, address: string) {
    PaysNothing(tx, address) && forall i :: 0 <= i < |tx.vin| ==> tx.vin[i].prevout.Some?
  }

  /** The amount a known spend took cannot be told. */
  predicate UnreadableInputs(tx: VerboseTx, address: string) {
    || (exists i :: 0 <= i < |tx.vin| && tx.vin[i].prevout.Some?
          && Pays(tx.vin[i].prevout.value, address) && tx.vin[i].prevout.value.value.None?)
    || Sum(AmountFrom(address), tx.vin) > 0xffff_ffff_ffff_ffff
  }

  /** A confirmed entry that ends the verification: no answer, or an amount that cannot be told. */
  predicate Unjudged(look: Lookup, address: string) {
    && look.entry.height > 0
    && (look.tx.Some? ==>
          || Unreadable(look.tx.value, address)
          || (KnownSpend(look.tx.value, address) && UnreadableInputs(look.tx.value, address)))
  }

  function ReceiptOf(address: string): Lookup -> int {
    (look: Lookup) => if look.entry.height > 0 && look.tx.Some? then Sum(AmountTo(address), look.tx.value.vout) else 0
  }

  function SendOf(address: string): Lookup -> int {
    (look: Lookup) =>
      if look.entry.height > 0 && look.tx.Some? && KnownSpend(look.tx.value, address)
      then Sum(AmountFrom(address), look.tx.value.vin) else 0
  }

  function AtMost64(x: int): int {
    if x > 0xffff_ffff_ffff_ffff then 0xffff_ffff_ffff_ffff else x
  }

  lemma {:induction false} InputsAreOutputs(vin: seq<Vin>, address: string)
    requires forall i :: 0 <= i < |vin| ==> vin[i].prevout.Some?
    ensures Sum(AmountFrom(address), vin) == Sum(AmountTo(address), Prevouts(vin))
  {
    if vin != [] {
      var n := |vin| - 1;
      InputsAreOutputs(vin[..n], address);
      assert Prevouts(vin)[..n] == Prevouts(vin[..n]);
    }
  }

  /** One transaction, as the verifier reads it. */
  lemma SendReadExactly(tx: VerboseTx, address: string)
    requires !Unreadable(tx, address)
    ensures TotalReceivedAt(tx, address) == Some(Sum(AmountTo(address), tx.vout))
    ensures IsVerboseTxSpendOf(tx, address) == Some(PaysNothing(tx, address))
    ensures var sent := TotalSentFrom(tx, address);
      && (sent.SentUnknown? <==> exists i :: 0 <= i < |tx.vin| && tx.vin[i].prevout.None?)
      && (sent.SentRejected? ==> UnreadableInputs(tx, address))
      && (sent.SentExactly? ==> !UnreadableInputs(tx, address) && sent.amount == Sum(AmountFrom(address), tx.vin))
  {
    ReceivedExactly(tx, address);
    SpendExactly(tx, address);
    if AllResolved(tx) {
      InputsAreOutputs(tx.vin, address);
      PaidIsSum(Prevouts(tx.vin), address);
      SumNonNegative(AmountTo(address), Prevouts(tx.vin));
      assert forall i :: 0 <= i < |tx.vin| ==> Prevouts(tx.vin)[i] == tx.vin[i].prevout.value;
    }
  }

  lemma EntryExactly(t: Totals, look: Lookup, address: string)
    requires t.Totals? && t.received <= U64_MAX && t.sent <= U64_MAX && look.entry.height > 0
    ensures var t' := AddEntry(t, look.tx, address);
      && (t'.Bailed? <==> Unjudged(look, address))
      && (t'.Totals? ==>
            && t'.received == AtMost64(t.received + ReceiptOf(address)(look))
            && t'.sent == AtMost64(t.sent + SendOf(address)(look))
            && t'.seen == t.seen + 1)
  {
    if look.tx.Some? {
      ReceivedExactly(look.tx.value, address);
      if !Unreadable(look.tx.value, address) {
        SendReadExactly(look.tx.value, address);
      }
    }
  }

  lemma LookupsInit(history: seq<HistoryEntry>, txs: seq<Option<VerboseTx>>)
    requires |history| == |txs| > 0
    ensures var n := |history| - 1;
      Lookups(history, txs) == Lookups(history[..n], txs[..n]) + [Lookup(history[n], txs[n])]
  {
  }

  lemma {:induction false} ElectrumBailsExactly(history: seq<HistoryEntry>, txs: seq<Option<VerboseTx>>,
                                                address: string)
    requires |history| == |txs|
    ensures var t := ElectrumTotals(history, txs, address);
      && (t.Bailed? <==> exists look :: look in Lookups(history, txs) && Unjudged(look, address))
      && (t.Totals? ==> t.received <= U64_MAX && t.sent <= U64_MAX)
  {
    if history != [] {
      var n := |history| - 1;
      ElectrumBailsExactly(history[..n], txs[..n], address);
      LookupsInit(history, txs);
      var t := ElectrumTotals(history[..n], txs[..n], address);
      if t.Totals? && history[n].height > 0 {
        EntryExactly(t, Lookup(history[n], txs[n]), address);
      }
    }
  }

  /** The verification bails out exactly when some confirmed entry ends it; otherwise its totals are the
      sums over the confirmed entries, capped at 64 bits. */
  lemma {:induction false} ElectrumTotalsExactly(history: seq<HistoryEntry>, txs: seq<Option<VerboseTx>>,
                                                 address: string)
    requires |history| == |txs|
    ensures var t, looks := ElectrumTotals(history, txs, address), Lookups(history, txs);
      && (t.Bailed? <==> exists look :: look in looks && Unjudged(look, address))
      && (t.Totals? ==>
            && t.received == AtMost64(Sum(ReceiptOf(address), looks))
            && t.sent == AtMost64(Sum(SendOf(address), looks))
            && (t.seen == 0 <==> forall look :: look in looks ==> look.entry.height <= 0))
  {
    ElectrumBailsExactly(history, txs, address);
    if history != [] {
      var n := |history| - 1;
      var last := Lookup(history[n], txs[n]);
      ElectrumTotalsExactly(history[..n], txs[..n], address);
      LookupsInit(history, txs);
      assert Lookups(history, txs)[..n] == Lookups(history[..n], txs[..n]);
      var t := ElectrumTotals(history[..n], txs[..n], address);
      if t.Totals? && history[n].height > 0 {
        EntryExactly(t, last, address);
        EntryNonNegative(last, address);
      }
    }
  }

  lemma EntryNonNegative(look: Lookup, address: string)
    ensures ReceiptOf(address)(look) >= 0 && SendOf(address)(look) >= 0
  {
    if look.tx.Some? {
      SumNonNegative(AmountTo(address), look.tx.value.vout);
      SumNonNegative(AmountFrom(address), look.tx.value.vin);
    }
  }

  // ---------------------------------------------------------------- the verdict on an answer

  /** The verdict the answer calls for. */
  ghost predicate CallsFor(snap: Row, answer: ChainAnswer, v: Verdict) {
    var t := snap.terms;
    match answer
    case Unreachable => v == LwsError
    case ElectrumAnswer(history, _, txs) =>
      if (t.asset != Btc && t.asset != Ltc) || t.tipAddress.None? || |history| != |txs| then v == LwsError
      else
        var looks, address := Lookups(history, txs), t.tipAddress.value;
        if exists look :: look in looks && Unjudged(look, address) then v == LwsError
        else if forall look :: look in looks ==> look.entry.height <= 0 then v == Unfunded
        else Judges(AtMost64(Sum(ReceiptOf(address), looks)), AtMost64(Sum(SendOf(address), looks)), t.amount, v)
    case LwsAnswer(txs, _, _) =>
      if (t.asset != Xmr && t.asset != Wow) || t.tipAddress.None? || t.viewKey.None? then v == LwsError
      else
        && Sum(LwsReceipt, txs) <= 0xffff_ffff_ffff_ffff && Sum(LwsSend, txs) <= 0xffff_ffff_ffff_ffff
        && Judges(Sum(LwsReceipt, txs), Sum(LwsSend, txs), t.amount, v)
    case GrinAnswer(_, outputs, _) =>
      if t.asset != Grin || forall commit :: !CommitsTo(t, commit) then v == LwsError
      else if exists commit :: CommitsTo(t, commit) && commit in outputs
      then v == Verified(if t.amount > 0 then t.amount else 0)
      else v == Unfunded
  }

  lemma ElectrumVerdictExactly(snap: Row, answer: ChainAnswer, v: Verdict)
    requires answer.ElectrumAnswer?
    ensures FundingVerdict(snap, answer) == Some(v) <==> CallsFor(snap, answer, v)
    ensures FundingVerdict(snap, answer).Some?
  {
    var t, history, txs := snap.terms, answer.history, answer.txs;
    if t.tipAddress.Some? && |history| == |txs| {
      ElectrumTotalsExactly(history, txs, t.tipAddress.value);
      var totals := ElectrumTotals(history, txs, t.tipAddress.value);
      if totals.Totals? {
        JudgeExactly(totals.received, totals.sent, t.amount, v);
      }
    }
  }

  /** Exactly when the arithmetic trap leaves no verdict: a light-wallet list whose confirmed receipts or sends
      leave 64 bits. */
  ghost predicate TrapsOn(snap: Row, answer: ChainAnswer) {
    && answer.LwsAnswer?
    && (snap.terms.asset == Xmr || snap.terms.asset == Wow) && snap.terms.tipAddress.Some? && snap.terms.viewKey.Some?
    && (|| Sum(LwsReceipt, answer.transactions) > 0xffff_ffff_ffff_ffff
        || Sum(LwsSend, answer.transactions) > 0xffff_ffff_ffff_ffff)
  }

  lemma LwsVerdictExactly(snap: Row, answer: ChainAnswer, v: Verdict)
    requires answer.LwsAnswer?
    ensures FundingVerdict(snap, answer) == Some(v) <==> CallsFor(snap, answer, v)
    ensures FundingVerdict(snap, answer).None? <==> TrapsOn(snap, answer)
  {
    LwsTotalsExactly(answer.transactions);
    JudgeExactly(Received(answer.transactions), Sent(answer.transactions), snap.terms.amount, v);
  }

  lemma GrinVerdictExactly(snap: Row, answer: ChainAnswer, v: Verdict)
    requires answer.GrinAnswer?
    ensures FundingVerdict(snap, answer) == Some(v) <==> CallsFor(snap, answer, v)
    ensures FundingVerdict(snap, answer).Some?
  {
    forall commit {
      GrinCommitmentExactly(snap.terms, commit);
    }
  }

  /** The verdict on every answer, and when there is none. */
  lemma FundingVerdictExactly(snap: Row, answer: ChainAnswer, v: Verdict)
    ensures FundingVerdict(snap, answer) == Some(v) <==> CallsFor(snap, answer, v)
    ensures FundingVerdict(snap, answer).None? <==> TrapsOn(snap, answer)
  {
    match answer
    case Unreachable =>
    case ElectrumAnswer(_, _, _) => ElectrumVerdictExactly(snap, answer, v);
    case LwsAnswer(_, _, _) => LwsVerdictExactly(snap, answer, v);
    case GrinAnswer(_, _, _) => GrinVerdictExactly(snap, answer, v);
  }

  /** The funding worker writes exactly this: pending with the amount seen iff the answer verifies the row,
      a mismatch with the amount seen iff it falls short; on any other verdict only the check stamp. */
  lemma FundingDecidedExactly(v: Verdict)
    ensures DecideFunding(v).MarkVerified? <==> v.Verified?
    ensures DecideFunding(v).MarkMismatch? <==> v.Short?
    ensures v.Verified? || v.Short? ==>
      DecideFunding(v).observed == if v.observed > 0x7fff_ffff_ffff_ffff then 0x7fff_ffff_ffff_ffff else v.observed
    ensures !v.Verified? && !v.Short? ==> DecideFunding(v) == TouchLastCheck
  {
  }
}
