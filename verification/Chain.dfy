/** What the untrusted chain back ends return, and the checked amount sums over a verbose
    transaction. An amount is `None` when the decimal converter rejects it. */
module Chain {
  import opened Machine
  import opened Permutations

  datatype ScriptPubKey = ScriptPubKey(address: Option<string>, addresses: Option<seq<string>>)

  datatype Output = Output(value: Option<nat>, spk: ScriptPubKey)

  datatype Vin = Vin(prevout: Option<Output>)

  datatype VerboseTx = VerboseTx(txid: string, vin: seq<Vin>, vout: seq<Output>)

  datatype HistoryEntry = HistoryEntry(txHash: string, height: int)

  datatype AddressTx = AddressTx(hash: string, height: nat, received: nat, sent: nat, mempool: bool)

  /** One worker's view of the chain for one row. `txs[i]` answers the verbose lookup of
      `history[i]`; a missing answer is a failed call. `kernel == None` is a failed kernel call. */
  datatype ChainAnswer =
    | Unreachable
    | ElectrumAnswer(history: seq<HistoryEntry>, tip: int, txs: seq<Option<VerboseTx>>)
    | LwsAnswer(transactions: seq<AddressTx>, blockchainHeight: nat, nodeHeight: Option<nat>)
    | GrinAnswer(height: nat, outputs: seq<string>, kernel: Option<Option<nat>>)

  function GetAddress(spk: ScriptPubKey): Option<string> {
    if spk.address.Some? then spk.address
    else if spk.addresses.Some? && spk.addresses.value != [] then Some(spk.addresses.value[0])
    else None
  }

  /** Exact amount the outputs pay to `address`; `None` when one of them was rejected. */
  function PaidTo(outs: seq<Output>, address: string): Option<nat> {
    if outs == [] then Some(0)
    else
      var last := outs[|outs| - 1];
      var sofar := PaidTo(outs[..|outs| - 1], address);
      if GetAddress(last.spk) != Some(address) then sofar
      else if sofar.None? || last.value.None? then None
      else Some(sofar.value + last.value.value)
  }

  /** The checked sum: exact and within `u64`, or refused. */
  function CheckedPaidTo(outs: seq<Output>, address: string): Option<nat> {
    var paid := PaidTo(outs, address);
    if paid.Some? && paid.value <= U64_MAX then paid else None
  }

  /** A prefix that already failed or already overflows stays refused however it continues. */
  lemma {:induction false} RefusalIsFinal(outs: seq<Output>, address: string, k: nat)
    requires k <= |outs|
    requires CheckedPaidTo(outs[..k], address).None?
    ensures CheckedPaidTo(outs, address).None?
    decreases |outs| - k
  {
    if k < |outs| {
      assert outs[..k + 1][..k] == outs[..k];
      RefusalIsFinal(outs, address, k + 1);
    } else {
      assert outs[..k] == outs;
    }
  }

  /** The accumulation loop behind both verbose-transaction accessors. */
  method SumPaidTo(outs: seq<Output>, address: string) returns (total: Option<nat>)
    ensures total == CheckedPaidTo(outs, address)
  {
    var sum: nat := 0;
    for i := 0 to |outs|
      invariant PaidTo(outs[..i], address) == Some(sum)
      invariant sum <= U64_MAX
    {
      assert outs[..i + 1][..i] == outs[..i];
      if GetAddress(outs[i].spk) == Some(address) {
        if outs[i].value.None? || sum + outs[i].value.value > U64_MAX {
          RefusalIsFinal(outs, address, i + 1);
          return None;
        }
        sum := sum + outs[i].value.value;
      }
    }
    assert outs[..|outs|] == outs;
    return Some(sum);
  }

  predicate AllResolved(tx: VerboseTx) {
    forall i :: 0 <= i < |tx.vin| ==> tx.vin[i].prevout.Some?
  }

  function Prevouts(vin: seq<Vin>): (outs: seq<Output>)
    requires forall i :: 0 <= i < |vin| ==> vin[i].prevout.Some?
    ensures |outs| == |vin|
  {
    seq(|vin|, i requires 0 <= i < |vin| => vin[i].prevout.value)
  }

  datatype SentAnswer = SentRejected | SentUnknown | SentExactly(amount: nat)

  function TotalReceivedAt(tx: VerboseTx, address: string): Option<nat> {
    CheckedPaidTo(tx.vout, address)
  }

  /** Exact only when every input is resolved; otherwise the accessor declines to answer. */
  function TotalSentFrom(tx: VerboseTx, address: string): SentAnswer {
    if !AllResolved(tx) then SentUnknown
    else
      var paid := CheckedPaidTo(Prevouts(tx.vin), address);
      if paid.None? then SentRejected else SentExactly(paid.value)
  }

  /** A transaction is a spend of a single-use address iff it pays that address nothing. */
  function IsVerboseTxSpendOf(tx: VerboseTx, address: string): Option<bool> {
    var received := TotalReceivedAt(tx, address);
    if received.None? then None else Some(received.value == 0)
  }

  // ---------------------------------------------------------------- what the accessors mean

  /** The output pays this address: by its single address, or else by the first of its list. */
  predicate Pays(o: Output, address: string) {
    || o.spk.address == Some(address)
    || (o.spk.address.None? && o.spk.addresses.Some?
        && o.spk.addresses.value != [] && o.spk.addresses.value[0] == address)
  }

  /** What an output adds to the amount paid to `address`. */
  function AmountTo(address: string): Output -> int {
    (o: Output) => if Pays(o, address) && o.value.Some? then o.value.value else 0
  }

  /** A matching output carries an amount the converter rejects. */
  predicate Rejected(outs: seq<Output>, address: string) {
    exists i :: 0 <= i < |outs| && Pays(outs[i], address) && outs[i].value.None?
  }

  lemma {:induction false} PaidIsSum(outs: seq<Output>, address: string)
    ensures PaidTo(outs, address).None? <==> Rejected(outs, address)
    ensures PaidTo(outs, address).Some? ==> PaidTo(outs, address).value == Sum(AmountTo(address), outs)
  {
    if outs != [] {
      var n := |outs| - 1;
      PaidIsSum(outs[..n], address);
      assert Rejected(outs[..n], address) ==> Rejected(outs, address);
    }
  }

  /** The accumulation is the sum over the outputs that pay the address, and it is refused exactly when one
      of their amounts is rejected or that sum leaves 64 bits. */
  lemma ReceivedExactly(tx: VerboseTx, address: string)
    ensures var sum := Sum(AmountTo(address), tx.vout);
      TotalReceivedAt(tx, address)
      == if Rejected(tx.vout, address) || sum > 0xffff_ffff_ffff_ffff then None else Some(sum)
    ensures Sum(AmountTo(address), tx.vout) >= 0
  {
    PaidIsSum(tx.vout, address);
    SumNonNegative(AmountTo(address), tx.vout);
  }

  /** What an address sent is known exactly when every input is resolved, and is then the sum over the
      spent outputs that paid it. */
  lemma SentExactlyWhen(tx: VerboseTx, address: string, n: nat)
    ensures TotalSentFrom(tx, address).SentUnknown? <==> exists i :: 0 <= i < |tx.vin| && tx.vin[i].prevout.None?
    ensures TotalSentFrom(tx, address) == SentExactly(n)
       <==> && (forall i :: 0 <= i < |tx.vin| ==> tx.vin[i].prevout.Some?)
            && var spent := seq(|tx.vin|, i requires 0 <= i < |tx.vin| => tx.vin[i].prevout.value);
            !Rejected(spent, address) && n == Sum(AmountTo(address), spent) && n <= 0xffff_ffff_ffff_ffff
  {
    if AllResolved(tx) {
      var spent := seq(|tx.vin|, i requires 0 <= i < |tx.vin| => tx.vin[i].prevout.value);
      assert spent == Prevouts(tx.vin);
      PaidIsSum(spent, address);
      SumNonNegative(AmountTo(address), spent);
    }
  }

  /** A transaction is a spend exactly when no output gives the address anything; it is undecided
      exactly when its receipt is refused. */
  lemma SpendExactly(tx: VerboseTx, address: string)
    ensures IsVerboseTxSpendOf(tx, address) == Some(true)
       <==> forall i :: 0 <= i < |tx.vout| && Pays(tx.vout[i], address) ==> tx.vout[i].value == Some(0)
    ensures IsVerboseTxSpendOf(tx, address).None?
       <==> Rejected(tx.vout, address) || Sum(AmountTo(address), tx.vout) > 0xffff_ffff_ffff_ffff
  {
    ReceivedExactly(tx, address);
    ZeroSum(AmountTo(address), tx.vout);
  }

  /** A sum of non-negative terms is zero exactly when every term is. */
  lemma ZeroSum<T>(f: T -> int, s: seq<T>)
    requires forall x :: x in s ==> f(x) >= 0
    ensures Sum(f, s) == 0 <==> forall i :: 0 <= i < |s| ==> f(s[i]) == 0
  {
    if s != [] {
      var n := |s| - 1;
      assert s == s[..n] + [s[n]];
      SumNonNegative(f, s[..n]);
      ZeroSum(f, s[..n]);
      assert forall i :: 0 <= i < n ==> s[..n][i] == s[i];
    }
  }
}
