/** What one worker pass makes of one row, stated on the server's answer alone: when the row settles,
    reverts, becomes claimable or is refused, and every column that is then written. */
module PassOutcomes {
  import opened Machine
  import opened Chain
  import opened TipRows
  import opened Sweep
  import opened Answers
  import opened Receipts
  import opened TipWorkers
  import Funding

  /** What a settle on this winner, with its notice, writes. */
  lemma SettleWrites(r: Row, snap: Row, txid: string, height: int, now: nat)
    requires r.status == Claiming && r.sweepConfirmedAt.None?
    ensures var u := if snap.sweepTxid == Some(txid) then SettleKeepingClaimer(txid, I64AsI32(height), None)
                     else SettleClearingClaimer(txid, I64AsI32(height), None);
      Guard(u, r, now)
      && Apply(StampSweepNotified, Effect(u, r, now), now)
         == r.(status := Claimed, sweepTxid := Some(txid), sweepBlockHeight := Some(I64AsI32(height)),
               sweepBlockHash := None, sweepConfirmedAt := Some(now),
               sweepNotifiedAt := if r.sweepNotifiedAt.Some? then r.sweepNotifiedAt else Some(now),
               claimedBy := if snap.sweepTxid == Some(txid) then r.claimedBy else None)
  {
  }

  /** A claiming row settles when the answer backs a sweep of it. The row then records that sweep, its
      height in 32 bits and the time, keeps its claimer iff the worker read it with that sweep recorded, and is
      marked as notified. */
  lemma SettledRowExactly(r: Row, snap: Row, answer: ChainAnswer, now: nat, txid: string, height: int)
    requires OnWire(answer) && r.status == Claiming && r.sweepConfirmedAt.None?
    requires BacksSweep(snap, answer, txid, height)
    ensures SettleOn(r, snap, answer, now)
         == r.(status := Claimed, sweepTxid := Some(txid), sweepBlockHeight := Some(I64AsI32(height)),
               sweepBlockHash := None, sweepConfirmedAt := Some(now),
               sweepNotifiedAt := if r.sweepNotifiedAt.Some? then r.sweepNotifiedAt else Some(now),
               claimedBy := if snap.sweepTxid == Some(txid) then r.claimedBy else None)
  {
    DueWinnerExactly(snap, answer, txid, height);
    SettleWrites(r, snap, txid, height, now);
  }

  /** And when the answer backs no sweep, nothing but the check is stamped. */
  lemma UnsettledRowExactly(r: Row, snap: Row, answer: ChainAnswer, now: nat)
    requires forall txid, height :: !BacksSweep(snap, answer, txid, height)
    ensures SettleOn(r, snap, answer, now) == r.(lastCheck := Some(now))
  {
    DueWinnerIsBacked(snap, answer);
  }

  /** A settled row goes back to claiming exactly when the worker read it with a sweep and the answer no
      longer shows that sweep. The settlement and its notice are erased, the sweep and the claimer stay. */
  lemma RevertedRowExactly(r: Row, snap: Row, answer: ChainAnswer, now: nat)
    requires r.status == Claimed && r.sweepConfirmedAt.Some?
    ensures var r' := ReorgOn(r, snap, answer, now);
      r' == if snap.sweepTxid.Some? && LostSweep(snap, answer, snap.sweepTxid.value)
            then r.(status := Claiming, sweepConfirmedAt := None, sweepBlockHeight := None, sweepBlockHash := None,
                    sweepNotifiedAt := None,
                    reorgNotifiedAt := if r.reorgNotifiedAt.Some? then r.reorgNotifiedAt else Some(now))
            else r.(lastCheck := Some(now))
  {
    RevertDecidedExactly(snap, Probe(snap, answer));
    if snap.sweepTxid.Some? {
      LostSweepExactly(snap, answer, snap.sweepTxid.value);
    }
  }

  lemma JudgementWrites(r: Row, now: nat, v: Funding.Verdict)
    requires r.status == PendingConfirmation && !r.amountVerified
    ensures Apply(DecideFunding(v), r, now)
         == match v
            case Verified(seen) => r.(status := Pending, amountVerified := true, observed := Some(Capped(seen)))
            case Short(seen) => r.(status := FundingMismatch, amountVerified := true, observed := Some(Capped(seen)))
            case _ => r.(lastCheck := Some(now))
  {
  }

  /** A row awaiting verification becomes pending exactly when the answer covers its amount and a mismatch
      exactly when it falls short; both record the amount seen. On any other answer the check is stamped. */
  lemma JudgedRowExactly(r: Row, snap: Row, answer: ChainAnswer, now: nat, v: Funding.Verdict)
    requires r.status == PendingConfirmation && !r.amountVerified && CallsFor(snap, answer, v)
    ensures VerifyOn(r, snap, answer, now)
         == match v
            case Verified(seen) => r.(status := Pending, amountVerified := true, observed := Some(Capped(seen)))
            case Short(seen) => r.(status := FundingMismatch, amountVerified := true, observed := Some(Capped(seen)))
            case _ => r.(lastCheck := Some(now))
  {
    FundingVerdictExactly(snap, answer, v);
    JudgementWrites(r, now, v);
  }

  /** On every answer there is one verdict, except where the arithmetic traps; then the row is left alone. */
  lemma OneVerdict(snap: Row, answer: ChainAnswer)
    ensures (exists v :: CallsFor(snap, answer, v)) <==> !TrapsOn(snap, answer)
    ensures forall v, w :: CallsFor(snap, answer, v) && CallsFor(snap, answer, w) ==> v == w
    ensures TrapsOn(snap, answer) ==> forall r, now :: VerifyOn(r, snap, answer, now) == r
  {
    FundingVerdictExactly(snap, answer, Funding.LwsError);
    forall v {
      FundingVerdictExactly(snap, answer, v);
    }
    if FundingVerdict(snap, answer).Some? {
      assert CallsFor(snap, answer, FundingVerdict(snap, answer).value);
    }
  }

  /** The largest signed 64-bit number stands for every larger amount. */
  function Capped(seen: nat): int {
    if seen < 0x8000_0000_0000_0000 then seen else 0x7fff_ffff_ffff_ffff
  }
}
