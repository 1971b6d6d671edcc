/** The `social_tips` table as the code drives it: guarded updates, the two-statement user calls,
    and the worker passes that loop over a batch and write row by row. */
module TipWorkers {
  import opened Machine
  import opened Chain
  import opened TipRows
  import opened Sweep
  import Funding
  import Lifecycle

  datatype AttachResult = Attached(row: Row) | NotFound | DifferentTxid | NotADraft(status: Status)

  function AttachMiss(rows: map<TipId, Row>, id: TipId, user: UserId, txid: string): AttachResult {
    if id !in rows || rows[id].terms.sender != user then NotFound
    else if rows[id].fundingTxid == Some(txid) then Attached(rows[id])
    else if rows[id].fundingTxid.Some? then DifferentTxid
    else NotADraft(rows[id].status)
  }

  /** Whatever other calls do between a missed attach and its follow-up read, "attached" is answered
      only for a row of the caller that carries the transaction, and repeating the call then hits. */
  lemma MissIsExplained(rows: map<TipId, Row>, id: TipId, user: UserId, txid: string, now: nat)
    ensures AttachMiss(rows, id, user, txid).Attached?
       <==> id in rows && rows[id].terms.sender == user && rows[id].fundingTxid == Some(txid)
    ensures AttachMiss(rows, id, user, txid).Attached? ==>
      Guard(Update.AttachFunding(user, txid), rows[id], now)
        && Apply(Update.AttachFunding(user, txid), rows[id], now) == rows[id]
    ensures id in rows && Guard(Update.AttachFunding(user, txid), rows[id], now)
       <==> AttachMiss(rows, id, user, txid).Attached? || AttachMiss(rows, id, user, txid) == NotADraft(Draft)
  {
  }

  function Updated(rows: map<TipId, Row>, id: TipId, u: Update, now: nat): map<TipId, Row> {
    if id in rows && Guard(u, rows[id], now) then rows[id := Effect(u, rows[id], now)] else rows
  }

  /** The row after the confirm worker handled snapshot `snap`: its update, then the notify stamp if it settled. */
  function SettleOn(r: Row, snap: Row, answer: ChainAnswer, now: nat): Row {
    var u := DecideSettle(snap, Probe(snap, answer));
    if IsSettle(u) && Guard(u, r, now) then Apply(StampSweepNotified, Effect(u, r, now), now) else Apply(u, r, now)
  }

  function ReorgOn(r: Row, snap: Row, answer: ChainAnswer, now: nat): Row {
    var u := DecideReorg(snap, Probe(snap, answer));
    if u.RevertOnReorg? && Guard(u, r, now) then Apply(StampReorgNotified, Effect(u, r, now), now) else Apply(u, r, now)
  }

  /** The row after the funding worker handled it; an arithmetic trap leaves it alone. */
  function VerifyOn(r: Row, snap: Row, answer: ChainAnswer, now: nat): Row {
    var verdict := FundingVerdict(snap, answer);
    if verdict.None? then r else Apply(DecideFunding(verdict.value), r, now)
  }

  function OnSettle(now: nat): (Row, Row, ChainAnswer) -> Row {
    (r: Row, snap: Row, answer: ChainAnswer) => SettleOn(r, snap, answer, now)
  }

  function OnReorg(now: nat): (Row, Row, ChainAnswer) -> Row {
    (r: Row, snap: Row, answer: ChainAnswer) => ReorgOn(r, snap, answer, now)
  }

  function OnVerify(now: nat): (Row, Row, ChainAnswer) -> Row {
    (r: Row, snap: Row, answer: ChainAnswer) => VerifyOn(r, snap, answer, now)
  }

  function Rewritten(rows: map<TipId, Row>, id: TipId, f: Row -> Row): map<TipId, Row> {
    if id in rows then rows[id := f(rows[id])] else rows
  }

  /** Batch isolation: the first `k` rows of the batch are each what `on` makes of that row alone and
      its own response, and no other row changed. */
  predicate Passed(before: map<TipId, Row>, after: map<TipId, Row>, batch: seq<Row>, answers: seq<ChainAnswer>, k: nat,
                   on: (Row, Row, ChainAnswer) -> Row)
    requires k <= |batch| == |answers|
  {
    && after.Keys == before.Keys
    && (forall i :: 0 <= i < k && batch[i].terms.id in before ==>
          after[batch[i].terms.id] == on(before[batch[i].terms.id], batch[i], answers[i]))
    && (forall id :: id in before && (forall i :: 0 <= i < k ==> batch[i].terms.id != id) ==> after[id] == before[id])
  }

  lemma PassExtends(before: map<TipId, Row>, was: map<TipId, Row>, after: map<TipId, Row>,
                    batch: seq<Row>, answers: seq<ChainAnswer>, k: nat,
                    on: (Row, Row, ChainAnswer) -> Row, f: Row -> Row)
    requires k < |batch| == |answers| && Lifecycle.DistinctRows(batch)
    requires Passed(before, was, batch, answers, k, on)
    requires after == Rewritten(was, batch[k].terms.id, f)
    requires forall r :: f(r) == on(r, batch[k], answers[k])
    ensures Passed(before, after, batch, answers, k + 1, on)
  {
  }

  class TipTable {
    var rows: map<TipId, Row>

    /** One guarded `UPDATE ... WHERE id = ... RETURNING`. */
    method Execute(id: TipId, u: Update, now: nat) returns (hit: Option<Row>)
      modifies this
      ensures rows == Updated(old(rows), id, u, now)
      ensures hit == if id in old(rows) && Guard(u, old(rows)[id], now) then Some(rows[id]) else None
    {
      if id in rows && Guard(u, rows[id], now) {
        rows := rows[id := Effect(u, rows[id], now)];
        return Some(rows[id]);
      }
      return None;
    }

    /** The follow-up read after a missed attach: what the live row says, including that the same
        transaction got attached in between. */
    method ExplainAttachMiss(id: TipId, user: UserId, txid: string) returns (result: AttachResult)
      ensures result == AttachMiss(rows, id, user, txid)
    {
      if id !in rows || rows[id].terms.sender != user {
        return NotFound;
      }
      if rows[id].fundingTxid.Some? {
        if rows[id].fundingTxid.value != txid {
          return DifferentTxid;
        }
        return Attached(rows[id]);
      }
      return NotADraft(rows[id].status);
    }

    /** Attach a funding transaction; when the update misses, a follow-up read names the reason. */
    method AttachFunding(id: TipId, user: UserId, txid: string, now: nat) returns (result: AttachResult)
      requires ValidTxid(txid)
      modifies this
      ensures rows == Updated(old(rows), id, Update.AttachFunding(user, txid), now)
      ensures result.NotFound? <==> id !in old(rows) || old(rows)[id].terms.sender != user
      ensures result.Attached? ==> id in rows && result.row == rows[id] && rows[id].fundingTxid == Some(txid)
      ensures result.DifferentTxid? <==>
        id in old(rows) && old(rows)[id].terms.sender == user && old(rows)[id].fundingTxid.Some?
        && old(rows)[id].fundingTxid != Some(txid)
      ensures result.NotADraft? <==>
        id in old(rows) && old(rows)[id].terms.sender == user && old(rows)[id].fundingTxid.None?
        && old(rows)[id].status != Draft
      ensures id in old(rows) && old(rows)[id].fundingTxid == Some(txid) ==> rows == old(rows)
    {
      var hit := Execute(id, Update.AttachFunding(user, txid), now);
      if hit.Some? {
        return Attached(hit.value);
      }
      result := ExplainAttachMiss(id, user, txid);
    }

    /** Record a broadcast sweep; on a miss, return the live row of a claiming or settled tip. */
    method ConfirmTipSweep(id: TipId, user: UserId, txid: string, now: nat) returns (row: Option<Row>)
      requires ValidTxid(txid)
      modifies this
      ensures rows == Updated(old(rows), id, RecordSweep(user, txid), now)
      ensures row.Some? <==> id in old(rows) && old(rows)[id].status in {Claiming, Claimed}
      ensures row.Some? ==> row.value == rows[id] && row.value.status == old(rows)[id].status
      ensures row.Some? && old(rows)[id].sweepTxid.Some? ==> row.value.sweepTxid == old(rows)[id].sweepTxid
    {
      var recorded := Execute(id, RecordSweep(user, txid), now);
      if recorded.Some? {
        return recorded;
      }
      if id in rows && rows[id].status in {Claiming, Claimed} {
        return Some(rows[id]);
      }
      return None;
    }

    method ProcessAwaitingTip(tip: Row, answer: ChainAnswer, now: nat)
      modifies this
      ensures rows == Rewritten(old(rows), tip.terms.id, (r: Row) => SettleOn(r, tip, answer, now))
    {
      var u := DecideSettle(tip, Probe(tip, answer));
      var hit := Execute(tip.terms.id, u, now);
      if IsSettle(u) && hit.Some? {
        var _ := Execute(tip.terms.id, StampSweepNotified, now);
      }
    }

    method ProcessSettledTip(tip: Row, answer: ChainAnswer, now: nat)
      modifies this
      ensures rows == Rewritten(old(rows), tip.terms.id, (r: Row) => ReorgOn(r, tip, answer, now))
    {
      var u := DecideReorg(tip, Probe(tip, answer));
      var hit := Execute(tip.terms.id, u, now);
      if u.RevertOnReorg? && hit.Some? {
        var _ := Execute(tip.terms.id, StampReorgNotified, now);
      }
    }

    /** One confirm pass over the rows the cycle read at its start. */
    method ConfirmCycle(batch: seq<Row>, answers: seq<ChainAnswer>, now: nat)
      requires |answers| == |batch| && Lifecycle.DistinctRows(batch)
      modifies this
      ensures Passed(old(rows), rows, batch, answers, |batch|, OnSettle(now))
    {
      ghost var on := OnSettle(now);
      for k := 0 to |batch|
        invariant Passed(old(rows), rows, batch, answers, k, on)
      {
        ghost var was := rows;
        ProcessAwaitingTip(batch[k], answers[k], now);
        PassExtends(old(rows), was, rows, batch, answers, k, on, (r: Row) => SettleOn(r, batch[k], answers[k], now));
      }
    }

    /** One reorg pass over the rows the cycle read at its start. */
    method ReorgCycle(batch: seq<Row>, answers: seq<ChainAnswer>, now: nat)
      requires |answers| == |batch| && Lifecycle.DistinctRows(batch)
      modifies this
      ensures Passed(old(rows), rows, batch, answers, |batch|, OnReorg(now))
    {
      ghost var on := OnReorg(now);
      for k := 0 to |batch|
        invariant Passed(old(rows), rows, batch, answers, k, on)
      {
        ghost var was := rows;
        ProcessSettledTip(batch[k], answers[k], now);
        PassExtends(old(rows), was, rows, batch, answers, k, on, (r: Row) => ReorgOn(r, batch[k], answers[k], now));
      }
    }

    /** One verification pass; an arithmetic trap ends it at the row that caused it. */
    method VerificationPass(batch: seq<Row>, answers: seq<ChainAnswer>, now: nat) returns (done: nat)
      requires |answers| == |batch| && Lifecycle.DistinctRows(batch)
      modifies this
      ensures done <= |batch|
      ensures forall i :: 0 <= i < done ==> FundingVerdict(batch[i], answers[i]).Some?
      ensures done < |batch| ==> FundingVerdict(batch[done], answers[done]).None?
      ensures Passed(old(rows), rows, batch, answers, done, OnVerify(now))
    {
      ghost var on := OnVerify(now);
      done := 0;
      while done < |batch|
        invariant done <= |batch|
        invariant forall i :: 0 <= i < done ==> FundingVerdict(batch[i], answers[i]).Some?
        invariant Passed(old(rows), rows, batch, answers, done, on)
      {
        var verdict := FundingVerdict(batch[done], answers[done]);
        if verdict.None? {
          return;
        }
        ghost var was := rows;
        var _ := Execute(batch[done].terms.id, DecideFunding(verdict.value), now);
        PassExtends(old(rows), was, rows, batch, answers, done, on,
          (r: Row) => VerifyOn(r, batch[done], answers[done], now));
        done := done + 1;
      }
    }

    /** The two cancelling statements of the collector; the claiming scan only reads. */
    method CancelWhere(u: Update, now: nat) returns (cancelled: set<TipId>)
      requires u.CancelOldDraft? || u.CancelStuckPending?
      modifies this
      ensures rows.Keys == old(rows).Keys
      ensures forall id :: id in old(rows) ==> rows[id] == Apply(u, old(rows)[id], now)
      ensures forall id :: id in cancelled <==> id in rows && rows[id].status != old(rows)[id].status
      ensures forall id :: id in cancelled ==>
        rows[id].status == Cancelled && old(rows)[id].status in {Draft, PendingConfirmation}
    {
      cancelled := set id | id in rows && Guard(u, rows[id], now);
      rows := map id | id in rows :: Apply(u, rows[id], now);
    }
  }

  // ---------------------------------------------------------------- isolation and idempotence

  /** Equal but for the time of the last check. */
  predicate SameButChecked(a: Row, b: Row) {
    b == a.(lastCheck := b.lastCheck)
  }

  /** A failed probe changes nothing but the check stamp, in every pass. */
  lemma FailedProbesOnlyStamp(r: Row, snap: Row, answer: ChainAnswer, now: nat)
    ensures Probe(snap, answer).ProbeFailed? ==>
      SettleOn(r, snap, answer, now) == ReorgOn(r, snap, answer, now) == r.(lastCheck := Some(now))
    ensures FundingVerdict(snap, answer) == Some(Funding.LwsError)
      ==> VerifyOn(r, snap, answer, now) == r.(lastCheck := Some(now))
    ensures answer == Unreachable ==> SettleOn(r, snap, answer, now) == ReorgOn(r, snap, answer, now)
                                   == VerifyOn(r, snap, answer, now) == r.(lastCheck := Some(now))
  {
  }

  /** Re-running a pass on the same snapshot and the same response changes nothing but the check
      stamp, and a row whose status moved is not selected by that worker again. */
  predicate Idempotent(r: Row, once: Row, twice: Row, selectedAgain: bool) {
    SameButChecked(once, twice) && (once.status != r.status ==> !selectedAgain)
  }

  lemma ConfirmPassIsIdempotent(r: Row, snap: Row, answer: ChainAnswer, now: nat, later: nat)
    ensures var once := SettleOn(r, snap, answer, now);
      Idempotent(r, once, SettleOn(once, snap, answer, later), AwaitingSweep(once, later))
  {
    SettleTwice(r, DecideSettle(snap, Probe(snap, answer)), now, later);
  }

  lemma ReorgPassIsIdempotent(r: Row, snap: Row, answer: ChainAnswer, now: nat, later: nat)
    ensures var once := ReorgOn(r, snap, answer, now);
      Idempotent(r, once, ReorgOn(once, snap, answer, later), AwaitingReorgCheck(once, later))
  {
    RevertTwice(r, DecideReorg(snap, Probe(snap, answer)), now, later);
  }

  lemma VerificationPassIsIdempotent(r: Row, snap: Row, answer: ChainAnswer, now: nat, later: nat)
    ensures var once := VerifyOn(r, snap, answer, now);
      Idempotent(r, once, VerifyOn(once, snap, answer, later), AwaitingVerification(once, later))
  {
    if FundingVerdict(snap, answer).Some? {
      JudgeTwice(r, FundingVerdict(snap, answer).value, now, later);
    }
  }

  lemma SettleTwice(r: Row, u: Update, now: nat, later: nat)
    requires IsSettle(u) || u.TouchLastCheck?
    ensures var once := if IsSettle(u) && Guard(u, r, now) then Apply(StampSweepNotified, Effect(u, r, now), now)
      else Apply(u, r, now);
      && !(IsSettle(u) && Guard(u, once, later))
      && SameButChecked(once, Apply(u, once, later))
      && (once.status != r.status ==> once.status == Claimed)
  {
  }

  lemma RevertTwice(r: Row, u: Update, now: nat, later: nat)
    requires u.RevertOnReorg? || u.TouchLastCheck?
    ensures var once := if u.RevertOnReorg? && Guard(u, r, now)
      then Apply(StampReorgNotified, Effect(u, r, now), now) else Apply(u, r, now);
      && !(u.RevertOnReorg? && Guard(u, once, later))
      && SameButChecked(once, Apply(u, once, later))
      && (once.status != r.status ==> once.status == Claiming)
  {
  }

  lemma JudgeTwice(r: Row, verdict: Funding.Verdict, now: nat, later: nat)
    ensures var u := DecideFunding(verdict);
      var once := Apply(u, r, now);
      && SameButChecked(once, Apply(u, once, later))
      && (once.status != r.status ==> once.status != PendingConfirmation)
  {
  }
}
