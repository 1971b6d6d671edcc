/** The `social_tips` row, its statuses, and every guarded `UPDATE ... WHERE` that may touch it.
    Each update is a guard and an effect on one row; times are seconds. */
module TipRows {
  import opened Machine
  import opened Text

  type TipId = nat
  type UserId = nat

  datatype Asset = Btc | Ltc | Xmr | Wow | Grin | OtherAsset(name: string)

  datatype Status =
    Draft | PendingConfirmation | Pending | Claiming | Claimed | ClawedBack | Cancelled | FundingMismatch

  /** What the source calls terminal. */
  predicate IsTerminal(status: Status) {
    status in {Claimed, ClawedBack, Cancelled}
  }

  function ConfirmationsForAsset(asset: Asset): nat {
    match asset
    case Xmr => 10
    case Grin => 10
    case Wow => 4
    case _ => 0
  }

  /** Columns no update ever writes. */
  datatype Terms = Terms(
    id: TipId,
    sender: UserId,
    recipient: Option<UserId>,
    isPublic: bool,
    asset: Asset,
    amount: int,
    tipAddress: Option<string>,
    viewKey: Option<string>,
    commitment: Option<string>,
    required: int,
    createdAt: nat)

  datatype Row = Row(
    terms: Terms,
    status: Status,
    fundingTxid: Option<string>,
    confirmations: int,
    confirmedAt: Option<nat>,
    lastCheck: Option<nat>,
    amountVerified: bool,
    observed: Option<int>,
    claimedAt: Option<nat>,
    claimedBy: Option<UserId>,
    clawedBackAt: Option<nat>,
    sweepTxid: Option<string>,
    sweepConfirmedAt: Option<nat>,
    sweepBlockHeight: Option<int>,
    sweepBlockHash: Option<string>,
    sweepNotifiedAt: Option<nat>,
    reorgNotifiedAt: Option<nat>)

  const RECHECK_SECONDS: nat := 30
  const GC_SECONDS: nat := 7 * 24 * 3600
  const BATCH_SIZE: nat := 50

  /** The inserted row: a draft when no funding transaction came with the request. */
  function NewRow(terms: Terms, fundingTxid: Option<string>): Row {
    Row(terms, if fundingTxid.None? then Draft else PendingConfirmation, fundingTxid,
        0, None, None, false, None, None, None, None, None, None, None, None, None, None)
  }

  /** What the create handler checks, and the columns it derives itself. */
  predicate Creatable(terms: Terms, fundingTxid: Option<string>, now: nat) {
    && 0 < terms.amount <= I64_MAX
    && !terms.asset.OtherAsset?
    && terms.isPublic == terms.recipient.None?
    && terms.required == ConfirmationsForAsset(terms.asset)
    && terms.createdAt == now
    && (fundingTxid.None? ==> terms.tipAddress.Some?)
    && (fundingTxid.Some? ==> fundingTxid.value != "")
  }

  datatype Update =
    // user calls
    | CancelDraft(user: UserId)
    | AttachFunding(user: UserId, txid: string)
    | MarkClaiming(user: UserId)
    | RecordSweep(user: UserId, txid: string)
    | Clawback(user: UserId)
    // funding worker
    | UpdateConfirmations(count: int)
    | MarkVerified(observed: int)
    | MarkMismatch(observed: int)
    // sweep and reorg workers
    | SettleKeepingClaimer(txid: string, height: int, hash: Option<string>)
    | SettleClearingClaimer(txid: string, height: int, hash: Option<string>)
    | RevertOnReorg
    | StampSweepNotified
    | StampReorgNotified
    // garbage collection
    | CancelOldDraft
    | CancelStuckPending
    // shared by every worker's do-nothing branch
    | TouchLastCheck

  predicate IsUserCall(u: Update) {
    u.CancelDraft? || u.AttachFunding? || u.MarkClaiming? || u.RecordSweep? || u.Clawback?
  }

  predicate IsSettle(u: Update) {
    u.SettleKeepingClaimer? || u.SettleClearingClaimer?
  }

  /** The handlers trim transaction ids and refuse empty or oversized ones. */
  predicate ValidTxid(txid: string) {
    txid != "" && Trimmed(txid) && |txid| <= 128
  }

  predicate ValidCall(u: Update) {
    && IsUserCall(u)
    && (u.AttachFunding? || u.RecordSweep? ==> ValidTxid(u.txid))
  }

  /** The `WHERE` clause. */
  predicate Guard(u: Update, r: Row, now: nat) {
    match u
    case CancelDraft(user) => r.terms.sender == user && r.status == Draft
    case AttachFunding(user, txid) =>
      && r.terms.sender == user
      && ((r.status == Draft && r.fundingTxid.None?) || r.fundingTxid == Some(txid))
    case MarkClaiming(user) =>
      && r.status in {Pending, Claiming}
      && r.confirmations >= r.terms.required
      && r.amountVerified
      && r.sweepConfirmedAt.None?
      && (r.terms.isPublic || r.terms.recipient == Some(user))
    case RecordSweep(_, txid) =>
      && r.status == Claiming
      && r.sweepConfirmedAt.None?
      && r.terms.isPublic
      && (r.sweepTxid.None? || r.sweepTxid == Some(txid))
    case Clawback(user) =>
      && r.terms.sender == user
      && r.status in {Pending, PendingConfirmation, Claiming, FundingMismatch, Cancelled}
      && r.sweepConfirmedAt.None?
    case UpdateConfirmations(_) => true
    case MarkVerified(_) => r.status == PendingConfirmation && !r.amountVerified
    case MarkMismatch(_) => r.status == PendingConfirmation && !r.amountVerified
    case SettleKeepingClaimer(_, _, _) => r.status == Claiming && r.sweepConfirmedAt.None?
    case SettleClearingClaimer(_, _, _) => r.status == Claiming && r.sweepConfirmedAt.None?
    case RevertOnReorg => r.status == Claimed && r.sweepConfirmedAt.Some?
    case StampSweepNotified => r.sweepNotifiedAt.None?
    case StampReorgNotified => r.reorgNotifiedAt.None?
    case CancelOldDraft => r.status == Draft && r.terms.createdAt + GC_SECONDS < now
    case CancelStuckPending => r.status == PendingConfirmation && r.terms.createdAt + GC_SECONDS < now
    case TouchLastCheck => true
  }

  function Coalesce<T>(a: Option<T>, b: T): Option<T> {
    if a.Some? then a else Some(b)
  }

  /** The `SET` clause. */
  function Effect(u: Update, r: Row, now: nat): Row {
    match u
    case CancelDraft(_) => r.(status := Cancelled)
    case AttachFunding(_, txid) =>
      r.(status := if r.status == Draft && r.fundingTxid.None? then PendingConfirmation else r.status,
         fundingTxid := Coalesce(r.fundingTxid, txid))
    case MarkClaiming(user) => r.(status := Claiming, claimedAt := Some(now), claimedBy := Some(user))
    case RecordSweep(user, txid) =>
      r.(sweepTxid := Coalesce(r.sweepTxid, txid),
         claimedBy := Coalesce(r.claimedBy, user),
         claimedAt := Coalesce(r.claimedAt, now))
    case Clawback(_) => r.(status := ClawedBack, clawedBackAt := Some(now))
    case UpdateConfirmations(count) =>
      r.(confirmations := count,
         lastCheck := Some(now),
         confirmedAt := if count >= r.terms.required then Coalesce(r.confirmedAt, now) else r.confirmedAt)
    case MarkVerified(observed) => r.(status := Pending, amountVerified := true, observed := Some(observed))
    case MarkMismatch(observed) => r.(status := FundingMismatch, amountVerified := true, observed := Some(observed))
    case SettleKeepingClaimer(txid, height, hash) => Settled(r, txid, height, hash, now)
    case SettleClearingClaimer(txid, height, hash) => Settled(r, txid, height, hash, now).(claimedBy := None)
    case RevertOnReorg =>
      r.(status := Claiming, sweepConfirmedAt := None, sweepBlockHeight := None,
         sweepBlockHash := None, sweepNotifiedAt := None)
    case StampSweepNotified => r.(sweepNotifiedAt := Some(now))
    case StampReorgNotified => r.(reorgNotifiedAt := Some(now))
    case CancelOldDraft => r.(status := Cancelled)
    case CancelStuckPending => r.(status := Cancelled)
    case TouchLastCheck => r.(lastCheck := Some(now))
  }

  function Settled(r: Row, txid: string, height: int, hash: Option<string>, now: nat): Row {
    r.(status := Claimed, sweepConfirmedAt := Some(now), sweepTxid := Some(txid),
       sweepBlockHeight := Some(height), sweepBlockHash := hash)
  }

  /** One guarded `UPDATE` on one row. */
  function Apply(u: Update, r: Row, now: nat): Row {
    if Guard(u, r, now) then Effect(u, r, now) else r
  }

  // ---------------------------------------------------------------- worker SELECTs

  predicate DueForCheck(r: Row, now: nat) {
    r.lastCheck.None? || r.lastCheck.value + RECHECK_SECONDS < now
  }

  predicate AwaitingVerification(r: Row, now: nat) {
    r.status == PendingConfirmation && !r.amountVerified && r.confirmations >= r.terms.required && DueForCheck(r, now)
  }

  predicate AwaitingSweep(r: Row, now: nat) {
    r.status == Claiming && r.sweepConfirmedAt.None? && r.amountVerified && DueForCheck(r, now)
  }

  predicate AwaitingReorgCheck(r: Row, now: nat) {
    r.status == Claimed && r.sweepConfirmedAt.Some? && r.sweepBlockHeight.Some? && DueForCheck(r, now)
  }

  /** What the read endpoints report to clients. */
  predicate IsClaimable(r: Row) {
    r.status in {Pending, Claiming} && r.confirmations >= r.terms.required && r.amountVerified
  }
}
