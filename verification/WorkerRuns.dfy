/** The worker passes over the table object are runs of the state machine. */
module WorkerRuns {
  import opened Machine
  import opened Chain
  import opened TipRows
  import opened Sweep
  import opened Lifecycle
  import opened LifecycleTheorems
  import opened LifecycleOutcomes
  import opened TipWorkers
  import Funding

  /** An event that issues one update at one row. */
  lemma OneUpdate(s: Sys, e: Event, id: TipId, u: Update)
    requires !e.Create?
    requires forall j :: j in s.rows ==> UpdateFor(s, e, j) == if j == id then Some(u) else None
    ensures RowsAfter(s, e) == Updated(s.rows, id, u, s.now)
  {
  }

  lemma StampRow(s: Sys, id: TipId, reorgStamp: bool)
    ensures Step(s, Stamp(id, reorgStamp))
         == s.(rows := Updated(s.rows, id, if reorgStamp then StampReorgNotified else StampSweepNotified, s.now))
  {
    OneUpdate(s, Stamp(id, reorgStamp), id, if reorgStamp then StampReorgNotified else StampSweepNotified);
  }

  lemma RunTwo(s: Sys, a: Event, b: Event)
    ensures Run(s, [a, b]) == Step(Step(s, a), b)
  {
    RunFirst(s, a, [b]);
    RunOne(Step(s, a), b);
    assert [a, b] == [a] + [b];
  }

  /** What the first `k` rows of a pass leave is determined by what they read. */
  lemma PassedIsUnique(before: map<TipId, Row>, a: map<TipId, Row>, b: map<TipId, Row>, batch: seq<Row>,
                       answers: seq<ChainAnswer>,
                       k: nat, on: (Row, Row, ChainAnswer) -> Row)
    requires k <= |batch| == |answers|
    requires Passed(before, a, batch, answers, k, on) && Passed(before, b, batch, answers, k, on)
    ensures a == b
  {
    forall id | id in before
      ensures a[id] == b[id]
    {
      if i :| 0 <= i < k && batch[i].terms.id == id {
        assert a[batch[i].terms.id] == on(before[id], batch[i], answers[i]);
      }
    }
  }

  // ---------------------------------------------------------------- the confirm pass

  lemma ConfirmWriteRow(s: Sys)
    requires HasProbe(s.confirm)
    ensures Step(s, ConfirmWrite)
         == s.(rows := Updated(s.rows, s.confirm.queue[0].terms.id,
                               DecideSettle(s.confirm.queue[0], s.confirm.probe.value), s.now),
               confirm := Busy(s.confirm.queue[1..], None))
  {
    OneUpdate(s, ConfirmWrite, s.confirm.queue[0].terms.id, DecideSettle(s.confirm.queue[0], s.confirm.probe.value));
  }

  predicate SettleHits(r: Row, snap: Row, answer: ChainAnswer, now: nat) {
    var u := DecideSettle(snap, Probe(snap, answer));
    IsSettle(u) && Guard(u, r, now)
  }

  lemma SettleRewrites(rows: map<TipId, Row>, snap: Row, answer: ChainAnswer, now: nat)
    ensures var id, u := snap.terms.id, DecideSettle(snap, Probe(snap, answer));
      var once := Updated(rows, id, u, now);
      Rewritten(rows, id, (r: Row) => SettleOn(r, snap, answer, now))
      == if id in rows && SettleHits(rows[id], snap, answer, now) then Updated(once, id, StampSweepNotified, now)
        else once
  {
  }

  /** The events of one tip: probe, write, and the stamp when the write settled it. */
  lemma SettleTipRun(s: Sys, q: seq<Row>, answer: ChainAnswer) returns (es: seq<Event>)
    requires q != [] && s.confirm == Busy(q, None)
    ensures Run(s, es)
         == s.(rows := Rewritten(s.rows, q[0].terms.id, (r: Row) => SettleOn(r, q[0], answer, s.now)),
               confirm := Busy(q[1..], None))
  {
    var id := q[0].terms.id;
    ProbeConfirm(s, answer);
    var probed := Step(s, ConfirmProbe(answer));
    ConfirmWriteRow(probed);
    RunTwo(s, ConfirmProbe(answer), ConfirmWrite);
    SettleRewrites(s.rows, q[0], answer, s.now);
    es := [ConfirmProbe(answer), ConfirmWrite];
    if id in s.rows && SettleHits(s.rows[id], q[0], answer, s.now) {
      var written := Step(probed, ConfirmWrite);
      StampRow(written, id, false);
      RunAppend(s, es, [Stamp(id, false)]);
      RunOne(written, Stamp(id, false));
      es := es + [Stamp(id, false)];
    }
  }

  lemma {:induction false} ConfirmRowsRun(start: map<TipId, Row>, s: Sys, batch: seq<Row>, answers: seq<ChainAnswer>,
                                          k: nat)
    returns (es: seq<Event>)
    requires k <= |batch| == |answers| && DistinctRows(batch)
    requires s.confirm == Busy(batch[k..], None)
    requires Passed(start, s.rows, batch, answers, k, OnSettle(s.now))
    ensures var s' := Run(s, es);
      s' == s.(rows := s'.rows, confirm := Idle) && Passed(start, s'.rows, batch, answers, |batch|, OnSettle(s.now))
    decreases |batch| - k
  {
    if k == |batch| {
      es := [ConfirmEnd];
      RunOne(s, ConfirmEnd);
      EndAndWait(s, 0);
    } else {
      assert batch[k..][1..] == batch[k + 1..];
      var first := SettleTipRun(s, batch[k..], answers[k]);
      var next := Run(s, first);
      PassExtends(start, s.rows, next.rows, batch, answers, k, OnSettle(s.now),
        (r: Row) => SettleOn(r, batch[k], answers[k], s.now));
      var rest := ConfirmRowsRun(start, next, batch, answers, k + 1);
      RunAppend(s, first, rest);
      es := first + rest;
    }
  }

  /** The rows a cycle reads at its start. */
  function BatchOf(s: Sys, ids: seq<TipId>): (batch: seq<Row>)
    requires forall i :: 0 <= i < |ids| ==> ids[i] in s.rows
    ensures |batch| == |ids| && forall i :: 0 <= i < |ids| ==> batch[i] == s.rows[ids[i]]
  {
    seq(|ids|, i requires 0 <= i < |ids| => s.rows[ids[i]])
  }

  /** Whatever table `ConfirmCycle` leaves is the table of a run that begins the cycle on these rows,
      probes and writes each in turn, and ends it, with nobody else in between. */
  lemma ConfirmCycleIsARun(s: Sys, ids: seq<TipId>, answers: seq<ChainAnswer>, after: map<TipId, Row>)
    returns (es: seq<Event>)
    requires RowsInv(s.rows) && s.confirm.Idle? && 0 < |ids| <= BATCH_SIZE && Distinct(ids) && |answers| == |ids|
    requires forall i :: 0 <= i < |ids| ==> ids[i] in s.rows && AwaitingSweep(s.rows[ids[i]], s.now)
    requires Passed(s.rows, after, BatchOf(s, ids), answers, |ids|, OnSettle(s.now))
    ensures Run(s, es) == s.(rows := after)
  {
    var batch := BatchOf(s, ids);
    NoWrites(s, ConfirmBegin(ids));
    var begun := Step(s, ConfirmBegin(ids));
    assert begun.confirm.queue == batch == batch[0..];
    var rest := ConfirmRowsRun(s.rows, begun, batch, answers, 0);
    RunFirst(s, ConfirmBegin(ids), rest);
    es := [ConfirmBegin(ids)] + rest;
    PassedIsUnique(s.rows, Run(begun, rest).rows, after, batch, answers, |ids|, OnSettle(s.now));
  }

  // ---------------------------------------------------------------- the reorg pass

  lemma ReorgWriteRow(s: Sys)
    requires HasProbe(s.reorg)
    ensures Step(s, ReorgWrite)
         == s.(rows := Updated(s.rows, s.reorg.queue[0].terms.id,
                               DecideReorg(s.reorg.queue[0], s.reorg.probe.value), s.now),
               reorg := Busy(s.reorg.queue[1..], None))
  {
    OneUpdate(s, ReorgWrite, s.reorg.queue[0].terms.id, DecideReorg(s.reorg.queue[0], s.reorg.probe.value));
  }

  predicate RevertHits(r: Row, snap: Row, answer: ChainAnswer, now: nat) {
    var u := DecideReorg(snap, Probe(snap, answer));
    u.RevertOnReorg? && Guard(u, r, now)
  }

  lemma RevertRewrites(rows: map<TipId, Row>, snap: Row, answer: ChainAnswer, now: nat)
    ensures var id, u := snap.terms.id, DecideReorg(snap, Probe(snap, answer));
      var once := Updated(rows, id, u, now);
      Rewritten(rows, id, (r: Row) => ReorgOn(r, snap, answer, now))
      == if id in rows && RevertHits(rows[id], snap, answer, now) then Updated(once, id, StampReorgNotified, now)
        else once
  {
  }

  lemma RevertTipRun(s: Sys, q: seq<Row>, answer: ChainAnswer) returns (es: seq<Event>)
    requires q != [] && s.reorg == Busy(q, None)
    ensures Run(s, es)
         == s.(rows := Rewritten(s.rows, q[0].terms.id, (r: Row) => ReorgOn(r, q[0], answer, s.now)),
               reorg := Busy(q[1..], None))
  {
    var id := q[0].terms.id;
    ProbeReorg(s, answer);
    var probed := Step(s, ReorgProbe(answer));
    ReorgWriteRow(probed);
    RunTwo(s, ReorgProbe(answer), ReorgWrite);
    RevertRewrites(s.rows, q[0], answer, s.now);
    es := [ReorgProbe(answer), ReorgWrite];
    if id in s.rows && RevertHits(s.rows[id], q[0], answer, s.now) {
      var written := Step(probed, ReorgWrite);
      StampRow(written, id, true);
      RunAppend(s, es, [Stamp(id, true)]);
      RunOne(written, Stamp(id, true));
      es := es + [Stamp(id, true)];
    }
  }

  lemma {:induction false} ReorgRowsRun(start: map<TipId, Row>, s: Sys, batch: seq<Row>, answers: seq<ChainAnswer>,
                                        k: nat)
    returns (es: seq<Event>)
    requires k <= |batch| == |answers| && DistinctRows(batch)
    requires s.reorg == Busy(batch[k..], None)
    requires Passed(start, s.rows, batch, answers, k, OnReorg(s.now))
    ensures var s' := Run(s, es);
      s' == s.(rows := s'.rows, reorg := Idle) && Passed(start, s'.rows, batch, answers, |batch|, OnReorg(s.now))
    decreases |batch| - k
  {
    if k == |batch| {
      es := [ReorgEnd];
      RunOne(s, ReorgEnd);
      EndAndWait(s, 0);
    } else {
      assert batch[k..][1..] == batch[k + 1..];
      var first := RevertTipRun(s, batch[k..], answers[k]);
      var next := Run(s, first);
      PassExtends(start, s.rows, next.rows, batch, answers, k, OnReorg(s.now),
        (r: Row) => ReorgOn(r, batch[k], answers[k], s.now));
      var rest := ReorgRowsRun(start, next, batch, answers, k + 1);
      RunAppend(s, first, rest);
      es := first + rest;
    }
  }

  /** The same for `ReorgCycle`. */
  lemma ReorgCycleIsARun(s: Sys, ids: seq<TipId>, answers: seq<ChainAnswer>, after: map<TipId, Row>)
    returns (es: seq<Event>)
    requires RowsInv(s.rows) && s.reorg.Idle? && 0 < |ids| <= BATCH_SIZE && Distinct(ids) && |answers| == |ids|
    requires forall i :: 0 <= i < |ids| ==> ids[i] in s.rows && AwaitingReorgCheck(s.rows[ids[i]], s.now)
    requires Passed(s.rows, after, BatchOf(s, ids), answers, |ids|, OnReorg(s.now))
    ensures Run(s, es) == s.(rows := after)
  {
    var batch := BatchOf(s, ids);
    NoWrites(s, ReorgBegin(ids));
    var begun := Step(s, ReorgBegin(ids));
    assert begun.reorg.queue == batch == batch[0..];
    var rest := ReorgRowsRun(s.rows, begun, batch, answers, 0);
    RunFirst(s, ReorgBegin(ids), rest);
    es := [ReorgBegin(ids)] + rest;
    PassedIsUnique(s.rows, Run(begun, rest).rows, after, batch, answers, |ids|, OnReorg(s.now));
  }

  // ---------------------------------------------------------------- the verification pass

  /** The tasks of workers `from` up to the end of the batch, read and not probed. */
  function Tasks(batch: seq<Row>, from: nat, to: nat): map<WorkerId, FundingTask>
    requires to <= |batch|
  {
    map w: nat | from <= w < to :: FundingTask(batch[w], None)
  }

  lemma ReadTask(s: Sys, batch: seq<Row>, k: nat)
    requires k < |batch| && s.funding == Tasks(batch, 0, k)
    requires batch[k].terms.id in s.rows && s.rows[batch[k].terms.id] == batch[k]
      && AwaitingVerification(batch[k], s.now)
    ensures Step(s, FundingRead(k, batch[k].terms.id)) == s.(funding := Tasks(batch, 0, k + 1))
  {
    NoWrites(s, FundingRead(k, batch[k].terms.id));
    assert FundingAfter(s, FundingRead(k, batch[k].terms.id)) == Tasks(batch, 0, k + 1);
  }

  /** The pass reads all its rows first. */
  lemma {:induction false} ReadTasks(s: Sys, batch: seq<Row>, k: nat) returns (es: seq<Event>)
    requires k <= |batch| && s.funding == map[]
    requires forall i :: 0 <= i < |batch| ==>
      batch[i].terms.id in s.rows && s.rows[batch[i].terms.id] == batch[i] && AwaitingVerification(batch[i], s.now)
    ensures Run(s, es) == s.(funding := Tasks(batch, 0, k))
  {
    if k == 0 {
      es := [];
      assert Tasks(batch, 0, 0) == map[];
    } else {
      var before := ReadTasks(s, batch, k - 1);
      var read := FundingRead(k - 1, batch[k - 1].terms.id);
      ReadTask(Run(s, before), batch, k - 1);
      RunAppend(s, before, [read]);
      RunOne(Run(s, before), read);
      es := before + [read];
    }
  }

  lemma ProbeTask(s: Sys, batch: seq<Row>, k: nat, answer: ChainAnswer)
    requires k < |batch| && s.funding == Tasks(batch, k, |batch|)
    ensures Step(s, FundingProbe(k, answer))
         == s.(funding := s.funding[k := FundingTask(batch[k], FundingVerdict(batch[k], answer))])
  {
    NoWrites(s, FundingProbe(k, answer));
  }

  lemma WriteTask(s: Sys, w: WorkerId)
    requires w in s.funding && s.funding[w].verdict.Some?
    ensures Step(s, FundingWrite(w))
         == s.(rows := Updated(s.rows, s.funding[w].snap.terms.id, DecideFunding(s.funding[w].verdict.value), s.now),
               funding := s.funding - {w})
  {
    OneUpdate(s, FundingWrite(w), s.funding[w].snap.terms.id, DecideFunding(s.funding[w].verdict.value));
  }

  lemma VerifyRewrites(rows: map<TipId, Row>, snap: Row, answer: ChainAnswer, verdict: Funding.Verdict, now: nat)
    requires FundingVerdict(snap, answer) == Some(verdict)
    ensures Rewritten(rows, snap.terms.id, (r: Row) => VerifyOn(r, snap, answer, now))
         == Updated(rows, snap.terms.id, DecideFunding(verdict), now)
  {
  }

  lemma VerifyTipRun(s: Sys, batch: seq<Row>, k: nat, answer: ChainAnswer) returns (es: seq<Event>)
    requires k < |batch| && s.funding == Tasks(batch, k, |batch|) && FundingVerdict(batch[k], answer).Some?
    ensures Run(s, es)
         == s.(rows := Rewritten(s.rows, batch[k].terms.id, (r: Row) => VerifyOn(r, batch[k], answer, s.now)),
               funding := Tasks(batch, k + 1, |batch|))
  {
    es := [FundingProbe(k, answer), FundingWrite(k)];
    RunTwo(s, FundingProbe(k, answer), FundingWrite(k));
    ProbeTask(s, batch, k, answer);
    WriteTask(Step(s, FundingProbe(k, answer)), k);
    VerifyRewrites(s.rows, batch[k], answer, FundingVerdict(batch[k], answer).value, s.now);
    assert s.funding[k := FundingTask(batch[k], FundingVerdict(batch[k], answer))] - {k}
      == Tasks(batch, k + 1, |batch|);
  }

  /** A pass that ends early drops the tasks it read and did not write. */
  lemma {:induction false} DropTasks(s: Sys, batch: seq<Row>, k: nat) returns (es: seq<Event>)
    requires k <= |batch| && s.funding == Tasks(batch, k, |batch|)
    ensures Run(s, es) == s.(funding := map[])
    decreases |batch| - k
  {
    if k == |batch| {
      es := [];
      assert Tasks(batch, k, k) == map[];
    } else {
      NoWrites(s, FundingDrop(k));
      assert s.funding - {k} == Tasks(batch, k + 1, |batch|);
      var rest := DropTasks(Step(s, FundingDrop(k)), batch, k + 1);
      RunFirst(s, FundingDrop(k), rest);
      es := [FundingDrop(k)] + rest;
    }
  }

  lemma {:induction false} VerifyRowsRun(start: map<TipId, Row>, s: Sys, batch: seq<Row>, answers: seq<ChainAnswer>,
                                         k: nat, done: nat)
    returns (es: seq<Event>)
    requires k <= done <= |batch| == |answers| && DistinctRows(batch)
    requires forall i :: 0 <= i < done ==> FundingVerdict(batch[i], answers[i]).Some?
    requires s.funding == Tasks(batch, k, |batch|)
    requires Passed(start, s.rows, batch, answers, k, OnVerify(s.now))
    ensures var s' := Run(s, es);
      s' == s.(rows := s'.rows, funding := map[]) && Passed(start, s'.rows, batch, answers, done, OnVerify(s.now))
    decreases done - k
  {
    if k == done {
      es := DropTasks(s, batch, k);
    } else {
      var first := VerifyTipRun(s, batch, k, answers[k]);
      var next := Run(s, first);
      PassExtends(start, s.rows, next.rows, batch, answers, k, OnVerify(s.now),
        (r: Row) => VerifyOn(r, batch[k], answers[k], s.now));
      var rest := VerifyRowsRun(start, next, batch, answers, k + 1, done);
      RunAppend(s, first, rest);
      es := first + rest;
    }
  }

  /** The same for `VerificationPass`, up to the row whose sums trap, if any. */
  lemma VerificationPassIsARun(s: Sys, ids: seq<TipId>, answers: seq<ChainAnswer>, done: nat, after: map<TipId, Row>)
    returns (es: seq<Event>)
    requires RowsInv(s.rows) && s.funding == map[] && Distinct(ids) && done <= |ids| == |answers|
    requires forall i :: 0 <= i < |ids| ==> ids[i] in s.rows && AwaitingVerification(s.rows[ids[i]], s.now)
    requires forall i :: 0 <= i < done ==> FundingVerdict(s.rows[ids[i]], answers[i]).Some?
    requires Passed(s.rows, after, BatchOf(s, ids), answers, done, OnVerify(s.now))
    ensures Run(s, es) == s.(rows := after)
  {
    var batch := BatchOf(s, ids);
    var first := ReadTasks(s, batch, |batch|);
    var rest := VerifyRowsRun(s.rows, Run(s, first), batch, answers, 0, done);
    RunAppend(s, first, rest);
    es := first + rest;
    PassedIsUnique(s.rows, Run(s, es).rows, after, batch, answers, done, OnVerify(s.now));
  }
}
