/** The signup proof-of-work gate: stateless challenges with a signed expiry, and an in-process map
    of spent solutions that is pruned on every spend. Times are milliseconds of one clock. */
module PowGate {
  import opened Machine

  const TTL_SECONDS: nat := 600
  const TTL_MS: nat := 600_000

  type Signature = string

  datatype Challenge = Challenge(signature: Option<Signature>, expiresAt: nat)

  datatype VerifyResult = Accepted | LibraryRejected | AlreadyUsed

  /** What is signed: the clock in whole seconds, plus the window. */
  function Expiry(now: nat): nat {
    now / 1000 + TTL_SECONDS
  }

  /** The library's verdict: a signature we issued, over this expiry, with a solution, not expired.
      `inclusive` is whether it still accepts in the expiry second itself. */
  predicate LibraryAccepts(issued: map<Signature, nat>, c: Challenge, solved: bool, now: nat, inclusive: bool) {
    && c.signature.Some? && c.signature.value in issued && issued[c.signature.value] == c.expiresAt
    && solved
    && (if inclusive then now / 1000 <= c.expiresAt else now / 1000 < c.expiresAt)
  }

  function Pruned(spent: map<Signature, nat>, now: nat): map<Signature, nat> {
    map s | s in spent && now < spent[s] + TTL_MS :: spent[s]
  }

  /** A challenge is accepted for ten minutes of whole seconds after it was issued, and only with a solution
      and the expiry that was signed; a signature never issued is accepted at no time. */
  lemma ChallengeWindow(issued: map<Signature, nat>, s: Signature, at: nat, c: Challenge, solved: bool, now: nat)
    requires s in issued && issued[s] == Expiry(at)
    ensures c.signature == Some(s) ==>
      (LibraryAccepts(issued, c, solved, now, false)
       <==> solved && c.expiresAt == at / 1000 + 600 && now / 1000 - at / 1000 < 600)
    ensures c.signature.None? || c.signature.value !in issued ==> !LibraryAccepts(issued, c, solved, now, false)
  {
  }

  /** A spend is remembered, with its time, for exactly ten minutes. */
  lemma SpentWindow(spent: map<Signature, nat>, s: Signature, now: nat)
    ensures s in Pruned(spent, now) <==> s in spent && now - spent[s] < 600_000
    ensures s in Pruned(spent, now) ==> Pruned(spent, now)[s] == spent[s]
  {
  }

  class PowStore {
    var spent: map<Signature, nat>

    constructor ()
      ensures spent == map[]
    {
      spent := map[];
    }

    /** Prune and spend in one locked section; the insert renews the entry even on a replay. */
    method SpendSolution(signature: Signature, now: nat) returns (first: bool)
      modifies this
      ensures first <==> signature !in Pruned(old(spent), now)
      ensures spent == Pruned(old(spent), now)[signature := now]
      ensures (forall s :: s in old(spent) ==> old(spent)[s] <= now) ==>
                forall s :: s in spent ==> spent[s] <= now < spent[s] + TTL_MS
    {
      spent := Pruned(spent, now);
      first := signature !in spent;
      spent := spent[signature := now];
    }

    method VerifyPayload(ghost issued: map<Signature, nat>, c: Challenge, libraryOk: bool, solved: bool, now: nat)
      returns (result: VerifyResult)
      requires libraryOk == LibraryAccepts(issued, c, solved, now, false)
      modifies this
      ensures (Gate(issued, spent), result == Accepted) == VerifyStep(Gate(issued, old(spent)), c, solved, now, false)
    {
      if !libraryOk {
        return LibraryRejected;
      }
      var first := SpendSolution(c.signature.value, now);
      return if first then Accepted else AlreadyUsed;
    }
  }

  // ---------------------------------------------------------------- runs

  /** `issued` is what the server has signed so far; the server itself keeps no such table. */
  datatype Gate = Gate(issued: map<Signature, nat>, spent: map<Signature, nat>)

  datatype Event =
    | Issue(signature: Signature, at: nat)
    | Verify(challenge: Challenge, solved: bool, at: nat)

  const INIT := Gate(map[], map[])

  function VerifyStep(g: Gate, c: Challenge, solved: bool, now: nat, inclusive: bool): (Gate, bool) {
    if !LibraryAccepts(g.issued, c, solved, now, inclusive) then (g, false)
    else
      var kept := Pruned(g.spent, now);
      (g.(spent := kept[c.signature.value := now]), c.signature.value !in kept)
  }

  function Step(g: Gate, e: Event, inclusive: bool): Gate {
    match e
    case Issue(s, now) => if s in g.issued then g else g.(issued := g.issued[s := Expiry(now)])
    case Verify(c, solved, now) => VerifyStep(g, c, solved, now, inclusive).0
  }

  predicate Accepts(g: Gate, e: Event, s: Signature, inclusive: bool) {
    e.Verify? && e.challenge.signature == Some(s) && VerifyStep(g, e.challenge, e.solved, e.at, inclusive).1
  }

  /** How often the run accepts this challenge. */
  function TimesAccepted(g: Gate, es: seq<Event>, s: Signature, inclusive: bool): nat
    decreases |es|
  {
    if es == [] then 0
    else
      var here := if Accepts(g, es[0], s, inclusive) then 1 else 0;
      here + TimesAccepted(Step(g, es[0], inclusive), es[1..], s, inclusive)
  }

  predicate Clocked(es: seq<Event>, from: nat) {
    && (forall i :: 0 <= i < |es| ==> from <= es[i].at)
    && (forall i, j :: 0 <= i < j < |es| ==> es[i].at <= es[j].at)
  }

  /** No expiry lies further ahead than one window. */
  predicate Issued(g: Gate, now: nat) {
    forall s :: s in g.issued ==> g.issued[s] <= Expiry(now)
  }

  /** The challenge is used up for good: its spend outlives its expiry, or it has expired. */
  predicate Burned(g: Gate, s: Signature, now: nat) {
    && s in g.issued
    && (g.issued[s] <= now / 1000 || (s in g.spent && g.issued[s] * 1000 <= g.spent[s] + TTL_MS && g.spent[s] <= now))
  }

  lemma StepKeepsIssued(g: Gate, e: Event, from: nat)
    requires Issued(g, from) && from <= e.at
    ensures Issued(Step(g, e, false), e.at)
  {
    assert from / 1000 <= e.at / 1000;
  }

  lemma AcceptedIsBurned(g: Gate, e: Event, s: Signature)
    requires Issued(g, e.at) && Accepts(g, e, s, false)
    ensures Burned(Step(g, e, false), s, e.at)
  {
  }

  lemma BurnedStays(g: Gate, e: Event, s: Signature, from: nat)
    requires Burned(g, s, from) && from <= e.at
    ensures !Accepts(g, e, s, false)
    ensures Burned(Step(g, e, false), s, e.at)
  {
    assert from / 1000 <= e.at / 1000;
  }

  lemma {:induction false} BurnedIsNeverAccepted(g: Gate, es: seq<Event>, s: Signature, from: nat)
    requires Burned(g, s, from) && Clocked(es, from)
    ensures TimesAccepted(g, es, s, false) == 0
    decreases |es|
  {
    if es != [] {
      BurnedStays(g, es[0], s, from);
      BurnedIsNeverAccepted(Step(g, es[0], false), es[1..], s, es[0].at);
    }
  }

  lemma {:induction false} AcceptedAtMostOnce(g: Gate, es: seq<Event>, s: Signature, from: nat)
    requires Issued(g, from) && Clocked(es, from)
    ensures TimesAccepted(g, es, s, false) <= 1
    decreases |es|
  {
    if es != [] {
      StepKeepsIssued(g, es[0], from);
      var g' := Step(g, es[0], false);
      if Accepts(g, es[0], s, false) {
        assert from / 1000 <= es[0].at / 1000;
        AcceptedIsBurned(g, es[0], s);
        BurnedIsNeverAccepted(g', es[1..], s, es[0].at);
      } else {
        AcceptedAtMostOnce(g', es[1..], s, es[0].at);
      }
    }
  }

  /** A run that spends one challenge twice if the library accepts in the expiry second. */
  function ReplayRun(): seq<Event> {
    var c := Challenge(Some("s"), TTL_SECONDS);
    [Issue("s", 0), Verify(c, true, 0), Verify(c, true, TTL_MS)]
  }

  lemma ReplayAtExpiry()
    ensures Clocked(ReplayRun(), 0) && TimesAccepted(INIT, ReplayRun(), "s", true) == 2
  {
    var es := ReplayRun();
    var c := Challenge(Some("s"), TTL_SECONDS);
    var g1 := Step(INIT, es[0], true);
    assert g1 == Gate(map["s" := TTL_SECONDS], map[]);
    var g2 := Step(g1, es[1], true);
    assert g2.spent == map["s" := 0];
    assert es[1..] == [es[1], es[2]] && [es[1], es[2]][1..] == [es[2]] && [es[2]][1..] == [];
    assert Accepts(g1, es[1], "s", true) && Accepts(g2, es[2], "s", true);
    assert TimesAccepted(g2, [es[2]], "s", true) == 1;
    assert TimesAccepted(g1, [es[1], es[2]], "s", true) == 2;
  }

  ghost predicate SpendsOnce(inclusive: bool) {
    forall es: seq<Event>, s :: Clocked(es, 0) ==> TimesAccepted(INIT, es, s, inclusive) <= 1
  }

  /** With pruning after exactly one window, no challenge is ever accepted twice in any run, and this
      depends on the library refusing from the expiry second on. */
  lemma SpendOnceExactly(inclusive: bool)
    ensures SpendsOnce(inclusive) <==> !inclusive
  {
    if inclusive {
      ReplayAtExpiry();
    } else {
      forall es: seq<Event>, s | Clocked(es, 0)
        ensures TimesAccepted(INIT, es, s, false) <= 1
      {
        AcceptedAtMostOnce(INIT, es, s, 0);
      }
    }
  }

  function Run(g: Gate, es: seq<Event>): Gate
    decreases |es|
  {
    if es == [] then g else Run(Step(g, es[0], false), es[1..])
  }

  lemma {:induction false} BurnedToTheEnd(g: Gate, es: seq<Event>, s: Signature, from: nat, now: nat)
    requires Burned(g, s, from) && Clocked(es, from) && from <= now && forall i :: 0 <= i < |es| ==> es[i].at <= now
    ensures Burned(Run(g, es), s, now)
    decreases |es|
  {
    if es == [] {
      assert from / 1000 <= now / 1000;
    } else {
      BurnedStays(g, es[0], s, from);
      BurnedToTheEnd(Step(g, es[0], false), es[1..], s, es[0].at, now);
    }
  }

  lemma {:induction false} AcceptedStaysBurned(g: Gate, es: seq<Event>, s: Signature, from: nat, now: nat)
    requires Issued(g, from) && Clocked(es, from) && from <= now && forall i :: 0 <= i < |es| ==> es[i].at <= now
    requires TimesAccepted(g, es, s, false) > 0
    ensures Burned(Run(g, es), s, now)
    decreases |es|
  {
    StepKeepsIssued(g, es[0], from);
    var g' := Step(g, es[0], false);
    if Accepts(g, es[0], s, false) {
      assert from / 1000 <= es[0].at / 1000;
      AcceptedIsBurned(g, es[0], s);
      BurnedToTheEnd(g', es[1..], s, es[0].at, now);
    } else {
      AcceptedStaysBurned(g', es[1..], s, es[0].at, now);
    }
  }

  lemma {:induction false} SpentWasAccepted(g: Gate, es: seq<Event>, s: Signature)
    requires s in Run(g, es).spent
    ensures s in g.spent || TimesAccepted(g, es, s, false) > 0
    decreases |es|
  {
    if es != [] {
      SpentWasAccepted(Step(g, es[0], false), es[1..], s);
    }
  }

  /** After any run, a genuine, solved and unexpired challenge is accepted exactly when no earlier
      presentation of it was. */
  lemma AcceptedExactlyTheFirstTime(es: seq<Event>, e: Event, s: Signature)
    requires Clocked(es, 0) && forall i :: 0 <= i < |es| ==> es[i].at <= e.at
    requires e.Verify? && e.challenge.signature == Some(s)
    requires LibraryAccepts(Run(INIT, es).issued, e.challenge, e.solved, e.at, false)
    ensures Accepts(Run(INIT, es), e, s, false) <==> TimesAccepted(INIT, es, s, false) == 0
  {
    if TimesAccepted(INIT, es, s, false) > 0 {
      AcceptedStaysBurned(INIT, es, s, 0, e.at);
      BurnedStays(Run(INIT, es), e, s, e.at);
    } else if s in Run(INIT, es).spent {
      SpentWasAccepted(INIT, es, s);
    }
  }
}
