/** What an import run reports and inserts, read off the legacy rows and the table: who is a duplicate, what
    the outcome of one row says about the table, and that the five counters count those outcomes. */
module LegacyReports {
  import opened Machine
  import opened Text
  import opened LegacyImport

  // ---------------------------------------------------------------- the rows read

  /** A limit reads that many rows from the front, or all of them when there are no more. */
  lemma LimitedExactly(legacy: seq<LegacyUser>, limit: Option<nat>)
    ensures var rows := Limited(legacy, limit);
      && rows <= legacy
      && (limit.None? ==> |rows| == |legacy|)
      && (limit.Some? ==> |rows| <= limit.value && (|rows| == limit.value || |rows| == |legacy|))
  {
  }

  /** `t` is `s` without the white space around it and without its capitals, and something is left. */
  ghost predicate CleansTo(s: string, t: string) {
    t != "" && NoUpper(t) && exists core :: Trimmed(core) && PaddedWith(s, core) && EqualButCase(core, t)
  }

  lemma CleanedExactly(s: Option<string>, t: string)
    ensures Cleaned(s) == Some(t) <==> s.Some? && CleansTo(s.value, t)
  {
    if s.Some? {
      TrimExactly(s.value, Trim(s.value));
      forall core {
        TrimExactly(s.value, core);
      }
      FoldExactly(Trim(s.value), t);
    }
  }

  // ---------------------------------------------------------------- duplicates

  /** No earlier row has the pubkey of row `j`. */
  predicate FirstOfKey(rows: seq<LegacyUser>, j: int)
    requires 0 <= j < |rows|
  {
    forall l :: 0 <= l < j ==> rows[l].pubkeyHash != rows[j].pubkeyHash
  }

  /** Row `j` has the fingerprint of `u` and was the first of its own pubkey. */
  predicate FirstWith(rows: seq<LegacyUser>, j: int, u: LegacyUser) {
    0 <= j < |rows| && rows[j].fingerprint == u.fingerprint && FirstOfKey(rows, j)
  }

  /** The earlier row `j` makes `u` a duplicate: it has the same pubkey, or the same fingerprint and was
      itself the first of its pubkey. */
  predicate Repeats(rows: seq<LegacyUser>, j: int, u: LegacyUser) {
    && 0 <= j < |rows|
    && (rows[j].pubkeyHash == u.pubkeyHash || (u.fingerprint.Some? && FirstWith(rows, j, u)))
  }

  lemma {:induction false} SeenPubkeys(rows: seq<LegacyUser>, u: LegacyUser)
    ensures PkKey(u) in SeenAfter(rows) <==> exists j :: 0 <= j < |rows| && rows[j].pubkeyHash == u.pubkeyHash
  {
    if rows != [] {
      var n := |rows| - 1;
      SeenPubkeys(rows[..n], u);
      KeysNeverAlias(u, rows[n]);
      assert forall j :: 0 <= j < n ==> rows[..n][j] == rows[j];
      assert PkKey(u) == PkKey(rows[n]) <==> u.pubkeyHash == rows[n].pubkeyHash;
      assert PkKey(u) !in FpKeys(rows[n]);
    }
  }

  lemma FirstWithStep(rows: seq<LegacyUser>, u: LegacyUser)
    requires rows != []
    ensures var n := |rows| - 1;
      (exists j :: FirstWith(rows, j, u)) <==> (exists j :: FirstWith(rows[..n], j, u)) || FirstWith(rows, n, u)
  {
    var n := |rows| - 1;
    forall j | 0 <= j < n
      ensures FirstWith(rows, j, u) <==> FirstWith(rows[..n], j, u)
    {
      assert rows[..n][j] == rows[j];
    }
    if j :| FirstWith(rows, j, u) {
      assert j < n ==> FirstWith(rows[..n], j, u);
    }
    if j :| FirstWith(rows[..n], j, u) {
      assert FirstWith(rows, j, u);
    }
  }

  lemma {:induction false} SeenFingerprints(rows: seq<LegacyUser>, u: LegacyUser)
    requires u.fingerprint.Some?
    ensures "fp:" + u.fingerprint.value in SeenAfter(rows) <==> exists j :: FirstWith(rows, j, u)
  {
    if rows != [] {
      var n := |rows| - 1;
      SeenFingerprints(rows[..n], u);
      FirstWithStep(rows, u);
      FirstIsUnseen(rows);
      FingerprintKeys(rows[n], u);
      KeysNeverAlias(rows[n], u);
    }
  }

  lemma FirstIsUnseen(rows: seq<LegacyUser>)
    requires rows != []
    ensures FirstOfKey(rows, |rows| - 1) <==> PkKey(rows[|rows| - 1]) !in SeenAfter(rows[..|rows| - 1])
  {
    SeenPubkeys(rows[..|rows| - 1], rows[|rows| - 1]);
  }

  lemma FingerprintKeys(w: LegacyUser, u: LegacyUser)
    requires u.fingerprint.Some?
    ensures "fp:" + u.fingerprint.value in FpKeys(w) <==> w.fingerprint == u.fingerprint
  {
    if w.fingerprint.Some? && "fp:" + u.fingerprint.value == "fp:" + w.fingerprint.value {
      assert ("fp:" + u.fingerprint.value)[3..] == u.fingerprint.value;
      assert ("fp:" + w.fingerprint.value)[3..] == w.fingerprint.value;
    }
  }

  /** A row is skipped as a duplicate exactly when an earlier row of the batch makes it one. */
  lemma DuplicateExactly(rows: seq<LegacyUser>, u: LegacyUser)
    ensures Duplicate(SeenAfter(rows), u) <==> exists j :: Repeats(rows, j, u)
  {
    SeenPubkeys(rows, u);
    KeysNeverAlias(u, u);
    if u.fingerprint.Some? {
      SeenFingerprints(rows, u);
    }
    if j :| 0 <= j < |rows| && rows[j].pubkeyHash == u.pubkeyHash {
      assert Repeats(rows, j, u);
    }
    if u.fingerprint.Some? && exists j :: FirstWith(rows, j, u) {
      var j :| FirstWith(rows, j, u);
      assert Repeats(rows, j, u);
    }
  }

  // ---------------------------------------------------------------- one row

  /** What an outcome of a committing run says about the table. Created: one user was added with the row's
      fields, whose handle or npub is missing exactly when the row asked for one and the flag says dropped.
      Failed: nothing was added; skipped: neither, unless an insert went through unacknowledged, and then
      the row's identity is on the table. */
  lemma OutcomeIsTruthful(users: seq<User>, seen: set<string>, u: LegacyUser, usable: string -> bool, fault: Fault)
    ensures var (t, o) := StepUnder(users, seen, u, usable, true, fault);
      match o
      case Created(nameDropped, npubDropped) =>
        && |t| == |users| + 1 && users <= t && Source(t[|users|], u)
        && (nameDropped <==> Cleaned(u.username).Some? && t[|users|].username.None?)
        && (npubDropped <==> Cleaned(u.npub).Some? && t[|users|].npub.None?)
      case Skipped => users <= t && (fault != AckLost ==> t == users) && (t != users ==> IdentityPresent(t, u))
      case Failed => t == users && fault != Fine
  {
    if !Duplicate(seen, u) && !IdentityPresent(users, u) {
      FaultEndsExactly(users, seen, u, usable, fault);
      var wanted := NewUser(users, u, usable);
      assert IsIdentity(wanted, u) && wanted in users + [wanted];
    }
  }

  /** Without errors a row is created exactly when no earlier row makes it a duplicate and no user has its
      pubkey or its fingerprint; a wanted handle is then kept exactly when it is usable and nobody has it, and
      a wanted npub when nobody has it. */
  lemma CreatedPlainly(users: seq<User>, rows: seq<LegacyUser>, u: LegacyUser, usable: string -> bool, commit: bool)
    ensures var o := StepUnder(users, SeenAfter(rows), u, usable, commit, Fine).1;
      && (o.Created? || o.Skipped?)
      && (o.Created? <==>
            && (forall j :: !Repeats(rows, j, u))
            && (forall v :: v in users ==> v.pubkeyHash != Some(u.pubkeyHash))
            && (u.fingerprint.Some? ==> forall v :: v in users ==> v.fingerprint != u.fingerprint))
      && (o.Created? ==>
            && (o.usernameDropped <==>
                  && Cleaned(u.username).Some?
                  && (!usable(Cleaned(u.username).value)
                      || exists v :: v in users && v.username == Cleaned(u.username)))
            && (o.npubDropped <==> Cleaned(u.npub).Some? && exists v :: v in users && v.npub == Cleaned(u.npub)))
  {
    FaultFreeStep(commit, users, SeenAfter(rows), u, usable);
    DuplicateExactly(rows, u);
    assert IdentityPresent(users, u) <==> exists v :: v in users && IsIdentity(v, u);
  }

  /** How each kind of error ends for a new identity: a failed lookup or a database that refuses every insert is
      an error; a failed first insert is retried without handle and npub, if it had any, and those then
      count as dropped; a lost acknowledgement leaves the user on the table and the row reported as skipped. */
  lemma FaultEndsExactly(users: seq<User>, seen: set<string>, u: LegacyUser, usable: string -> bool, fault: Fault)
    requires !Duplicate(seen, u) && !IdentityPresent(users, u)
    ensures var (t, o) := StepUnder(users, seen, u, usable, true, fault);
      var wanted := NewUser(users, u, usable);
      match fault
      case Fine => o.Created? && t == users + [wanted]
      case LookupFails => o.Failed? && t == users
      case InsertsFail => o.Failed? && t == users
      case AckLost => o.Skipped? && t == users + [wanted]
      case FirstInsertFails =>
        if wanted.username.None? && wanted.npub.None? then o.Failed? && t == users
        else
          && t == users + [wanted.(username := None, npub := None)]
          && o == Created(Cleaned(u.username).Some?, Cleaned(u.npub).Some?)
  {
    InsertIsAccepted(users, u, usable);
    assert IsIdentity(NewUser(users, u, usable), u);
  }

  /** An insert is refused exactly for a handle, pubkey, npub or fingerprint that some user already has. */
  lemma RefusedExactly(users: seq<User>, u: User)
    ensures Refused(users, u)
       <==> exists v :: v in users
              && (|| (u.username.Some? && v.username == u.username)
                  || (u.pubkeyHash.Some? && v.pubkeyHash == u.pubkeyHash)
                  || (u.npub.Some? && v.npub == u.npub)
                  || (u.fingerprint.Some? && v.fingerprint == u.fingerprint))
  {
  }

  /** How the insert ends on a table that another writer may have changed since the checks: skipped if the
      identity is there by now; added as prepared if nothing it carries is taken; otherwise added without handle
      and npub, which then count as dropped. */
  lemma RaceEndsExactly(users: seq<User>, u: LegacyUser, username: Option<string>, npub: Option<string>,
                        usernameDropped: bool, npubDropped: bool)
    ensures var full := Prepared(u, username, npub);
      InsertResult(users, u, username, npub, usernameDropped, npubDropped, Fine)
      == if IdentityPresent(users, u) then (users, Skipped)
         else if !Refused(users, full) then (users + [full], Created(usernameDropped, npubDropped))
         else (users + [full.(username := None, npub := None)],
               Created(usernameDropped || username.Some?, npubDropped || npub.Some?))
  {
    var full := Prepared(u, username, npub);
    if v :| v in users && IsIdentity(v, u) {
      assert Clash(v, full);
    } else {
      BareInsertIsAccepted(users, u);
      assert username.None? && npub.None? ==> full == Prepared(u, None, None);
    }
  }

  // ---------------------------------------------------------------- the counters

  function Hits(n: nat, p: nat -> bool): set<nat> {
    set i: nat | i < n && p(i)
  }

  lemma HitsGrow(n: nat, p: nat -> bool)
    ensures |Hits(n + 1, p)| == |Hits(n, p)| + if p(n) then 1 else 0
  {
    assert Hits(n + 1, p) == Hits(n, p) + if p(n) then {n} else {};
  }

  lemma HitsAgree(n: nat, p: nat -> bool, q: nat -> bool)
    requires forall i: nat :: i < n ==> p(i) == q(i)
    ensures Hits(n, p) == Hits(n, q)
  {
  }

  /** Row `i` of the run ends in an outcome of this kind. */
  function Ends(commit: bool, users: seq<User>, rows: seq<LegacyUser>, usable: string -> bool, faults: nat -> Fault,
                kind: Outcome -> bool): nat -> bool
  {
    (i: nat) => i < |rows| && kind(OutcomeUnder(commit, users, rows, usable, faults, i))
  }

  lemma EndsGrow(commit: bool, users: seq<User>, rows: seq<LegacyUser>, usable: string -> bool, faults: nat -> Fault,
                 kind: Outcome -> bool)
    requires rows != []
    ensures var n := |rows| - 1;
      |Hits(|rows|, Ends(commit, users, rows, usable, faults, kind))|
      == |Hits(n, Ends(commit, users, rows[..n], usable, faults, kind))|
         + if kind(OutcomeUnder(commit, users, rows, usable, faults, n)) then 1 else 0
  {
    var n := |rows| - 1;
    var p, q := Ends(commit, users, rows, usable, faults, kind), Ends(commit, users, rows[..n], usable, faults, kind);
    HitsGrow(n, p);
    forall i: nat | i < n
      ensures p(i) == q(i)
    {
      assert rows[..n][..i] == rows[..i];
      assert OutcomeUnder(commit, users, rows[..n], usable, faults, i)
          == OutcomeUnder(commit, users, rows, usable, faults, i);
    }
    HitsAgree(n, p, q);
  }

  /** Each counter of the summary is the number of rows that ended that way. */
  lemma {:induction false} ReportCounts(commit: bool, users: seq<User>, rows: seq<LegacyUser>, usable: string -> bool,
                                        faults: nat -> Fault)
    ensures var r, n := TallyUnder(commit, users, rows, usable, faults), |rows|;
      && r.created == |Hits(n, Ends(commit, users, rows, usable, faults, (o: Outcome) => o.Created?))|
      && r.skipped == |Hits(n, Ends(commit, users, rows, usable, faults, (o: Outcome) => o.Skipped?))|
      && r.errors == |Hits(n, Ends(commit, users, rows, usable, faults, (o: Outcome) => o.Failed?))|
      && r.usernameDropped
         == |Hits(n, Ends(commit, users, rows, usable, faults, (o: Outcome) => o.Created? && o.usernameDropped))|
      && r.npubDropped
         == |Hits(n, Ends(commit, users, rows, usable, faults, (o: Outcome) => o.Created? && o.npubDropped))|
  {
    if rows != [] {
      ReportCounts(commit, users, rows[..|rows| - 1], usable, faults);
      EndsGrow(commit, users, rows, usable, faults, (o: Outcome) => o.Created?);
      EndsGrow(commit, users, rows, usable, faults, (o: Outcome) => o.Skipped?);
      EndsGrow(commit, users, rows, usable, faults, (o: Outcome) => o.Failed?);
      EndsGrow(commit, users, rows, usable, faults, (o: Outcome) => o.Created? && o.usernameDropped);
      EndsGrow(commit, users, rows, usable, faults, (o: Outcome) => o.Created? && o.npubDropped);
    }
  }
}
