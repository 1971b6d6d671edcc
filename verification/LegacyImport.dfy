/** Importing legacy user identities: a best-effort loop with an in-batch `seen` set, a dry run, and
    staged re-runs. Keys are compared in plain text; peppering them is injective. */
module LegacyImport {
  import opened Machine
  import opened Text

  datatype LegacyUser = LegacyUser(
    username: Option<string>,
    pubkeyHash: string,
    npub: Option<string>,
    fingerprint: Option<string>,
    birthday: Option<int>,
    xmrStart: Option<int>,
    wowStart: Option<int>)

  datatype User = User(
    username: Option<string>,
    pubkeyHash: Option<string>,
    npub: Option<string>,
    fingerprint: Option<string>,
    birthday: Option<int>,
    xmrStart: Option<int>,
    wowStart: Option<int>)

  datatype Outcome = Skipped | Created(usernameDropped: bool, npubDropped: bool) | Failed

  /** What the database does wrong for one row: a lookup fails, the first insert fails, every insert
      fails, or the insert is made and its acknowledgement lost. */
  datatype Fault = Fine | LookupFails | FirstInsertFails | InsertsFail | AckLost

  // ---------------------------------------------------------------- the target table

  predicate SameKey(a: Option<string>, b: Option<string>) {
    a.Some? && a == b
  }

  /** The two rows violate one of the table's UNIQUE columns. */
  predicate Clash(a: User, b: User) {
    SameKey(a.username, b.username) || SameKey(a.pubkeyHash, b.pubkeyHash)
    || SameKey(a.npub, b.npub) || SameKey(a.fingerprint, b.fingerprint)
  }

  predicate Unique(users: seq<User>) {
    forall i, j :: 0 <= i < j < |users| ==> !Clash(users[i], users[j])
  }

  predicate HasUsername(users: seq<User>, name: string) {
    exists v :: v in users && v.username == Some(name)
  }

  predicate HasNpub(users: seq<User>, npub: string) {
    exists v :: v in users && v.npub == Some(npub)
  }

  predicate IsIdentity(v: User, u: LegacyUser) {
    v.pubkeyHash == Some(u.pubkeyHash) || SameKey(u.fingerprint, v.fingerprint)
  }

  /** Already on the target by pubkey hash or by seed fingerprint. */
  predicate IdentityPresent(users: seq<User>, u: LegacyUser) {
    exists v :: v in users && IsIdentity(v, u)
  }

  /** Two legacy rows share a key. */
  predicate Shares(a: LegacyUser, b: LegacyUser) {
    a.pubkeyHash == b.pubkeyHash || SameKey(a.fingerprint, b.fingerprint)
  }

  // ---------------------------------------------------------------- one row

  /** `trim`, lower-case, and nothing when empty. */
  function Cleaned(s: Option<string>): Option<string> {
    if s.None? || ToLower(Trim(s.value)) == "" then None else Some(ToLower(Trim(s.value)))
  }

  predicate UsernameDropped(users: seq<User>, u: LegacyUser, usable: string -> bool) {
    var name := Cleaned(u.username);
    name.Some? && (!usable(name.value) || HasUsername(users, name.value))
  }

  predicate NpubDropped(users: seq<User>, u: LegacyUser) {
    var npub := Cleaned(u.npub);
    npub.Some? && HasNpub(users, npub.value)
  }

  function NewUser(users: seq<User>, u: LegacyUser, usable: string -> bool): User {
    Prepared(u,
             if UsernameDropped(users, u, usable) then None else Cleaned(u.username),
             if NpubDropped(users, u) then None else Cleaned(u.npub))
  }

  /** The row handed to the insert. */
  function Prepared(u: LegacyUser, username: Option<string>, npub: Option<string>): User {
    User(username, Some(u.pubkeyHash), npub, u.fingerprint, u.birthday, u.xmrStart, u.wowStart)
  }

  predicate Refused(users: seq<User>, u: User) {
    exists v :: v in users && Clash(v, u)
  }

  function PkKey(u: LegacyUser): string {
    "pk:" + u.pubkeyHash
  }

  function FpKeys(u: LegacyUser): set<string> {
    if u.fingerprint.Some? then {"fp:" + u.fingerprint.value} else {}
  }

  /** The `seen` set after the batch prefix: the fingerprint is recorded only if the pubkey was new. */
  function SeenAfter(rows: seq<LegacyUser>): set<string> {
    if rows == [] then {}
    else
      var u, seen := rows[|rows| - 1], SeenAfter(rows[..|rows| - 1]);
      if PkKey(u) in seen then seen else seen + {PkKey(u)} + FpKeys(u)
  }

  predicate Duplicate(seen: set<string>, u: LegacyUser) {
    PkKey(u) in seen || (u.fingerprint.Some? && "fp:" + u.fingerprint.value in seen + {PkKey(u)})
  }

  function Decide(users: seq<User>, seen: set<string>, u: LegacyUser, usable: string -> bool): (o: Outcome)
    ensures !o.Failed?
  {
    if Duplicate(seen, u) || IdentityPresent(users, u) then Skipped
    else Created(UsernameDropped(users, u, usable), NpubDropped(users, u))
  }

  /** The insert with its reconciliation, on whatever the table holds by now. */
  function InsertResult(users: seq<User>, u: LegacyUser, username: Option<string>, npub: Option<string>,
                        usernameDropped: bool, npubDropped: bool, fault: Fault): (seq<User>, Outcome)
  {
    var full := Prepared(u, username, npub);
    var written := fault in {Fine, AckLost} && !Refused(users, full);
    var now := if written then users + [full] else users;
    if written && fault.Fine? then (now, Created(usernameDropped, npubDropped))
    else if IdentityPresent(now, u) then (now, Skipped)
    else if (username.Some? || npub.Some?) && !fault.InsertsFail? then
      (now + [Prepared(u, None, None)], Created(usernameDropped || username.Some?, npubDropped || npub.Some?))
    else (now, Failed)
  }

  /** One row under a fault: the table and the outcome. A dry run makes no insert. */
  function StepUnder(users: seq<User>, seen: set<string>, u: LegacyUser, usable: string -> bool, commit: bool,
                     fault: Fault): (seq<User>, Outcome) {
    if Duplicate(seen, u) then (users, Skipped)
    else if fault.LookupFails? then (users, Failed)
    else if IdentityPresent(users, u) then (users, Skipped)
    else
      var full := NewUser(users, u, usable);
      var nameDropped, npubDropped := UsernameDropped(users, u, usable), NpubDropped(users, u);
      if !commit then (users, Created(nameDropped, npubDropped))
      else InsertResult(users, u, full.username, full.npub, nameDropped, npubDropped, fault)
  }

  // ---------------------------------------------------------------- a whole batch

  /** The target table after the batch. */
  function TargetAfter(commit: bool, users: seq<User>, rows: seq<LegacyUser>, usable: string -> bool): seq<User> {
    if rows == [] then users
    else
      var init, u := rows[..|rows| - 1], rows[|rows| - 1];
      var t := TargetAfter(commit, users, init, usable);
      if commit && Decide(t, SeenAfter(init), u, usable).Created? then t + [NewUser(t, u, usable)] else t
  }

  /** The outcome the run reports for row `i`. */
  function OutcomeAt(commit: bool, users: seq<User>, rows: seq<LegacyUser>, usable: string -> bool, i: nat): Outcome
    requires i < |rows|
  {
    Decide(TargetAfter(commit, users, rows[..i], usable), SeenAfter(rows[..i]), rows[i], usable)
  }

  datatype Report = Report(created: nat, skipped: nat, usernameDropped: nat, npubDropped: nat, errors: nat)

  function Count(r: Report, o: Outcome): Report {
    match o
    case Skipped => r.(skipped := r.skipped + 1)
    case Created(name, npub) =>
      r.(created := r.created + 1,
         usernameDropped := r.usernameDropped + (if name then 1 else 0),
         npubDropped := r.npubDropped + (if npub then 1 else 0))
    case Failed => r.(errors := r.errors + 1)
  }

  function Tally(commit: bool, users: seq<User>, rows: seq<LegacyUser>, usable: string -> bool): (r: Report)
    ensures r.created + r.skipped == |rows| && r.errors == 0
  {
    if rows == [] then Report(0, 0, 0, 0, 0)
    else
      var n := |rows| - 1;
      Count(Tally(commit, users, rows[..n], usable), OutcomeAt(commit, users, rows, usable, n))
  }

  /** The table after a batch in which row `i` meets `faults(i)`; a fault never ends the pass. */
  function TargetUnder(commit: bool, users: seq<User>, rows: seq<LegacyUser>, usable: string -> bool,
                       faults: nat -> Fault): seq<User> {
    if rows == [] then users
    else
      var n := |rows| - 1;
      StepUnder(TargetUnder(commit, users, rows[..n], usable, faults), SeenAfter(rows[..n]), rows[n], usable, commit,
        faults(n)).0
  }

  function OutcomeUnder(commit: bool, users: seq<User>, rows: seq<LegacyUser>, usable: string -> bool,
                        faults: nat -> Fault, i: nat): Outcome
    requires i < |rows|
  {
    StepUnder(TargetUnder(commit, users, rows[..i], usable, faults), SeenAfter(rows[..i]), rows[i], usable, commit,
      faults(i)).1
  }

  function TallyUnder(commit: bool, users: seq<User>, rows: seq<LegacyUser>, usable: string -> bool,
                      faults: nat -> Fault): (r: Report)
    ensures r.created + r.skipped + r.errors == |rows|
  {
    if rows == [] then Report(0, 0, 0, 0, 0)
    else
      var n := |rows| - 1;
      Count(TallyUnder(commit, users, rows[..n], usable, faults), OutcomeUnder(commit, users, rows, usable, faults, n))
  }

  predicate NoFaults(faults: nat -> Fault, n: nat) {
    forall i: nat :: i < n ==> faults(i).Fine?
  }

  // ---------------------------------------------------------------- the program

  class TargetDb {
    var users: seq<User>

    ghost predicate Valid()
      reads this
    {
      Unique(users)
    }

    /** `INSERT`, refused when a UNIQUE column would repeat. */
    method CreateUser(u: User) returns (ok: bool)
      requires Valid()
      modifies this
      ensures Valid()
      ensures ok <==> forall v :: v in old(users) ==> !Clash(v, u)
      ensures users == if ok then old(users) + [u] else old(users)
    {
      ok := forall v :: v in users ==> !Clash(v, u);
      if ok {
        users := users + [u];
      }
    }

    /** The insert with its reconciliation, on whatever the table holds by now: an error means that
        another writer won a race or that the database failed, so the identity is re-checked, and failing
        that the user is inserted once more without handle and npub. Unless it reports an error, the
        identity is on the table afterwards. */
    method InsertOrReconcile(u: LegacyUser, username: Option<string>, npub: Option<string>,
                             usernameDropped: bool, npubDropped: bool, fault: Fault) returns (outcome: Outcome)
      requires Valid()
      modifies this
      ensures Valid()
      ensures (users, outcome) == InsertResult(old(users), u, username, npub, usernameDropped, npubDropped, fault)
      ensures !outcome.Failed? ==> IdentityPresent(users, u)
      ensures fault.Fine? ==> !outcome.Failed?
    {
      var ok := false;
      if fault in {Fine, AckLost} {
        ok := CreateUser(Prepared(u, username, npub));
        if ok {
          assert IsIdentity(Prepared(u, username, npub), u);
        }
      }
      if ok && fault.Fine? {
        return Created(usernameDropped, npubDropped);
      }
      if IdentityPresent(users, u) {
        return Skipped;
      }
      BareInsertIsAccepted(users, u);
      if (username.Some? || npub.Some?) && !fault.InsertsFail? {
        var bare := CreateUser(Prepared(u, None, None));
        assert bare && IsIdentity(Prepared(u, None, None), u);
        return Created(usernameDropped || username.Some?, npubDropped || npub.Some?);
      }
      return Failed;
    }

    /** One row: dedup, presence check, handle and npub checks, then the insert. */
    method ImportOne(u: LegacyUser, commit: bool, seen: set<string>, usable: string -> bool, fault: Fault)
      returns (outcome: Outcome, seen': set<string>)
      requires Valid()
      modifies this
      ensures Valid()
      ensures (users, outcome) == StepUnder(old(users), seen, u, usable, commit, fault)
      ensures seen' == if PkKey(u) in seen then seen else seen + {PkKey(u)} + FpKeys(u)
    {
      seen' := seen;
      if PkKey(u) in seen' {
        return Skipped, seen';
      }
      seen' := seen' + {PkKey(u)};
      if u.fingerprint.Some? {
        var fp := "fp:" + u.fingerprint.value;
        if fp in seen' {
          return Skipped, seen';
        }
        seen' := seen' + {fp};
      }
      if fault.LookupFails? {
        return Failed, seen';
      }
      if IdentityPresent(users, u) {
        return Skipped, seen';
      }
      var username, usernameDropped := Cleaned(u.username), false;
      if username.Some? && (!usable(username.value) || HasUsername(users, username.value)) {
        username, usernameDropped := None, true;
      }
      var npub, npubDropped := Cleaned(u.npub), false;
      if npub.Some? && HasNpub(users, npub.value) {
        npub, npubDropped := None, true;
      }
      if commit {
        outcome := InsertOrReconcile(u, username, npub, usernameDropped, npubDropped, fault);
        return outcome, seen';
      }
      return Created(usernameDropped, npubDropped), seen';
    }

    /** The import loop over the first `limit` legacy rows. Without faults it leaves the plain fold and
        reports no errors. */
    method MigrateLegacy(legacy: seq<LegacyUser>, commit: bool, limit: Option<nat>, usable: string -> bool,
                         faults: nat -> Fault)
      returns (report: Report)
      requires Valid()
      modifies this
      ensures Valid()
      ensures users == TargetUnder(commit, old(users), Limited(legacy, limit), usable, faults)
      ensures report == TallyUnder(commit, old(users), Limited(legacy, limit), usable, faults)
      ensures NoFaults(faults, |Limited(legacy, limit)|) ==>
        && users == TargetAfter(commit, old(users), Limited(legacy, limit), usable)
        && report == Tally(commit, old(users), Limited(legacy, limit), usable)
    {
      var rows := Limited(legacy, limit);
      report := Report(0, 0, 0, 0, 0);
      var seen: set<string> := {};
      for i := 0 to |rows|
        invariant Valid()
        invariant seen == SeenAfter(rows[..i])
        invariant users == TargetUnder(commit, old(users), rows[..i], usable, faults)
        invariant report == TallyUnder(commit, old(users), rows[..i], usable, faults)
      {
        assert rows[..i + 1][..i] == rows[..i];
        var outcome;
        outcome, seen := ImportOne(rows[i], commit, seen, usable, faults(i));
        assert OutcomeUnder(commit, old(users), rows[..i + 1], usable, faults, i) == outcome;
        report := Count(report, outcome);
      }
      assert rows[..|rows|] == rows;
      if NoFaults(faults, |rows|) {
        FaultFree(commit, old(users), rows, usable, faults);
      }
    }
  }

  /** `ORDER BY created_at, id LIMIT n` on a fixed source selects a prefix. */
  function Limited(legacy: seq<LegacyUser>, limit: Option<nat>): seq<LegacyUser> {
    if limit.Some? && limit.value < |legacy| then legacy[..limit.value] else legacy
  }

  // ---------------------------------------------------------------- the insert never fails

  /** Without concurrent writers the checks before it leave the insert nothing to violate. */
  lemma InsertIsAccepted(users: seq<User>, u: LegacyUser, usable: string -> bool)
    requires !IdentityPresent(users, u)
    ensures forall v :: v in users ==> !Clash(v, NewUser(users, u, usable))
  {
    forall v | v in users
      ensures !Clash(v, NewUser(users, u, usable))
    {
      assert !IsIdentity(v, u);
    }
  }

  lemma FaultFreeStep(commit: bool, users: seq<User>, seen: set<string>, u: LegacyUser, usable: string -> bool)
    ensures StepUnder(users, seen, u, usable, commit, Fine)
         == (if commit && Decide(users, seen, u, usable).Created? then users + [NewUser(users, u, usable)] else users,
             Decide(users, seen, u, usable))
  {
    if !IdentityPresent(users, u) {
      InsertIsAccepted(users, u, usable);
    }
  }

  /** Without faults the import is the plain fold; in particular the reconciliation is never entered. */
  lemma {:induction false} FaultFree(commit: bool, users: seq<User>, rows: seq<LegacyUser>, usable: string -> bool,
                                     faults: nat -> Fault)
    requires NoFaults(faults, |rows|)
    ensures TargetUnder(commit, users, rows, usable, faults) == TargetAfter(commit, users, rows, usable)
    ensures TallyUnder(commit, users, rows, usable, faults) == Tally(commit, users, rows, usable)
  {
    if rows != [] {
      var n := |rows| - 1;
      FaultFree(commit, users, rows[..n], usable, faults);
      FaultFreeStep(commit, TargetAfter(commit, users, rows[..n], usable), SeenAfter(rows[..n]), rows[n], usable);
    }
  }

  /** Without handle and npub only the identity itself could be refused. */
  lemma BareInsertIsAccepted(users: seq<User>, u: LegacyUser)
    requires !IdentityPresent(users, u)
    ensures forall v :: v in users ==> !Clash(v, Prepared(u, None, None))
  {
    forall v | v in users
      ensures !Clash(v, Prepared(u, None, None))
    {
      assert !IsIdentity(v, u);
    }
  }

  lemma {:induction false} TargetStaysUnique(users: seq<User>, rows: seq<LegacyUser>, usable: string -> bool)
    requires Unique(users)
    ensures Unique(TargetAfter(true, users, rows, usable))
  {
    if rows != [] {
      var init, u := rows[..|rows| - 1], rows[|rows| - 1];
      TargetStaysUnique(users, init, usable);
      var t := TargetAfter(true, users, init, usable);
      if Decide(t, SeenAfter(init), u, usable).Created? {
        InsertIsAccepted(t, u, usable);
      }
    }
  }

  // ---------------------------------------------------------------- what was added, and from which row

  predicate CreatedAt(commit: bool, users: seq<User>, rows: seq<LegacyUser>, usable: string -> bool, i: int) {
    0 <= i < |rows| && OutcomeAt(commit, users, rows, usable, i).Created?
  }

  lemma PrefixOutcome(commit: bool, users: seq<User>, rows: seq<LegacyUser>, usable: string -> bool, n: nat, i: int)
    requires n <= |rows| && 0 <= i < n
    ensures OutcomeAt(commit, users, rows[..n], usable, i) == OutcomeAt(commit, users, rows, usable, i)
    ensures CreatedAt(commit, users, rows[..n], usable, i) <==> CreatedAt(commit, users, rows, usable, i)
  {
    assert rows[..n][..i] == rows[..i];
  }

  /** Row `i` is the source of target row `v`. */
  predicate Source(v: User, u: LegacyUser) {
    && v.pubkeyHash == Some(u.pubkeyHash) && v.fingerprint == u.fingerprint
    && v.birthday == u.birthday && v.xmrStart == u.xmrStart && v.wowStart == u.wowStart
    && (v.username.Some? ==> v.username == Cleaned(u.username))
    && (v.npub.Some? ==> v.npub == Cleaned(u.npub))
  }

  /** Every target row was there before or comes from a created row of the batch. */
  lemma {:induction false} EveryUserHasASource(users: seq<User>, rows: seq<LegacyUser>, usable: string -> bool, v: User)
    returns (i: int)
    requires v in TargetAfter(true, users, rows, usable)
    ensures v in users || (CreatedAt(true, users, rows, usable, i) && Source(v, rows[i]))
  {
    i := |rows| - 1;
    if rows != [] {
      var init, u := rows[..i], rows[i];
      var t := TargetAfter(true, users, init, usable);
      if v in t {
        var j := EveryUserHasASource(users, init, usable, v);
        if v !in users {
          PrefixOutcome(true, users, rows, usable, i, j);
          i := j;
        }
      }
    }
  }

  lemma {:induction false} TargetGrows(users: seq<User>, rows: seq<LegacyUser>, usable: string -> bool, v: User)
    requires v in users
    ensures v in TargetAfter(true, users, rows, usable)
  {
    if rows != [] {
      TargetGrows(users, rows[..|rows| - 1], usable, v);
    }
  }

  /** A later prefix keeps what an earlier one put on the target. */
  lemma {:induction false} PrefixGrows(users: seq<User>, rows: seq<LegacyUser>, usable: string -> bool, n: nat, v: User)
    requires n <= |rows| && v in TargetAfter(true, users, rows[..n], usable)
    ensures v in TargetAfter(true, users, rows, usable)
  {
    if n < |rows| {
      assert rows[..|rows| - 1][..n] == rows[..n];
      PrefixGrows(users, rows[..|rows| - 1], usable, n, v);
    } else {
      assert rows[..n] == rows;
    }
  }

  lemma CreatedIsPresent(users: seq<User>, rows: seq<LegacyUser>, usable: string -> bool, i: int)
    returns (v: User)
    requires CreatedAt(true, users, rows, usable, i)
    ensures v in TargetAfter(true, users, rows, usable) && Source(v, rows[i])
    ensures v == NewUser(TargetAfter(true, users, rows[..i], usable), rows[i], usable)
  {
    var t := TargetAfter(true, users, rows[..i], usable);
    v := NewUser(t, rows[i], usable);
    assert rows[..i + 1][..i] == rows[..i];
    assert v in TargetAfter(true, users, rows[..i + 1], usable);
    PrefixGrows(users, rows, usable, i + 1, v);
  }

  // ---------------------------------------------------------------- the seen set

  /** The two key spaces never alias, and every pubkey of the batch is in the set. */
  lemma {:induction false} SeenHolds(rows: seq<LegacyUser>, i: int)
    requires 0 <= i < |rows|
    ensures PkKey(rows[i]) in SeenAfter(rows)
    ensures !Duplicate(SeenAfter(rows[..i]), rows[i]) ==> FpKeys(rows[i]) <= SeenAfter(rows)
  {
    var n := |rows| - 1;
    if i < n {
      assert rows[..n][..i] == rows[..i];
      SeenHolds(rows[..n], i);
    }
  }

  lemma KeysNeverAlias(u: LegacyUser, w: LegacyUser)
    ensures w.fingerprint.Some? ==> "fp:" + w.fingerprint.value != PkKey(u)
    ensures PkKey(u) == PkKey(w) ==> u.pubkeyHash == w.pubkeyHash
    ensures u.fingerprint.Some? && w.fingerprint.Some? && FpKeys(u) == FpKeys(w) ==> u.fingerprint == w.fingerprint
  {
    if PkKey(u) == PkKey(w) {
      assert PkKey(u)[3..] == u.pubkeyHash && PkKey(w)[3..] == w.pubkeyHash;
    }
    if u.fingerprint.Some? && w.fingerprint.Some? && FpKeys(u) == FpKeys(w) {
      var a, b := "fp:" + u.fingerprint.value, "fp:" + w.fingerprint.value;
      assert a in FpKeys(w);
      assert a[3..] == u.fingerprint.value && b[3..] == w.fingerprint.value;
    }
    if w.fingerprint.Some? {
      assert ("fp:" + w.fingerprint.value)[0] == 'f' && PkKey(u)[0] == 'p';
    }
  }

  /** Every key in the set came from an earlier row. */
  lemma {:induction false} SeenHasASource(rows: seq<LegacyUser>, key: string) returns (i: int)
    requires key in SeenAfter(rows)
    ensures 0 <= i < |rows| && (key == PkKey(rows[i]) || key in FpKeys(rows[i]))
  {
    i := |rows| - 1;
    if key in SeenAfter(rows[..i]) {
      i := SeenHasASource(rows[..i], key);
    }
  }

  /** A duplicate shares a key with some earlier row of the batch. */
  lemma DuplicateShares(rows: seq<LegacyUser>, u: LegacyUser) returns (i: int)
    requires Duplicate(SeenAfter(rows), u)
    ensures 0 <= i < |rows| && Shares(rows[i], u)
  {
    KeysNeverAlias(u, u);
    var key := if PkKey(u) in SeenAfter(rows) then PkKey(u) else "fp:" + u.fingerprint.value;
    i := SeenHasASource(rows, key);
    KeysNeverAlias(u, rows[i]);
    KeysNeverAlias(rows[i], u);
    if PkKey(u) !in SeenAfter(rows) {
      assert FpKeys(u) == {key};
    }
  }

  /** A row that shares a key with a created earlier row is a duplicate. */
  lemma SharingIsDuplicate(rows: seq<LegacyUser>, i: int, u: LegacyUser)
    requires 0 <= i < |rows| && !Duplicate(SeenAfter(rows[..i]), rows[i]) && Shares(rows[i], u)
    ensures Duplicate(SeenAfter(rows), u)
  {
    SeenHolds(rows, i);
    if rows[i].pubkeyHash != u.pubkeyHash {
      assert "fp:" + u.fingerprint.value in FpKeys(rows[i]);
    }
  }
}
