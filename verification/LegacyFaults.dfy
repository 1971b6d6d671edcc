/** A migration across a flaky window: what a run with database errors leaves, and why one clean re-run
    repairs it. */
module LegacyFaults {
  import opened Machine
  import opened LegacyImport
  import opened LegacyImportTheorems

  /** Row `i` of the faulty run put a user on the table. */
  predicate InsertedAt(users: seq<User>, rows: seq<LegacyUser>, usable: string -> bool, faults: nat -> Fault, i: int) {
    && 0 <= i < |rows|
    && var t := TargetUnder(true, users, rows[..i], usable, faults);
    StepUnder(t, SeenAfter(rows[..i]), rows[i], usable, true, faults(i)).0 != t
  }

  predicate SameIdentity(v: User, u: LegacyUser) {
    v.pubkeyHash == Some(u.pubkeyHash) && v.fingerprint == u.fingerprint
  }

  /** A step either leaves the table or appends one user with the row's identity, and it appends only for
      a row that is neither a duplicate nor on the table. */
  lemma StepAppends(users: seq<User>, seen: set<string>, u: LegacyUser, usable: string -> bool, fault: Fault)
    ensures var t := StepUnder(users, seen, u, usable, true, fault).0;
      || t == users
      || (|t| == |users| + 1 && t[..|users|] == users && SameIdentity(t[|users|], u)
          && !Duplicate(seen, u) && !IdentityPresent(users, u))
  {
    if !Duplicate(seen, u) && !fault.LookupFails? && !IdentityPresent(users, u) {
      var full := NewUser(users, u, usable);
      if fault in {Fine, AckLost} && !Refused(users, full) {
        assert IsIdentity(full, u) && full in users + [full];
      }
    }
  }

  lemma StepKeeps(users: seq<User>, seen: set<string>, u: LegacyUser, usable: string -> bool, fault: Fault, v: User)
    requires v in users
    ensures v in StepUnder(users, seen, u, usable, true, fault).0
  {
    StepAppends(users, seen, u, usable, fault);
    var i :| 0 <= i < |users| && users[i] == v;
    var t := StepUnder(users, seen, u, usable, true, fault).0;
    assert t[..|users|][i] == v;
  }

  lemma {:induction false} KeepsUsers(users: seq<User>, rows: seq<LegacyUser>, usable: string -> bool,
                                      faults: nat -> Fault, n: nat, v: User)
    requires n <= |rows| && v in TargetUnder(true, users, rows[..n], usable, faults)
    ensures v in TargetUnder(true, users, rows, usable, faults)
  {
    if n == |rows| {
      assert rows[..n] == rows;
    } else {
      var m := |rows| - 1;
      assert rows[..m][..n] == rows[..n];
      KeepsUsers(users, rows[..m], usable, faults, n, v);
      StepKeeps(TargetUnder(true, users, rows[..m], usable, faults), SeenAfter(rows[..m]), rows[m], usable,
        faults(m), v);
    }
  }

  /** Every user on the table was there before or was inserted for a row of the batch. */
  lemma {:induction false} FaultySource(users: seq<User>, rows: seq<LegacyUser>, usable: string -> bool,
                                        faults: nat -> Fault, v: User)
    returns (i: int)
    requires v in TargetUnder(true, users, rows, usable, faults)
    ensures v in users || (InsertedAt(users, rows, usable, faults, i) && SameIdentity(v, rows[i]))
  {
    i := |rows| - 1;
    if rows != [] {
      var t := TargetUnder(true, users, rows[..i], usable, faults);
      StepAppends(t, SeenAfter(rows[..i]), rows[i], usable, faults(i));
      if v in t {
        var j := FaultySource(users, rows[..i], usable, faults, v);
        if v !in users {
          assert rows[..i][..j] == rows[..j];
          i := j;
        }
      }
    }
  }

  lemma InsertedIsPresent(users: seq<User>, rows: seq<LegacyUser>, usable: string -> bool, faults: nat -> Fault, i: int)
    returns (v: User)
    requires InsertedAt(users, rows, usable, faults, i)
    ensures v in TargetUnder(true, users, rows, usable, faults) && SameIdentity(v, rows[i])
    ensures !Duplicate(SeenAfter(rows[..i]), rows[i]) && !IdentityPresent(users, rows[i])
  {
    var t := TargetUnder(true, users, rows[..i], usable, faults);
    StepAppends(t, SeenAfter(rows[..i]), rows[i], usable, faults(i));
    v := StepUnder(t, SeenAfter(rows[..i]), rows[i], usable, true, faults(i)).0[|t|];
    assert rows[..i + 1][..i] == rows[..i];
    KeepsUsers(users, rows, usable, faults, i + 1, v);
    if IdentityPresent(users, rows[i]) {
      var w :| w in users && IsIdentity(w, rows[i]);
      assert rows[..i][..0] == [];
      KeepsUsers(users, rows[..i], usable, faults, 0, w);
    }
  }

  /** Exactly the rows a clean commit creates: the first of their keys, and not on the table. */
  lemma CreatedExactly(users: seq<User>, rows: seq<LegacyUser>, usable: string -> bool, i: nat)
    requires i < |rows|
    ensures CreatedAt(true, users, rows, usable, i)
       <==> !Duplicate(SeenAfter(rows[..i]), rows[i]) && !IdentityPresent(users, rows[i])
  {
    if !Duplicate(SeenAfter(rows[..i]), rows[i]) {
      PresenceIsFixed(users, rows[..i], usable, rows[i]);
    }
  }

  /** Of two rows that share a key, the later one is a duplicate if the earlier one is not. */
  lemma OnlyOneIsFirst(rows: seq<LegacyUser>, i: int, j: int)
    requires 0 <= i < |rows| && 0 <= j < |rows| && Shares(rows[j], rows[i])
    requires !Duplicate(SeenAfter(rows[..i]), rows[i]) && !Duplicate(SeenAfter(rows[..j]), rows[j])
    ensures i == j
  {
    if j < i {
      assert rows[..i][..j] == rows[..j];
      SharingIsDuplicate(rows[..i], j, rows[i]);
    } else if i < j {
      assert rows[..j][..i] == rows[..i];
      SharingIsDuplicate(rows[..j], i, rows[j]);
    }
  }

  /** A row that a clean commit creates is inserted by the faulty run or created by the re-run. */
  lemma RerunCompletes(users: seq<User>, rows: seq<LegacyUser>, usable: string -> bool, faults: nat -> Fault, i: nat)
    requires i < |rows|
    ensures var t := TargetUnder(true, users, rows, usable, faults);
      CreatedAt(true, users, rows, usable, i)
      <==> InsertedAt(users, rows, usable, faults, i) || CreatedAt(true, t, rows, usable, i)
  {
    var t := TargetUnder(true, users, rows, usable, faults);
    CreatedExactly(users, rows, usable, i);
    CreatedExactly(t, rows, usable, i);
    if InsertedAt(users, rows, usable, faults, i) {
      var v := InsertedIsPresent(users, rows, usable, faults, i);
    }
    if IdentityPresent(users, rows[i]) {
      var v :| v in users && IsIdentity(v, rows[i]);
      assert rows[..0] == [];
      KeepsUsers(users, rows, usable, faults, 0, v);
    }
    if CreatedAt(true, users, rows, usable, i) && IdentityPresent(t, rows[i]) {
      var v :| v in t && IsIdentity(v, rows[i]);
      var j := FaultySource(users, rows, usable, faults, v);
      if v !in users {
        var w := InsertedIsPresent(users, rows, usable, faults, j);
        OnlyOneIsFirst(rows, i, j);
      }
    }
  }

  /** Whatever errors a commit met, one clean re-run leaves exactly the identities that a clean commit
      alone would have left. Only handles and npubs can differ. */
  lemma CleanRerunRecovers(users: seq<User>, rows: seq<LegacyUser>, usable: string -> bool, faults: nat -> Fault,
                           u: LegacyUser)
    ensures var flaky := TargetUnder(true, users, rows, usable, faults);
      IdentityPresent(TargetAfter(true, flaky, rows, usable), u)
      <==> IdentityPresent(TargetAfter(true, users, rows, usable), u)
  {
    var flaky := TargetUnder(true, users, rows, usable, faults);
    PresentExactly(users, rows, usable, u);
    PresentExactly(flaky, rows, usable, u);
    FlakyPresence(users, rows, usable, faults, u);
    forall i | 0 <= i < |rows|
      ensures CreatedAt(true, users, rows, usable, i)
         <==> InsertedAt(users, rows, usable, faults, i) || CreatedAt(true, flaky, rows, usable, i)
    {
      RerunCompletes(users, rows, usable, faults, i);
    }
  }

  /** Who is on the table after the faulty run. */
  lemma FlakyPresence(users: seq<User>, rows: seq<LegacyUser>, usable: string -> bool, faults: nat -> Fault,
                      u: LegacyUser)
    ensures IdentityPresent(TargetUnder(true, users, rows, usable, faults), u)
       <==> IdentityPresent(users, u) || exists i :: InsertedAt(users, rows, usable, faults, i) && Shares(rows[i], u)
  {
    var t := TargetUnder(true, users, rows, usable, faults);
    if IdentityPresent(t, u) {
      var v :| v in t && IsIdentity(v, u);
      var i := FaultySource(users, rows, usable, faults, v);
      if v !in users {
        assert Shares(rows[i], u);
      }
    }
    if IdentityPresent(users, u) {
      var v :| v in users && IsIdentity(v, u);
      assert rows[..0] == [];
      KeepsUsers(users, rows, usable, faults, 0, v);
    }
    if i :| InsertedAt(users, rows, usable, faults, i) && Shares(rows[i], u) {
      var v := InsertedIsPresent(users, rows, usable, faults, i);
      assert IsIdentity(v, u);
    }
  }
}
