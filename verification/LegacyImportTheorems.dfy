/** What a dry run predicts, what re-runs and staged runs do, and who is on the target afterwards. */
module LegacyImportTheorems {
  import opened Machine
  import opened Text
  import opened LegacyImport

  // ---------------------------------------------------------------- dry run against commit

  lemma {:induction false} DryRunWritesNothing(users: seq<User>, rows: seq<LegacyUser>, usable: string -> bool)
    ensures TargetAfter(false, users, rows, usable) == users
  {
    if rows != [] {
      DryRunWritesNothing(users, rows[..|rows| - 1], usable);
    }
  }

  /** What the batch itself adds to the target never decides the presence check of a row that gets
      that far: its keys would have been in the `seen` set. */
  lemma PresenceIsFixed(users: seq<User>, rows: seq<LegacyUser>, usable: string -> bool, u: LegacyUser)
    requires !Duplicate(SeenAfter(rows), u)
    ensures IdentityPresent(TargetAfter(true, users, rows, usable), u) <==> IdentityPresent(users, u)
  {
    var t := TargetAfter(true, users, rows, usable);
    if IdentityPresent(users, u) {
      var v :| v in users && IsIdentity(v, u);
      TargetGrows(users, rows, usable, v);
    }
    if IdentityPresent(t, u) {
      var v :| v in t && IsIdentity(v, u);
      var j := EveryUserHasASource(users, rows, usable, v);
      if v !in users {
        assert Shares(rows[j], u);
        SharingIsDuplicate(rows, j, u);
      }
    }
  }

  /** A dry run names exactly the rows a commit creates, and so exactly those it skips. */
  lemma DryRunPredicts(users: seq<User>, rows: seq<LegacyUser>, usable: string -> bool, i: nat)
    requires i < |rows|
    ensures CreatedAt(false, users, rows, usable, i) <==> CreatedAt(true, users, rows, usable, i)
  {
    DryRunWritesNothing(users, rows[..i], usable);
    if !Duplicate(SeenAfter(rows[..i]), rows[i]) {
      PresenceIsFixed(users, rows[..i], usable, rows[i]);
    }
  }

  /** An earlier created row of the batch asks for the same handle. */
  predicate HandleAskedEarlier(users: seq<User>, rows: seq<LegacyUser>, usable: string -> bool, i: nat)
    requires i < |rows|
  {
    Cleaned(rows[i].username).Some?
    && exists j ::
         && 0 <= j < i && CreatedAt(false, users, rows, usable, j)
         && Cleaned(rows[j].username) == Cleaned(rows[i].username)
  }

  predicate NpubAskedEarlier(users: seq<User>, rows: seq<LegacyUser>, usable: string -> bool, i: nat)
    requires i < |rows|
  {
    Cleaned(rows[i].npub).Some?
    && exists j ::
         0 <= j < i && CreatedAt(false, users, rows, usable, j) && Cleaned(rows[j].npub) == Cleaned(rows[i].npub)
  }

  lemma HandleTakenOnlyIf(users: seq<User>, rows: seq<LegacyUser>, usable: string -> bool, i: nat)
    requires i < |rows| && UsernameDropped(TargetAfter(true, users, rows[..i], usable), rows[i], usable)
    ensures UsernameDropped(users, rows[i], usable) || HandleAskedEarlier(users, rows, usable, i)
  {
    var t := TargetAfter(true, users, rows[..i], usable);
    var wanted := Cleaned(rows[i].username);
    if HasUsername(t, wanted.value) {
      var v :| v in t && v.username == wanted;
      var j := EveryUserHasASource(users, rows[..i], usable, v);
      if v !in users {
        PrefixOutcome(true, users, rows, usable, i, j);
        DryRunPredicts(users, rows, usable, j);
      }
    }
  }

  lemma HandleTakenIfAsked(users: seq<User>, rows: seq<LegacyUser>, usable: string -> bool, i: nat, j: nat)
    requires j < i < |rows| && CreatedAt(false, users, rows, usable, j)
    requires Cleaned(rows[i].username).Some? && Cleaned(rows[j].username) == Cleaned(rows[i].username)
    ensures UsernameDropped(TargetAfter(true, users, rows[..i], usable), rows[i], usable)
  {
    var before, wanted := rows[..i], Cleaned(rows[i].username);
    DryRunPredicts(users, rows, usable, j);
    PrefixOutcome(true, users, rows, usable, i, j);
    var v := CreatedIsPresent(users, before, usable, j);
    assert before[..j] == rows[..j];
    var at := TargetAfter(true, users, rows[..j], usable);
    if HasUsername(at, wanted.value) {
      var w :| w in at && w.username == wanted;
      PrefixGrows(users, before, usable, j, w);
    }
  }

  lemma HandleTakenExactly(users: seq<User>, rows: seq<LegacyUser>, usable: string -> bool, i: nat)
    requires i < |rows|
    ensures UsernameDropped(TargetAfter(true, users, rows[..i], usable), rows[i], usable)
       <==> UsernameDropped(users, rows[i], usable) || HandleAskedEarlier(users, rows, usable, i)
  {
    if UsernameDropped(TargetAfter(true, users, rows[..i], usable), rows[i], usable) {
      HandleTakenOnlyIf(users, rows, usable, i);
    } else if HandleAskedEarlier(users, rows, usable, i) {
      var j :| 0 <= j < i && CreatedAt(false, users, rows, usable, j)
        && Cleaned(rows[j].username) == Cleaned(rows[i].username);
      HandleTakenIfAsked(users, rows, usable, i, j);
    } else if UsernameDropped(users, rows[i], usable) {
      var wanted := Cleaned(rows[i].username);
      if HasUsername(users, wanted.value) {
        var v :| v in users && v.username == wanted;
        TargetGrows(users, rows[..i], usable, v);
      }
    }
  }

  lemma NpubTakenOnlyIf(users: seq<User>, rows: seq<LegacyUser>, usable: string -> bool, i: nat)
    requires i < |rows| && NpubDropped(TargetAfter(true, users, rows[..i], usable), rows[i])
    ensures NpubDropped(users, rows[i]) || NpubAskedEarlier(users, rows, usable, i)
  {
    var t := TargetAfter(true, users, rows[..i], usable);
    var wanted := Cleaned(rows[i].npub);
    if HasNpub(t, wanted.value) {
      var v :| v in t && v.npub == wanted;
      var j := EveryUserHasASource(users, rows[..i], usable, v);
      if v !in users {
        PrefixOutcome(true, users, rows, usable, i, j);
        DryRunPredicts(users, rows, usable, j);
      }
    }
  }

  lemma NpubTakenIfAsked(users: seq<User>, rows: seq<LegacyUser>, usable: string -> bool, i: nat, j: nat)
    requires j < i < |rows| && CreatedAt(false, users, rows, usable, j)
    requires Cleaned(rows[i].npub).Some? && Cleaned(rows[j].npub) == Cleaned(rows[i].npub)
    ensures NpubDropped(TargetAfter(true, users, rows[..i], usable), rows[i])
  {
    var before, wanted := rows[..i], Cleaned(rows[i].npub);
    DryRunPredicts(users, rows, usable, j);
    PrefixOutcome(true, users, rows, usable, i, j);
    var v := CreatedIsPresent(users, before, usable, j);
    assert before[..j] == rows[..j];
    var at := TargetAfter(true, users, rows[..j], usable);
    if HasNpub(at, wanted.value) {
      var w :| w in at && w.npub == wanted;
      PrefixGrows(users, before, usable, j, w);
    }
  }

  lemma NpubTakenExactly(users: seq<User>, rows: seq<LegacyUser>, usable: string -> bool, i: nat)
    requires i < |rows|
    ensures NpubDropped(TargetAfter(true, users, rows[..i], usable), rows[i])
       <==> NpubDropped(users, rows[i]) || NpubAskedEarlier(users, rows, usable, i)
  {
    if NpubDropped(TargetAfter(true, users, rows[..i], usable), rows[i]) {
      NpubTakenOnlyIf(users, rows, usable, i);
    } else if NpubAskedEarlier(users, rows, usable, i) {
      var j :| 0 <= j < i && CreatedAt(false, users, rows, usable, j) && Cleaned(rows[j].npub) == Cleaned(rows[i].npub);
      NpubTakenIfAsked(users, rows, usable, i, j);
    } else if NpubDropped(users, rows[i]) {
      var wanted := Cleaned(rows[i].npub);
      if HasNpub(users, wanted.value) {
        var v :| v in users && v.npub == wanted;
        TargetGrows(users, rows[..i], usable, v);
      }
    }
  }

  /** The drop flags are where dry run and commit can differ: a commit drops what the dry run drops,
      and besides exactly what an earlier created row of the same batch already asked for. */
  lemma DropsExactly(users: seq<User>, rows: seq<LegacyUser>, usable: string -> bool, i: nat)
    requires CreatedAt(true, users, rows, usable, i)
    ensures var dry, full := OutcomeAt(false, users, rows, usable, i), OutcomeAt(true, users, rows, usable, i);
      && dry.Created?
      && (full.usernameDropped <==> dry.usernameDropped || HandleAskedEarlier(users, rows, usable, i))
      && (full.npubDropped <==> dry.npubDropped || NpubAskedEarlier(users, rows, usable, i))
  {
    DryRunPredicts(users, rows, usable, i);
    DryRunWritesNothing(users, rows[..i], usable);
    HandleTakenExactly(users, rows, usable, i);
    NpubTakenExactly(users, rows, usable, i);
  }

  /** The two summaries agree on created and skipped; the dry run may only under-count drops. */
  lemma {:induction false} SummariesAgree(users: seq<User>, rows: seq<LegacyUser>, usable: string -> bool)
    ensures var dry, full := Tally(false, users, rows, usable), Tally(true, users, rows, usable);
      && dry.created == full.created && dry.skipped == full.skipped
      && dry.usernameDropped <= full.usernameDropped && dry.npubDropped <= full.npubDropped
  {
    if rows != [] {
      var n := |rows| - 1;
      SummariesAgree(users, rows[..n], usable);
      DryRunPredicts(users, rows, usable, n);
      if CreatedAt(true, users, rows, usable, n) {
        DropsExactly(users, rows, usable, n);
      }
    }
  }

  // ---------------------------------------------------------------- re-runs

  /** The row was decided against a target that only grew since, so it is not created again. */
  lemma NotCreatedAgain(users: seq<User>, rows: seq<LegacyUser>, usable: string -> bool, i: nat)
    requires i < |rows| && !Duplicate(SeenAfter(rows[..i]), rows[i])
    ensures IdentityPresent(TargetAfter(true, users, rows, usable), rows[i])
  {
    if CreatedAt(true, users, rows, usable, i) {
      var v := CreatedIsPresent(users, rows, usable, i);
      assert IsIdentity(v, rows[i]);
    } else {
      var v :| v in TargetAfter(true, users, rows[..i], usable) && IsIdentity(v, rows[i]);
      PrefixGrows(users, rows, usable, i, v);
    }
  }

  lemma {:induction false} RerunOfPrefix(users: seq<User>, rows: seq<LegacyUser>, usable: string -> bool, k: nat)
    requires k <= |rows|
    ensures TargetAfter(true, TargetAfter(true, users, rows, usable), rows[..k], usable)
      == TargetAfter(true, users, rows, usable)
  {
    if k > 0 {
      RerunOfPrefix(users, rows, usable, k - 1);
      assert rows[..k][..k - 1] == rows[..k - 1];
      if !Duplicate(SeenAfter(rows[..k - 1]), rows[k - 1]) {
        NotCreatedAgain(users, rows, usable, k - 1);
      }
    }
  }

  /** Committing the same batch again creates nothing, row by row. */
  lemma SecondCommitCreatesNothing(users: seq<User>, rows: seq<LegacyUser>, usable: string -> bool)
    ensures var done := TargetAfter(true, users, rows, usable);
      TargetAfter(true, done, rows, usable) == done
      && forall i :: 0 <= i < |rows| ==> !CreatedAt(true, done, rows, usable, i)
  {
    var done := TargetAfter(true, users, rows, usable);
    RerunOfPrefix(users, rows, usable, |rows|);
    assert rows[..|rows|] == rows;
    forall i | 0 <= i < |rows|
      ensures !CreatedAt(true, done, rows, usable, i)
    {
      RerunOfPrefix(users, rows, usable, i);
      if !Duplicate(SeenAfter(rows[..i]), rows[i]) {
        NotCreatedAgain(users, rows, usable, i);
      }
    }
  }

  /** A staged migration: committing the first `n` rows and then all of them leaves the table that
      committing all of them at once leaves, down to which handles were kept. */
  lemma {:induction false} StagedCommit(users: seq<User>, rows: seq<LegacyUser>, usable: string -> bool, n: nat)
    requires n <= |rows|
    ensures TargetAfter(true, TargetAfter(true, users, rows[..n], usable), rows, usable)
      == TargetAfter(true, users, rows, usable)
  {
    if n == |rows| {
      assert rows[..n] == rows;
      SecondCommitCreatesNothing(users, rows, usable);
    } else {
      var init := rows[..|rows| - 1];
      assert init[..n] == rows[..n];
      StagedCommit(users, init, usable, n);
    }
  }

  /** The same for the program's limits: `--limit n` and then `--limit m`, or no limit, with `m >= n`. */
  lemma StagedLimits(users: seq<User>, legacy: seq<LegacyUser>, usable: string -> bool, n: nat, m: Option<nat>)
    requires m.None? || n <= m.value
    ensures TargetAfter(true, TargetAfter(true, users, Limited(legacy, Some(n)), usable), Limited(legacy, m), usable)
         == TargetAfter(true, users, Limited(legacy, m), usable)
  {
    var rows := Limited(legacy, m);
    var k := if n < |rows| then n else |rows|;
    assert Limited(legacy, Some(n)) == rows[..k];
    StagedCommit(users, rows, usable, k);
  }

  // ---------------------------------------------------------------- who is on the target afterwards

  /** Exactly when a row's identity is on the target after the commit: it was before, or it shares a
      key with a row the run reports as created. */
  lemma PresentExactly(users: seq<User>, rows: seq<LegacyUser>, usable: string -> bool, u: LegacyUser)
    ensures IdentityPresent(TargetAfter(true, users, rows, usable), u)
       <==> IdentityPresent(users, u) || exists j :: CreatedAt(true, users, rows, usable, j) && Shares(rows[j], u)
  {
    var t := TargetAfter(true, users, rows, usable);
    if IdentityPresent(t, u) {
      var v :| v in t && IsIdentity(v, u);
      var j := EveryUserHasASource(users, rows, usable, v);
      if v !in users {
        assert Shares(rows[j], u);
      }
    }
    if IdentityPresent(users, u) {
      var v :| v in users && IsIdentity(v, u);
      TargetGrows(users, rows, usable, v);
    }
    if j :| CreatedAt(true, users, rows, usable, j) && Shares(rows[j], u) {
      var v := CreatedIsPresent(users, rows, usable, j);
      assert IsIdentity(v, u);
    }
  }

  /** Row `i` reaches the target through shared keys of earlier rows. */
  predicate Linked(target: seq<User>, rows: seq<LegacyUser>, i: nat)
    requires i < |rows|
    decreases i
  {
    IdentityPresent(target, rows[i]) || exists j: nat :: j < i && Shares(rows[j], rows[i]) && Linked(target, rows, j)
  }

  /** Every row of the batch, skipped or not, is linked to an identity on the target. */
  lemma {:induction false} EveryRowIsLinked(users: seq<User>, rows: seq<LegacyUser>, usable: string -> bool, i: nat)
    requires i < |rows|
    ensures Linked(TargetAfter(true, users, rows, usable), rows, i)
    decreases i
  {
    if Duplicate(SeenAfter(rows[..i]), rows[i]) {
      var j := DuplicateShares(rows[..i], rows[i]);
      EveryRowIsLinked(users, rows, usable, j);
    } else {
      NotCreatedAgain(users, rows, usable, i);
    }
  }

  function Legacy(pk: string, fp: string): LegacyUser {
    LegacyUser(None, pk, None, Some(fp), None, None, None)
  }

  /** "Skipped (already present)" is not always so: the third row repeats a pubkey of a row that was
      itself skipped for its fingerprint, so it is skipped, is not on the target, and no re-run of the
      batch ever imports it. */
  lemma SkippedButAbsent(usable: string -> bool)
    ensures var rows := [Legacy("a", "x"), Legacy("b", "x"), Legacy("b", "y")];
      var done := TargetAfter(true, [], rows, usable);
      && OutcomeAt(true, [], rows, usable, 2) == Skipped
      && !IdentityPresent(done, rows[2])
      && TargetAfter(true, done, rows, usable) == done
  {
    var r0, r1, r2 := Legacy("a", "x"), Legacy("b", "x"), Legacy("b", "y");
    var rows := [r0, r1, r2];
    assert rows[..1] == [r0] && rows[..2] == [r0, r1] && rows[..0] == [];
    assert [r0][..0] == [] && [r0, r1][..1] == [r0] && rows[..3] == rows;
    assert "pk:" + "b" == "pk:b" && "pk:" + "a" == "pk:a" && "fp:" + "x" == "fp:x" && "fp:" + "y" == "fp:y";
    assert SeenAfter([r0]) == {"pk:a", "fp:x"};
    assert SeenAfter([r0, r1]) == {"pk:a", "fp:x", "pk:b"};
    assert TargetAfter(true, [], [r0], usable) == [NewUser([], r0, usable)];
    assert TargetAfter(true, [], [r0, r1], usable) == [NewUser([], r0, usable)];
    SecondCommitCreatesNothing([], rows, usable);
  }

  function Named(pk: string): LegacyUser {
    LegacyUser(Some("h"), pk, None, None, None, None, None)
  }

  /** The dry run's drop count can be short: two new users who want the same handle. */
  lemma DryRunUnderCounts(usable: string -> bool)
    requires usable("h")
    ensures var rows := [Named("a"), Named("b")];
      OutcomeAt(false, [], rows, usable, 1) == Created(false, false)
        && OutcomeAt(true, [], rows, usable, 1) == Created(true, false)
  {
    var r0, r1 := Named("a"), Named("b");
    var rows := [r0, r1];
    assert rows[..1] == [r0] && rows[..0] == [] && [r0][..0] == [];
    assert "pk:" + "b" == "pk:b" && "pk:" + "a" == "pk:a";
    assert SeenAfter([r0]) == {"pk:a"};
    assert Trim("h") == "h" && ToLower("h") == "h";
    assert TargetAfter(true, [], [r0], usable) == [NewUser([], r0, usable)];
    assert TargetAfter(false, [], [r0], usable) == [];
  }
}
