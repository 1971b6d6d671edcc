/** The operator's config PUT: validate the merged overlay on the boot base, persist the changed
    sections, then hot-swap or leave the change for the next restart. Relates three views over every
    run: the boot base, the stored overlay and the running configuration. */
module AdminConfig {
  import opened Machine
  import opened Overlay
  import opened SettingsTable

  const RESTART_MODE := Path("console", "restart_apply_mode")

  predicate AutoRestart(c: Config) {
    RESTART_MODE in c.settings && c.settings[RESTART_MODE] == Txt("auto")
  }

  // ---------------------------------------------------------------- the protocol

  datatype Server = Server(base: Config, stored: Overlay, running: Config)

  datatype Action = Put(patch: Overlay) | Restart

  datatype Reply =
    | BadRequest(error: ApplyError)
    | EmptyPatch
    | HotSwapFailed
    | Applied(live: bool, restartPending: bool, selfRestart: bool)

  /** What boot builds: the overlay on the base, or the base alone when that does not validate. */
  function Boot(rules: Rules, base: Config, stored: Overlay): Config
    requires TypedOverlay(rules, stored)
  {
    match ApplyOverlay(rules, base, stored)
    case Ok(c) => c
    case Err(_) => base
  }

  /** The restart-pending signal shared by GET and PUT. */
  predicate RestartPending(rules: Rules, base: Config, stored: Overlay, running: Config)
    requires TypedOverlay(rules, stored)
  {
    match ApplyOverlay(rules, base, stored)
    case Ok(c) => EditableOverlay(c) != EditableOverlay(running)
    case Err(_) => false
  }

  predicate NeedsRestart(rules: Rules, patch: Overlay) {
    exists p :: p in patch && rules.restart(p)
  }

  /** Once stored: deferred to the next restart, or swapped onto the running configuration. */
  function LiveResult(rules: Rules, s: Server, patch: Overlay, deferred: bool): (Server, Reply)
    requires TypedOverlay(rules, s.stored) && TypedOverlay(rules, patch)
  {
    if deferred then (s, Applied(false, true, AutoRestart(s.running)))
    else
      match ApplyOverlay(rules, s.running, patch)
      case Err(_) => (s, HotSwapFailed)
      case Ok(hot) => (s.(running := hot), Applied(true, RestartPending(rules, s.base, s.stored, hot), false))
  }

  /** Once the merged overlay validates: store it unless the patch is empty, then apply. */
  function StoreResult(rules: Rules, s: Server, patch: Overlay): (Server, Reply)
    requires TypedOverlay(rules, s.stored) && TypedOverlay(rules, patch)
  {
    if patch == map[] then (s, EmptyPatch)
    else LiveResult(rules, s.(stored := s.stored + patch), patch, NeedsRestart(rules, patch))
  }

  function PutResult(rules: Rules, s: Server, patch: Overlay): (Server, Reply)
    requires TypedOverlay(rules, s.stored) && TypedOverlay(rules, patch)
  {
    var merged := s.stored + patch;
    var candidate := ApplyOverlay(rules, s.base, merged);
    if candidate.Err? then (s, BadRequest(candidate.error)) else StoreResult(rules, s, patch)
  }

  // ---------------------------------------------------------------- the handler

  predicate SectionTouched(patch: Json, s: string) {
    patch.Obj? && s in patch.fields && patch.fields[s].Obj?
    && exists f :: f in patch.fields[s].fields && patch.fields[s].fields[f] != Null
  }

  predicate RestartBelow(rules: Rules, patch: Json, s: string) {
    patch.Obj? && s in patch.fields && patch.fields[s].Obj?
    && exists f :: f in patch.fields[s].fields && patch.fields[s].fields[f] != Null && rules.restart(Path(s, f))
  }

  /** Does any touched field of one section need a restart? */
  method AnyRestart(rules: Rules, section: string, touched: set<string>) returns (any: bool)
    ensures any <==> exists f :: f in touched && rules.restart(Path(section, f))
  {
    any := false;
    var todo := touched;
    while todo != {}
      invariant todo <= touched
      invariant any <==> exists f :: f in touched - todo && rules.restart(Path(section, f))
      decreases |todo|
    {
      var f :| f in todo;
      if rules.restart(Path(section, f)) {
        any := true;
      }
      assert touched - (todo - {f}) == (touched - todo) + {f};
      todo := todo - {f};
    }
    assert touched - todo == touched;
  }

  /** One section of the patch: is anything in it set, and does any of that need a restart? */
  method ClassifySection(rules: Rules, patch: Json, s: string) returns (touched: bool, any: bool)
    requires patch.Obj? && s in patch.fields
    ensures touched == SectionTouched(patch, s)
    ensures any == RestartBelow(rules, patch, s)
  {
    if !patch.fields[s].Obj? {
      return false, false;
    }
    var fields := patch.fields[s].fields;
    var names := set f | f in fields && fields[f] != Null;
    any := AnyRestart(rules, s, names);
    touched := names != {};
    if f :| f in fields && fields[f] != Null {
      assert f in names;
    }
  }

  /** Walk the patch: which sections change, and does any changed field need a restart? */
  method ClassifyPatch(rules: Rules, patch: Json) returns (changed: set<string>, anyRestart: bool)
    requires patch.Obj?
    ensures ChangedBy(patch, changed)
    ensures anyRestart <==> exists s :: s in patch.fields.Keys && RestartBelow(rules, patch, s)
  {
    changed, anyRestart := {}, false;
    var todo := patch.fields.Keys;
    ghost var done: set<string> := {};
    while todo != {}
      invariant todo + done == patch.fields.Keys && todo !! done
      invariant forall s :: s in changed <==> s in done && SectionTouched(patch, s)
      invariant anyRestart <==> exists s :: s in done && RestartBelow(rules, patch, s)
      decreases |todo|
    {
      var s :| s in todo;
      var touched, any := ClassifySection(rules, patch, s);
      if touched {
        changed := changed + {s};
        anyRestart := anyRestart || any;
      }
      todo, done := todo - {s}, done + {s};
    }
    assert done == patch.fields.Keys;
  }

  lemma TouchedIsSet(patch: Json, s: string)
    requires Shaped(patch)
    ensures SectionTouched(patch, s) <==> exists f :: Path(s, f) in Denote(patch)
  {
    if SectionTouched(patch, s) {
      var f :| f in patch.fields[s].fields && patch.fields[s].fields[f] != Null;
      assert SectionShaped(patch.fields[s]);
      assert LeafAt(patch, Path(s, f)).Some?;
    }
    if f :| Path(s, f) in Denote(patch) {
      assert LeafAt(patch, Path(s, f)).Some?;
    }
  }

  lemma RestartIsSet(rules: Rules, patch: Json)
    requires Shaped(patch)
    ensures (exists s :: s in patch.fields && RestartBelow(rules, patch, s)) <==> NeedsRestart(rules, Denote(patch))
  {
    if s :| s in patch.fields && RestartBelow(rules, patch, s) {
      var f :| f in patch.fields[s].fields && patch.fields[s].fields[f] != Null && rules.restart(Path(s, f));
      assert SectionShaped(patch.fields[s]);
      assert LeafAt(patch, Path(s, f)).Some?;
    }
    if NeedsRestart(rules, Denote(patch)) {
      var p :| p in Denote(patch) && rules.restart(p);
      assert LeafAt(patch, p).Some?;
      assert RestartBelow(rules, patch, p.section);
    }
  }

  function SectionDoc(s: string, merged: map<string, Json>): Json {
    if s in merged then merged[s] else Obj(map[])
  }

  function SectionDocs(changed: set<string>, merged: map<string, Json>): map<string, Json> {
    map s | s in changed :: SectionDoc(s, merged)
  }

  lemma OneMoreDoc(rows: map<string, Json>, done: set<string>, s: string, merged: map<string, Json>)
    ensures rows + SectionDocs(done + {s}, merged) == (rows + SectionDocs(done, merged))[s := SectionDoc(s, merged)]
  {
  }

  ghost predicate ChangedBy(patch: Json, changed: set<string>) {
    forall s :: s in changed <==> SectionTouched(patch, s)
  }

  /** Only the sections the patch touches are written, yet the stored rows then decode to the whole
      merged overlay. */
  lemma WritingChangedSectionsSuffices(rows: map<string, Json>, patch: Json, merged: Json, changed: set<string>)
    requires Shaped(Obj(rows)) && Shaped(patch) && Overrides(merged, Obj(rows), patch)
    requires ChangedBy(patch, changed)
    ensures var rows' := Obj(rows + SectionDocs(changed, merged.fields));
      Shaped(rows') && Denote(rows') == Denote(merged)
  {
    var rows' := Obj(rows + SectionDocs(changed, merged.fields));
    forall p
      ensures LeafAt(rows', p) == LeafAt(merged, p)
    {
      if p.section in changed {
        assert rows'.fields[p.section] == SectionDoc(p.section, merged.fields);
      } else {
        TouchedIsSet(patch, p.section);
        assert LeafAt(patch, p).None?;
        assert LeafAt(rows', p) == LeafAt(Obj(rows), p);
      }
    }
  }

  /** Hence the stored overlay becomes the old one overridden by the patch. */
  lemma StoredAfter(rows: map<string, Json>, patch: Json, merged: Json, changed: set<string>)
    requires Shaped(Obj(rows)) && Shaped(patch) && Overrides(merged, Obj(rows), patch)
    requires ChangedBy(patch, changed)
    ensures var rows' := Obj(rows + SectionDocs(changed, merged.fields));
      Shaped(rows') && Denote(rows') == Denote(Obj(rows)) + Denote(patch)
  {
    WritingChangedSectionsSuffices(rows, patch, merged, changed);
    OverrideDenotes(merged, Obj(rows), patch);
  }

  lemma NothingChanged(patch: Json, changed: set<string>)
    requires Shaped(patch) && ChangedBy(patch, changed)
    ensures changed == {} <==> Denote(patch) == map[]
  {
    if Denote(patch) != map[] {
      var p :| p in Denote(patch);
      assert Path(p.section, p.name) == p;
      TouchedIsSet(patch, p.section);
    }
    if s :| s in changed {
      TouchedIsSet(patch, s);
      var f :| Path(s, f) in Denote(patch);
      assert Denote(patch) != map[];
    }
  }

  class ConfigServer {
    const rules: Rules
    const base: Config
    /** The settings table: one document per section. */
    var rows: map<string, Json>
    var running: Config
    /** What the rows decode to. */
    ghost var stored: Overlay

    ghost predicate Valid()
      reads `rows, `stored
    {
      Shaped(Obj(rows)) && stored == Denote(Obj(rows)) && TypedOverlay(rules, stored)
    }

    ghost function View(): Server
      reads `running, `stored
    {
      Server(base, stored, running)
    }

    constructor (rules: Rules, base: Config, rows: map<string, Json>)
      requires Shaped(Obj(rows)) && TypedOverlay(rules, Denote(Obj(rows)))
      ensures Valid() && this.rules == rules
      ensures View() == Server(base, Denote(Obj(rows)), Boot(rules, base, Denote(Obj(rows))))
    {
      this.rules, this.base, this.rows := rules, base, rows;
      running := Boot(rules, base, Denote(Obj(rows)));
      stored := Denote(Obj(rows));
    }

    method Put(patch: Json) returns (reply: Reply)
      requires Valid() && Shaped(patch) && TypedOverlay(rules, Denote(patch))
      modifies `rows, `running, `stored
      ensures Valid()
      ensures (View(), reply) == PutResult(rules, old(View()), Denote(patch))
    {
      var merged := MergeOntoRows(patch);
      var overlay, change := Denote(merged), Denote(patch);
      var candidate := ApplyOverlay(rules, base, overlay);
      if candidate.Err? {
        return BadRequest(candidate.error);
      }
      reply := StoreAndApply(patch, merged, overlay, change);
    }

    method StoreAndApply(patch: Json, merged: Json, overlay: Overlay, change: Overlay) returns (reply: Reply)
      requires Valid() && Shaped(patch) && change == Denote(patch) && TypedOverlay(rules, change)
      requires Overrides(merged, Obj(rows), patch) && overlay == stored + change && TypedOverlay(rules, overlay)
      modifies `rows, `running, `stored
      ensures Valid()
      ensures (View(), reply) == StoreResult(rules, old(View()), change)
    {
      var changed, anyRestart := StoreChanges(patch, merged);
      if !changed {
        return EmptyPatch;
      }
      reply := ApplyStored(overlay, change, anyRestart);
    }

    /** The stored overlay with the patch merged in. */
    method MergeOntoRows(patch: Json) returns (merged: Json)
      requires Valid() && Shaped(patch)
      ensures Overrides(merged, Obj(rows), patch)
      ensures Denote(merged) == stored + Denote(patch)
    {
      merged := MergeInPlace(Obj(rows), patch);
      MergeIsOverride(Obj(rows), patch);
      OverrideDenotes(merged, Obj(rows), patch);
    }

    /** Classify the changed fields and write the changed sections; nothing is written for an empty patch. */
    method StoreChanges(patch: Json, merged: Json) returns (changed: bool, anyRestart: bool)
      requires Valid() && Shaped(patch) && TypedOverlay(rules, Denote(patch))
      requires Overrides(merged, Obj(rows), patch)
      modifies `rows, `stored
      ensures Valid()
      ensures changed ==> stored == old(stored) + Denote(patch)
      ensures !changed ==> stored == old(stored)
      ensures changed <==> Denote(patch) != map[]
      ensures anyRestart <==> NeedsRestart(rules, Denote(patch))
    {
      var sections;
      sections, anyRestart := ClassifyPatch(rules, patch);
      RestartIsSet(rules, patch);
      NothingChanged(patch, sections);
      changed := sections != {};
      if changed {
        StoreSections(patch, merged, sections);
      }
    }

    method StoreSections(patch: Json, merged: Json, sections: set<string>)
      requires Valid() && Shaped(patch) && TypedOverlay(rules, Denote(patch))
      requires Overrides(merged, Obj(rows), patch) && ChangedBy(patch, sections)
      modifies `rows, `stored
      ensures Valid() && stored == old(stored) + Denote(patch)
      ensures rows == old(rows) + SectionDocs(sections, merged.fields)
    {
      StoredAfter(rows, patch, merged, sections);
      PersistSections(sections, merged.fields);
      stored := stored + Denote(patch);
    }

    /** Write each changed section's merged document as its row. */
    method PersistSections(changed: set<string>, merged: map<string, Json>)
      modifies `rows
      ensures rows == old(rows) + SectionDocs(changed, merged)
    {
      var todo := changed;
      ghost var done: set<string> := {};
      while todo != {}
        invariant todo + done == changed && todo !! done
        invariant rows == old(rows) + SectionDocs(done, merged)
        decreases |todo|
      {
        var s :| s in todo;
        rows := rows[s := SectionDoc(s, merged)];
        OneMoreDoc(old(rows), done, s, merged);
        todo, done := todo - {s}, done + {s};
      }
      assert done == changed;
    }

    /** The tail of the handler: defer, or swap only the patch onto the running configuration. */
    method ApplyStored(merged: Overlay, patch: Overlay, anyRestart: bool) returns (reply: Reply)
      requires Valid() && TypedOverlay(rules, merged) && TypedOverlay(rules, patch) && merged == stored
      modifies `running
      ensures Valid()
      ensures (View(), reply) == LiveResult(rules, old(View()), patch, anyRestart)
    {
      if anyRestart {
        return Applied(false, true, AutoRestart(running));
      }
      var hot := ApplyOverlay(rules, running, patch);
      if hot.Err? {
        return HotSwapFailed;
      }
      var pending := RestartPending(rules, base, merged, hot.value);
      running := hot.value;
      return Applied(true, pending, false);
    }

    method RestartNow()
      requires Valid()
      modifies `running
      ensures Valid()
      ensures View() == Act(rules, old(View()), Restart)
    {
      running := Boot(rules, base, Denote(Obj(rows)));
    }
  }

  // ---------------------------------------------------------------- runs

  predicate TypedAction(rules: Rules, a: Action) {
    a.Put? ==> TypedOverlay(rules, a.patch)
  }

  function Act(rules: Rules, s: Server, a: Action): Server
    requires TypedOverlay(rules, s.stored) && TypedAction(rules, a)
  {
    match a
    case Put(patch) => PutResult(rules, s, patch).0
    case Restart => s.(running := Boot(rules, s.base, s.stored))
  }

  /** `Some` reply for a PUT. */
  function ReplyTo(rules: Rules, s: Server, a: Action): Option<Reply>
    requires TypedOverlay(rules, s.stored) && TypedAction(rules, a)
  {
    match a
    case Put(patch) => Some(PutResult(rules, s, patch).1)
    case Restart => None
  }

  predicate TypedRun(rules: Rules, acts: seq<Action>) {
    forall a :: a in acts ==> TypedAction(rules, a)
  }

  function Run(rules: Rules, s: Server, acts: seq<Action>): (s': Server)
    requires TypedOverlay(rules, s.stored) && TypedRun(rules, acts)
    ensures TypedOverlay(rules, s'.stored)
    decreases |acts|
  {
    if acts == [] then s else Run(rules, Act(rules, s, acts[0]), acts[1..])
  }

  /** What boot starts from: loading the environment folds the cased fields, and validation refuses the rest. */
  predicate GoodBase(rules: Rules, base: Config) {
    NormalConfig(rules, base) && rules.valid(base)
  }

  predicate Inv(rules: Rules, s: Server) {
    && GoodBase(rules, s.base)
    && TypedOverlay(rules, s.stored)
    && ApplyOverlay(rules, s.base, s.stored).Ok?
    && GoodBase(rules, s.running)
    && s.running.rest == s.base.rest
  }

  /** The state right after a first boot with nothing stored satisfies the invariant. */
  lemma FirstBootIsGood(rules: Rules, base: Config)
    requires GoodBase(rules, base)
    ensures Inv(rules, Server(base, map[], Boot(rules, base, map[])))
    ensures Boot(rules, base, map[]) == base
  {
    EmptyOverlay(rules, base);
  }

  lemma PutKeepsInv(rules: Rules, s: Server, patch: Overlay)
    requires Inv(rules, s) && TypedOverlay(rules, patch)
    ensures Inv(rules, PutResult(rules, s, patch).0) && PutResult(rules, s, patch).0.base == s.base
  {
    LiveKeepsRunningGood(rules, s.(stored := s.stored + patch), patch, NeedsRestart(rules, patch));
  }

  lemma LiveKeepsRunningGood(rules: Rules, s: Server, patch: Overlay, deferred: bool)
    requires TypedOverlay(rules, s.stored) && TypedOverlay(rules, patch) && GoodBase(rules, s.running)
    ensures var s' := LiveResult(rules, s, patch, deferred).0;
      s'.base == s.base && s'.stored == s.stored && GoodBase(rules, s'.running) && s'.running.rest == s.running.rest
  {
    if ApplyOverlay(rules, s.running, patch).Ok? {
      ApplyIsNormal(rules, s.running, patch);
    }
  }

  lemma ActKeepsInv(rules: Rules, s: Server, a: Action)
    requires Inv(rules, s) && TypedAction(rules, a)
    ensures Inv(rules, Act(rules, s, a)) && Act(rules, s, a).base == s.base
  {
    match a
    case Put(patch) => PutKeepsInv(rules, s, patch);
    case Restart => ApplyIsNormal(rules, s.base, s.stored);
  }

  /** Over every run of PUTs and restarts the stored overlay validates on the base, so no boot ever
      takes the environment-only fallback. */
  lemma {:induction false} BootNeverFallsBack(rules: Rules, s: Server, acts: seq<Action>)
    requires Inv(rules, s) && TypedRun(rules, acts)
    ensures var s' := Run(rules, s, acts);
      && Inv(rules, s') && s'.base == s.base
      && ApplyOverlay(rules, s'.base, s'.stored) == Ok(Boot(rules, s'.base, s'.stored))
    decreases |acts|
  {
    if acts != [] {
      ActKeepsInv(rules, s, acts[0]);
      BootNeverFallsBack(rules, Act(rules, s, acts[0]), acts[1..]);
    }
  }

  lemma PutKeepsRestartFields(rules: Rules, s: Server, patch: Overlay, p: Path)
    requires TypedOverlay(rules, s.stored) && TypedOverlay(rules, patch)
    requires p in s.running.settings && rules.restart(p)
    ensures var c := PutResult(rules, s, patch).0.running;
      p in c.settings && c.settings[p] == s.running.settings[p] && c.rest == s.running.rest
  {
    assert p in patch ==> NeedsRestart(rules, patch);
  }

  /** Between boots no restart-required field of the running configuration changes, nor anything
      that is not editable. */
  lemma {:induction false} RestartFieldsAreFrozen(rules: Rules, s: Server, acts: seq<Action>, p: Path)
    requires Inv(rules, s) && TypedRun(rules, acts)
    requires Restart !in acts
    requires p in s.running.settings && rules.restart(p)
    ensures var s' := Run(rules, s, acts);
      && p in s'.running.settings
      && s'.running.settings[p] == s.running.settings[p]
      && s'.running.rest == s.running.rest
    decreases |acts|
  {
    if acts != [] {
      ActKeepsInv(rules, s, acts[0]);
      PutKeepsRestartFields(rules, s, acts[0].patch, p);
      RestartFieldsAreFrozen(rules, Act(rules, s, acts[0]), acts[1..], p);
    }
  }

  /** A restart now would leave the running configuration as it is. */
  predicate Settled(rules: Rules, s: Server)
    requires TypedOverlay(rules, s.stored)
  {
    s.running == Boot(rules, s.base, s.stored)
  }

  /** The signal is exact: it is raised iff a restart would change some editable field. */
  lemma PendingExactly(rules: Rules, s: Server)
    requires Inv(rules, s)
    ensures RestartPending(rules, s.base, s.stored, s.running) <==> !Settled(rules, s)
    ensures RestartPending(rules, s.base, s.stored, s.running)
       <==> Act(rules, s, Restart).running.settings != s.running.settings
  {
    ApplyIsNormal(rules, s.base, s.stored);
    ShownAlike(rules, Boot(rules, s.base, s.stored), s.running);
  }

  /** Every editable field already runs with what the stored overlay and the patch would set. */
  predicate AlreadyRuns(rules: Rules, s: Server, patch: Overlay)
    requires TypedOverlay(rules, s.stored) && TypedOverlay(rules, patch)
  {
    var merged := s.stored + patch;
    forall p :: p in s.running.settings && p in s.base.settings ==>
      Some(s.running.settings[p]) == if p in merged then Normalise(rules.kinds[p], merged[p])
        else Some(s.base.settings[p])
  }

  lemma AlreadyRunsExactly(rules: Rules, s: Server, patch: Overlay)
    requires Inv(rules, s) && TypedOverlay(rules, patch)
    requires ApplyOverlay(rules, s.base, s.stored + patch).Ok?
    ensures AlreadyRuns(rules, s, patch) <==> s.running == Patched(rules, s.base, s.stored + patch)
  {
    var next := Patched(rules, s.base, s.stored + patch);
    if AlreadyRuns(rules, s, patch) {
      assert next.settings == s.running.settings;
    }
  }

  lemma LiveReport(rules: Rules, s: Server, patch: Overlay)
    requires Inv(rules, s) && TypedOverlay(rules, patch)
    requires PutResult(rules, s, patch).1.Applied? && PutResult(rules, s, patch).1.live
    ensures !NeedsRestart(rules, patch)
    ensures PutResult(rules, s, patch).1.restartPending <==> !Settled(rules, PutResult(rules, s, patch).0)
  {
    PutKeepsInv(rules, s, patch);
    PendingExactly(rules, PutResult(rules, s, patch).0);
  }

  lemma DeferredReport(rules: Rules, s: Server, patch: Overlay)
    requires Inv(rules, s) && TypedOverlay(rules, patch)
    requires PutResult(rules, s, patch).1.Applied? && !PutResult(rules, s, patch).1.live
    ensures NeedsRestart(rules, patch) && PutResult(rules, s, patch).1.restartPending
    ensures Settled(rules, PutResult(rules, s, patch).0) <==> AlreadyRuns(rules, s, patch)
  {
    AlreadyRunsExactly(rules, s, patch);
  }

  lemma RestartIsNoOp(rules: Rules, s: Server)
    requires TypedOverlay(rules, s.stored)
    ensures Act(rules, s, Restart) == s <==> Settled(rules, s)
  {
  }

  /** What a PUT reports: "not pending" is always true, "pending" after a live PUT is always true, and
      "pending" after a deferred PUT is untrue exactly when every field already runs with the value
      that is stored or patched for it. */
  lemma ReportedPending(rules: Rules, s: Server, patch: Overlay)
    requires Inv(rules, s) && TypedOverlay(rules, patch)
    requires PutResult(rules, s, patch).1.Applied?
    ensures var (s', reply) := PutResult(rules, s, patch);
      && (!reply.restartPending ==> Act(rules, s', Restart) == s')
      && (reply.restartPending && Act(rules, s', Restart) == s'
        <==> NeedsRestart(rules, patch) && AlreadyRuns(rules, s, patch))
  {
    if PutResult(rules, s, patch).1.live {
      LiveReport(rules, s, patch);
    } else {
      DeferredReport(rules, s, patch);
    }
    RestartIsNoOp(rules, PutResult(rules, s, patch).0);
  }

  /** A PUT that stores without applying. */
  predicate Deferred(reply: Option<Reply>) {
    reply.Some? && reply.value.Applied? && !reply.value.live
  }

  lemma LivePutStaysSettled(rules: Rules, s: Server, patch: Overlay)
    requires Inv(rules, s) && TypedOverlay(rules, patch) && Settled(rules, s)
    ensures PutResult(rules, s, patch).1 != HotSwapFailed
    ensures !Deferred(Some(PutResult(rules, s, patch).1)) ==> Settled(rules, PutResult(rules, s, patch).0)
  {
    ApplyIsAction(rules, s.base, s.stored, patch);
  }

  predicate NoneDeferred(rules: Rules, s: Server, acts: seq<Action>)
    requires TypedOverlay(rules, s.stored) && TypedRun(rules, acts)
    decreases |acts|
  {
    acts != [] ==> !Deferred(ReplyTo(rules, s, acts[0])) && NoneDeferred(rules, Act(rules, s, acts[0]), acts[1..])
  }

  predicate NoHotSwapFails(rules: Rules, s: Server, acts: seq<Action>)
    requires TypedOverlay(rules, s.stored) && TypedRun(rules, acts)
    decreases |acts|
  {
    acts != [] ==>
      && ReplyTo(rules, s, acts[0]) != Some(HotSwapFailed)
      && NoHotSwapFails(rules, Act(rules, s, acts[0]), acts[1..])
  }

  /** While no restart-required change has been stored since boot, running is exactly the base with
      the stored overlay, and no hot-swap can fail. */
  lemma {:induction false} RunningTracksStored(rules: Rules, s: Server, acts: seq<Action>)
    requires Inv(rules, s) && TypedRun(rules, acts)
    requires Settled(rules, s) && NoneDeferred(rules, s, acts)
    ensures Settled(rules, Run(rules, s, acts))
    ensures NoHotSwapFails(rules, s, acts)
    decreases |acts|
  {
    if acts != [] {
      ActKeepsInv(rules, s, acts[0]);
      if acts[0].Put? {
        LivePutStaysSettled(rules, s, acts[0].patch);
      }
      RunningTracksStored(rules, Act(rules, s, acts[0]), acts[1..]);
    }
  }

  // ---------------------------------------------------------------- what one PUT does

  /** No valid configuration has the stored settings and the patch. */
  ghost predicate Refused(rules: Rules, c: Config, ov: Overlay)
    requires TypedOverlay(rules, ov)
  {
    forall c' :: !Carries(rules, c, ov, c')
  }

  lemma RefusedExactly(rules: Rules, c: Config, ov: Overlay)
    requires GoodRules(rules) && TypedOverlay(rules, ov) && c.settings.Keys == rules.kinds.Keys
    ensures ApplyOverlay(rules, c, ov).Err? <==> Refused(rules, c, ov)
  {
    match ApplyOverlay(rules, c, ov)
    case Ok(c') => AppliedExactly(rules, c, ov, c');
    case Err(_) =>
      forall c' {
        AppliedExactly(rules, c, ov, c');
      }
  }

  /** A PUT is refused exactly when nothing valid carries the stored settings with the patch, and blames a
      token iff some stored or patched value is none of its field's. */
  lemma PutRefusedExactly(rules: Rules, s: Server, patch: Overlay)
    requires GoodRules(rules) && Inv(rules, s) && TypedOverlay(rules, patch)
    ensures PutResult(rules, s, patch).1.BadRequest? <==> Refused(rules, s.base, s.stored + patch)
    ensures PutResult(rules, s, patch).1 == BadRequest(BadToken)
       <==> exists p :: p in s.stored + patch && RefusesToken(rules.kinds[p], (s.stored + patch)[p])
  {
    var merged := s.stored + patch;
    RefusedExactly(rules, s.base, merged);
    BadTokenExactly(rules, s.base, merged);
    assert PutResult(rules, s, patch).1.BadRequest? <==> ApplyOverlay(rules, s.base, merged).Err?;
  }

  /** A refused or an empty PUT changes nothing; every other is stored on top of what was stored. */
  lemma PutStoresExactly(rules: Rules, s: Server, patch: Overlay)
    requires TypedOverlay(rules, s.stored) && TypedOverlay(rules, patch)
    ensures var (s', reply) := PutResult(rules, s, patch);
      && (reply.EmptyPatch? <==> |patch| == 0 && !reply.BadRequest?)
      && (reply.BadRequest? || reply.EmptyPatch? ==> s' == s)
      && (!reply.BadRequest? && !reply.EmptyPatch? ==> s'.base == s.base && s'.stored == s.stored + patch)
  {
  }

  lemma StoredPutGoesLive(rules: Rules, s: Server, patch: Overlay)
    requires TypedOverlay(rules, s.stored) && TypedOverlay(rules, patch)
    requires !PutResult(rules, s, patch).1.BadRequest? && patch != map[]
    ensures PutResult(rules, s, patch)
         == LiveResult(rules, s.(stored := s.stored + patch), patch, NeedsRestart(rules, patch))
  {
  }

  /** A stored PUT that names a restart-required field leaves the running configuration alone, is pending,
      and triggers a restart of its own iff the running restart mode is "auto". */
  lemma DeferredPutExactly(rules: Rules, s: Server, patch: Overlay, p: Path)
    requires GoodRules(rules) && Inv(rules, s) && TypedOverlay(rules, patch)
    requires !Refused(rules, s.base, s.stored + patch) && p in patch && rules.restart(p)
    ensures var (s', reply) := PutResult(rules, s, patch);
      && s'.running == s.running
      && reply.Applied? && !reply.live && reply.restartPending
      && (reply.selfRestart <==> RESTART_MODE in s.running.settings && s.running.settings[RESTART_MODE] == Txt("auto"))
  {
    RefusedExactly(rules, s.base, s.stored + patch);
  }

  /** Any other stored PUT is carried, alone, onto the running configuration, unless nothing valid carries it. */
  lemma LivePutExactly(rules: Rules, s: Server, patch: Overlay)
    requires GoodRules(rules) && Inv(rules, s) && TypedOverlay(rules, patch)
    requires !Refused(rules, s.base, s.stored + patch) && |patch| > 0 && forall p :: p in patch ==> !rules.restart(p)
    ensures var (s', reply) := PutResult(rules, s, patch);
      if Refused(rules, s.running, patch) then reply.HotSwapFailed? && s'.running == s.running
      else reply.Applied? && reply.live && !reply.selfRestart && Carries(rules, s.running, patch, s'.running)
  {
    PutRefusedExactly(rules, s, patch);
    StoredPutGoesLive(rules, s, patch);
    RefusedExactly(rules, s.running, patch);
    if ApplyOverlay(rules, s.running, patch).Ok? {
      AppliedExactly(rules, s.running, patch, ApplyOverlay(rules, s.running, patch).value);
    }
  }

  // ---------------------------------------------------------------- replay

  /** The reply of a PUT that reached the store. */
  predicate Stored(reply: Option<Reply>) {
    reply.Some? && (reply.value.Applied? || reply.value.HotSwapFailed?)
  }

  /** The patches a run stored, in order. */
  function Accepted(rules: Rules, s: Server, acts: seq<Action>): seq<Overlay>
    requires TypedOverlay(rules, s.stored) && TypedRun(rules, acts)
    decreases |acts|
  {
    if acts == [] then []
    else
      var reply := ReplyTo(rules, s, acts[0]);
      (if Stored(reply) then [acts[0].patch] else [])
      + Accepted(rules, Act(rules, s, acts[0]), acts[1..])
  }

  /** Apply the patches one after another, validating each result. */
  function Replay(rules: Rules, c: Config, patches: seq<Overlay>): Result<Config, ApplyError>
    decreases |patches|
  {
    if patches == [] then Ok(c)
    else if !TypedOverlay(rules, patches[0]) then Err(BadToken)
    else match ApplyOverlay(rules, c, patches[0])
      case Err(e) => Err(e)
      case Ok(c') => Replay(rules, c', patches[1..])
  }

  lemma StoredStep(rules: Rules, s: Server, a: Action)
    requires Inv(rules, s) && TypedAction(rules, a)
    ensures var s' := Act(rules, s, a);
      && (Stored(ReplyTo(rules, s, a)) ==>
            ApplyOverlay(rules, Boot(rules, s.base, s.stored), a.patch) == Ok(Boot(rules, s'.base, s'.stored)))
      && (!Stored(ReplyTo(rules, s, a)) ==> Boot(rules, s'.base, s'.stored) == Boot(rules, s.base, s.stored))
  {
    if a.Put? {
      ApplyIsAction(rules, s.base, s.stored, a.patch);
    }
  }

  /** However live edits, deferred edits, rejected edits, failed hot-swaps and restarts interleave,
      the next boot builds what applying the stored patches one by one would build. */
  lemma {:induction false} NextBootIsReplay(rules: Rules, s: Server, acts: seq<Action>)
    requires Inv(rules, s) && TypedRun(rules, acts)
    ensures var s' := Run(rules, s, acts);
      Replay(rules, Boot(rules, s.base, s.stored), Accepted(rules, s, acts)) == Ok(Boot(rules, s'.base, s'.stored))
    decreases |acts|
  {
    if acts != [] {
      var next := Act(rules, s, acts[0]);
      ActKeepsInv(rules, s, acts[0]);
      StoredStep(rules, s, acts[0]);
      NextBootIsReplay(rules, next, acts[1..]);
      var rest := Accepted(rules, next, acts[1..]);
      if Stored(ReplyTo(rules, s, acts[0])) {
        ReplayFirst(rules, Boot(rules, s.base, s.stored), acts[0].patch, rest);
      } else {
        assert [] + rest == rest;
      }
    }
  }

  lemma ReplayFirst(rules: Rules, c: Config, patch: Overlay, rest: seq<Overlay>)
    requires TypedOverlay(rules, patch) && ApplyOverlay(rules, c, patch).Ok?
    ensures Replay(rules, c, [patch] + rest) == Replay(rules, ApplyOverlay(rules, c, patch).value, rest)
  {
    assert ([patch] + rest)[1..] == rest;
  }

  // ---------------------------------------------------------------- where the promises stop

  const ERASURE := Path("retention", "erasure_enabled")
  const GRACE := Path("retention", "grace_period_hours")

  /** The configuration with these two settings. */
  function WithErasure(c: Config, on: bool, hours: int): Config {
    c.(settings := c.settings[ERASURE := Flag(on)][GRACE := Num(hours)])
  }

  /** Over these two settings alone, validation is its erasure clause: the grace period is bounded by
      ten years while erasure is on. */
  ghost predicate ErasureClause(rules: Rules, base: Config) {
    forall on: bool, hours: int :: IsU64(hours) ==>
      (rules.valid(WithErasure(base, on, hours)) <==> (on ==> hours <= 87600))
  }

  lemma ErasureFields(rules: Rules)
    requires SystemRules(rules)
    ensures ERASURE in rules.kinds && rules.kinds[ERASURE] == FlagKind && rules.restart(ERASURE)
    ensures GRACE in rules.kinds && rules.kinds[GRACE] == U64 && !rules.restart(GRACE)
  {
    assert KindOf(ERASURE) == Some(FlagKind);
    assert KindOf(GRACE) == Some(U64);
    assert Classify(ERASURE.section, ERASURE.name) == RestartRequired;
    assert Classify(GRACE.section, GRACE.name) == RuntimeSafe;
  }

  /** An overlay of these two settings is applied as written. */
  lemma SetErasureAt(rules: Rules, base: Config, ov: Overlay, p: Path)
    requires SystemRules(rules) && NormalConfig(rules, base)
    requires TypedOverlay(rules, ov) && ov.Keys <= {ERASURE, GRACE} && p in ov
    ensures Normalise(rules.kinds[p], ov[p]) == Some(ov[p])
    ensures p == ERASURE ==> ov[p].Flag?
    ensures p == GRACE ==> ov[p].Num?
  {
    ErasureFields(rules);
    assert p in ov.Keys;
  }

  lemma SetErasure(rules: Rules, base: Config, on: bool, hours: int, ov: Overlay)
    requires SystemRules(rules) && NormalConfig(rules, base)
    requires ERASURE in base.settings && base.settings[ERASURE] == Flag(on)
    requires GRACE in base.settings && base.settings[GRACE] == Num(hours)
    requires TypedOverlay(rules, ov) && ov.Keys <= {ERASURE, GRACE}
    ensures TokensOk(rules, ov)
    ensures ERASURE in ov ==> ov[ERASURE].Flag?
    ensures GRACE in ov ==> ov[GRACE].Num?
    ensures Patched(rules, base, ov)
         == WithErasure(base, if ERASURE in ov then ov[ERASURE].on else on, if GRACE in ov then ov[GRACE].n else hours)
  {
    forall p | p in ov
      ensures Normalise(rules.kinds[p], ov[p]) == Some(ov[p])
      ensures p == ERASURE ==> ov[p].Flag?
      ensures p == GRACE ==> ov[p].Num?
    {
      SetErasureAt(rules, base, ov, p);
    }
    AsWritten(rules, base, on, hours, ov);
  }

  lemma AsWritten(rules: Rules, base: Config, on: bool, hours: int, ov: Overlay)
    requires TypedOverlay(rules, ov) && TokensOk(rules, ov) && ov.Keys <= {ERASURE, GRACE}
    requires ERASURE in base.settings && base.settings[ERASURE] == Flag(on)
    requires GRACE in base.settings && base.settings[GRACE] == Num(hours)
    requires forall p :: p in ov ==> Normalise(rules.kinds[p], ov[p]) == Some(ov[p])
    requires ERASURE in ov ==> ov[ERASURE].Flag?
    requires GRACE in ov ==> ov[GRACE].Num?
    ensures Patched(rules, base, ov)
         == WithErasure(base, if ERASURE in ov then ov[ERASURE].on else on, if GRACE in ov then ov[GRACE].n else hours)
  {
    var on' := if ERASURE in ov then ov[ERASURE].on else on;
    var hours' := if GRACE in ov then ov[GRACE].n else hours;
    var to := WithErasure(base, on', hours');
    forall p | p in base.settings
      ensures Patched(rules, base, ov).settings[p] == to.settings[p]
    {
      assert p in ov ==> p in ov.Keys;
    }
    assert Patched(rules, base, ov).settings == to.settings;
  }

  lemma SwitchErasureOff(rules: Rules, base: Config)
    requires SystemRules(rules) && GoodBase(rules, base) && ErasureClause(rules, base)
    requires base.settings[ERASURE] == Flag(true) && base.settings[GRACE].Num?
    ensures var off: Overlay := map[ERASURE := Flag(false)];
      TypedOverlay(rules, off) && PutResult(rules, Server(base, map[], base), off).0 == Server(base, off, base)
  {
    ErasureFields(rules);
    var off: Overlay := map[ERASURE := Flag(false)];
    assert map[] + off == off;
    SetErasure(rules, base, true, base.settings[GRACE].n, off);
    assert ERASURE in off && rules.restart(ERASURE);
  }

  /** A live edit can be stored and still answer with the internal error. With erasure running and a
      PUT that switches it off waiting for a restart, a longer grace period is valid for the next boot
      but not for the running configuration. This holds for the real field table, any base that has
      erasure on, and any validation rule that agrees with the erasure clause on these two settings. */
  lemma HotSwapCanFailAfterStoring(rules: Rules, base: Config)
    requires SystemRules(rules) && GoodBase(rules, base) && ErasureClause(rules, base)
    requires base.settings[ERASURE] == Flag(true) && base.settings[GRACE].Num?
    ensures var off: Overlay := map[ERASURE := Flag(false)];
      var longer: Overlay := map[GRACE := Num(100_000)];
      && TypedOverlay(rules, off) && TypedOverlay(rules, longer)
      && var deferred := PutResult(rules, Server(base, map[], base), off).0;
      PutResult(rules, deferred, longer) == (Server(base, off + longer, base), HotSwapFailed)
  {
    ErasureFields(rules);
    SwitchErasureOff(rules, base);
    var off: Overlay := map[ERASURE := Flag(false)];
    var longer: Overlay := map[GRACE := Num(100_000)];
    SetErasure(rules, base, true, base.settings[GRACE].n, off + longer);
    SetErasure(rules, base, true, base.settings[GRACE].n, longer);
    assert forall p :: p in longer ==> p == GRACE;
  }

  /** A restart-required PUT of the value that already runs is reported as pending. */
  lemma NoOpIsReportedPending(rules: Rules, base: Config)
    requires SystemRules(rules) && GoodBase(rules, base)
    requires base.settings[ERASURE].Flag?
    ensures var same: Overlay := map[ERASURE := base.settings[ERASURE]];
      && TypedOverlay(rules, same)
      && var (s', reply) := PutResult(rules, Server(base, map[], base), same);
      reply.Applied? && reply.restartPending && Act(rules, s', Restart) == s'
  {
    ErasureFields(rules);
    var same: Overlay := map[ERASURE := base.settings[ERASURE]];
    assert map[] + same == same;
    assert Patched(rules, base, same).settings == base.settings;
    assert ERASURE in same && rules.restart(ERASURE);
  }

  /** Exactly when an accepted live edit cannot be swapped in: the running configuration with the
      patch is invalid. It is stored all the same, and the next restart applies it. */
  lemma HotSwapFailsExactly(rules: Rules, s: Server, patch: Overlay)
    requires Inv(rules, s) && TypedOverlay(rules, patch)
    requires ApplyOverlay(rules, s.base, s.stored + patch).Ok? && patch != map[] && !NeedsRestart(rules, patch)
    ensures TokensOk(rules, patch)
    ensures PutResult(rules, s, patch).1 == HotSwapFailed <==> !rules.valid(Patched(rules, s.running, patch))
    ensures Act(rules, PutResult(rules, s, patch).0, Restart).running == Patched(rules, s.base, s.stored + patch)
  {
    var merged := s.stored + patch;
    assert forall p :: p in patch ==> p in merged && merged[p] == patch[p];
  }
}
