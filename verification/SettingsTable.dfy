/** The table of editable settings: every field with its type and normaliser, and the instance of the
    overlay rules it gives for any validation rule. */
module SettingsTable {
  import opened Machine
  import opened Text
  import opened Overlay

  // ---------------------------------------------------------------- types and normalisers

  const U8 := NumKind(0, 0xff)
  const U32 := NumKind(0, U32_MAX)
  const U64 := NumKind(0, U64_MAX)
  const I64 := NumKind(I64_MIN, I64_MAX)
  const GATE_MODES: set<string> := {"all", "any"}

  function Landing(name: string): Option<Kind> {
    if name in {"enabled", "expose_version", "expose_chains", "expose_price_feed", "expose_uptime", "stats_enabled"}
      then Some(FlagKind)
    else if name == "title" then Some(TitleKind)
    else if name == "stats_cache_hours" then Some(U64)
    else if name == "stats_min_users" then Some(I64)
    else None
  }

  function Retention(name: string): Option<Kind> {
    if name in {"login_events_days", "audit_days", "grace_period_hours"} then Some(U64)
    else if name in {"erasure_enabled", "purge_login_events"} then Some(FlagKind)
    else if name == "export_per_day" then Some(U32)
    else None
  }

  function Restore(name: string): Option<Kind> {
    if name == "policy" then Some(TokenKind({"create-only", "bounded", "unlimited"}, false))
    else if name in {"max_depth_days", "pow_free_days", "pow_days_per_bit", "pow_max_bits"} then Some(U32)
    else None
  }

  function Registration(name: string): Option<Kind> {
    if name in {"require_invite", "require_payment"} then Some(FlagKind)
    else if name == "gate_mode" then Some(TokenKind(GATE_MODES, true))
    else if name == "payment_amount" then Some(PlainKind)
    else if name == "payment_currency" then Some(UpperKind)
    else if name in {"payment_confirmations", "payment_expires_minutes"} then Some(U32)
    else None
  }

  function Features(name: string): Option<Kind> {
    if name in {"prices_provider", "prices_currency"} then Some(LowerKind)
    else if name == "prices_interval_secs" then Some(U64)
    else if name in {"prices", "tips", "nostr_identity", "grin_relay", "chain_btc", "chain_ltc", "chain_xmr",
                     "chain_wow", "chain_grin"}
    then Some(FlagKind)
    else None
  }

  function Relay(name: string): Option<Kind> {
    if name == "enabled" then Some(FlagKind)
    else if name in {"mode", "write_policy"} then Some(LowerKind)
    else if name == "advertised_url" then Some(PlainKind)
    else if name == "inbound_pow_bits" then Some(U8)
    else if name == "max_event_bytes" then Some(U64)
    else if name == "retention_days" then Some(U32)
    else None
  }

  function Smaller(section: string, name: string): Option<Kind> {
    if section == "console" && name == "restart_apply_mode" then Some(TokenKind({"manual", "auto"}, false))
    else if section == "pow" && name in {"enabled", "required"} then Some(FlagKind)
    else if section == "pow" && name == "cost" then Some(U64)
    else if section == "premium" && name == "enabled" then Some(FlagKind)
    else if section == "premium" && name == "currency" then Some(UpperKind)
    else None
  }

  /** The type and normaliser of an editable field; `None` for every other pair. */
  function KindOf(p: Path): Option<Kind> {
    match p.section
    case "landing" => Landing(p.name)
    case "retention" => Retention(p.name)
    case "restore" => Restore(p.name)
    case "registration" => Registration(p.name)
    case "features" => Features(p.name)
    case "relay" => Relay(p.name)
    case _ => Smaller(p.section, p.name)
  }

  // ---------------------------------------------------------------- which fields need a restart

  datatype RuntimeClass = RuntimeSafe | RestartRequired

  /** The source's classification; unknown pairs fall to the safe side. */
  function Classify(section: string, name: string): RuntimeClass {
    if section == "retention" && name == "erasure_enabled" then RestartRequired
    else if section in {"landing", "retention", "restore", "console"} then RuntimeSafe
    else if section == "registration" then if name == "require_payment" then RestartRequired else RuntimeSafe
    else if section == "pow" then RuntimeSafe
    else RestartRequired
  }

  /** The rules are this system's: they give every editable field its type, normaliser and class. */
  ghost predicate SystemRules(rules: Rules) {
    && (forall p :: p in rules.kinds <==> KindOf(p).Some?)
    && (forall p :: p in rules.kinds ==> KindOf(p) == Some(rules.kinds[p]))
    && (forall p :: rules.restart(p) <==> Classify(p.section, p.name) == RestartRequired)
  }

  lemma OnlyGateModeFolds(p: Path)
    requires KindOf(p).Some? && KindOf(p).value.TokenKind? && KindOf(p).value.folded
    ensures KindOf(p).value.tokens == GATE_MODES
  {
  }

  lemma GateModesAreLower(t: string)
    requires t in GATE_MODES
    ensures ToLower(t) == t
  {
  }

  /** The overlay laws apply to the real table, whatever the validation rule. */
  lemma SystemRulesAreGood(rules: Rules)
    requires SystemRules(rules)
    ensures GoodRules(rules)
  {
    forall p, t | p in rules.kinds && rules.kinds[p].TokenKind? && rules.kinds[p].folded && t in rules.kinds[p].tokens
      ensures ToLower(t) == t
    {
      OnlyGateModeFolds(p);
      GateModesAreLower(t);
    }
  }

  /** An edit is swapped in live exactly when its fields are outside the two named switches and the
      three boot-bound groups. */
  lemma LiveFieldsExactly(rules: Rules, p: Path)
    requires SystemRules(rules) && p in rules.kinds
    ensures !rules.restart(p)
       <==> p.section !in {"features", "relay", "premium"}
            && p != Path("retention", "erasure_enabled") && p != Path("registration", "require_payment")
  {
    assert KindOf(p).Some?;
  }

  // ---------------------------------------------------------------- the table, field by field

  /** The switches. */
  predicate SwitchField(p: Path) {
    || (p.section == "landing" && p.name in {"enabled", "expose_version", "expose_chains", "expose_price_feed",
          "expose_uptime", "stats_enabled"})
    || (p.section == "retention" && p.name in {"erasure_enabled", "purge_login_events"})
    || (p.section == "registration" && p.name in {"require_invite", "require_payment"})
    || (p.section == "pow" && p.name in {"enabled", "required"})
    || (p.section == "features" && p.name in {"prices", "tips", "nostr_identity", "grin_relay", "chain_btc",
          "chain_ltc", "chain_xmr", "chain_wow", "chain_grin"})
    || (p.section == "relay" && p.name in {"enabled"})
    || (p.section == "premium" && p.name in {"enabled"})
  }

  /** The fields of 32 bits. */
  predicate U32Field(p: Path) {
    || (p.section == "retention" && p.name in {"export_per_day"})
    || (p.section == "restore" && p.name in {"max_depth_days", "pow_free_days", "pow_days_per_bit",
          "pow_max_bits"})
    || (p.section == "registration" && p.name in {"payment_confirmations", "payment_expires_minutes"})
    || (p.section == "relay" && p.name in {"retention_days"})
  }

  /** The fields of 64 bits. */
  predicate U64Field(p: Path) {
    || (p.section == "landing" && p.name in {"stats_cache_hours"})
    || (p.section == "retention" && p.name in {"login_events_days", "audit_days", "grace_period_hours"})
    || (p.section == "pow" && p.name in {"cost"})
    || (p.section == "features" && p.name in {"prices_interval_secs"})
    || (p.section == "relay" && p.name in {"max_event_bytes"})
  }

  /** The text fields stored in lower case. */
  predicate LoweredField(p: Path) {
    || (p.section == "features" && p.name in {"prices_provider", "prices_currency"})
    || (p.section == "relay" && p.name in {"mode", "write_policy"})
  }

  /** The text fields stored in upper case. */
  predicate UpperedField(p: Path) {
    || (p.section == "registration" && p.name in {"payment_currency"})
    || (p.section == "premium" && p.name in {"currency"})
  }

  /** The text fields stored as sent. */
  predicate PlainField(p: Path) {
    || (p.section == "registration" && p.name in {"payment_amount"})
    || (p.section == "relay" && p.name in {"advertised_url"})
  }

  /** A number within the width of its field. */
  predicate NumberField(p: Path, n: int) {
    || (p == Path("relay", "inbound_pow_bits") && 0 <= n <= 255)
    || (U32Field(p) && 0 <= n <= 4_294_967_295)
    || (U64Field(p) && 0 <= n <= 18_446_744_073_709_551_615)
    || (p == Path("landing", "stats_min_users") && -9_223_372_036_854_775_808 <= n <= 9_223_372_036_854_775_807)
  }

  /** The tokens a text field is limited to. */
  predicate TokenField(p: Path, t: string) {
    || (p == Path("restore", "policy") && t in {"create-only", "bounded", "unlimited"})
    || (p == Path("registration", "gate_mode") && t in {"all", "any"})
    || (p == Path("console", "restart_apply_mode") && t in {"manual", "auto"})
  }

  /** What an edit of the field stores, field by field. */
  predicate EditStores(p: Path, v: Value, w: Value) {
    match v
    case Flag(_) => SwitchField(p) && w == v
    case Num(n) => NumberField(p, n) && w == v
    case Cleared => false
    case Txt(s) =>
      || (PlainField(p) && w == v)
      || (p == Path("landing", "title") && w == if s == "" then Cleared else v)
      || (w.Txt? && LoweredField(p) && EqualButCase(s, w.s) && NoUpper(w.s))
      || (w.Txt? && UpperedField(p) && EqualButCase(s, w.s) && NoLower(w.s))
      || (w.Txt? && TokenField(p, w.s)
            && if p == Path("registration", "gate_mode") then EqualButCase(s, w.s) else s == w.s)
  }

  lemma SwitchesExactly(p: Path)
    ensures KindOf(p) == Some(FlagKind) <==> SwitchField(p)
  {
  }

  lemma NumberWidths(p: Path)
    ensures KindOf(p) == Some(U32) <==> U32Field(p)
    ensures KindOf(p) == Some(U64) <==> U64Field(p)
  {
  }

  lemma OtherNumbers(p: Path)
    ensures KindOf(p).Some? && KindOf(p).value.NumKind? ==>
      || KindOf(p).value in {U32, U64}
      || (p.section == "relay" && p.name == "inbound_pow_bits")
      || (p.section == "landing" && p.name == "stats_min_users")
    ensures KindOf(Path("relay", "inbound_pow_bits")) == Some(U8)
    ensures KindOf(Path("landing", "stats_min_users")) == Some(I64)
  {
  }

  lemma NumbersExactly(p: Path, n: int)
    ensures KindOf(p).Some? && Decodes(KindOf(p).value, Num(n)) <==> NumberField(p, n)
  {
    NumberWidths(p);
    OtherNumbers(p);
  }

  lemma ScalarsExactly(p: Path, v: Value, w: Value)
    requires !v.Txt?
    ensures KindOf(p).Some? && Becomes(KindOf(p).value, v, w) <==> EditStores(p, v, w)
    ensures KindOf(p).Some? && Decodes(KindOf(p).value, v) <==> EditStores(p, v, v)
  {
    SwitchesExactly(p);
    if v.Num? {
      NumbersExactly(p, v.n);
    }
  }

  lemma TextKinds(p: Path)
    ensures KindOf(p) == Some(LowerKind) <==> LoweredField(p)
    ensures KindOf(p) == Some(UpperKind) <==> UpperedField(p)
    ensures KindOf(p) == Some(PlainKind) <==> PlainField(p)
    ensures KindOf(p) == Some(TitleKind) <==> p.section == "landing" && p.name == "title"
  {
  }

  lemma TokenKinds(p: Path, t: string)
    ensures KindOf(p).Some? && KindOf(p).value.TokenKind? ==>
      (t in KindOf(p).value.tokens <==> TokenField(p, t))
      && (KindOf(p).value.folded <==> p == Path("registration", "gate_mode"))
    ensures TokenField(p, t) ==> KindOf(p).Some? && KindOf(p).value.TokenKind?
  {
  }

  lemma TextsExactly(p: Path, s: string, w: Value)
    ensures KindOf(p).Some? && Becomes(KindOf(p).value, Txt(s), w) <==> EditStores(p, Txt(s), w)
  {
    TextKinds(p);
    if w.Txt? {
      TokenKinds(p, w.s);
    }
  }

  /** The fields that take a text, whatever they make of it. */
  predicate TextField(p: Path) {
    || PlainField(p) || LoweredField(p) || UpperedField(p)
    || (p.section == "landing" && p.name == "title")
    || (p.section == "restore" && p.name == "policy")
    || (p.section == "registration" && p.name == "gate_mode")
    || (p.section == "console" && p.name == "restart_apply_mode")
  }

  lemma TextFieldsExactly(p: Path, s: string)
    ensures KindOf(p).Some? && Decodes(KindOf(p).value, Txt(s)) <==> TextField(p)
  {
  }

  /** The table of types and normalisers gives exactly these edits and no others. */
  lemma TableExactly(p: Path, v: Value, w: Value)
    ensures KindOf(p).Some? && Becomes(KindOf(p).value, v, w) <==> EditStores(p, v, w)
    ensures KindOf(p).Some? && Decodes(KindOf(p).value, v) <==> if v.Txt? then TextField(p) else EditStores(p, v, v)
  {
    if v.Txt? {
      TextsExactly(p, v.s, w);
      TextFieldsExactly(p, v.s);
    } else {
      ScalarsExactly(p, v, w);
    }
  }

  /** The classification of every pair, editable or not. */
  lemma ClassifyExactly(section: string, name: string)
    ensures Classify(section, name) == RuntimeSafe
       <==> || section in {"landing", "restore", "console", "pow"}
            || (section == "retention" && name != "erasure_enabled")
            || (section == "registration" && name != "require_payment")
  {
  }
}
