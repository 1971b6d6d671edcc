/** The operator settings overlay: a sparse patch over the boot configuration, the JSON merge that
    combines two patches, and the field-by-field application with its normalisers. The table of
    editable fields and the validation rule are parameters, so every law holds for any of them. */
module Overlay {
  import opened Machine
  import opened Text

  // ---------------------------------------------------------------- JSON

  datatype Value = Flag(on: bool) | Num(n: int) | Txt(s: string) | Cleared

  datatype Json = Null | Leaf(value: Value) | Obj(fields: map<string, Json>)

  /** What the recursive merge leaves in `base`. */
  function MergeSkipNull(base: Json, patch: Json): Json
    decreases patch
  {
    if base.Obj? && patch.Obj? then
      Obj(map k | k in base.fields.Keys + patch.fields.Keys && (k in base.fields || patch.fields[k] != Null) ::
            if k in patch.fields && patch.fields[k] != Null
            then MergeSkipNull(EntryOr(base.fields, k), patch.fields[k])
            else base.fields[k])
    else patch
  }

  /** `entry(k).or_insert(Null)`. */
  function EntryOr(fields: map<string, Json>, k: string): Json {
    if k in fields then fields[k] else Null
  }

  /** The object after the patch entries in `done` were merged into `b`. */
  function MergedEntries(b: map<string, Json>, p: map<string, Json>, done: set<string>): map<string, Json> {
    map k | k in b.Keys + (p.Keys * done) && (k in b || p[k] != Null) ::
      if k in p && k in done && p[k] != Null then MergeSkipNull(EntryOr(b, k), p[k]) else b[k]
  }

  predicate MergedSoFar(b: map<string, Json>, p: map<string, Json>, done: set<string>, now: map<string, Json>) {
    now == MergedEntries(b, p, done)
  }

  /** Merging one more entry: skip a null, else put the merged value into its slot. */
  lemma MergeOneEntry(b: map<string, Json>, p: map<string, Json>, done: set<string>, now: map<string, Json>, k: string)
    requires MergedSoFar(b, p, done, now)
    requires k in p && k !in done
    ensures EntryOr(now, k) == EntryOr(b, k)
    ensures p[k] == Null ==> MergedSoFar(b, p, done + {k}, now)
    ensures p[k] != Null ==> MergedSoFar(b, p, done + {k}, now[k := MergeSkipNull(EntryOr(now, k), p[k])])
  {
  }

  lemma AllEntriesMerged(b: map<string, Json>, p: map<string, Json>)
    ensures MergedSoFar(b, p, {}, b)
    ensures forall now :: MergedSoFar(b, p, p.Keys, now) ==> Obj(now) == MergeSkipNull(Obj(b), Obj(p))
  {
    assert MergedEntries(b, p, p.Keys) == MergeSkipNull(Obj(b), Obj(p)).fields;
  }

  /** The in-place merge: visits the patch entries in any order and recurses into each slot. */
  method MergeInPlace(base: Json, patch: Json) returns (merged: Json)
    ensures merged == MergeSkipNull(base, patch)
    decreases patch
  {
    if base.Null? || base.Leaf? || patch.Null? || patch.Leaf? {
      return patch;
    }
    var b := base.fields;
    var todo := patch.fields.Keys;
    ghost var done: set<string> := {};
    AllEntriesMerged(base.fields, patch.fields);
    while todo != {}
      invariant done == patch.fields.Keys - todo && todo <= patch.fields.Keys
      invariant MergedSoFar(base.fields, patch.fields, done, b)
      decreases |todo|
    {
      var k :| k in todo;
      MergeOneEntry(base.fields, patch.fields, done, b, k);
      if patch.fields[k] != Null {
        var slot := MergeInPlace(EntryOr(b, k), patch.fields[k]);
        b := b[k := slot];
      }
      todo, done := todo - {k}, done + {k};
    }
    assert done == patch.fields.Keys;
    return Obj(b);
  }

  // ---------------------------------------------------------------- overlays

  datatype Path = Path(section: string, name: string)

  /** The fields an overlay sets; every other field is left as it is. */
  type Overlay = map<Path, Value>

  /** The shape of a serialised overlay: sections of leaves, with nulls anywhere. */
  predicate Shaped(j: Json) {
    j.Obj? && forall s :: s in j.fields ==> SectionShaped(j.fields[s])
  }

  predicate SectionShaped(section: Json) {
    section.Null? || (section.Obj? && forall f :: f in section.fields ==> !section.fields[f].Obj?)
  }

  function LeafIn(section: Json, name: string): Option<Value> {
    if section.Obj? && name in section.fields && section.fields[name].Leaf?
    then Some(section.fields[name].value) else None
  }

  function LeafAt(j: Json, p: Path): Option<Value> {
    if j.Obj? && p.section in j.fields then LeafIn(j.fields[p.section], p.name) else None
  }

  function PathsIn(j: Json): set<Path> {
    if !j.Obj? then {}
    else
      set s, f | s in j.fields && j.fields[s].Obj? && f in j.fields[s].fields && j.fields[s].fields[f].Leaf? ::
        Path(s, f)
  }

  lemma PathsExactly(j: Json, p: Path)
    ensures p in PathsIn(j) <==> LeafAt(j, p).Some?
  {
  }

  /** The overlay a document decodes to. */
  function Denote(j: Json): (ov: Overlay)
    ensures forall p :: p in ov <==> LeafAt(j, p).Some?
    ensures forall p :: p in ov ==> Some(ov[p]) == LeafAt(j, p)
  {
    assert forall p :: p in PathsIn(j) <==> LeafAt(j, p).Some? by {
      forall p
        ensures p in PathsIn(j) <==> LeafAt(j, p).Some?
      {
        PathsExactly(j, p);
      }
    }
    map p | p in PathsIn(j) :: LeafAt(j, p).value
  }

  lemma MergeAt(base: Json, patch: Json, p: Path)
    requires Shaped(base) && Shaped(patch)
    ensures LeafAt(MergeSkipNull(base, patch), p) == PatchWins(LeafAt(patch, p), LeafAt(base, p))
  {
    var s := p.section;
    if s in patch.fields && patch.fields[s] != Null {
      var b, q := EntryOr(base.fields, s), patch.fields[s];
      assert SectionShaped(b) && SectionShaped(q);
      assert MergeSkipNull(base, patch).fields[s] == MergeSkipNull(b, q);
      assert LeafIn(MergeSkipNull(b, q), p.name) == PatchWins(LeafIn(q, p.name), LeafIn(b, p.name));
    }
  }

  lemma SectionMergeShaped(b: Json, q: Json)
    requires SectionShaped(b) && SectionShaped(q)
    ensures SectionShaped(MergeSkipNull(b, q))
  {
  }

  lemma MergeShaped(base: Json, patch: Json)
    requires Shaped(base) && Shaped(patch)
    ensures Shaped(MergeSkipNull(base, patch))
  {
    var merged := MergeSkipNull(base, patch);
    forall s | s in merged.fields
      ensures SectionShaped(merged.fields[s])
    {
      if s in patch.fields && patch.fields[s] != Null {
        SectionMergeShaped(EntryOr(base.fields, s), patch.fields[s]);
      }
    }
  }

  function PatchWins(patch: Option<Value>, base: Option<Value>): Option<Value> {
    if patch.Some? then patch else base
  }

  /** `merged` sets exactly what `patch` sets, and otherwise what `base` sets. */
  ghost predicate Overrides(merged: Json, base: Json, patch: Json) {
    Shaped(merged) && forall p :: LeafAt(merged, p) == PatchWins(LeafAt(patch, p), LeafAt(base, p))
  }

  /** On overlay documents the recursive merge is field-wise "patch wins if set". */
  lemma MergeIsOverride(base: Json, patch: Json)
    requires Shaped(base) && Shaped(patch)
    ensures Overrides(MergeSkipNull(base, patch), base, patch)
  {
    MergeShaped(base, patch);
    forall p
      ensures LeafAt(MergeSkipNull(base, patch), p) == PatchWins(LeafAt(patch, p), LeafAt(base, p))
    {
      MergeAt(base, patch, p);
    }
  }

  /** The same on decoded overlays: the merge is the map override. */
  lemma OverrideDenotes(merged: Json, base: Json, patch: Json)
    requires Overrides(merged, base, patch)
    ensures Denote(merged) == Denote(base) + Denote(patch)
  {
  }

  /** Two documents that differ only in where they write null. */
  ghost predicate SameUpToNulls(a: Json, b: Json) {
    forall p :: LeafAt(a, p) == LeafAt(b, p)
  }

  lemma OverridesAssociate(a: Json, b: Json, c: Json, ab: Json, bc: Json, left: Json, right: Json)
    requires Overrides(ab, a, b) && Overrides(left, ab, c) && Overrides(bc, b, c) && Overrides(right, a, bc)
    ensures SameUpToNulls(left, right)
  {
    forall p
      ensures LeafAt(left, p) == LeafAt(right, p)
    {
      assert LeafAt(left, p) == PatchWins(LeafAt(c, p), PatchWins(LeafAt(b, p), LeafAt(a, p)));
    }
  }

  /** Hence the merge of overlays is associative. */
  lemma MergeAssociates(a: Json, b: Json, c: Json)
    requires Shaped(a) && Shaped(b) && Shaped(c)
    ensures SameUpToNulls(MergeSkipNull(MergeSkipNull(a, b), c), MergeSkipNull(a, MergeSkipNull(b, c)))
  {
    MergeIsOverride(a, b);
    MergeIsOverride(b, c);
    var ab, bc := MergeSkipNull(a, b), MergeSkipNull(b, c);
    MergeIsOverride(ab, c);
    MergeIsOverride(a, bc);
    OverridesAssociate(a, b, c, ab, bc, MergeSkipNull(ab, c), MergeSkipNull(a, bc));
  }

  lemma OverridesUnits(a: Json, b: Json, merged: Json)
    requires Overrides(merged, a, b)
    ensures a == b || SameUpToNulls(b, Obj(map[])) ==> SameUpToNulls(merged, a)
    ensures SameUpToNulls(a, Obj(map[])) ==> SameUpToNulls(merged, b)
  {
  }

  /** It is idempotent, and a patch that sets nothing is an identity on both sides. */
  lemma MergeUnits(a: Json, b: Json)
    requires Shaped(a) && Shaped(b)
    ensures SameUpToNulls(MergeSkipNull(a, a), a)
    ensures SameUpToNulls(b, Obj(map[])) ==> SameUpToNulls(MergeSkipNull(a, b), a)
    ensures SameUpToNulls(a, Obj(map[])) ==> SameUpToNulls(MergeSkipNull(a, b), b)
  {
    MergeIsOverride(a, a);
    OverridesUnits(a, a, MergeSkipNull(a, a));
    MergeIsOverride(a, b);
    OverridesUnits(a, b, MergeSkipNull(a, b));
  }

  /** The shape is needed: on arbitrary documents the merge is not associative. */
  lemma MergeNotAssociativeInGeneral()
    ensures exists a, b, c :: MergeSkipNull(MergeSkipNull(a, b), c) != MergeSkipNull(a, MergeSkipNull(b, c))
  {
    var x, y := Obj(map["x" := Leaf(Flag(true))]), Obj(map["y" := Leaf(Flag(true))]);
    assert MergeSkipNull(MergeSkipNull(x, Leaf(Flag(true))), y) == y;
    assert MergeSkipNull(x, MergeSkipNull(Leaf(Flag(true)), y)) == MergeSkipNull(x, y);
    assert "x" in MergeSkipNull(x, y).fields && "x" !in y.fields;
  }

  // ---------------------------------------------------------------- fields

  /** How a field is decoded and normalised. */
  datatype Kind =
    | FlagKind
    | NumKind(lo: int, hi: int)
    | PlainKind
    | LowerKind
    | UpperKind
    | TitleKind
    | TokenKind(tokens: set<string>, folded: bool)

  datatype Config = Config(settings: map<Path, Value>, rest: map<string, string>)

  /** The editable fields, which of them need a restart, and the validation boot runs. */
  datatype Rules = Rules(kinds: map<Path, Kind>, restart: Path -> bool, valid: Config -> bool)

  predicate GoodRules(rules: Rules) {
    forall p :: p in rules.kinds && rules.kinds[p].TokenKind? && rules.kinds[p].folded ==>
      forall t :: t in rules.kinds[p].tokens ==> ToLower(t) == t
  }

  /** The value has the type the overlay struct declares for the field. */
  predicate Decodes(k: Kind, v: Value) {
    match k
    case FlagKind => v.Flag?
    case NumKind(lo, hi) => v.Num? && lo <= v.n <= hi
    case _ => v.Txt?
  }

  /** What the field becomes; `None` is the refused token. */
  function Normalise(k: Kind, v: Value): Option<Value>
    requires Decodes(k, v)
  {
    match k
    case LowerKind => Some(Txt(ToLower(v.s)))
    case UpperKind => Some(Txt(ToUpper(v.s)))
    case TitleKind => Some(if v.s == "" then Cleared else v)
    case TokenKind(tokens, folded) =>
      var t := if folded then ToLower(v.s) else v.s;
      if t in tokens then Some(Txt(t)) else None
    case _ => Some(v)
  }

  /** How the field is shown by the fully populated overlay. */
  function Show(v: Value): Value {
    if v.Cleared? then Txt("") else v
  }

  /** The value has the type the configuration struct declares for the field. */
  predicate Storable(k: Kind, v: Value) {
    match k
    case TitleKind => v.Txt? || v.Cleared?
    case TokenKind(tokens, _) => v.Txt? && v.s in tokens
    case _ => Decodes(k, v)
  }

  /** What loading from the environment already normalised. */
  predicate Normal(k: Kind, v: Value) {
    && Storable(k, v)
    && match k
       case LowerKind => ToLower(v.s) == v.s
       case UpperKind => ToUpper(v.s) == v.s
       case TitleKind => v != Txt("")
       case _ => true
  }

  lemma FoldTwice(s: string)
    ensures ToLower(ToLower(s)) == ToLower(s) && ToUpper(ToUpper(s)) == ToUpper(s)
  {
  }

  lemma NormalisedIsNormal(k: Kind, v: Value)
    requires Decodes(k, v) && Normalise(k, v).Some?
    ensures Normal(k, Normalise(k, v).value)
  {
    if v.Txt? {
      FoldTwice(v.s);
    }
  }

  /** Showing a stored value and normalising it again restores it exactly when it was normal. */
  lemma ShownRoundTrip(k: Kind, v: Value)
    requires Storable(k, v)
    requires k.TokenKind? && k.folded ==> forall t :: t in k.tokens ==> ToLower(t) == t
    ensures Decodes(k, Show(v))
    ensures Normalise(k, Show(v)).Some?
    ensures Normalise(k, Show(v)) == Some(v) <==> Normal(k, v)
  {
  }

  /** What the field becomes, on the two values alone: a token is matched, up to case where the field folds,
      and stored as the token; a folded field keeps every letter and loses its case; an empty title clears. */
  predicate Becomes(k: Kind, v: Value, w: Value) {
    match k
    case FlagKind => v.Flag? && w == v
    case NumKind(lo, hi) => v.Num? && lo <= v.n <= hi && w == v
    case PlainKind => v.Txt? && w == v
    case LowerKind => v.Txt? && w.Txt? && EqualButCase(v.s, w.s) && NoUpper(w.s)
    case UpperKind => v.Txt? && w.Txt? && EqualButCase(v.s, w.s) && NoLower(w.s)
    case TitleKind => v.Txt? && (if |v.s| == 0 then w.Cleared? else w == v)
    case TokenKind(tokens, folded) =>
      v.Txt? && w.Txt? && w.s in tokens && if folded then EqualButCase(v.s, w.s) else v.s == w.s
  }

  lemma NormalisedExactly(k: Kind, v: Value, w: Value)
    requires Decodes(k, v)
    requires k.TokenKind? && k.folded ==> forall t :: t in k.tokens ==> ToLower(t) == t
    ensures Normalise(k, v) == Some(w) <==> Becomes(k, v, w)
  {
    if v.Txt? && w.Txt? {
      FoldExactly(v.s, w.s);
      FoldExactly(w.s, w.s);
    }
  }

  predicate TypedOverlay(rules: Rules, ov: Overlay) {
    forall p :: p in ov ==> p in rules.kinds && Decodes(rules.kinds[p], ov[p])
  }

  predicate TypedConfig(rules: Rules, c: Config) {
    c.settings.Keys == rules.kinds.Keys && forall p :: p in c.settings ==> Storable(rules.kinds[p], c.settings[p])
  }

  predicate NormalConfig(rules: Rules, c: Config) {
    c.settings.Keys == rules.kinds.Keys && forall p :: p in c.settings ==> Normal(rules.kinds[p], c.settings[p])
  }

  // ---------------------------------------------------------------- applying an overlay

  datatype ApplyError = BadToken | Rejected

  predicate TokensOk(rules: Rules, ov: Overlay)
    requires TypedOverlay(rules, ov)
  {
    forall p :: p in ov ==> Normalise(rules.kinds[p], ov[p]).Some?
  }

  function Patched(rules: Rules, c: Config, ov: Overlay): Config
    requires TypedOverlay(rules, ov) && TokensOk(rules, ov)
  {
    c.(settings := map p | p in c.settings ::
         if p in ov then Normalise(rules.kinds[p], ov[p]).value else c.settings[p])
  }

  function ApplyOverlay(rules: Rules, c: Config, ov: Overlay): Result<Config, ApplyError>
    requires TypedOverlay(rules, ov)
  {
    if !TokensOk(rules, ov) then Err(BadToken)
    else if rules.valid(Patched(rules, c, ov)) then Ok(Patched(rules, c, ov))
    else Err(Rejected)
  }

  /** `c'` is the valid configuration in which every named field has become what its value makes of it and
      nothing else has changed. */
  predicate Carries(rules: Rules, c: Config, ov: Overlay, c': Config)
    requires TypedOverlay(rules, ov)
  {
    && rules.valid(c') && c'.rest == c.rest && c'.settings.Keys == c.settings.Keys
    && forall p :: p in c.settings ==>
         if p in ov then Becomes(rules.kinds[p], ov[p], c'.settings[p]) else c'.settings[p] == c.settings[p]
  }

  /** An overlay is applied exactly when there is such a configuration, and that is the result. */
  lemma AppliedExactly(rules: Rules, c: Config, ov: Overlay, c': Config)
    requires GoodRules(rules) && TypedOverlay(rules, ov) && c.settings.Keys == rules.kinds.Keys
    ensures ApplyOverlay(rules, c, ov) == Ok(c') <==> Carries(rules, c, ov, c')
  {
    forall p | p in ov && p in c'.settings
      ensures Normalise(rules.kinds[p], ov[p]) == Some(c'.settings[p])
         <==> Becomes(rules.kinds[p], ov[p], c'.settings[p])
    {
      NormalisedExactly(rules.kinds[p], ov[p], c'.settings[p]);
    }
    if ApplyOverlay(rules, c, ov) == Ok(c') {
      assert c' == Patched(rules, c, ov);
    } else if TokensOk(rules, ov) {
      var d := Patched(rules, c, ov);
      assert c' == d <==> c'.rest == d.rest && c'.settings == d.settings;
      assert c'.settings == d.settings
        <==> c'.settings.Keys == d.settings.Keys && forall p :: p in d.settings ==> c'.settings[p] == d.settings[p];
    }
  }

  /** Every allowed token that a token field could take the value for has been ruled out. */
  predicate RefusesToken(k: Kind, v: Value) {
    && k.TokenKind? && v.Txt?
    && forall t :: t in k.tokens ==> if k.folded then !EqualButCase(v.s, t) else v.s != t
  }

  /** The token error is raised exactly when some named token field is given a value that is none of its
      tokens, up to case where the field folds; validation is then not reached. */
  lemma BadTokenExactly(rules: Rules, c: Config, ov: Overlay)
    requires GoodRules(rules) && TypedOverlay(rules, ov)
    ensures ApplyOverlay(rules, c, ov) == Err(BadToken) <==> exists p :: p in ov && RefusesToken(rules.kinds[p], ov[p])
  {
    forall p | p in ov
      ensures Normalise(rules.kinds[p], ov[p]).None? <==> RefusesToken(rules.kinds[p], ov[p])
    {
      var k, v := rules.kinds[p], ov[p];
      if k.TokenKind? {
        forall t | t in k.tokens
          ensures Normalise(k, v) == Some(Txt(t)) <==> if k.folded then EqualButCase(v.s, t) else v.s == t
        {
          NormalisedExactly(k, v, Txt(t));
        }
      }
    }
  }

  /** The clone-and-assign form: visit the fields in any order, stop at a refused token, validate. */
  method AssignFields(rules: Rules, config: Config, ov: Overlay, order: seq<Path>)
    returns (result: Result<Config, ApplyError>)
    requires TypedOverlay(rules, ov) && TypedConfig(rules, config)
    requires forall p :: p in rules.kinds <==> p in order
    ensures result == ApplyOverlay(rules, config, ov)
  {
    var c := config;
    for i := 0 to |order|
      invariant c.rest == config.rest && c.settings.Keys == config.settings.Keys
      invariant forall p :: p in order[..i] && p in ov ==> Normalise(rules.kinds[p], ov[p]).Some?
      invariant forall p :: p in c.settings ==>
        c.settings[p] == if p in order[..i] && p in ov then Normalise(rules.kinds[p], ov[p]).value
          else config.settings[p]
    {
      var p := order[i];
      assert order[..i + 1] == order[..i] + [p];
      if p in ov {
        var v := Normalise(rules.kinds[p], ov[p]);
        if v.None? {
          return Err(BadToken);
        }
        c := c.(settings := c.settings[p := v.value]);
      }
    }
    assert order[..|order|] == order;
    assert c == Patched(rules, config, ov);
    return if rules.valid(c) then Ok(c) else Err(Rejected);
  }

  /** The fully populated overlay of a configuration. */
  function EditableOverlay(c: Config): Overlay {
    map p | p in c.settings :: Show(c.settings[p])
  }

  /** Applying keeps the hypothesis of every other law: the result is normal and valid, and nothing
      the overlay does not name has changed. */
  lemma ApplyIsNormal(rules: Rules, c: Config, ov: Overlay)
    requires TypedOverlay(rules, ov) && NormalConfig(rules, c)
    requires ApplyOverlay(rules, c, ov).Ok?
    ensures var c' := ApplyOverlay(rules, c, ov).value;
      && NormalConfig(rules, c') && rules.valid(c')
      && c'.rest == c.rest
      && forall p :: p in c.settings && p !in ov ==> c'.settings[p] == c.settings[p]
  {
    forall p | p in c.settings && p in ov
      ensures Normal(rules.kinds[p], Normalise(rules.kinds[p], ov[p]).value)
    {
      NormalisedIsNormal(rules.kinds[p], ov[p]);
    }
  }

  /** Overlays act on configurations: applying one and then another is applying their merge, results
      and errors alike, once the first application is accepted. */
  lemma ApplyIsAction(rules: Rules, c: Config, o: Overlay, p: Overlay)
    requires TypedOverlay(rules, o) && TypedOverlay(rules, p)
    requires ApplyOverlay(rules, c, o).Ok?
    ensures TypedOverlay(rules, o + p)
    ensures ApplyOverlay(rules, ApplyOverlay(rules, c, o).value, p) == ApplyOverlay(rules, c, o + p)
  {
    var c' := ApplyOverlay(rules, c, o).value;
    assert TokensOk(rules, o + p) <==> TokensOk(rules, p) by {
      assert forall q :: q in p ==> q in o + p && (o + p)[q] == p[q];
    }
    if TokensOk(rules, p) {
      assert Patched(rules, c', p) == Patched(rules, c, o + p);
    }
  }

  lemma EmptyOverlay(rules: Rules, c: Config)
    requires rules.valid(c)
    ensures ApplyOverlay(rules, c, map[]) == Ok(c)
  {
    assert Patched(rules, c, map[]).settings == c.settings;
  }

  /** Reading back the populated overlay and applying it restores the configuration, including
      everything not editable, exactly when the configuration is normal and valid. */
  lemma EditableRoundTrip(rules: Rules, c: Config)
    requires GoodRules(rules) && TypedConfig(rules, c)
    ensures TypedOverlay(rules, EditableOverlay(c))
    ensures ApplyOverlay(rules, c, EditableOverlay(c)) == Ok(c) <==> NormalConfig(rules, c) && rules.valid(c)
  {
    var ov := EditableOverlay(c);
    forall p | p in c.settings
      ensures Decodes(rules.kinds[p], ov[p]) && Normalise(rules.kinds[p], ov[p]).Some?
      ensures Normalise(rules.kinds[p], ov[p]) == Some(c.settings[p]) <==> Normal(rules.kinds[p], c.settings[p])
    {
      ShownRoundTrip(rules.kinds[p], c.settings[p]);
    }
    if NormalConfig(rules, c) {
      assert Patched(rules, c, ov).settings == c.settings;
    } else {
      var p :| p in c.settings && !Normal(rules.kinds[p], c.settings[p]);
      assert Patched(rules, c, ov).settings[p] != c.settings[p];
    }
  }

  /** Two normal configurations that show alike are the same in every editable field. */
  lemma ShownAlike(rules: Rules, a: Config, b: Config)
    requires NormalConfig(rules, a) && NormalConfig(rules, b)
    ensures EditableOverlay(a) == EditableOverlay(b) <==> a.settings == b.settings
  {
    if EditableOverlay(a) == EditableOverlay(b) {
      forall p | p in a.settings
        ensures a.settings[p] == b.settings[p]
      {
        assert EditableOverlay(a)[p] == EditableOverlay(b)[p];
        assert Normal(rules.kinds[p], a.settings[p]) && Normal(rules.kinds[p], b.settings[p]);
      }
    }
  }
}
