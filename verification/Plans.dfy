/** The premium plan list, `id:days:amount` entries separated by commas, and the decimal check on
    prices. */
module Plans {
  import opened Machine
  import opened Text

  datatype Plan = Plan(id: string, days: int, amount: string)

  // ---------------------------------------------------------------- digits

  predicate IsDigit(c: char) {
    '0' <= c <= '9'
  }

  predicate Digits(s: string) {
    forall i :: 0 <= i < |s| ==> IsDigit(s[i])
  }

  function DigitsValue(s: string): nat
    requires Digits(s)
  {
    if s == "" then 0 else 10 * DigitsValue(s[..|s| - 1]) + (s[|s| - 1] as int - '0' as int)
  }

  function PrintNat(n: nat): (s: string)
    ensures s != "" && Digits(s)
  {
    var last := [(n % 10 + '0' as int) as char];
    if n < 10 then last else PrintNat(n / 10) + last
  }

  lemma PrintedValue(n: nat)
    ensures DigitsValue(PrintNat(n)) == n
  {
    if n >= 10 {
      PrintedValue(n / 10);
      assert PrintNat(n)[..|PrintNat(n)| - 1] == PrintNat(n / 10);
    } else {
      assert PrintNat(n)[..0] == "";
    }
  }

  /** `str::parse::<i32>`: an optional sign, at least one digit, and a value that fits. */
  function ParseI32(s: string): (r: Option<int>)
    ensures r.Some? ==> -I32_MAX - 1 <= r.value <= I32_MAX
  {
    var negative := s != "" && s[0] == '-';
    var digits := if s != "" && s[0] in {'-', '+'} then s[1..] else s;
    if digits == "" || !Digits(digits) then None
    else
      var v: int := DigitsValue(digits);
      var n := if negative then -v else v;
      if -I32_MAX - 1 <= n <= I32_MAX then Some(n) else None
  }

  // ---------------------------------------------------------------- splitting

  /** `split(c)`: always at least one piece. */
  function Split(s: string, c: char): (pieces: seq<string>)
    ensures pieces != []
  {
    if s == "" then [""]
    else
      var rest := Split(s[1..], c);
      if s[0] == c then [""] + rest else [[s[0]] + rest[0]] + rest[1..]
  }

  lemma {:induction false} SplitAppend(a: string, c: char, b: string)
    ensures Split(a + [c] + b, c) == Split(a, c) + Split(b, c)
  {
    if a == "" {
      assert (a + [c] + b)[1..] == b;
    } else {
      assert (a + [c] + b)[1..] == a[1..] + [c] + b;
      SplitAppend(a[1..], c, b);
    }
  }

  lemma {:induction false} SplitOne(s: string, c: char)
    requires c !in s
    ensures Split(s, c) == [s]
  {
    if s != "" {
      SplitOne(s[1..], c);
      assert s == [s[0]] + s[1..];
    }
  }

  /** The separator never occurs in a piece. */
  lemma {:induction false} PiecesAreClean(s: string, c: char, i: nat)
    requires i < |Split(s, c)|
    ensures c !in Split(s, c)[i]
  {
    if s != "" {
      var rest := Split(s[1..], c);
      if s[0] == c {
        if i > 0 {
          PiecesAreClean(s[1..], c, i - 1);
        }
      } else {
        PiecesAreClean(s[1..], c, i);
      }
    }
  }

  /** Cut at the first `c`: one step of `splitn`. */
  function Cut(s: string, c: char): (r: Option<(string, string)>)
    ensures r.Some? ==> s == r.value.0 + [c] + r.value.1 && c !in r.value.0
    ensures r.None? <==> c !in s
  {
    if s == "" then None
    else if s[0] == c then Some(("", s[1..]))
    else
      var rest := Cut(s[1..], c);
      if rest.None? then None else Some(([s[0]] + rest.value.0, rest.value.1))
  }

  lemma {:induction false} CutFirst(a: string, c: char, b: string)
    requires c !in a
    ensures Cut(a + [c] + b, c) == Some((a, b))
  {
    var s := a + [c] + b;
    if a == "" {
      assert s[1..] == b;
    } else {
      assert s[1..] == a[1..] + [c] + b;
      CutFirst(a[1..], c, b);
      assert a == [a[0]] + a[1..];
    }
  }

  // ---------------------------------------------------------------- the parser

  function ParseParts(id: string, days: string, amount: string): Option<Plan> {
    var n := ParseI32(Trim(days));
    if n.Some? && Trim(id) != "" && Trim(amount) != "" && n.value > 0
    then Some(Plan(Trim(id), n.value, Trim(amount))) else None
  }

  /** `trim`, `splitn(3, ':')`, and the checks on the three parts. */
  function ParseEntry(entry: string): Option<Plan> {
    var first := Cut(Trim(entry), ':');
    if first.None? then None
    else
      var second := Cut(first.value.1, ':');
      if second.None? then None else ParseParts(first.value.0, second.value.0, second.value.1)
  }

  function ToSeq<B>(y: Option<B>): seq<B> {
    if y.Some? then [y.value] else []
  }

  function FilterMap<A, B>(f: A -> Option<B>, xs: seq<A>): seq<B> {
    if xs == [] then [] else ToSeq(f(xs[0])) + FilterMap(f, xs[1..])
  }

  function ParsePlans(s: string): seq<Plan> {
    FilterMap(ParseEntry, Split(s, ','))
  }

  lemma {:induction false} FilterMapAppend<A, B>(f: A -> Option<B>, a: seq<A>, b: seq<A>)
    ensures FilterMap(f, a + b) == FilterMap(f, a) + FilterMap(f, b)
  {
    if a == [] {
      assert a + b == b;
    } else {
      FilterMapAppend(f, a[1..], b);
      var head, x, y := ToSeq(f(a[0])), FilterMap(f, a[1..]), FilterMap(f, b);
      assert (a + b)[1..] == a[1..] + b && (a + b)[0] == a[0];
      assert FilterMap(f, a + b) == head + (x + y);
      assert head + (x + y) == (head + x) + y;
    }
  }

  lemma FilterMapOne<A, B>(f: A -> Option<B>, x: A)
    ensures FilterMap(f, [x]) == ToSeq(f(x))
  {
    assert [x][1..] == [];
  }

  /** Joining two lists with a comma parses to the two results, for all strings: a malformed entry
      never affects its neighbours. */
  lemma ParseAppend(a: string, b: string)
    ensures ParsePlans(a + "," + b) == ParsePlans(a) + ParsePlans(b)
  {
    SplitAppend(a, ',', b);
    FilterMapAppend(ParseEntry, Split(a, ','), Split(b, ','));
  }

  // ---------------------------------------------------------------- printing

  predicate WellFormed(p: Plan) {
    && p.id != "" && Trimmed(p.id) && ':' !in p.id && ',' !in p.id
    && 0 < p.days <= I32_MAX
    && p.amount != "" && Trimmed(p.amount) && ',' !in p.amount
  }

  function PrintPlan(p: Plan): string
    requires WellFormed(p)
  {
    p.id + ":" + (PrintNat(p.days) + ":" + p.amount)
  }

  function PrintPlans(ps: seq<Plan>): string
    requires forall p :: p in ps ==> WellFormed(p)
  {
    if ps == [] then ""
    else if |ps| == 1 then PrintPlan(ps[0])
    else PrintPlan(ps[0]) + "," + PrintPlans(ps[1..])
  }

  lemma TrimKeeps(s: string)
    requires Trimmed(s)
    ensures Trim(s) == s
  {
  }

  lemma DigitsAreNot(s: string, c: char)
    requires Digits(s) && !IsDigit(c)
    ensures c !in s
  {
  }

  lemma DigitsTrimmed(s: string)
    requires Digits(s)
    ensures Trimmed(s)
  {
  }

  lemma PrintedDays(days: nat)
    requires 0 < days <= I32_MAX
    ensures ParseI32(Trim(PrintNat(days))) == Some(days)
  {
    DigitsTrimmed(PrintNat(days));
    TrimKeeps(PrintNat(days));
    PrintedValue(days);
  }

  lemma PrintedCuts(id: string, days: string, amount: string)
    requires ':' !in id && Digits(days)
    requires Trimmed(id + ":" + (days + ":" + amount))
    ensures ParseEntry(id + ":" + (days + ":" + amount)) == ParseParts(id, days, amount)
  {
    TrimKeeps(id + ":" + (days + ":" + amount));
    CutFirst(id, ':', days + ":" + amount);
    DigitsAreNot(days, ':');
    CutFirst(days, ':', amount);
  }

  lemma ParsePrintedEntry(p: Plan)
    requires WellFormed(p)
    ensures ParseEntry(PrintPlan(p)) == Some(p)
    ensures ',' !in PrintPlan(p)
  {
    var days := PrintNat(p.days);
    var entry := PrintPlan(p);
    assert entry[0] == p.id[0] && entry[|entry| - 1] == p.amount[|p.amount| - 1];
    DigitsAreNot(days, ',');
    PrintedCuts(p.id, days, p.amount);
    PrintedDays(p.days);
    TrimKeeps(p.id);
    TrimKeeps(p.amount);
  }

  lemma ParseOnePrinted(p: Plan)
    requires WellFormed(p)
    ensures ParsePlans(PrintPlan(p)) == [p]
  {
    ParsePrintedEntry(p);
    SplitOne(PrintPlan(p), ',');
    FilterMapOne(ParseEntry, PrintPlan(p));
  }

  /** Printing any well-formed list and parsing it returns the list; amounts may contain colons. */
  lemma {:induction false} ParsePrinted(ps: seq<Plan>)
    requires forall p :: p in ps ==> WellFormed(p)
    ensures ParsePlans(PrintPlans(ps)) == ps
  {
    if ps == [] {
      NothingParses();
    } else {
      ParseOnePrinted(ps[0]);
      if |ps| > 1 {
        ParsePrinted(ps[1..]);
        ParseAppend(PrintPlan(ps[0]), PrintPlans(ps[1..]));
      }
    }
  }

  lemma NothingParses()
    ensures ParsePlans("") == []
  {
    assert ParseEntry("") == None;
  }

  // ---------------------------------------------------------------- what the parser returns

  lemma TrimStartWithin(s: string, c: char)
    requires c !in s
    ensures c !in TrimStart(s)
  {
  }

  lemma TrimEndWithin(s: string, c: char)
    requires c !in s
    ensures c !in TrimEnd(s)
  {
  }

  lemma TrimWithin(s: string, c: char)
    requires c !in s
    ensures c !in Trim(s)
  {
    TrimStartWithin(s, c);
    TrimEndWithin(TrimStart(s), c);
  }

  lemma EntryIsWellFormed(entry: string)
    requires ',' !in entry && ParseEntry(entry).Some?
    ensures WellFormed(ParseEntry(entry).value)
  {
    TrimWithin(entry, ',');
    var first := Cut(Trim(entry), ':').value;
    var second := Cut(first.1, ':').value;
    assert ',' !in first.0 && ',' !in first.1 && ',' !in second.1;
    TrimIsTrimmed(first.0);
    TrimIsTrimmed(second.1);
    TrimWithin(first.0, ':');
    TrimWithin(first.0, ',');
    TrimWithin(second.1, ',');
  }

  lemma {:induction false} EntriesAreWellFormed(entries: seq<string>)
    requires forall e :: e in entries ==> ',' !in e
    ensures forall p :: p in FilterMap(ParseEntry, entries) ==> WellFormed(p)
  {
    if entries != [] {
      if ParseEntry(entries[0]).Some? {
        EntryIsWellFormed(entries[0]);
      }
      EntriesAreWellFormed(entries[1..]);
    }
  }

  lemma PlansAreWellFormed(s: string)
    ensures forall p :: p in ParsePlans(s) ==> WellFormed(p)
  {
    forall e | e in Split(s, ',')
      ensures ',' !in e
    {
      var i :| 0 <= i < |Split(s, ',')| && Split(s, ',')[i] == e;
      PiecesAreClean(s, ',', i);
    }
    EntriesAreWellFormed(Split(s, ','));
  }

  /** Whatever the environment holds, the parser returns well-formed plans, and exactly the well-formed
      lists are returned for some input. */
  lemma ReturnedExactly(ps: seq<Plan>)
    ensures (exists s :: ParsePlans(s) == ps) <==> forall p :: p in ps ==> WellFormed(p)
  {
    if s :| ParsePlans(s) == ps {
      PlansAreWellFormed(s);
    }
    if forall p :: p in ps ==> WellFormed(p) {
      ParsePrinted(ps);
    }
  }

  /** Re-parsing the printed result changes nothing. */
  lemma ParseIsStable(s: string)
    ensures forall p :: p in ParsePlans(s) ==> WellFormed(p)
    ensures ParsePlans(PrintPlans(ParsePlans(s))) == ParsePlans(s)
  {
    PlansAreWellFormed(s);
    ParsePrinted(ParsePlans(s));
  }

  // ---------------------------------------------------------------- what is accepted

  function TenTo(n: nat): nat {
    if n == 0 then 1 else 10 * TenTo(n - 1)
  }

  /** Digit strings are decimal: a digit counts its face value, and each further one shifts by ten. */
  lemma {:induction false} DigitsAreDecimal(a: string, b: string)
    requires Digits(a) && Digits(b)
    ensures DigitsValue(a + b) == DigitsValue(a) * TenTo(|b|) + DigitsValue(b)
    ensures |b| == 1 ==> DigitsValue(b) == b[0] as int - 48
  {
    if b == "" {
      assert a + b == a;
    } else {
      var init := b[..|b| - 1];
      assert (a + b)[..|a + b| - 1] == a + init;
      DigitsAreDecimal(a, init);
    }
  }

  /** `s` is the number `n` as `parse` reads it. */
  ghost predicate Reads32(s: string, n: int) {
    && -0x8000_0000 <= n <= 0x7fff_ffff
    && exists digits ::
         && digits != "" && Digits(digits)
         && (|| (n == DigitsValue(digits) && (s == digits || s == "+" + digits))
             || (n == 0 - DigitsValue(digits) && s == "-" + digits))
  }

  lemma ParseI32Exactly(s: string, n: int)
    ensures ParseI32(s) == Some(n) <==> Reads32(s, n)
  {
    if ParseI32(s) == Some(n) {
      var digits := if s[0] in {'-', '+'} then s[1..] else s;
      assert s == digits || s == [s[0]] + digits;
    }
    if Reads32(s, n) {
      var digits :| digits != "" && Digits(digits)
        && ((n == DigitsValue(digits) && (s == digits || s == "+" + digits))
            || (n == 0 - DigitsValue(digits) && s == "-" + digits));
      assert s == digits || s[1..] == digits;
      assert s == digits ==> IsDigit(s[0]);
    }
  }

  lemma {:induction false} TrimStartStops(a: string, c: char, b: string)
    requires !IsSpace(c)
    ensures TrimStart(a + [c] + b) == TrimStart(a) + [c] + b
  {
    var s := a + [c] + b;
    if a == "" {
      assert s == [c] + b;
    } else {
      assert s[1..] == a[1..] + [c] + b;
      if IsSpace(a[0]) {
        TrimStartStops(a[1..], c, b);
      }
    }
  }

  lemma {:induction false} TrimEndStops(a: string, c: char, b: string)
    requires !IsSpace(c)
    ensures TrimEnd(a + [c] + b) == a + [c] + TrimEnd(b)
  {
    var s := a + [c] + b;
    if b == "" {
      assert s == a + [c];
    } else {
      assert s[..|s| - 1] == a + [c] + b[..|b| - 1];
      if IsSpace(b[|b| - 1]) {
        TrimEndStops(a, c, b[..|b| - 1]);
      }
    }
  }

  lemma PaddedMore(inner: string, core: string, after: string)
    requires PaddedWith(inner, core) && Blank(after)
    ensures PaddedWith(inner + after, core)
  {
    var left, right :| Blank(left) && Blank(right) && inner == left + core + right;
    assert Blank(right + after);
    assert inner + after == left + core + (right + after);
  }

  lemma TrimAgain(s: string)
    ensures Trim(TrimStart(s)) == Trim(s) && Trim(TrimEnd(s)) == Trim(s)
  {
    TrimStartFirst(s);
    TrimmedStartIsKept(TrimStart(s));
    var after := TrimEndCuts(s);
    TrimPads(TrimEnd(s));
    TrimIsTrimmed(TrimEnd(s));
    PaddedMore(TrimEnd(s), Trim(TrimEnd(s)), after);
    TrimExactly(s, Trim(TrimEnd(s)));
  }

  lemma TrimmedStartIsKept(s: string)
    requires s == "" || !IsSpace(s[0])
    ensures TrimStart(s) == s
  {
  }

  /** Trimming the whole entry first changes nothing. */
  lemma PartsAreTrimmed(id: string, days: string, amount: string)
    requires ':' !in id && ':' !in days
    ensures ParseEntry(id + ":" + (days + ":" + amount)) == ParseParts(id, days, amount)
  {
    var rest := days + ":" + amount;
    TrimStartStops(id, ':', rest);
    var head := TrimStart(id) + ":" + days;
    assert TrimStart(id) + ":" + rest == head + ":" + amount;
    TrimEndStops(head, ':', amount);
    assert Trim(id + ":" + rest) == TrimStart(id) + ":" + (days + ":" + TrimEnd(amount));
    TrimStartWithin(id, ':');
    CutFirst(TrimStart(id), ':', days + ":" + TrimEnd(amount));
    CutFirst(days, ':', TrimEnd(amount));
    TrimAgain(id);
    TrimAgain(amount);
  }

  /** The entry is these three parts; only the last may contain the separator. */
  predicate InParts(entry: string, id: string, days: string, amount: string) {
    entry == id + ":" + (days + ":" + amount) && ':' !in id && ':' !in days
  }

  /** The three parts, white space around each ignored, are the plan: a non-empty id, a positive number of
      days, a non-empty amount. */
  ghost predicate PartsGive(id: string, days: string, amount: string, p: Plan) {
    && PaddedWith(id, p.id) && Trimmed(p.id) && p.id != ""
    && PaddedWith(amount, p.amount) && Trimmed(p.amount) && p.amount != ""
    && p.days > 0 && exists number :: PaddedWith(days, number) && Trimmed(number) && Reads32(number, p.days)
  }

  lemma PartsGiveExactly(id: string, days: string, amount: string, p: Plan)
    ensures ParseParts(id, days, amount) == Some(p) <==> PartsGive(id, days, amount, p)
  {
    TrimExactly(id, p.id);
    TrimExactly(amount, p.amount);
    TrimExactly(days, Trim(days));
    forall number {
      TrimExactly(days, number);
    }
    ParseI32Exactly(Trim(days), p.days);
  }

  lemma Regroup(before: string, a: string, b: string, c: string, after: string)
    ensures before + (a + ":" + (b + ":" + c)) + after == (before + a) + ":" + (b + ":" + (c + after))
  {
  }

  /** What is cut into parts after trimming is in parts before it. */
  lemma ParsedIsInParts(entry: string) returns (id: string, days: string, amount: string)
    requires ParseEntry(entry).Some?
    ensures InParts(entry, id, days, amount)
  {
    TrimPads(entry);
    var before, after :| Blank(before) && Blank(after) && entry == before + Trim(entry) + after;
    var first := Cut(Trim(entry), ':').value;
    var second := Cut(first.1, ':').value;
    id, days, amount := before + first.0, second.0, second.1 + after;
    Regroup(before, first.0, second.0, second.1, after);
  }

  /** An entry parses to a plan exactly when it is three parts that give the plan; everything else is dropped. */
  lemma ParseEntryExactly(entry: string, p: Plan)
    ensures ParseEntry(entry) == Some(p)
       <==> exists id, days, amount :: InParts(entry, id, days, amount) && PartsGive(id, days, amount, p)
  {
    if ParseEntry(entry) == Some(p) {
      var id, days, amount := ParsedIsInParts(entry);
      PartsAreTrimmed(id, days, amount);
      PartsGiveExactly(id, days, amount, p);
    }
    if id, days, amount :| InParts(entry, id, days, amount) && PartsGive(id, days, amount, p) {
      PartsAreTrimmed(id, days, amount);
      PartsGiveExactly(id, days, amount, p);
    }
  }

  /** With `ParseAppend`, what any list parses to: one entry gives its plan or nothing. */
  lemma OneEntry(entry: string)
    requires ',' !in entry
    ensures ParsePlans(entry) == match ParseEntry(entry) case Some(p) => [p] case None => []
  {
    SplitOne(entry, ',');
    FilterMapOne(ParseEntry, entry);
  }

  // ---------------------------------------------------------------- prices

  function Pow10(n: nat): (p: nat)
    ensures p > 0
  {
    if n == 0 then 1 else 10 * Pow10(n - 1)
  }

  /** The number written as `whole.fraction`. */
  function DecimalValue(whole: string, fraction: string): real
    requires Digits(whole) && Digits(fraction)
  {
    DigitsValue(whole) as real + DigitsValue(fraction) as real / Pow10(|fraction|) as real
  }

  /** A digit string with at most one dot, whose value is positive. */
  ghost predicate PositiveDecimal(s: string) {
    exists whole, fraction :: WrittenAs(s, whole, fraction) && DecimalValue(whole, fraction) > 0.0
  }

  predicate WrittenAs(s: string, whole: string, fraction: string) {
    && Digits(whole) && Digits(fraction)
    && (s == whole + "." + fraction || (s == whole && fraction == ""))
  }

  predicate AllowedChars(s: string) {
    forall i :: 0 <= i < |s| ==> IsDigit(s[i]) || s[i] == '.'
  }

  predicate OneDot(s: string) {
    forall i, j :: 0 <= i < j < |s| ==> s[i] != '.' || s[j] != '.'
  }

  predicate HasNonzero(s: string) {
    exists i :: 0 <= i < |s| && IsDigit(s[i]) && s[i] != '0'
  }

  lemma {:induction false} ValuePositive(s: string)
    requires Digits(s)
    ensures DigitsValue(s) > 0 <==> HasNonzero(s)
  {
    if s != "" {
      ValuePositive(s[..|s| - 1]);
      var init := s[..|s| - 1];
      assert s == init + [s[|s| - 1]];
      if HasNonzero(init) {
        var i :| 0 <= i < |init| && IsDigit(init[i]) && init[i] != '0';
        assert s[i] == init[i];
      }
    }
  }

  lemma ValueOfWritten(s: string, whole: string, fraction: string)
    requires WrittenAs(s, whole, fraction)
    ensures AllowedChars(s) && OneDot(s)
    ensures DecimalValue(whole, fraction) > 0.0 <==> HasNonzero(s)
  {
    ValuePositive(whole);
    ValuePositive(fraction);
    RatioPositive(DigitsValue(fraction), Pow10(|fraction|));
    if HasNonzero(whole) {
      var i :| 0 <= i < |whole| && IsDigit(whole[i]) && whole[i] != '0';
      assert s[i] == whole[i];
    }
    if HasNonzero(fraction) {
      var i :| 0 <= i < |fraction| && IsDigit(fraction[i]) && fraction[i] != '0';
      assert s[|whole| + 1 + i] == fraction[i];
    }
    if HasNonzero(s) {
      var i :| 0 <= i < |s| && IsDigit(s[i]) && s[i] != '0';
      assert i < |whole| ==> whole[i] == s[i];
      assert i > |whole| ==> fraction[i - |whole| - 1] == s[i];
    }
  }

  lemma RatioPositive(a: nat, b: nat)
    requires b > 0
    ensures a as real / b as real >= 0.0
    ensures a as real / b as real > 0.0 <==> a > 0
  {
  }

  lemma PositiveDecimalExactly(s: string)
    ensures PositiveDecimal(s) <==> AllowedChars(s) && OneDot(s) && HasNonzero(s)
  {
    if PositiveDecimal(s) {
      var whole, fraction :| WrittenAs(s, whole, fraction) && DecimalValue(whole, fraction) > 0.0;
      ValueOfWritten(s, whole, fraction);
    }
    if AllowedChars(s) && OneDot(s) && HasNonzero(s) {
      var whole, fraction := s, "";
      if k :| 0 <= k < |s| && s[k] == '.' {
        whole, fraction := s[..k], s[k + 1..];
        assert s == whole + "." + fraction;
      }
      ValueOfWritten(s, whole, fraction);
    }
  }

  /** The three-flag scan accepts exactly the positive decimals. */
  method IsPositiveDecimal(s: string) returns (ok: bool)
    ensures ok <==> PositiveDecimal(s)
  {
    PositiveDecimalExactly(s);
    var seenDot, seenDigit, seenNonzero := false, false, false;
    for i := 0 to |s|
      invariant AllowedChars(s[..i]) && OneDot(s[..i])
      invariant seenDot <==> exists j :: 0 <= j < i && s[j] == '.'
      invariant seenNonzero <==> HasNonzero(s[..i])
      invariant seenNonzero ==> seenDigit
    {
      if IsDigit(s[i]) {
        seenDigit := true;
        seenNonzero := seenNonzero || s[i] != '0';
      } else if s[i] == '.' && !seenDot {
        seenDot := true;
      } else {
        return false;
      }
      assert s[..i + 1] == s[..i] + [s[i]];
    }
    assert s[..|s|] == s;
    return seenDigit && seenNonzero;
  }
}
