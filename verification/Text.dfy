/** The string operations the source uses: trimming, splitting, ASCII case folding, ordering. */
module Text {

  /** Membership in the Unicode `White_Space` property, which `str::trim` strips. */
  predicate IsSpace(c: char) {
    var n := c as int;
    0x09 <= n <= 0x0d || n == 0x20 || n == 0x85 || n == 0xa0 || n == 0x1680 || 0x2000 <= n <= 0x200a
    || n == 0x2028 || n == 0x2029 || n == 0x202f || n == 0x205f || n == 0x3000
  }

  function TrimStart(s: string): (r: string)
    ensures |r| <= |s|
  {
    if s != [] && IsSpace(s[0]) then TrimStart(s[1..]) else s
  }

  function TrimEnd(s: string): (r: string)
    ensures |r| <= |s|
  {
    if s != [] && IsSpace(s[|s| - 1]) then TrimEnd(s[..|s| - 1]) else s
  }

  function Trim(s: string): (r: string)
    ensures |r| <= |s|
  {
    TrimEnd(TrimStart(s))
  }

  /** Neither end is white space. */
  predicate Trimmed(s: string) {
    s == [] || (!IsSpace(s[0]) && !IsSpace(s[|s| - 1]))
  }

  lemma TrimStartFirst(s: string)
    ensures var r := TrimStart(s); r == [] || !IsSpace(r[0])
  {
  }

  lemma TrimEndEnds(s: string)
    ensures var r := TrimEnd(s); r == [] || (r[0] == s[0] && !IsSpace(r[|r| - 1]))
  {
  }

  lemma TrimIsTrimmed(s: string)
    ensures Trimmed(Trim(s))
  {
    TrimStartFirst(s);
    TrimEndEnds(TrimStart(s));
  }

  function Lower(c: char): char {
    if 'A' <= c <= 'Z' then (c as int + 32) as char else c
  }

  function Upper(c: char): char {
    if 'a' <= c <= 'z' then (c as int - 32) as char else c
  }

  function ToLower(s: string): (r: string)
    ensures |r| == |s| && forall i :: 0 <= i < |s| ==> r[i] == Lower(s[i])
  {
    seq(|s|, i requires 0 <= i < |s| => Lower(s[i]))
  }

  function ToUpper(s: string): (r: string)
    ensures |r| == |s| && forall i :: 0 <= i < |s| ==> r[i] == Upper(s[i])
  {
    seq(|s|, i requires 0 <= i < |s| => Upper(s[i]))
  }

  /** Strict lexicographic order on code points, the order `str::cmp` gives. */
  predicate LexLess(a: string, b: string) {
    b != [] && (a == [] || a[0] < b[0] || (a[0] == b[0] && LexLess(a[1..], b[1..])))
  }

  lemma LexTrichotomy(a: string, b: string)
    ensures LexLess(a, b) || a == b || LexLess(b, a)
    ensures !(LexLess(a, b) && LexLess(b, a))
    ensures !LexLess(a, a)
  {
    if a != [] && b != [] && a[0] == b[0] {
      LexTrichotomy(a[1..], b[1..]);
      assert a == [a[0]] + a[1..] && b == [b[0]] + b[1..];
    }
  }

  lemma LexTransitive(a: string, b: string, c: string)
    requires LexLess(a, b) && LexLess(b, c)
    ensures LexLess(a, c)
  {
    if a != [] && a[0] == b[0] && b[0] == c[0] {
      LexTransitive(a[1..], b[1..], c[1..]);
    }
  }

  // ---------------------------------------------------------------- what the operations mean

  /** The twenty-five white-space code points. */
  lemma SpacesExactly(c: char)
    ensures IsSpace(c) <==> c as int in {
      0x09, 0x0a, 0x0b, 0x0c, 0x0d, 0x20, 0x85, 0xa0, 0x1680, 0x2000, 0x2001, 0x2002, 0x2003, 0x2004, 0x2005,
      0x2006, 0x2007, 0x2008, 0x2009, 0x200a, 0x2028, 0x2029, 0x202f, 0x205f, 0x3000}
  {
  }

  predicate Blank(s: string) {
    forall i :: 0 <= i < |s| ==> IsSpace(s[i])
  }

  lemma TrimStartCuts(s: string) returns (before: string)
    ensures Blank(before) && s == before + TrimStart(s)
  {
    if s != [] && IsSpace(s[0]) {
      before := TrimStartCuts(s[1..]);
      before := [s[0]] + before;
    } else {
      before := [];
    }
  }

  lemma TrimEndCuts(s: string) returns (after: string)
    ensures Blank(after) && s == TrimEnd(s) + after
  {
    if s != [] && IsSpace(s[|s| - 1]) {
      after := TrimEndCuts(s[..|s| - 1]);
      after := after + [s[|s| - 1]];
    } else {
      after := [];
    }
  }

  ghost predicate PaddedWith(s: string, core: string) {
    exists before, after :: Blank(before) && Blank(after) && s == before + core + after
  }

  lemma TrimPads(s: string)
    ensures PaddedWith(s, Trim(s))
  {
    var before := TrimStartCuts(s);
    var after := TrimEndCuts(TrimStart(s));
    assert s == before + Trim(s) + after;
  }

  lemma {:induction false} TrimStartSkips(before: string, s: string)
    requires Blank(before)
    ensures TrimStart(before + s) == TrimStart(s)
  {
    if before == [] {
      assert before + s == s;
    } else {
      assert (before + s)[1..] == before[1..] + s;
      TrimStartSkips(before[1..], s);
    }
  }

  lemma {:induction false} TrimEndSkips(s: string, after: string)
    requires Blank(after)
    ensures TrimEnd(s + after) == TrimEnd(s)
  {
    if after == [] {
      assert s + after == s;
    } else {
      assert (s + after)[..|s + after| - 1] == s + after[..|after| - 1];
      TrimEndSkips(s, after[..|after| - 1]);
    }
  }

  lemma TrimmedIsKept(s: string)
    requires Trimmed(s)
    ensures TrimStart(s) == s && TrimEnd(s) == s
  {
  }

  lemma BlankIsDropped(s: string)
    requires Blank(s)
    ensures TrimStart(s) == []
  {
    TrimStartSkips(s, []);
    assert s + [] == s;
  }

  /** `trim` is the one string without white space at its ends that is left when white space at both ends
      is cut off. */
  lemma TrimExactly(s: string, core: string)
    ensures Trim(s) == core <==> Trimmed(core) && PaddedWith(s, core)
  {
    TrimIsTrimmed(s);
    TrimPads(s);
    if Trimmed(core) && PaddedWith(s, core) {
      var before, after :| Blank(before) && Blank(after) && s == before + core + after;
      assert s == before + (core + after);
      TrimStartSkips(before, core + after);
      TrimmedIsKept(core);
      if core == [] {
        assert core + after == after;
        BlankIsDropped(after);
      } else {
        assert TrimStart(core + after) == core + after;
        TrimEndSkips(core, after);
      }
    }
  }

  /** The same letter in either case, or the same character. */
  predicate SameButCase(a: char, b: char) {
    a == b || ('A' <= a <= 'Z' && b as int == a as int + 32) || ('A' <= b <= 'Z' && a as int == b as int + 32)
  }

  predicate EqualButCase(a: string, b: string) {
    |a| == |b| && forall i :: 0 <= i < |a| ==> SameButCase(a[i], b[i])
  }

  predicate NoUpper(s: string) {
    forall i :: 0 <= i < |s| ==> !('A' <= s[i] <= 'Z')
  }

  predicate NoLower(s: string) {
    forall i :: 0 <= i < |s| ==> !('a' <= s[i] <= 'z')
  }

  /** Folding gives the one string that is equal but for case and has no letter of the other case. */
  lemma FoldExactly(s: string, t: string)
    ensures ToLower(s) == t <==> EqualButCase(s, t) && NoUpper(t)
    ensures ToUpper(s) == t <==> EqualButCase(s, t) && NoLower(t)
  {
    if EqualButCase(s, t) && NoUpper(t) {
      assert forall i :: 0 <= i < |s| ==> Lower(s[i]) == t[i];
    }
    if EqualButCase(s, t) && NoLower(t) {
      assert forall i :: 0 <= i < |s| ==> Upper(s[i]) == t[i];
    }
  }

  /** Where two strings first differ. */
  predicate DifferAt(a: string, b: string, k: nat) {
    k < |a| && k < |b| && a[..k] == b[..k] && a[k] < b[k]
  }

  /** The order is the dictionary order: a proper prefix first, otherwise the first differing character. */
  lemma {:induction false} LexLessExactly(a: string, b: string)
    ensures LexLess(a, b) <==> (a < b || exists k: nat :: DifferAt(a, b, k))
  {
    if a != [] && b != [] && a[0] == b[0] {
      var a', b' := a[1..], b[1..];
      LexLessExactly(a', b');
      assert a == [a[0]] + a' && b == [b[0]] + b';
      if k: nat :| DifferAt(a', b', k) {
        assert a[..k + 1] == [a[0]] + a'[..k] && b[..k + 1] == [b[0]] + b'[..k];
        assert DifferAt(a, b, k + 1);
      }
      if k: nat :| DifferAt(a, b, k) {
        assert k > 0;
        assert a'[..k - 1] == a[1..k] && b'[..k - 1] == b[1..k];
        assert a[1..k] == a[..k][1..] && b[1..k] == b[..k][1..];
        assert DifferAt(a', b', k - 1);
      }
    } else if a != [] && b != [] {
      assert a[0] < b[0] ==> DifferAt(a, b, 0);
    }
  }
}
