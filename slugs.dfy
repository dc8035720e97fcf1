/**
 * The slug normaliser of the article API (`slugify` in index.ts). It
 * lower-cases the title, trims it, deletes every character outside
 * `[\w\s-]`, turns each run of `[\s_-]` into one `-`, and strips the
 * hyphens at both ends.
 *
 * Each pass is a function over `string` (= `seq<char>`). The regular
 * expressions carry no `u` flag, so `\w` is the ASCII class `[A-Za-z0-9_]`;
 * `\s` is the ECMAScript white-space and line-terminator set, which is also
 * the set `String.prototype.trim` removes.
 */
module Slugs {

  // ---------------------------------------------------------------------
  // Character classes
  // ---------------------------------------------------------------------

  /** `\s`: ECMAScript WhiteSpace and LineTerminator code points. */
  predicate IsSpace(c: char) {
    var n := c as int;
    n == 0x09 || n == 0x0A || n == 0x0B || n == 0x0C || n == 0x0D || n == 0x20 ||
    n == 0xA0 || n == 0x1680 || (0x2000 <= n <= 0x200A) || n == 0x2028 ||
    n == 0x2029 || n == 0x202F || n == 0x205F || n == 0x3000 || n == 0xFEFF
  }

  predicate IsUpper(c: char) { 'A' <= c <= 'Z' }

  /** The characters a finished slug is made of, besides `-`. */
  predicate IsLowerAlnum(c: char) { 'a' <= c <= 'z' || '0' <= c <= '9' }

  predicate IsAlnum(c: char) { IsUpper(c) || IsLowerAlnum(c) }

  /** `\w` without the `u` flag. */
  predicate IsWord(c: char) { IsAlnum(c) || c == '_' }

  predicate IsHyphen(c: char) { c == '-' }

  /** `[\w\s-]`: what the first `replace` keeps. */
  predicate IsKept(c: char) { IsWord(c) || IsSpace(c) || IsHyphen(c) }

  /** `[\s_-]`: what the second `replace` collapses. */
  predicate IsSeparator(c: char) { IsSpace(c) || c == '_' || IsHyphen(c) }

  // ---------------------------------------------------------------------
  // The five passes
  // ---------------------------------------------------------------------

  /** `toLowerCase` restricted to ASCII letters. */
  function LowerChar(c: char): char {
    if IsUpper(c) then (c as int + 32) as char else c
  }

  function Lower(s: string): string {
    if s == [] then [] else [LowerChar(s[0])] + Lower(s[1..])
  }

  /** The length of the longest prefix of `s` whose characters all satisfy `p`. */
  function LeadingRun(s: string, p: char -> bool): (n: nat)
    ensures n <= |s|
    ensures forall i :: 0 <= i < n ==> p(s[i])
    ensures n < |s| ==> !p(s[n])
  {
    if s != [] && p(s[0]) then
      var m := LeadingRun(s[1..], p);
      assert forall i :: 1 <= i < m + 1 ==> s[i] == s[1..][i - 1];
      m + 1
    else 0
  }

  /** The length of the longest suffix of `s` whose characters all satisfy `p`. */
  function TrailingRun(s: string, p: char -> bool): (n: nat)
    ensures n <= |s|
    ensures forall i :: |s| - n <= i < |s| ==> p(s[i])
    ensures n < |s| ==> !p(s[|s| - n - 1])
  {
    if s != [] && p(s[|s| - 1]) then
      var m := TrailingRun(s[..|s| - 1], p);
      assert forall i :: |s| - m - 1 <= i < |s| - 1 ==> s[i] == s[..|s| - 1][i];
      m + 1
    else 0
  }

  /** Removes the longest prefix whose characters all satisfy `p`. */
  function TrimLeft(s: string, p: char -> bool): (r: string)
    ensures r != [] ==> !p(r[0])
  {
    s[LeadingRun(s, p)..]
  }

  /** Removes the longest suffix whose characters all satisfy `p`. */
  function TrimRight(s: string, p: char -> bool): (r: string)
    ensures r != [] ==> !p(r[|r| - 1])
  {
    s[..|s| - TrailingRun(s, p)]
  }

  /** `trim()`. */
  function Trim(s: string): string {
    TrimRight(TrimLeft(s, IsSpace), IsSpace)
  }

  /** `replace(/[^\w\s-]/g, '')`: deletes every character outside `[\w\s-]`. */
  function Keep(s: string): string {
    if s == [] then []
    else (if IsKept(s[0]) then [s[0]] else []) + Keep(s[1..])
  }

  /**
   * `replace(/[\s_-]+/g, '-')`: each maximal run of separators becomes one
   * `-`. `inRun` says whether the character before `s` was a separator.
   */
  function Runs(s: string, inRun: bool): string {
    if s == [] then [] else Step(s[0], inRun) + Runs(s[1..], IsSeparator(s[0]))
  }

  /** What one character becomes: a separator opens a run as `-` or continues one as nothing. */
  function Step(c: char, inRun: bool): string {
    if !IsSeparator(c) then [c] else if inRun then [] else "-"
  }

  function Collapse(s: string): string {
    Runs(s, false)
  }

  /** `replace(/^-+|-+$/g, '')`: strips the leading and the trailing run of `-`. */
  function StripHyphens(s: string): string {
    TrimRight(TrimLeft(s, IsHyphen), IsHyphen)
  }

  function Slugify(title: string): string {
    StripHyphens(Collapse(Keep(Trim(Lower(title)))))
  }

  // ---------------------------------------------------------------------
  // The shape of a slug
  // ---------------------------------------------------------------------

  predicate NoDoubleHyphen(s: string) {
    forall i :: 0 <= i < |s| - 1 ==> !(s[i] == '-' && s[i + 1] == '-')
  }

  /** Lower-case ASCII letters, digits and single inner hyphens only. */
  predicate IsSlug(s: string) {
    (forall i :: 0 <= i < |s| ==> IsLowerAlnum(s[i]) || s[i] == '-') &&
    NoDoubleHyphen(s) &&
    (s != [] ==> s[0] != '-' && s[|s| - 1] != '-')
  }

  /** The letters and digits of `s`, in order. */
  function Alnums(s: string): string {
    if s == [] then []
    else (if IsAlnum(s[0]) then [s[0]] else []) + Alnums(s[1..])
  }

  // ---------------------------------------------------------------------
  // Facts about the passes
  // ---------------------------------------------------------------------

  lemma {:induction false} LowerHasNoUpper(s: string)
    ensures |Lower(s)| == |s|
    ensures forall i :: 0 <= i < |s| ==> Lower(s)[i] == LowerChar(s[i])
  {
    if s != [] {
      LowerHasNoUpper(s[1..]);
    }
  }

  lemma {:induction false} TrimHasNoUpper(s: string)
    requires forall i :: 0 <= i < |s| ==> !IsUpper(s[i])
    ensures forall i :: 0 <= i < |Trim(s)| ==> !IsUpper(Trim(s)[i])
  {
    var t1 := TrimLeft(s, IsSpace);
    assert forall i :: 0 <= i < |t1| ==> t1[i] == s[i + |s| - |t1|];
    var t := TrimRight(t1, IsSpace);
    assert forall i :: 0 <= i < |t| ==> t[i] == t1[i];
  }

  lemma {:induction false} KeepShape(s: string)
    requires forall i :: 0 <= i < |s| ==> !IsUpper(s[i])
    ensures forall i :: 0 <= i < |Keep(s)| ==> IsLowerAlnum(Keep(s)[i]) || IsSeparator(Keep(s)[i])
  {
    if s != [] {
      KeepShape(s[1..]);
      assert Keep(s) == (if IsKept(s[0]) then [s[0]] else []) + Keep(s[1..]);
    }
  }

  /**
   * Collapsing a string of lower-case letters, digits and separators
   * leaves lower-case letters, digits and single hyphens; the result starts
   * with `-` exactly when the input starts with a separator that does not
   * continue a run.
   */
  lemma {:induction false} RunsShape(s: string, inRun: bool)
    requires forall i :: 0 <= i < |s| ==> IsLowerAlnum(s[i]) || IsSeparator(s[i])
    ensures var r := Runs(s, inRun);
      (forall i :: 0 <= i < |r| ==> IsLowerAlnum(r[i]) || r[i] == '-') &&
      NoDoubleHyphen(r) &&
      (r != [] ==> (r[0] == '-' <==> !inRun && IsSeparator(s[0])))
  {
    if s != [] {
      RunsShape(s[1..], IsSeparator(s[0]));
      if !IsSeparator(s[0]) {
        assert s[0] != '-';
      }
    }
  }

  lemma {:induction false} StripHyphensShape(s: string)
    requires forall i :: 0 <= i < |s| ==> IsLowerAlnum(s[i]) || s[i] == '-'
    requires NoDoubleHyphen(s)
    ensures IsSlug(StripHyphens(s))
  {
    var t := TrimLeft(s, IsHyphen);
    var r := TrimRight(t, IsHyphen);
    assert forall i :: 0 <= i < |t| ==> t[i] == s[i + |s| - |t|];
    assert forall i :: 0 <= i < |r| ==> r[i] == t[i];
    if r != [] {
      assert !IsHyphen(t[0]);
    }
  }

  // ---------------------------------------------------------------------
  // The shape of every slug, and idempotence
  // ---------------------------------------------------------------------

  /**
   * Every slug consists of lower-case ASCII letters, digits and `-`,
   * neither begins nor ends with `-` and never contains `--`.
   */
  lemma {:induction false} SlugifyShape(title: string)
    ensures IsSlug(Slugify(title))
  {
    var l := Lower(title);
    LowerHasNoUpper(title);
    TrimHasNoUpper(l);
    var k := Keep(Trim(l));
    KeepShape(Trim(l));
    RunsShape(k, false);
    StripHyphensShape(Collapse(k));
  }

  lemma {:induction false} LowerFixesSlug(s: string)
    requires forall i :: 0 <= i < |s| ==> IsLowerAlnum(s[i]) || s[i] == '-'
    ensures Lower(s) == s
  {
    if s != [] {
      LowerFixesSlug(s[1..]);
    }
  }

  lemma {:induction false} KeepFixesSlug(s: string)
    requires forall i :: 0 <= i < |s| ==> IsLowerAlnum(s[i]) || s[i] == '-'
    ensures Keep(s) == s
  {
    if s != [] {
      KeepFixesSlug(s[1..]);
      assert s == [s[0]] + s[1..];
    }
  }

  lemma {:induction false} RunsFixSlug(s: string, inRun: bool)
    requires forall i :: 0 <= i < |s| ==> IsLowerAlnum(s[i]) || s[i] == '-'
    requires NoDoubleHyphen(s)
    requires inRun && s != [] ==> s[0] != '-'
    ensures Runs(s, inRun) == s
  {
    if s != [] {
      RunsFixSlug(s[1..], IsSeparator(s[0]));
      assert s == [s[0]] + s[1..];
    }
  }

  /** A string that already has the shape of a slug is its own slug. */
  lemma {:induction false} SlugifyFixesSlugs(s: string)
    requires IsSlug(s)
    ensures Slugify(s) == s
  {
    LowerFixesSlug(s);
    assert s != [] ==> !IsSpace(s[0]) && !IsSpace(s[|s| - 1]);
    assert TrimLeft(s, IsSpace) == s;
    assert TrimRight(s, IsSpace) == s;
    KeepFixesSlug(s);
    RunsFixSlug(s, false);
    assert s != [] ==> !IsHyphen(s[0]) && !IsHyphen(s[|s| - 1]);
    assert TrimLeft(s, IsHyphen) == s;
    assert TrimRight(s, IsHyphen) == s;
  }

  /** `slugify(slugify(x)) == slugify(x)`. */
  lemma {:induction false} SlugifyIdempotent(title: string)
    ensures Slugify(Slugify(title)) == Slugify(title)
  {
    SlugifyShape(title);
    SlugifyFixesSlugs(Slugify(title));
  }

  // ---------------------------------------------------------------------
  // What survives: the letters and digits, lower-cased, in order
  // ---------------------------------------------------------------------

  lemma {:induction false} AlnumsAppend(a: string, b: string)
    ensures Alnums(a + b) == Alnums(a) + Alnums(b)
  {
    if a == [] {
      assert a + b == b;
    } else {
      var ab := a + b;
      assert ab[0] == a[0] && ab[1..] == a[1..] + b;
      var head := if IsAlnum(a[0]) then [a[0]] else [];
      AlnumsAppend(a[1..], b);
      assert Alnums(ab) == head + (Alnums(a[1..]) + Alnums(b));
      assert Alnums(a) == head + Alnums(a[1..]);
    }
  }

  lemma {:induction false} AlnumsOfNone(s: string)
    requires forall i :: 0 <= i < |s| ==> !IsAlnum(s[i])
    ensures Alnums(s) == []
  {
    if s != [] {
      AlnumsOfNone(s[1..]);
    }
  }

  lemma {:induction false} AlnumsTrimLeft(s: string, p: char -> bool)
    requires forall i :: 0 <= i < |s| && p(s[i]) ==> !IsAlnum(s[i])
    ensures Alnums(TrimLeft(s, p)) == Alnums(s)
  {
    var r := TrimLeft(s, p);
    var k := |s| - |r|;
    var dropped := s[..k];
    assert s == dropped + r;
    forall i | 0 <= i < |dropped| ensures !IsAlnum(dropped[i]) {
      assert dropped[i] == s[i] && p(s[i]);
    }
    AlnumsAppend(dropped, r);
    AlnumsOfNone(dropped);
  }

  lemma {:induction false} AlnumsTrimRight(s: string, p: char -> bool)
    requires forall i :: 0 <= i < |s| && p(s[i]) ==> !IsAlnum(s[i])
    ensures Alnums(TrimRight(s, p)) == Alnums(s)
  {
    var r := TrimRight(s, p);
    var dropped := s[|r|..];
    assert s == r + dropped;
    forall i | 0 <= i < |dropped| ensures !IsAlnum(dropped[i]) {
      assert dropped[i] == s[i + |r|] && p(s[i + |r|]);
    }
    AlnumsAppend(r, dropped);
    AlnumsOfNone(dropped);
  }

  lemma {:induction false} AlnumsLower(s: string)
    ensures Alnums(Lower(s)) == Lower(Alnums(s))
  {
    if s != [] {
      AlnumsLower(s[1..]);
      assert Lower(s) == [LowerChar(s[0])] + Lower(s[1..]);
      AlnumsAppend([LowerChar(s[0])], Lower(s[1..]));
      if IsAlnum(s[0]) {
        assert Alnums(s) == [s[0]] + Alnums(s[1..]);
      } else {
        assert Alnums(s) == Alnums(s[1..]);
      }
    }
  }

  lemma {:induction false} AlnumsKeep(s: string)
    ensures Alnums(Keep(s)) == Alnums(s)
  {
    if s != [] {
      AlnumsKeep(s[1..]);
      AlnumsAppend(if IsKept(s[0]) then [s[0]] else [], Keep(s[1..]));
    }
  }

  lemma {:induction false} AlnumsRuns(s: string, inRun: bool)
    ensures Alnums(Runs(s, inRun)) == Alnums(s)
  {
    if s != [] {
      AlnumsRuns(s[1..], IsSeparator(s[0]));
      if IsSeparator(s[0]) {
        AlnumsAppend(if inRun then [] else "-", Runs(s[1..], true));
      } else {
        AlnumsAppend([s[0]], Runs(s[1..], false));
      }
    }
  }

  /** The letters and digits of the slug are those of the title, lower-cased, in order. */
  lemma {:induction false} SlugifyKeepsLettersAndDigits(title: string)
    ensures Alnums(Slugify(title)) == Lower(Alnums(title))
  {
    var l := Lower(title);
    AlnumsLower(title);
    AlnumsTrimLeft(l, IsSpace);
    AlnumsTrimRight(TrimLeft(l, IsSpace), IsSpace);
    var k := Keep(Trim(l));
    AlnumsKeep(Trim(l));
    var c := Collapse(k);
    AlnumsRuns(k, false);
    AlnumsTrimLeft(c, IsHyphen);
    AlnumsTrimRight(TrimLeft(c, IsHyphen), IsHyphen);
  }

  /** The slug is empty exactly when the title has no ASCII letter or digit. */
  lemma {:induction false} SlugEmptyIffNoLettersOrDigits(title: string)
    ensures Slugify(title) == [] <==> Alnums(title) == []
  {
    var s := Slugify(title);
    SlugifyShape(title);
    SlugifyKeepsLettersAndDigits(title);
    LowerHasNoUpper(Alnums(title));
    if s != [] {
      assert IsAlnum(s[0]);
      assert Alnums(s) == [s[0]] + Alnums(s[1..]);
    }
  }

  // ---------------------------------------------------------------------
  // What happens between two words
  // ---------------------------------------------------------------------

  lemma {:induction false} LowerFixesNonUpper(s: string)
    requires forall i :: 0 <= i < |s| ==> !IsUpper(s[i])
    ensures Lower(s) == s
  {
    LowerHasNoUpper(s);
  }

  lemma TrimFixes(s: string)
    requires s != [] && !IsSpace(s[0]) && !IsSpace(s[|s| - 1])
    ensures Trim(s) == s
  {
    assert TrimLeft(s, IsSpace) == s;
    assert TrimRight(s, IsSpace) == s;
  }

  lemma {:induction false} KeepAppend(a: string, b: string)
    ensures Keep(a + b) == Keep(a) + Keep(b)
  {
    if a == [] {
      assert a + b == b;
    } else {
      var ab := a + b;
      assert ab[0] == a[0] && ab[1..] == a[1..] + b;
      var head := if IsKept(a[0]) then [a[0]] else [];
      KeepAppend(a[1..], b);
      assert Keep(ab) == head + (Keep(a[1..]) + Keep(b));
      assert Keep(a) == head + Keep(a[1..]);
    }
  }

  lemma {:induction false} KeepAllKept(s: string)
    requires forall i :: 0 <= i < |s| ==> IsKept(s[i])
    ensures Keep(s) == s
  {
    if s != [] {
      KeepAllKept(s[1..]);
      assert s == [s[0]] + s[1..];
    }
  }

  /** Whether collapsing is inside a run of separators after reading `s`, having started in `inRun`. */
  function InRunAfter(s: string, inRun: bool): bool {
    if s == [] then inRun else IsSeparator(s[|s| - 1])
  }

  /** Collapsing a concatenation: the second part continues the run the first part ends in. */
  lemma {:induction false} RunsAppend(x: string, y: string, inRun: bool)
    ensures Runs(x + y, inRun) == Runs(x, inRun) + Runs(y, InRunAfter(x, inRun))
  {
    if x == [] {
      assert x + y == y;
    } else {
      var t := x[1..];
      assert (x + y)[1..] == t + y;
      RunsAppend(t, y, IsSeparator(x[0]));
      if t != [] {
        assert t[|t| - 1] == x[|x| - 1];
      }
    }
  }

  /** A whole run of separators collapses to one `-`, or to nothing when it continues a run. */
  lemma {:induction false} RunsOfSeparators(s: string, inRun: bool)
    requires s != [] && forall i :: 0 <= i < |s| ==> IsSeparator(s[i])
    ensures Runs(s, inRun) == if inRun then [] else "-"
  {
    if |s| > 1 {
      RunsOfSeparators(s[1..], true);
    }
  }

  lemma StripFixesSlug(s: string)
    requires IsSlug(s)
    ensures StripHyphens(s) == s
  {
    assert s != [] ==> !IsHyphen(s[0]) && !IsHyphen(s[|s| - 1]);
    assert TrimLeft(s, IsHyphen) == s;
    assert TrimRight(s, IsHyphen) == s;
  }

  /** Two non-empty slugs joined directly or by one `-` form a slug. */
  lemma SlugsJoin(a: string, b: string)
    requires IsSlug(a) && IsSlug(b) && a != [] && b != []
    ensures IsSlug(a + b) && IsSlug(a + "-" + b)
  {
    var s := a + b;
    assert forall i :: 0 <= i < |s| ==> s[i] == if i < |a| then a[i] else b[i - |a|];
    var t := a + "-" + b;
    assert forall i :: 0 <= i < |t| ==> t[i] == if i < |a| then a[i] else if i == |a| then '-' else b[i - |a| - 1];
  }

  /** Lowercasing and trimming leave alone a string that needs neither. */
  lemma LowerTrimFix(s: string)
    requires s != [] && IsLowerAlnum(s[0]) && IsLowerAlnum(s[|s| - 1])
    requires forall i :: 0 <= i < |s| ==> !IsUpper(s[i])
    ensures Trim(Lower(s)) == s
  {
    var l := Lower(s);
    LowerFixesNonUpper(s);
    assert l == s;
    TrimFixes(l);
  }

  lemma FrontPassesFix(s: string)
    requires s != [] && IsLowerAlnum(s[0]) && IsLowerAlnum(s[|s| - 1])
    requires forall i :: 0 <= i < |s| ==> !IsUpper(s[i]) && IsKept(s[i])
    ensures Keep(Trim(Lower(s))) == s
  {
    LowerTrimFix(s);
    KeepAllKept(s);
  }

  lemma SeparatedWords(a: string, sep: string, b: string)
    requires IsSlug(a) && IsSlug(b) && a != [] && b != []
    requires forall i :: 0 <= i < |sep| ==> IsSeparator(sep[i])
    ensures var s := a + sep + b;
      s != [] && IsLowerAlnum(s[0]) && IsLowerAlnum(s[|s| - 1]) &&
      forall i :: 0 <= i < |s| ==> !IsUpper(s[i]) && IsKept(s[i])
  {
    var s := a + sep + b;
    assert forall i :: 0 <= i < |s| ==>
      s[i] == if i < |a| then a[i] else if i < |a| + |sep| then sep[i - |a|] else b[i - |a| - |sep|];
  }

  lemma CollapseRunThenSlug(sep: string, b: string)
    requires IsSlug(b)
    requires sep != [] && forall i :: 0 <= i < |sep| ==> IsSeparator(sep[i])
    ensures Runs(sep + b, false) == "-" + b
  {
    RunsAppend(sep, b, false);
    RunsOfSeparators(sep, false);
    RunsFixSlug(b, true);
  }

  lemma CollapseSeparated(a: string, sep: string, b: string)
    requires IsSlug(a) && IsSlug(b) && a != [] && b != []
    requires sep != [] && forall i :: 0 <= i < |sep| ==> IsSeparator(sep[i])
    ensures Collapse(a + sep + b) == a + "-" + b
  {
    assert !IsSeparator(a[|a| - 1]);
    CollapseRunThenSlug(sep, b);
    RunsFixSlug(a, false);
    RunsAppend(a, sep + b, false);
    assert a + sep + b == a + (sep + b);
  }

  /**
   * Between two words, any run of whitespace, `_` and `-` becomes exactly
   * one `-`: `slugify("snake_case") == "snake-case"`,
   * `slugify("a  -  b") == "a-b"`.
   */
  lemma SeparatorsBecomeOneHyphen(a: string, sep: string, b: string)
    requires IsSlug(a) && IsSlug(b) && a != [] && b != []
    requires sep != [] && forall i :: 0 <= i < |sep| ==> IsSeparator(sep[i])
    ensures Slugify(a + sep + b) == a + "-" + b
  {
    SeparatedWords(a, sep, b);
    FrontPassesFix(a + sep + b);
    CollapseSeparated(a, sep, b);
    SlugsJoin(a, b);
    StripFixesSlug(a + "-" + b);
  }

  lemma KeepDropped(a: string, c: char, b: string)
    requires IsSlug(a) && IsSlug(b) && !IsKept(c)
    ensures Keep(a + [c] + b) == a + b
  {
    KeepAppend(a + [c], b);
    KeepAppend(a, [c]);
    KeepFixesSlug(a);
    KeepFixesSlug(b);
  }

  lemma DroppedWords(a: string, c: char, b: string)
    requires IsSlug(a) && IsSlug(b) && a != [] && b != [] && !IsKept(c)
    ensures var s := a + [c] + b;
      s != [] && IsLowerAlnum(s[0]) && IsLowerAlnum(s[|s| - 1]) &&
      forall i :: 0 <= i < |s| ==> !IsUpper(s[i])
  {
    var s := a + [c] + b;
    assert forall i :: 0 <= i < |s| ==> s[i] == if i < |a| then a[i] else if i == |a| then c else b[i - |a| - 1];
  }

  /**
   * Between two words, a character outside `[\w\s-]` disappears and
   * joins them: `slugify("don't") == "dont"`.
   */
  lemma DroppedCharacterJoins(a: string, c: char, b: string)
    requires IsSlug(a) && IsSlug(b) && a != [] && b != [] && !IsKept(c)
    ensures Slugify(a + [c] + b) == a + b
  {
    DroppedWords(a, c, b);
    LowerTrimFix(a + [c] + b);
    KeepDropped(a, c, b);
    SlugsJoin(a, b);
    assert Collapse(a + b) == a + b by { RunsFixSlug(a + b, false); }
    StripFixesSlug(a + b);
  }
}
