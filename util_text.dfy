/**
 * Text helpers of util.py: clamp_text, ascii_lower, escape and
 * entity_replace.  Python's `str.replace` is modelled by `Replace`
 * (left-to-right, non-overlapping occurrences).
 */
module UtilText {
  import opened Base

  // ---------------------------------------------------------------- clamp_text

  /** The limit clamp_text actually uses: anything below 4 becomes 3. */
  function ClampLimit(maxLength: int): nat
  {
    if maxLength < 4 then 3 else maxLength
  }

  /**
   * clamp_text: text longer than the limit is cut and ends in "...",
   * and the result never exceeds the limit.
   */
  function ClampText(text: string, maxLength: int): (r: string)
    ensures |r| <= ClampLimit(maxLength)
    ensures |text| <= ClampLimit(maxLength) ==> r == text
    ensures |text| > ClampLimit(maxLength) ==>
              |r| == ClampLimit(maxLength) &&
              r[..|r| - 3] == text[..|r| - 3] && r[|r| - 3..] == "..."
  {
    var m := ClampLimit(maxLength);
    if |text| > m then text[..m - 3] + "..." else text
  }

  /** Clamping a clamped text again changes nothing. */
  lemma ClampTextIdempotent(text: string, maxLength: int)
    ensures ClampText(ClampText(text, maxLength), maxLength) == ClampText(text, maxLength)
  {
  }

  // --------------------------------------------------------------- ascii_lower

  function LowerChar(c: char): char
  {
    if 'A' <= c <= 'Z' then (c as int + 32) as char else c
  }

  /**
   * ascii_lower: only the 26 ASCII capitals change, each to its
   * lower-case letter; every other character (also non-ASCII) is kept.
   */
  function AsciiLower(s: string): (r: string)
    ensures |r| == |s|
    ensures forall i :: 0 <= i < |s| ==>
              ('A' <= s[i] <= 'Z' ==> r[i] as int == s[i] as int + 32) &&
              (!('A' <= s[i] <= 'Z') ==> r[i] == s[i])
  {
    if s == [] then [] else [LowerChar(s[0])] + AsciiLower(s[1..])
  }

  /** No ASCII capital survives ascii_lower, so applying it twice is applying it once. */
  lemma {:induction false} AsciiLowerIdempotent(s: string)
    ensures forall i :: 0 <= i < |s| ==> !('A' <= AsciiLower(s)[i] <= 'Z')
    ensures AsciiLower(AsciiLower(s)) == AsciiLower(s)
  {
    var r := AsciiLower(s);
    forall i | 0 <= i < |s|
      ensures !('A' <= r[i] <= 'Z')
    {
    }
    var rr := AsciiLower(r);
    forall i | 0 <= i < |r|
      ensures rr[i] == r[i]
    {
    }
  }

  // ------------------------------------------------------------ str.replace

  /** Python's `s.replace(pat, rep)` for a non-empty pattern. */
  function Replace(s: string, pat: string, rep: string): string
    requires |pat| > 0
    decreases |s|
  {
    if |s| < |pat| then s
    else if s[..|pat|] == pat then rep + Replace(s[|pat|..], pat, rep)
    else [s[0]] + Replace(s[1..], pat, rep)
  }

  /**
   * No suffix of `a` shorter than `pat` is a beginning of `pat`: an
   * occurrence of `pat` in `a + b` can never start inside `a` and end
   * inside `b`.
   */
  predicate NoStraddle(a: string, pat: string)
  {
    if a == [] then true
    else !(|a| < |pat| && a == pat[..|a|]) && NoStraddle(a[1..], pat)
  }

  lemma {:induction false} SingleCharNoStraddle(a: string, pat: string)
    requires |pat| == 1
    ensures NoStraddle(a, pat)
    decreases |a|
  {
    if a != [] {
      SingleCharNoStraddle(a[1..], pat);
    }
  }

  /** Replacing in `a + b` is replacing in each part when nothing straddles the seam. */
  lemma {:induction false} ReplaceConcat(a: string, b: string, pat: string, rep: string)
    requires |pat| > 0
    requires NoStraddle(a, pat)
    ensures Replace(a + b, pat, rep) == Replace(a, pat, rep) + Replace(b, pat, rep)
    decreases |a|, 1
  {
    if a == [] {
      assert a + b == b;
    } else if |a + b| < |pat| {
      ReplaceShort(a, pat, rep);
      ReplaceShort(b, pat, rep);
      ReplaceShort(a + b, pat, rep);
    } else if (a + b)[..|pat|] == pat {
      StraddleAtStart(a, b, pat);
      ReplaceConcatAtMatch(a, b, pat, rep);
    } else {
      ReplaceConcatPastChar(a, b, pat, rep);
    }
  }

  lemma {:induction false} ReplaceConcatAtMatch(a: string, b: string, pat: string, rep: string)
    requires 0 < |pat| <= |a| && NoStraddle(a, pat) && a[..|pat|] == pat
    ensures Replace(a + b, pat, rep) == Replace(a, pat, rep) + Replace(b, pat, rep)
    decreases |a|, 0
  {
    var ab := a + b;
    assert ab[..|pat|] == pat;
    assert ab[|pat|..] == a[|pat|..] + b;
    NoStraddleSuffix(a, pat, |pat|);
    ReplaceConcat(a[|pat|..], b, pat, rep);
  }

  lemma {:induction false} ReplaceConcatPastChar(a: string, b: string, pat: string, rep: string)
    requires 0 < |pat| <= |a + b| && a != [] && NoStraddle(a, pat) && (a + b)[..|pat|] != pat
    ensures Replace(a + b, pat, rep) == Replace(a, pat, rep) + Replace(b, pat, rep)
    decreases |a|, 0
  {
    var ab := a + b;
    assert ab[0] == a[0];
    assert ab[1..] == a[1..] + b;
    ReplaceConcat(a[1..], b, pat, rep);
    if |a| >= |pat| {
      assert a[..|pat|] == ab[..|pat|];
    } else {
      ReplaceShort(a, pat, rep);
      ReplaceShort(a[1..], pat, rep);
      assert a == [a[0]] + a[1..];
    }
  }

  /** An occurrence at the start of `a + b` begins with all of a shorter `a`. */
  lemma StraddleAtStart(a: string, b: string, pat: string)
    requires |pat| <= |a + b| && (a + b)[..|pat|] == pat
    ensures |a| < |pat| ==> a == pat[..|a|]
  {
    if |a| < |pat| {
      assert pat[..|a|] == (a + b)[..|pat|][..|a|];
    }
  }

  lemma {:induction false} NoStraddleSuffix(a: string, pat: string, k: nat)
    requires k <= |a| && NoStraddle(a, pat)
    ensures NoStraddle(a[k..], pat)
    decreases k
  {
    if k > 0 {
      assert a[1..][k - 1..] == a[k..];
      NoStraddleSuffix(a[1..], pat, k - 1);
    }
  }

  lemma ReplaceShort(s: string, pat: string, rep: string)
    requires 0 < |pat| && |s| < |pat|
    ensures Replace(s, pat, rep) == s
  {
  }

  /** A text without the pattern's first character is left as it is. */
  lemma {:induction false} ReplaceWithoutFirstChar(s: string, pat: string, rep: string)
    requires |pat| > 0 && Without(s, pat[0])
    ensures Replace(s, pat, rep) == s
    decreases |s|
  {
    if |s| >= |pat| {
      assert s[..|pat|][0] == s[0];
      ReplaceWithoutFirstChar(s[1..], pat, rep);
    }
  }

  /** Replacing leaves no occurrence of a one-character pattern absent from the replacement. */
  lemma {:induction false} ReplaceRemovesChar(s: string, c: char, rep: string)
    requires Without(rep, c)
    ensures Without(Replace(s, [c], rep), c)
    decreases |s|
  {
    if |s| >= 1 {
      ReplaceRemovesChar(s[1..], c, rep);
      if s[..1] == [c] {
        assert s[1..] == s[|[c]|..];
      }
    }
  }

  /** Replacing never introduces a character found neither in the text nor in the replacement. */
  lemma {:induction false} ReplaceKeepsAbsent(s: string, pat: string, rep: string, c: char)
    requires |pat| > 0 && Without(s, c) && Without(rep, c)
    ensures Without(Replace(s, pat, rep), c)
    decreases |s|
  {
    if |s| >= |pat| {
      if s[..|pat|] == pat {
        ReplaceKeepsAbsent(s[|pat|..], pat, rep, c);
      } else {
        ReplaceKeepsAbsent(s[1..], pat, rep, c);
      }
    }
  }

  // ------------------------------------------------- ordered replacement tables

  datatype Rule = Rule(pattern: string, replacement: string)

  predicate WellFormed(table: seq<Rule>)
  {
    forall k :: 0 <= k < |table| ==> |table[k].pattern| > 0
  }

  /** Applies the rules one after the other, each to the whole text. */
  function ApplyAll(table: seq<Rule>, s: string): string
    requires WellFormed(table)
    decreases |table|
  {
    if table == [] then s
    else ApplyAll(table[1..], Replace(s, table[0].pattern, table[0].replacement))
  }

  lemma {:induction false} ApplyAllSnoc(table: seq<Rule>, s: string, i: nat)
    requires WellFormed(table) && i < |table|
    ensures ApplyAll(table[..i + 1], s) ==
            Replace(ApplyAll(table[..i], s), table[i].pattern, table[i].replacement)
    decreases i
  {
    if i > 0 {
      assert table[..i + 1][1..] == table[1..][..i];
      assert table[..i][1..] == table[1..][..i - 1];
      ApplyAllSnoc(table[1..], Replace(s, table[0].pattern, table[0].replacement), i - 1);
    }
  }

  /** `a` keeps no straddling prefix through every step of the table. */
  predicate SafeToken(table: seq<Rule>, a: string)
    requires WellFormed(table)
    decreases |table|
  {
    table == [] ||
    (NoStraddle(a, table[0].pattern) &&
     SafeToken(table[1..], Replace(a, table[0].pattern, table[0].replacement)))
  }

  /** A table applied to `a + b` is the table applied to each part, for a safe `a`. */
  lemma {:induction false} ApplyAllConcat(table: seq<Rule>, a: string, b: string)
    requires WellFormed(table) && SafeToken(table, a)
    ensures ApplyAll(table, a + b) == ApplyAll(table, a) + ApplyAll(table, b)
    decreases |table|
  {
    if table != [] {
      var r := table[0];
      ReplaceConcat(a, b, r.pattern, r.replacement);
      ApplyAllConcat(table[1..], Replace(a, r.pattern, r.replacement),
                     Replace(b, r.pattern, r.replacement));
    }
  }

  // -------------------------------------------------------------------- escape

  const EscapeTable: seq<Rule> :=
    [Rule("&", "&amp;"), Rule("<", "&lt;"), Rule(">", "&gt;")]

  /** The HTML escape of one character. */
  function EscapeChar(c: char): string
  {
    if c == '&' then "&amp;" else if c == '<' then "&lt;" else if c == '>' then "&gt;" else [c]
  }

  /** Independent reference for escape: every character escaped on its own. */
  function EscapeRef(s: string): string
  {
    if s == [] then [] else EscapeChar(s[0]) + EscapeRef(s[1..])
  }

  lemma SingleCharTableSafe(a: string)
    ensures SafeToken(EscapeTable, a)
  {
    var r1 := Replace(a, "&", "&amp;");
    var r2 := Replace(r1, "<", "&lt;");
    SingleCharNoStraddle(a, "&");
    SingleCharNoStraddle(r1, "<");
    SingleCharNoStraddle(r2, ">");
    assert EscapeTable[1..][1..][1..] == [];
  }

  /** The three ordered passes of escape equal escaping each character once. */
  lemma {:induction false} EscapeMatchesReference(s: string)
    ensures ApplyAll(EscapeTable, s) == EscapeRef(s)
    decreases |s|
  {
    assert WellFormed(EscapeTable);
    if s != [] {
      assert s == [s[0]] + s[1..];
      SingleCharTableSafe([s[0]]);
      ApplyAllConcat(EscapeTable, [s[0]], s[1..]);
      EscapeMatchesReference(s[1..]);
      EscapeOneChar(s[0]);
    }
  }

  /** The three passes of escape on a one-character text. */
  lemma EscapeThreePasses(c: char)
    ensures WellFormed(EscapeTable)
    ensures ApplyAll(EscapeTable, [c]) ==
            Replace(Replace(Replace([c], "&", "&amp;"), "<", "&lt;"), ">", "&gt;")
  {
    assert WellFormed(EscapeTable);
    assert EscapeTable[1..][1..][1..] == [];
  }

  lemma EscapeAmpChar()
    ensures WellFormed(EscapeTable) && ApplyAll(EscapeTable, "&") == "&amp;"
  {
    EscapeThreePasses('&');
    var r1 := Replace("&", "&", "&amp;");
    assert r1 == "&amp;";
    ReplaceWithoutFirstChar(r1, "<", "&lt;");
    ReplaceWithoutFirstChar(r1, ">", "&gt;");
  }

  lemma EscapeLtChar()
    ensures WellFormed(EscapeTable) && ApplyAll(EscapeTable, "<") == "&lt;"
  {
    EscapeThreePasses('<');
    ReplaceWithoutFirstChar("<", "&", "&amp;");
    assert Replace("<", "<", "&lt;") == "&lt;";
    ReplaceWithoutFirstChar("&lt;", ">", "&gt;");
  }

  lemma EscapeGtChar()
    ensures WellFormed(EscapeTable) && ApplyAll(EscapeTable, ">") == "&gt;"
  {
    EscapeThreePasses('>');
    ReplaceWithoutFirstChar(">", "&", "&amp;");
    ReplaceWithoutFirstChar(">", "<", "&lt;");
    assert Replace(">", ">", "&gt;") == "&gt;";
  }

  lemma EscapePlainChar(c: char)
    requires c != '&' && c != '<' && c != '>'
    ensures WellFormed(EscapeTable) && ApplyAll(EscapeTable, [c]) == [c]
  {
    EscapeThreePasses(c);
    ReplaceWithoutFirstChar([c], "&", "&amp;");
    ReplaceWithoutFirstChar([c], "<", "&lt;");
    ReplaceWithoutFirstChar([c], ">", "&gt;");
  }

  lemma EscapeOneChar(c: char)
    ensures WellFormed(EscapeTable) && ApplyAll(EscapeTable, [c]) == EscapeChar(c)
  {
    if c == '&' {
      EscapeAmpChar();
    } else if c == '<' {
      EscapeLtChar();
    } else if c == '>' {
      EscapeGtChar();
    } else {
      EscapePlainChar(c);
    }
  }

  /** The escape of a text contains no '<' and no '>'. */
  lemma {:induction false} EscapeRefNoAngles(s: string)
    ensures Without(EscapeRef(s), '<') && Without(EscapeRef(s), '>')
    decreases |s|
  {
    if s != [] {
      EscapeRefNoAngles(s[1..]);
      var e := EscapeChar(s[0]);
      assert Without(e, '<') && Without(e, '>');
      assert EscapeRef(s) == e + EscapeRef(s[1..]);
    }
  }

  /**
   * escape: the three replacements &->&amp;, <->&lt;, >->&gt; applied in
   * that order.  The result is the character-wise escape of the input and
   * holds no angle bracket.  (The memoising dictionary only returns a value
   * computed earlier for the same input, so it is left out.)
   */
  method Escape(s: string) returns (r: string)
    ensures r == ApplyAll(EscapeTable, s)
    ensures r == EscapeRef(s)
    ensures Without(r, '<') && Without(r, '>')
  {
    assert WellFormed(EscapeTable);
    r := s;
    var i := 0;
    while i < |EscapeTable|
      invariant 0 <= i <= |EscapeTable|
      invariant r == ApplyAll(EscapeTable[..i], s)
    {
      ApplyAllSnoc(EscapeTable, s, i);
      r := Replace(r, EscapeTable[i].pattern, EscapeTable[i].replacement);
      i := i + 1;
    }
    assert EscapeTable[..i] == EscapeTable;
    EscapeMatchesReference(s);
    EscapeRefNoAngles(s);
  }

  // ------------------------------------------------------------ entity_replace

  /** The replacement list of entity_replace, in the order the source applies it. */
  const EntityTable: seq<Rule> :=
    [Rule("&#39;", "'"), Rule("&apos;", "'"), Rule("&#34;", "\""), Rule("&quot;", "\""),
     Rule("&#38;", "&"), Rule("&amp;", "&"), Rule("&#60;", "<"), Rule("&lt;", "<"),
     Rule("&#62;", ">"), Rule("&gt;", ">")]

  lemma EntityTableWellFormed()
    ensures WellFormed(EntityTable) && WellFormed(EntityTableDecodingAmpLast)
  {
  }

  /** entity_replace: the ten replacements applied in order, as written. */
  method EntityReplace(text: string) returns (r: string)
    ensures WellFormed(EntityTable) && r == ApplyAll(EntityTable, text)
  {
    EntityTableWellFormed();
    r := text;
    var i := 0;
    while i < |EntityTable|
      invariant 0 <= i <= |EntityTable|
      invariant r == ApplyAll(EntityTable[..i], text)
    {
      ApplyAllSnoc(EntityTable, text, i);
      r := Replace(r, EntityTable[i].pattern, EntityTable[i].replacement);
      i := i + 1;
    }
    assert EntityTable[..i] == EntityTable;
  }

  /** Every pattern of the table starts with '&'. */
  predicate AmpersandTable(table: seq<Rule>)
  {
    WellFormed(table) && forall k :: 0 <= k < |table| ==> table[k].pattern[0] == '&'
  }

  /** A text without '&' passes through every table of entity patterns unchanged. */
  lemma {:induction false} EntityFreeUnchanged(table: seq<Rule>, s: string)
    requires AmpersandTable(table) && Without(s, '&')
    ensures ApplyAll(table, s) == s
    decreases |table|
  {
    if table != [] {
      ReplaceWithoutFirstChar(s, table[0].pattern, table[0].replacement);
      EntityFreeUnchanged(table[1..], s);
    }
  }

  /** entity_replace leaves text without '&' alone. */
  lemma EntityReplaceLeavesPlainText(s: string)
    requires Without(s, '&')
    ensures WellFormed(EntityTable)
    ensures ApplyAll(EntityTable, s) == s
  {
    EntityTableWellFormed();
    EntityTableRulesOk();
    assert AmpersandTable(EntityTable);
    EntityFreeUnchanged(EntityTable, s);
  }

  /** entity_replace decodes a lone '&lt;' or '&gt;' to its character. */
  lemma EntityReplaceDecodesAngles()
    ensures WellFormed(EntityTable)
    ensures ApplyAll(EntityTable, "&lt;") == "<" && ApplyAll(EntityTable, "&gt;") == ">"
  {
    EntityTableWellFormed();
    SafeEscapedAngles(EntityTable, "&lt;", '<');
    SafeEscapedAngles(EntityTable, "&gt;", '>');
  }

  // ---------------------------------------- tokens walking through a table

  /** No '&' in `s` from index `k` on, checked character by character. */
  predicate NoAmpFrom(s: string, k: nat)
    decreases |s| - k
  {
    k >= |s| || (s[k] != '&' && NoAmpFrom(s, k + 1))
  }

  lemma {:induction false} NoAmpWithout(s: string, k: nat)
    requires NoAmpFrom(s, k) && k <= |s|
    ensures Without(s[k..], '&')
    decreases |s| - k
  {
    if k < |s| {
      NoAmpWithout(s, k + 1);
      assert forall i :: 1 <= i < |s[k..]| ==> s[k..][i] == s[k + 1..][i - 1];
    }
  }

  /** `t` and `p` differ at some index from `k` on that both have. */
  predicate MismatchFrom(t: string, p: string, k: nat)
    decreases |t| - k
  {
    k < |t| && k < |p| && (t[k] != p[k] || MismatchFrom(t, p, k + 1))
  }

  lemma {:induction false} MismatchNotPrefix(t: string, p: string, k: nat, n: nat)
    requires MismatchFrom(t, p, k) && n <= |t| && n <= |p| && (n == |t| || n == |p|)
    ensures t[..n] != p[..n]
    decreases |t| - k
  {
    if t[k] == p[k] {
      MismatchNotPrefix(t, p, k + 1, n);
    } else {
      assert t[..n][k] == t[k] && p[..n][k] == p[k];
    }
  }

  /** `t` agrees with `p` at every index of `p` from `k` on. */
  predicate PrefixFrom(t: string, p: string, k: nat)
    decreases |p| - k
  {
    if k >= |p| then |p| <= |t| else k < |t| && t[k] == p[k] && PrefixFrom(t, p, k + 1)
  }

  lemma {:induction false} PrefixFromFacts(t: string, p: string, k: nat)
    requires PrefixFrom(t, p, k) && k <= |p|
    ensures |p| <= |t| && forall j :: k <= j < |p| ==> t[j] == p[j]
    decreases |p| - k
  {
    if k < |p| {
      PrefixFromFacts(t, p, k + 1);
    }
  }

  /** What one rule does to a token that holds '&' at most at its start. */
  function TokenStep(t: string, r: Rule): string
  {
    if NoAmpFrom(t, 0) || MismatchFrom(t, r.pattern, 1) || |t| < |r.pattern| then t
    else if |t| == |r.pattern| then r.replacement
    else r.replacement + t[|r.pattern|..]
  }

  /** The rule starts with '&' and its replacement holds '&' at most at its start. */
  predicate RuleOk(r: Rule)
  {
    |r.pattern| > 1 && r.pattern[0] == '&' && |r.replacement| > 0 && NoAmpFrom(r.replacement, 1)
  }

  /**
   * The token holds no '&', or holds one only at its start and the rule's
   * pattern either begins the token or differs from it early enough never
   * to match it.
   */
  predicate StepOk(t: string, r: Rule)
  {
    RuleOk(r) &&
    (NoAmpFrom(t, 0) ||
     (|t| > 0 && t[0] == '&' && NoAmpFrom(t, 1) &&
      (MismatchFrom(t, r.pattern, 1) || PrefixFrom(t, r.pattern, 1))))
  }

  /** The token steps safely through the rules from index `k` on. */
  predicate Walk(table: seq<Rule>, k: nat, t: string)
    decreases |table| - k
  {
    k >= |table| || (StepOk(t, table[k]) && Walk(table, k + 1, TokenStep(t, table[k])))
  }

  function WalkResult(table: seq<Rule>, k: nat, t: string): string
    decreases |table| - k
  {
    if k >= |table| then t else WalkResult(table, k + 1, TokenStep(t, table[k]))
  }

  lemma {:induction false} NoStraddleWithout(a: string, pat: string)
    requires |pat| > 0 && Without(a, pat[0])
    ensures NoStraddle(a, pat)
    decreases |a|
  {
    if a != [] {
      NoStraddleWithout(a[1..], pat);
    }
  }

  lemma StepOkFacts(t: string, r: Rule)
    requires StepOk(t, r)
    ensures NoStraddle(t, r.pattern)
    ensures Replace(t, r.pattern, r.replacement) == TokenStep(t, r)
  {
    var p := r.pattern;
    if NoAmpFrom(t, 0) {
      NoAmpWithout(t, 0);
      assert t[0..] == t;
      NoStraddleWithout(t, p);
      ReplaceWithoutFirstChar(t, p, r.replacement);
      return;
    }
    NoAmpWithout(t, 1);
    NoStraddleWithout(t[1..], p);
    if MismatchFrom(t, p, 1) {
      if |t| < |p| {
        MismatchNotPrefix(t, p, 1, |t|);
        assert p[..|t|][..|t|] == p[..|t|];
      } else {
        MismatchNotPrefix(t, p, 1, |p|);
        assert t[..|p|] != p;
        ReplaceWithoutFirstChar(t[1..], p, r.replacement);
      }
    } else {
      PrefixFromFacts(t, p, 1);
      assert t[..|p|] == p;
      assert Without(t[|p|..], '&') by {
        assert forall j :: 0 <= j < |t[|p|..]| ==> t[|p|..][j] == t[1..][j + |p| - 1];
      }
      ReplaceWithoutFirstChar(t[|p|..], p, r.replacement);
    }
  }

  /** A token that walks through the table is safe, and the table maps it to the walk's end. */
  lemma {:induction false} WalkSafe(table: seq<Rule>, k: nat, t: string)
    requires k <= |table| && WellFormed(table) && Walk(table, k, t)
    ensures WellFormed(table[k..])
    ensures SafeToken(table[k..], t) && ApplyAll(table[k..], t) == WalkResult(table, k, t)
    decreases |table| - k
  {
    assert WellFormed(table[k..]);
    if k < |table| {
      StepOkFacts(t, table[k]);
      WalkSafe(table, k + 1, TokenStep(t, table[k]));
      assert table[k..][0] == table[k];
      assert table[k..][1..] == table[k + 1..];
    }
  }

  lemma {:induction false} ApplyAllAppend(t1: seq<Rule>, t2: seq<Rule>, s: string)
    requires WellFormed(t1) && WellFormed(t2)
    ensures WellFormed(t1 + t2)
    ensures ApplyAll(t1 + t2, s) == ApplyAll(t2, ApplyAll(t1, s))
    decreases |t1|
  {
    if t1 == [] {
      assert t1 + t2 == t2;
    } else {
      assert (t1 + t2)[0] == t1[0];
      assert (t1 + t2)[1..] == t1[1..] + t2;
      ApplyAllAppend(t1[1..], t2, Replace(s, t1[0].pattern, t1[0].replacement));
    }
  }

  /** Every rule of the table from index `k` on has the shape the token walk relies on. */
  predicate RulesOk(table: seq<Rule>, k: nat)
    decreases |table| - k
  {
    k >= |table| || (RuleOk(table[k]) && RulesOk(table, k + 1))
  }

  lemma {:induction false} WalkNoAmp(table: seq<Rule>, k: nat, t: string)
    requires RulesOk(table, k) && NoAmpFrom(t, 0)
    ensures Walk(table, k, t) && WalkResult(table, k, t) == t
    decreases |table| - k
  {
    if k < |table| {
      WalkNoAmp(table, k + 1, t);
    }
  }

  lemma EntityTableRulesOk()
    ensures RulesOk(EntityTable, 0) && RulesOk(EntityTableDecodingAmpLast, 0)
  {
  }

  /** One step of a walk, for a token and a rule given as literals. */
  lemma StepWalk(table: seq<Rule>, k: nat, t: string, t2: string, res: string)
    requires k < |table| && StepOk(t, table[k]) && TokenStep(t, table[k]) == t2
    requires Walk(table, k + 1, t2) && WalkResult(table, k + 1, t2) == res
    ensures Walk(table, k, t) && WalkResult(table, k, t) == res
  {
  }

  /** With '&' decoded last, the rules from index 5 on turn "&amp;" into "&". */
  lemma WalkAmpAmpLastTail()
    ensures Walk(EntityTableDecodingAmpLast, 5, "&amp;")
    ensures WalkResult(EntityTableDecodingAmpLast, 5, "&amp;") == "&"
  {
    StepWalk(EntityTableDecodingAmpLast, 9, "&amp;", "&", "&");
    StepWalk(EntityTableDecodingAmpLast, 8, "&amp;", "&amp;", "&");
    StepWalk(EntityTableDecodingAmpLast, 7, "&amp;", "&amp;", "&");
    StepWalk(EntityTableDecodingAmpLast, 6, "&amp;", "&amp;", "&");
    StepWalk(EntityTableDecodingAmpLast, 5, "&amp;", "&amp;", "&");
  }

  /** With '&' decoded last, "&amp;" becomes "&". */
  lemma WalkAmpAmpLast()
    ensures Walk(EntityTableDecodingAmpLast, 0, "&amp;")
    ensures WalkResult(EntityTableDecodingAmpLast, 0, "&amp;") == "&"
  {
    WalkAmpAmpLastTail();
    StepWalk(EntityTableDecodingAmpLast, 4, "&amp;", "&amp;", "&");
    StepWalk(EntityTableDecodingAmpLast, 3, "&amp;", "&amp;", "&");
    StepWalk(EntityTableDecodingAmpLast, 2, "&amp;", "&amp;", "&");
    StepWalk(EntityTableDecodingAmpLast, 1, "&amp;", "&amp;", "&");
    StepWalk(EntityTableDecodingAmpLast, 0, "&amp;", "&amp;", "&");
  }

  /** "&lt;" becomes "<". */
  lemma WalkLt()
    ensures Walk(EntityTable, 0, "&lt;")
    ensures WalkResult(EntityTable, 0, "&lt;") == "<"
  {
    StepWalk(EntityTable, 9, "<", "<", "<");
    StepWalk(EntityTable, 8, "<", "<", "<");
    StepWalk(EntityTable, 7, "&lt;", "<", "<");
    StepWalk(EntityTable, 6, "&lt;", "&lt;", "<");
    StepWalk(EntityTable, 5, "&lt;", "&lt;", "<");
    StepWalk(EntityTable, 4, "&lt;", "&lt;", "<");
    StepWalk(EntityTable, 3, "&lt;", "&lt;", "<");
    StepWalk(EntityTable, 2, "&lt;", "&lt;", "<");
    StepWalk(EntityTable, 1, "&lt;", "&lt;", "<");
    StepWalk(EntityTable, 0, "&lt;", "&lt;", "<");
  }

  /** The rules from index 5 on turn "&gt;" into ">". */
  lemma WalkGtTail()
    ensures Walk(EntityTable, 5, "&gt;")
    ensures WalkResult(EntityTable, 5, "&gt;") == ">"
  {
    StepWalk(EntityTable, 9, "&gt;", ">", ">");
    StepWalk(EntityTable, 8, "&gt;", "&gt;", ">");
    StepWalk(EntityTable, 7, "&gt;", "&gt;", ">");
    StepWalk(EntityTable, 6, "&gt;", "&gt;", ">");
    StepWalk(EntityTable, 5, "&gt;", "&gt;", ">");
  }

  /** "&gt;" becomes ">". */
  lemma WalkGt()
    ensures Walk(EntityTable, 0, "&gt;")
    ensures WalkResult(EntityTable, 0, "&gt;") == ">"
  {
    WalkGtTail();
    StepWalk(EntityTable, 4, "&gt;", "&gt;", ">");
    StepWalk(EntityTable, 3, "&gt;", "&gt;", ">");
    StepWalk(EntityTable, 2, "&gt;", "&gt;", ">");
    StepWalk(EntityTable, 1, "&gt;", "&gt;", ">");
    StepWalk(EntityTable, 0, "&gt;", "&gt;", ">");
  }

  /** With '&' decoded last, the rules from index 5 on turn "&lt;" into "<". */
  lemma WalkLtAmpLastTail()
    ensures Walk(EntityTableDecodingAmpLast, 5, "&lt;")
    ensures WalkResult(EntityTableDecodingAmpLast, 5, "&lt;") == "<"
  {
    StepWalk(EntityTableDecodingAmpLast, 9, "<", "<", "<");
    StepWalk(EntityTableDecodingAmpLast, 8, "<", "<", "<");
    StepWalk(EntityTableDecodingAmpLast, 7, "<", "<", "<");
    StepWalk(EntityTableDecodingAmpLast, 6, "<", "<", "<");
    StepWalk(EntityTableDecodingAmpLast, 5, "&lt;", "<", "<");
  }

  /** With '&' decoded last, "&lt;" becomes "<". */
  lemma WalkLtAmpLast()
    ensures Walk(EntityTableDecodingAmpLast, 0, "&lt;")
    ensures WalkResult(EntityTableDecodingAmpLast, 0, "&lt;") == "<"
  {
    WalkLtAmpLastTail();
    StepWalk(EntityTableDecodingAmpLast, 4, "&lt;", "&lt;", "<");
    StepWalk(EntityTableDecodingAmpLast, 3, "&lt;", "&lt;", "<");
    StepWalk(EntityTableDecodingAmpLast, 2, "&lt;", "&lt;", "<");
    StepWalk(EntityTableDecodingAmpLast, 1, "&lt;", "&lt;", "<");
    StepWalk(EntityTableDecodingAmpLast, 0, "&lt;", "&lt;", "<");
  }

  /** With '&' decoded last, the rules from index 5 on turn "&gt;" into ">". */
  lemma WalkGtAmpLastTail()
    ensures Walk(EntityTableDecodingAmpLast, 5, "&gt;")
    ensures WalkResult(EntityTableDecodingAmpLast, 5, "&gt;") == ">"
  {
    StepWalk(EntityTableDecodingAmpLast, 9, ">", ">", ">");
    StepWalk(EntityTableDecodingAmpLast, 8, ">", ">", ">");
    StepWalk(EntityTableDecodingAmpLast, 7, "&gt;", ">", ">");
    StepWalk(EntityTableDecodingAmpLast, 6, "&gt;", "&gt;", ">");
    StepWalk(EntityTableDecodingAmpLast, 5, "&gt;", "&gt;", ">");
  }

  /** With '&' decoded last, "&gt;" becomes ">". */
  lemma WalkGtAmpLast()
    ensures Walk(EntityTableDecodingAmpLast, 0, "&gt;")
    ensures WalkResult(EntityTableDecodingAmpLast, 0, "&gt;") == ">"
  {
    WalkGtAmpLastTail();
    StepWalk(EntityTableDecodingAmpLast, 4, "&gt;", "&gt;", ">");
    StepWalk(EntityTableDecodingAmpLast, 3, "&gt;", "&gt;", ">");
    StepWalk(EntityTableDecodingAmpLast, 2, "&gt;", "&gt;", ">");
    StepWalk(EntityTableDecodingAmpLast, 1, "&gt;", "&gt;", ">");
    StepWalk(EntityTableDecodingAmpLast, 0, "&gt;", "&gt;", ">");
  }

  lemma SafeEscapedAmp(t: string)
    requires t == "&amp;"
    ensures WellFormed(EntityTableDecodingAmpLast)
    ensures SafeToken(EntityTableDecodingAmpLast, t)
    ensures ApplyAll(EntityTableDecodingAmpLast, t) == "&"
  {
    EntityTableWellFormed();
    WalkAmpAmpLast();
    WalkSafe(EntityTableDecodingAmpLast, 0, t);
    assert EntityTableDecodingAmpLast[0..] == EntityTableDecodingAmpLast;
  }

  /** The rules from index 5 on leave "&#35;" as it is. */
  lemma WalkNumericHashTail()
    ensures Walk(EntityTable, 5, "&#35;")
    ensures WalkResult(EntityTable, 5, "&#35;") == "&#35;"
  {
    var t := "&#35;";
    StepWalk(EntityTable, 9, t, t, t);
    StepWalk(EntityTable, 8, t, t, t);
    StepWalk(EntityTable, 7, t, t, t);
    StepWalk(EntityTable, 6, t, t, t);
    StepWalk(EntityTable, 5, t, t, t);
  }

  /** "&#35;" matches no rule of the table and walks through it unchanged. */
  lemma WalkNumericHash()
    ensures Walk(EntityTable, 0, "&#35;")
    ensures WalkResult(EntityTable, 0, "&#35;") == "&#35;"
  {
    var t := "&#35;";
    WalkNumericHashTail();
    StepWalk(EntityTable, 4, t, t, t);
    StepWalk(EntityTable, 3, t, t, t);
    StepWalk(EntityTable, 2, t, t, t);
    StepWalk(EntityTable, 1, t, t, t);
    StepWalk(EntityTable, 0, t, t, t);
  }

  /** entity_replace leaves an entity outside its table, such as "&#35;", as it is. */
  lemma EntityReplaceKeepsUnknownEntity()
    ensures WellFormed(EntityTable)
    ensures ApplyAll(EntityTable, "&#35;") == "&#35;"
  {
    EntityTableWellFormed();
    WalkNumericHash();
    WalkSafe(EntityTable, 0, "&#35;");
    assert EntityTable[0..] == EntityTable;
  }

  lemma SafeEscapedAngles(table: seq<Rule>, t: string, c: char)
    requires table == EntityTable || table == EntityTableDecodingAmpLast
    requires (c == '<' && t == "&lt;") || (c == '>' && t == "&gt;")
    ensures WellFormed(table)
    ensures SafeToken(table, t) && ApplyAll(table, t) == [c]
  {
    EntityTableWellFormed();
    if table == EntityTable {
      WalkLt();
      WalkGt();
    } else {
      WalkLtAmpLast();
      WalkGtAmpLast();
    }
    WalkSafe(table, 0, t);
    assert table[0..] == table;
  }

  lemma SafePlainChar(table: seq<Rule>, c: char)
    requires table == EntityTable || table == EntityTableDecodingAmpLast
    requires c != '&'
    ensures WellFormed(table) && SafeToken(table, [c]) && ApplyAll(table, [c]) == [c]
  {
    EntityTableWellFormed();
    EntityTableRulesOk();
    WalkNoAmp(table, 0, [c]);
    WalkSafe(table, 0, [c]);
    assert table[0..] == table;
  }

  /** The token of each escaped character passes safely through a table. */
  lemma EscapedTokenSafe(table: seq<Rule>, c: char)
    requires table == EntityTable || table == EntityTableDecodingAmpLast
    requires c != '&' || table == EntityTableDecodingAmpLast
    ensures WellFormed(table) && SafeToken(table, EscapeChar(c))
    ensures ApplyAll(table, EscapeChar(c)) == [c]
  {
    if c == '&' {
      SafeEscapedAmp(EscapeChar(c));
    } else if c == '<' || c == '>' {
      SafeEscapedAngles(table, EscapeChar(c), c);
    } else {
      SafePlainChar(table, c);
    }
  }

  /** Decoding the escape of a text peels off its first character. */
  lemma DecodeStep(table: seq<Rule>, s: string)
    requires table == EntityTable || table == EntityTableDecodingAmpLast
    requires s != [] && (s[0] != '&' || table == EntityTableDecodingAmpLast)
    ensures WellFormed(table)
    ensures ApplyAll(table, EscapeRef(s)) == [s[0]] + ApplyAll(table, EscapeRef(s[1..]))
  {
    EscapedTokenSafe(table, s[0]);
    ApplyAllConcat(table, EscapeChar(s[0]), EscapeRef(s[1..]));
  }

  /**
   * entity_replace undoes escape on every text without '&' (the case the
   * as-written order gets right).
   */
  lemma {:induction false} EntityReplaceUndoesEscapeWithoutAmpersand(s: string)
    requires Without(s, '&')
    ensures WellFormed(EntityTable) && ApplyAll(EntityTable, EscapeRef(s)) == s
    decreases |s|
  {
    EntityTableWellFormed();
    if s != [] {
      DecodeStep(EntityTable, s);
      EntityReplaceUndoesEscapeWithoutAmpersand(s[1..]);
    }
  }

  /**
   * As written, "&amp;" is decoded before "&lt;", so an escaped "&lt;"
   * comes back as "<": the text is decoded twice.
   */
  lemma EntityReplaceDecodesTwice(t: string)
    requires t == EscapeRef("&lt;")
    ensures t == "&amp;lt;"
    ensures WellFormed(EntityTable) && ApplyAll(EntityTable, t) == "<"
  {
    EscapeOfEntity();
    EntityTableWellFormed();
    WalkDoubleEscaped();
    WalkSafe(EntityTable, 0, t);
    assert EntityTable[0..] == EntityTable;
  }

  lemma EscapeOfEntity()
    ensures EscapeRef("&lt;") == "&amp;lt;"
  {
    assert EscapeRef(";") == ";";
    assert EscapeRef("t;") == "t;";
    assert EscapeRef("lt;") == "lt;";
  }

  /** After '&amp;' has become '&', the rules from index 6 on turn "&lt;" into "<". */
  lemma WalkDoubleEscapedTail()
    ensures Walk(EntityTable, 6, "&lt;")
    ensures WalkResult(EntityTable, 6, "&lt;") == "<"
  {
    StepWalk(EntityTable, 9, "<", "<", "<");
    StepWalk(EntityTable, 8, "<", "<", "<");
    StepWalk(EntityTable, 7, "&lt;", "<", "<");
    StepWalk(EntityTable, 6, "&lt;", "&lt;", "<");
  }

  /** The rule at index 5 turns '&amp;' into '&', leaving "&lt;" for the rest. */
  lemma WalkDoubleEscapedMiddle()
    ensures Walk(EntityTable, 5, "&amp;lt;")
    ensures WalkResult(EntityTable, 5, "&amp;lt;") == "<"
  {
    WalkDoubleEscapedTail();
    StepWalk(EntityTable, 5, "&amp;lt;", "&lt;", "<");
  }

  /** The quote and '<' rules leave "&amp;lt;" alone. */
  lemma WalkDoubleEscapedOpening()
    ensures Walk(EntityTable, 2, "&amp;lt;")
    ensures WalkResult(EntityTable, 2, "&amp;lt;") == "<"
  {
    WalkDoubleEscapedMiddle();
    StepWalk(EntityTable, 4, "&amp;lt;", "&amp;lt;", "<");
    StepWalk(EntityTable, 3, "&amp;lt;", "&amp;lt;", "<");
    StepWalk(EntityTable, 2, "&amp;lt;", "&amp;lt;", "<");
  }

  /** "&amp;lt;" is decoded twice, down to "<". */
  lemma WalkDoubleEscaped()
    ensures Walk(EntityTable, 0, "&amp;lt;")
    ensures WalkResult(EntityTable, 0, "&amp;lt;") == "<"
  {
    WalkDoubleEscapedOpening();
    StepWalk(EntityTable, 1, "&amp;lt;", "&amp;lt;", "<");
    StepWalk(EntityTable, 0, "&amp;lt;", "&amp;lt;", "<");
  }

  /** The same replacements with the two '&' entities decoded last. */
  const EntityTableDecodingAmpLast: seq<Rule> :=
    [Rule("&#39;", "'"), Rule("&apos;", "'"), Rule("&#34;", "\""), Rule("&quot;", "\""),
     Rule("&#60;", "<"), Rule("&lt;", "<"), Rule("&#62;", ">"), Rule("&gt;", ">"),
     Rule("&#38;", "&"), Rule("&amp;", "&")]

  /** With '&' decoded last, entity replacement undoes escape on every text. */
  lemma {:induction false} EntityReplaceAmpLastUndoesEscape(s: string)
    ensures WellFormed(EntityTableDecodingAmpLast)
    ensures ApplyAll(EntityTableDecodingAmpLast, EscapeRef(s)) == s
    decreases |s|
  {
    EntityTableWellFormed();
    if s != [] {
      DecodeStep(EntityTableDecodingAmpLast, s);
      EntityReplaceAmpLastUndoesEscape(s[1..]);
    }
  }

  /** Corrected entity_replace: decodes '&' entities last. */
  method EntityReplaceAmpLast(text: string) returns (r: string)
    ensures WellFormed(EntityTableDecodingAmpLast)
    ensures r == ApplyAll(EntityTableDecodingAmpLast, text)
  {
    EntityTableWellFormed();
    r := text;
    var i := 0;
    while i < |EntityTableDecodingAmpLast|
      invariant 0 <= i <= |EntityTableDecodingAmpLast|
      invariant r == ApplyAll(EntityTableDecodingAmpLast[..i], text)
    {
      ApplyAllSnoc(EntityTableDecodingAmpLast, text, i);
      r := Replace(r, EntityTableDecodingAmpLast[i].pattern, EntityTableDecodingAmpLast[i].replacement);
      i := i + 1;
    }
    assert EntityTableDecodingAmpLast[..i] == EntityTableDecodingAmpLast;
  }
}
