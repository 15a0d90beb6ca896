/** The "contains" filter operator: the requested text is escaped and matched with SQL LIKE. */
module LikeFilter {
  import Text

  /** How the database folds one character before it compares. */
  type Fold = char -> char

  // ----- Escaping

  function Replace(s: string, c: char, sub: string): string {
    if s == "" then "" else (if s[0] == c then sub else [s[0]]) + Replace(s[1..], c, sub)
  }

  /** Three replacements, one after another. */
  function EscapeLikePattern(v: string): string {
    Replace(Replace(Replace(v, '\\', "\\\\"), '%', "\\%"), '_', "\\_")
  }

  predicate Special(c: char) {
    c == '\\' || c == '%' || c == '_'
  }

  /** One pass: a backslash goes before every special character. */
  function EscapeOnce(v: string): string {
    if v == "" then "" else (if Special(v[0]) then ['\\', v[0]] else [v[0]]) + EscapeOnce(v[1..])
  }

  function ContainsPattern(v: string): string {
    "%" + EscapeLikePattern(v) + "%"
  }

  // ----- LIKE with backslash as the escape character

  /** A lone backslash at the end of a pattern matches nothing. */
  predicate Like(fold: Fold, pattern: string, s: string)
    decreases |pattern| + |s|
  {
    if pattern == "" then s == ""
    else if pattern[0] == '%' then
      Like(fold, pattern[1..], s) || (s != "" && Like(fold, pattern, s[1..]))
    else if pattern[0] == '_' then
      s != "" && Like(fold, pattern[1..], s[1..])
    else if pattern[0] == '\\' then
      |pattern| > 1 && s != "" && fold(pattern[1]) == fold(s[0]) && Like(fold, pattern[2..], s[1..])
    else
      s != "" && fold(pattern[0]) == fold(s[0]) && Like(fold, pattern[1..], s[1..])
  }

  predicate SameFolded(fold: Fold, v: string, s: string) {
    |v| == |s| && forall k :: 0 <= k < |v| ==> fold(v[k]) == fold(s[k])
  }

  predicate OccursAt(fold: Fold, v: string, s: string, i: int) {
    0 <= i <= |s| - |v| && SameFolded(fold, v, s[i..i + |v|])
  }

  /** `v` occurs in `s`, character by character up to folding. */
  ghost predicate Occurs(fold: Fold, v: string, s: string) {
    exists i :: OccursAt(fold, v, s, i)
  }

  /** Unescaped, an underscore stands for any one character and a percent sign for any text. */
  lemma WildcardMeaning(fold: Fold, s: string)
    ensures Like(fold, "_", s) <==> |s| == 1
    ensures Like(fold, "%", s)
    ensures !Like(fold, "\\", s)
  {
    PercentMatchesAll(fold, s);
    assert "_"[1..] == "";
    if |s| > 0 {
      assert |s[1..]| == |s| - 1;
    }
  }

  // ----- The chained replacements equal the single pass

  lemma {:induction false} ReplaceConcat(s: string, t: string, c: char, sub: string)
    ensures Replace(s + t, c, sub) == Replace(s, c, sub) + Replace(t, c, sub)
  {
    if s == "" {
      assert s + t == t;
    } else {
      assert (s + t)[1..] == s[1..] + t;
      ReplaceConcat(s[1..], t, c, sub);
    }
  }

  lemma EscapeChar(c: char)
    ensures EscapeLikePattern([c]) == if Special(c) then ['\\', c] else [c]
  {
    assert forall a: char, d: char, sub: string :: Replace([d], a, sub) == if d == a then sub else [d] by {
      forall a: char, d: char, sub: string ensures Replace([d], a, sub) == if d == a then sub else [d] {
        assert [d][1..] == "";
        assert sub + "" == sub && [d] + "" == [d];
      }
    }
    ReplaceConcat("\\", "\\", '%', "\\%");
    ReplaceConcat("\\", "\\", '_', "\\_");
    ReplaceConcat("\\", "%", '_', "\\_");
    assert "\\" + "\\" == "\\\\" && "\\" + "%" == "\\%";
  }

  lemma EscapeConcat(s: string, t: string)
    ensures EscapeLikePattern(s + t) == EscapeLikePattern(s) + EscapeLikePattern(t)
  {
    ReplaceConcat(s, t, '\\', "\\\\");
    var s1, t1 := Replace(s, '\\', "\\\\"), Replace(t, '\\', "\\\\");
    ReplaceConcat(s1, t1, '%', "\\%");
    ReplaceConcat(Replace(s1, '%', "\\%"), Replace(t1, '%', "\\%"), '_', "\\_");
  }

  /** The later replacements never touch a backslash an earlier one inserted. */
  lemma {:induction false} ChainedIsSinglePass(v: string)
    ensures EscapeLikePattern(v) == EscapeOnce(v)
  {
    if v == "" {
    } else {
      assert v == [v[0]] + v[1..];
      EscapeConcat([v[0]], v[1..]);
      EscapeChar(v[0]);
      ChainedIsSinglePass(v[1..]);
    }
  }

  /** Escaping the backslash last would undo the protection of the wildcards. */
  lemma BackslashMustComeFirst()
    ensures Replace(Replace("%", '%', "\\%"), '\\', "\\\\") == "\\\\%"
    ensures EscapeLikePattern("%") == "\\%"
    ensures forall fold: Fold :: Like(fold, "\\\\%", "\\x") && !Like(fold, "\\%", "\\x")
  {
    assert Replace("%", '%', "\\%") == "\\%" by {
      assert "%"[1..] == "";
    }
    assert "\\%"[1..] == "%" && "%"[1..] == "";
    assert Replace("%", '\\', "\\\\") == "%";
    assert Replace("\\%", '\\', "\\\\") == "\\\\%";
    EscapeChar('%');
    forall fold: Fold ensures Like(fold, "\\\\%", "\\x") && !Like(fold, "\\%", "\\x") {
      assert "\\\\%"[2..] == "%" && "\\x"[1..] == "x";
      PercentMatchesAll(fold, "x");
      assert "\\%"[2..] == "";
    }
  }

  // ----- Matching an escaped text

  lemma {:induction false} PercentMatchesAll(fold: Fold, s: string)
    ensures Like(fold, "%", s)
  {
    if s == "" {
    } else {
      PercentMatchesAll(fold, s[1..]);
    }
  }

  lemma {:induction false} LeadingPercent(fold: Fold, p: string, s: string)
    ensures Like(fold, "%" + p, s) <==> exists i :: 0 <= i <= |s| && Like(fold, p, s[i..])
    decreases |s|
  {
    assert ("%" + p)[1..] == p && s[0..] == s;
    if s == "" {
    } else {
      LeadingPercent(fold, p, s[1..]);
      forall i | 0 <= i < |s| ensures s[1..][i..] == s[i + 1..] {}
      if exists i :: 0 <= i <= |s| && Like(fold, p, s[i..]) {
        var i :| 0 <= i <= |s| && Like(fold, p, s[i..]);
        if i > 0 {
          assert s[1..][i - 1..] == s[i..];
        }
      }
    }
  }

  /** An escaped text matches exactly itself, up to folding, at the head of the subject. */
  lemma {:induction false} EscapedPrefix(fold: Fold, v: string, rest: string, s: string)
    ensures Like(fold, EscapeOnce(v) + rest, s)
       <==> |v| <= |s| && SameFolded(fold, v, s[..|v|]) && Like(fold, rest, s[|v|..])
    decreases |v|
  {
    if v == "" {
      assert EscapeOnce(v) + rest == rest && s[0..] == s;
    } else {
      var p := EscapeOnce(v) + rest;
      var tail := EscapeOnce(v[1..]) + rest;
      assert p == (if Special(v[0]) then ['\\', v[0]] else [v[0]]) + tail;
      assert Special(v[0]) ==> p[2..] == tail;
      assert !Special(v[0]) ==> p[1..] == tail;
      if s != "" {
        EscapedPrefix(fold, v[1..], rest, s[1..]);
      }
    }
  }

  /** The operator means what its name says: the pattern built from `v` matches `s` exactly when `v`
      occurs in `s` up to folding, whatever wildcards or backslashes `v` holds. */
  lemma ContainsMatchesSubstrings(fold: Fold, v: string, s: string)
    ensures Like(fold, ContainsPattern(v), s) <==> Occurs(fold, v, s)
  {
    hide Like, SameFolded;
    ChainedIsSinglePass(v);
    var p := EscapeOnce(v) + "%";
    assert ContainsPattern(v) == "%" + p;
    LeadingPercent(fold, p, s);
    forall i | 0 <= i <= |s|
      ensures Like(fold, p, s[i..]) <==> OccursAt(fold, v, s, i)
    {
      EscapedPrefix(fold, v, "%", s[i..]);
      if i <= |s| - |v| {
        assert s[i..][..|v|] == s[i..i + |v|];
        PercentMatchesAll(fold, s[i..][|v|..]);
      }
    }
    if Occurs(fold, v, s) {
      var i :| OccursAt(fold, v, s, i);
      assert Like(fold, p, s[i..]);
    }
  }

  // ----- Databases without a case-blind LIKE lower both sides first

  function Folded(fold: Fold, s: string): string {
    seq(|s|, i requires 0 <= i < |s| => fold(s[i]))
  }

  /** Folding neither makes nor hides a special character. */
  ghost predicate KeepsSpecials(fold: Fold) {
    forall c: char :: (Special(c) ==> fold(c) == c) && (Special(fold(c)) ==> fold(c) == c)
  }

  lemma {:induction false} LoweringBothSidesAgrees(fold: Fold, p: string, s: string)
    requires KeepsSpecials(fold)
    ensures Like(c => c, Folded(fold, p), Folded(fold, s)) <==> Like(fold, p, s)
    decreases |p| + |s|
  {
    var id: Fold := c => c;
    if p == "" {
    } else {
      assert Folded(fold, p)[1..] == Folded(fold, p[1..]);
      LoweringBothSidesAgrees(fold, p[1..], s);
      if s != "" {
        assert Folded(fold, s)[1..] == Folded(fold, s[1..]);
        LoweringBothSidesAgrees(fold, p, s[1..]);
        LoweringBothSidesAgrees(fold, p[1..], s[1..]);
        if |p| > 1 {
          assert Folded(fold, p)[2..] == Folded(fold, p[2..]);
          LoweringBothSidesAgrees(fold, p[2..], s[1..]);
        }
      }
    }
  }

  /** SQLite's form of the operator: both sides lowered, then a case-sensitive LIKE. */
  lemma LoweredContains(v: string, s: string)
    ensures Like(c => c, Text.Lower(ContainsPattern(v)), Text.Lower(s)) <==> Occurs(Text.LowerChar, v, s)
  {
    assert KeepsSpecials(Text.LowerChar);
    LoweringBothSidesAgrees(Text.LowerChar, ContainsPattern(v), s);
    assert Text.Lower(s) == Folded(Text.LowerChar, s);
    assert Text.Lower(ContainsPattern(v)) == Folded(Text.LowerChar, ContainsPattern(v));
    ContainsMatchesSubstrings(Text.LowerChar, v, s);
  }
}
