/** The string operations the services rely on: case folding, stripping,
    decimal rendering and the integer parser applied to request values. */
module Text {
  import opened Prelude

  function LowerChar(c: char): char {
    if 'A' <= c <= 'Z' then (c as int + 32) as char else c
  }

  /** Character-wise case folding (ASCII letters). */
  function Lower(s: string): (r: string)
    ensures |r| == |s|
  {
    seq(|s|, i requires 0 <= i < |s| => LowerChar(s[i]))
  }

  predicate IsSpace(c: char) {
    c == ' ' || ('\t' <= c <= '\r') || ('\U{001C}' <= c <= '\U{001F}')
  }

  function StripLeft(s: string): string {
    if s != "" && IsSpace(s[0]) then StripLeft(s[1..]) else s
  }

  function StripRight(s: string): string {
    if s != "" && IsSpace(s[|s| - 1]) then StripRight(s[..|s| - 1]) else s
  }

  function Strip(s: string): string {
    StripRight(StripLeft(s))
  }

  predicate Stripped(s: string) {
    s != "" ==> !IsSpace(s[0]) && !IsSpace(s[|s| - 1])
  }

  lemma {:induction false} StripRightTrims(s: string)
    ensures var r := StripRight(s);
            && r <= s
            && (r != "" ==> !IsSpace(r[|r| - 1]))
  {
    if s == "" || !IsSpace(s[|s| - 1]) {
    } else {
      StripRightTrims(s[..|s| - 1]);
    }
  }

  lemma {:induction false} StripLeftTrims(s: string)
    ensures var r := StripLeft(s); r != "" ==> !IsSpace(r[0])
  {
    if s == "" || !IsSpace(s[0]) {
    } else {
      StripLeftTrims(s[1..]);
    }
  }

  lemma StripIsStripped(s: string)
    ensures Stripped(Strip(s))
  {
    StripLeftTrims(s);
    StripRightTrims(StripLeft(s));
  }

  lemma StripOfStripped(s: string)
    requires Stripped(s)
    ensures Strip(s) == s
  {
  }

  // ----- Decimal rendering and integer parsing

  predicate IsDigit(c: char) {
    '0' <= c <= '9'
  }

  function DigitValue(c: char): nat
    requires IsDigit(c)
  {
    c as int - '0' as int
  }

  /** str(n) for a non-negative row id. */
  function Decimal(n: nat): string {
    if n < 10 then [('0' as int + n) as char]
    else Decimal(n / 10) + [('0' as int + n % 10) as char]
  }

  /** Digits, with single underscores allowed between them, as int() accepts. */
  predicate DigitGroups(s: string) {
    && s != "" && IsDigit(s[0]) && IsDigit(s[|s| - 1])
    && (forall i :: 0 <= i < |s| ==> IsDigit(s[i]) || s[i] == '_')
    && (forall i :: 0 < i < |s| && s[i] == '_' ==> s[i - 1] != '_')
  }

  function DigitsValue(s: string): nat
    requires forall i :: 0 <= i < |s| ==> IsDigit(s[i]) || s[i] == '_'
  {
    if s == "" then 0
    else
      var rest := DigitsValue(s[..|s| - 1]);
      if s[|s| - 1] == '_' then rest else 10 * rest + DigitValue(s[|s| - 1])
  }

  /** int(s) on a string: surrounding space, an optional sign, then digit groups. */
  function ParseInt(s: string): Option<int> {
    var t := Strip(s);
    var signed := t != "" && (t[0] == '-' || t[0] == '+');
    var digits := if signed then t[1..] else t;
    if !DigitGroups(digits) then None
    else
      var n: int := DigitsValue(digits);
      Some(if signed && t[0] == '-' then -n else n)
  }

  lemma {:induction false} DecimalDigits(n: nat)
    ensures var s := Decimal(n);
            && s != ""
            && (forall i :: 0 <= i < |s| ==> IsDigit(s[i]))
            && DigitsValue(s) == n
  {
    if n < 10 {
      assert DigitsValue(Decimal(n)[..0]) == 0;
    } else {
      DecimalDigits(n / 10);
      var s := Decimal(n);
      assert s[..|s| - 1] == Decimal(n / 10);
      assert DigitValue(s[|s| - 1]) == n % 10;
    }
  }

  /** A rendered row id parses back to itself. */
  lemma ParseDecimal(n: nat)
    ensures ParseInt(Decimal(n)) == Some(n as int)
  {
    DecimalDigits(n);
  }

  lemma DecimalInjective(a: nat, b: nat)
    requires Decimal(a) == Decimal(b)
    ensures a == b
  {
    DecimalDigits(a);
    DecimalDigits(b);
  }

  // ----- What the string operations do, character by character

  /** Capital letters become small ones, everything else stays. */
  lemma LowerMeaning(s: string, i: nat)
    requires i < |s|
    ensures 'A' <= s[i] <= 'Z' ==> Lower(s)[i] as int == s[i] as int + ('a' as int - 'A' as int)
    ensures !('A' <= s[i] <= 'Z') ==> Lower(s)[i] == s[i]
  {
  }

  predicate AllSpace(s: string) {
    forall i :: 0 <= i < |s| ==> s[i] in " \t\n\U{000B}\U{000C}\r\U{001C}\U{001D}\U{001E}\U{001F}"
  }

  lemma SpaceMeaning(c: char)
    ensures IsSpace(c) <==> c in " \t\n\U{000B}\U{000C}\r\U{001C}\U{001D}\U{001E}\U{001F}"
  {
    if '\t' <= c <= '\r' {
      assert c as int in {9, 10, 11, 12, 13};
    }
    if '\U{001C}' <= c <= '\U{001F}' {
      assert c as int in {28, 29, 30, 31};
    }
  }

  lemma {:induction false} StripLeftCuts(s: string) returns (i: nat)
    ensures i <= |s| && StripLeft(s) == s[i..] && AllSpace(s[..i])
  {
    if s == "" || !IsSpace(s[0]) {
      i := 0;
    } else {
      SpaceMeaning(s[0]);
      i := StripLeftCuts(s[1..]);
      assert s[..i + 1] == [s[0]] + s[1..][..i];
      i := i + 1;
    }
  }

  lemma {:induction false} StripRightCuts(s: string) returns (j: nat)
    ensures j <= |s| && StripRight(s) == s[..j] && AllSpace(s[j..])
  {
    if s == "" || !IsSpace(s[|s| - 1]) {
      j := |s|;
    } else {
      SpaceMeaning(s[|s| - 1]);
      j := StripRightCuts(s[..|s| - 1]);
      assert s[j..] == s[..|s| - 1][j..] + [s[|s| - 1]];
    }
  }

  /** Stripping cuts white space off both ends, and nothing else, until none is left there. */
  lemma StripMeaning(s: string) returns (i: nat, j: nat)
    ensures i <= j <= |s| && Strip(s) == s[i..j] && AllSpace(s[..i]) && AllSpace(s[j..])
    ensures i < j ==> !AllSpace([s[i]]) && !AllSpace([s[j - 1]])
  {
    i := StripLeftCuts(s);
    var k := StripRightCuts(s[i..]);
    j := i + k;
    assert s[i..][..k] == s[i..j] && s[i..][k..] == s[j..];
    StripIsStripped(s);
    if i < j {
      SpaceMeaning(s[i]);
      SpaceMeaning(s[j - 1]);
      assert Strip(s)[0] == s[i] && Strip(s)[j - i - 1] == s[j - 1];
      assert [s[i]][0] == s[i] && [s[j - 1]][0] == s[j - 1];
    }
  }

  lemma {:induction false} StripPadded(before: string, s: string, after: string)
    requires AllSpace(before) && AllSpace(after) && s != "" && Stripped(s)
    ensures Strip(before + s + after) == s
    decreases |before|, |after|
  {
    if before != "" {
      var all := before + s + after;
      SpaceMeaning(before[0]);
      assert all[1..] == before[1..] + s + after;
      StripPadded(before[1..], s, after);
    } else if after != "" {
      var all := before + s + after;
      var n := |all| - 1;
      SpaceMeaning(after[|after| - 1]);
      assert all[n] == after[|after| - 1] && all[..n] == before + s + after[..|after| - 1];
      assert all[0] == s[0] && StripLeft(all) == all && StripLeft(all[..n]) == all[..n];
      StripPadded(before, s, after[..|after| - 1]);
    } else {
      assert before + s + after == s;
      StripOfStripped(s);
    }
  }

  lemma DigitsParse(n: nat)
    ensures var d := Decimal(n); d != "" && Stripped(d) && DigitGroups(d) && d[0] != '-' && d[0] != '+' && DigitsValue(d) == n
  {
    DecimalDigits(n);
    var d := Decimal(n);
    assert IsDigit(d[0]) && IsDigit(d[|d| - 1]);
  }

  lemma ParsePlain(s: string, n: nat)
    requires Strip(s) == Decimal(n)
    ensures ParseInt(s) == Some(n as int)
  {
    hide Strip, Decimal, DigitGroups, DigitsValue, Stripped;
    DigitsParse(n);
  }

  lemma ParseWithSign(s: string, sign: char, n: nat)
    requires (sign == '-' || sign == '+') && Strip(s) == [sign] + Decimal(n)
    ensures ParseInt(s) == Some(if sign == '-' then -(n as int) else n as int)
  {
    hide Strip, Decimal, DigitGroups, DigitsValue, Stripped;
    DigitsParse(n);
    assert ([sign] + Decimal(n))[1..] == Decimal(n);
  }

  lemma SignedIsStripped(sign: char, n: nat)
    requires sign == '-' || sign == '+'
    ensures Stripped([sign] + Decimal(n))
  {
    hide Decimal, DigitGroups, DigitsValue;
    DigitsParse(n);
    var d := Decimal(n);
    assert ([sign] + d)[|d|] == d[|d| - 1];
  }

  /** Space around and a sign in front are read, as int() reads them. */
  lemma ParseSigned(before: string, n: nat, after: string)
    requires AllSpace(before) && AllSpace(after)
    ensures ParseInt(before + Decimal(n) + after) == Some(n as int)
    ensures ParseInt(before + (['+'] + Decimal(n)) + after) == Some(n as int)
    ensures ParseInt(before + (['-'] + Decimal(n)) + after) == Some(-(n as int))
  {
    hide *;
    DigitsParse(n);
    SignedIsStripped('+', n);
    SignedIsStripped('-', n);
    StripPadded(before, Decimal(n), after);
    StripPadded(before, ['+'] + Decimal(n), after);
    StripPadded(before, ['-'] + Decimal(n), after);
    ParsePlain(before + Decimal(n) + after, n);
    ParseWithSign(before + (['+'] + Decimal(n)) + after, '+', n);
    ParseWithSign(before + (['-'] + Decimal(n)) + after, '-', n);
  }

  /** Anything but digits, underscores and one leading sign is refused. */
  lemma ParseRefuses(s: string, i: nat)
    requires i < |Strip(s)| && !('0' <= Strip(s)[i] <= '9') && Strip(s)[i] != '_'
    requires i == 0 ==> Strip(s)[0] != '-' && Strip(s)[0] != '+'
    ensures ParseInt(s) == None
  {
    var t := Strip(s);
    if t[0] == '-' || t[0] == '+' {
      assert t[1..][i - 1] == t[i];
    }
  }
}
