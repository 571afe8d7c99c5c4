/** The JavaScript string operations the loader hooks use: `includes`,
    `startsWith`, `replace` with a string pattern, `Array.prototype.join`
    and the decimal rendering of an integer in a template literal. */
module JsStrings {

  /** `s.startsWith(prefix)` */
  predicate StartsWith(s: string, prefix: string) {
    |prefix| <= |s| && s[..|prefix|] == prefix
  }

  /** `pat` occurs in `s` starting at index `i`. */
  predicate OccursAt(s: string, pat: string, i: int) {
    0 <= i && i + |pat| <= |s| && s[i..i + |pat|] == pat
  }

  /** `s.includes(pat)` */
  predicate Contains(s: string, pat: string) {
    exists i :: 0 <= i <= |s| - |pat| && OccursAt(s, pat, i)
  }

  lemma OccursShift(s: string, pat: string, i: nat)
    requires |s| > 0
    ensures OccursAt(s, pat, i + 1) <==> OccursAt(s[1..], pat, i)
  {
    if i + 1 + |pat| <= |s| {
      assert s[i + 1..i + 1 + |pat|] == s[1..][i..i + |pat|];
    }
  }

  /** Away from index 0, the occurrences of `pat` in `s` are those in `s[1..]`. */
  lemma ContainsStep(s: string, pat: string)
    requires |s| > 0 && !OccursAt(s, pat, 0)
    ensures Contains(s, pat) <==> Contains(s[1..], pat)
  {
    if Contains(s, pat) {
      var i :| 0 <= i <= |s| - |pat| && OccursAt(s, pat, i);
      OccursShift(s, pat, i - 1);
    }
    if Contains(s[1..], pat) {
      var j :| 0 <= j <= |s[1..]| - |pat| && OccursAt(s[1..], pat, j);
      OccursShift(s, pat, j);
    }
  }

  /** A string containing `pat` contains every substring of `pat`. */
  lemma ContainsSubstring(s: string, pat: string, sub: string, k: nat)
    requires Contains(s, pat) && OccursAt(pat, sub, k)
    ensures Contains(s, sub)
  {
    var i :| 0 <= i <= |s| - |pat| && OccursAt(s, pat, i);
    forall m | 0 <= m < |sub| ensures s[i + k + m] == sub[m] {
      assert s[i + k + m] == s[i..i + |pat|][k + m];
      assert pat[k + m] == pat[k..k + |sub|][m];
    }
    assert s[i + k..i + k + |sub|] == sub;
    assert OccursAt(s, sub, i + k);
  }

  /** An occurrence in `t` is an occurrence in `a + t`, shifted by `|a|`. */
  lemma OccursAfterPrefix(a: string, t: string, pat: string, k: nat)
    requires OccursAt(t, pat, k)
    ensures OccursAt(a + t, pat, |a| + k)
  {
    var u := a + t;
    forall m | 0 <= m < |pat| ensures u[|a| + k + m] == pat[m] {
      assert t[k + m] == t[k..k + |pat|][m];
    }
    assert u[|a| + k..|a| + k + |pat|] == pat;
  }

  /** `b` occurs in `a + b + c` right after `a`. */
  lemma OccursBetween(a: string, b: string, c: string)
    ensures OccursAt(a + b + c, b, |a|)
    ensures Contains(a + b + c, b)
  {
    var u := a + b + c;
    forall m | 0 <= m < |b| ensures u[|a| + m] == b[m] {
    }
    assert u[|a|..|a| + |b|] == b;
    assert OccursAt(u, b, |a|);
    assert |a| <= |u| - |b|;
  }

  /** `s.replace(pat, rep)` with a string pattern: only the first occurrence
      of `pat` is replaced (ECMA-262, String.prototype.replace). The `$`
      patterns of a replacement string (`$&`, `$$`, ...) are not expanded,
      which is exact for the empty replacement the resolve hook uses. */
  function ReplaceFirst(s: string, pat: string, rep: string): (r: string)
    ensures Contains(s, pat) ==> |r| == |s| - |pat| + |rep|
    ensures !Contains(s, pat) ==> r == s
    decreases |s|
  {
    if StartsWith(s, pat) then
      assert OccursAt(s, pat, 0);
      rep + s[|pat|..]
    else if |s| == 0 then
      s
    else
      assert !OccursAt(s, pat, 0);
      ContainsStep(s, pat);
      [s[0]] + ReplaceFirst(s[1..], pat, rep)
  }

  /** Replacing acts at the first occurrence of the pattern and nowhere else. */
  lemma {:induction false} ReplaceFirstAtFirstOccurrence(s: string, pat: string, rep: string, i: nat)
    requires OccursAt(s, pat, i)
    requires forall j :: 0 <= j < i ==> !OccursAt(s, pat, j)
    ensures ReplaceFirst(s, pat, rep) == s[..i] + rep + s[i + |pat|..]
    decreases i
  {
    if i == 0 {
      assert StartsWith(s, pat);
    } else {
      assert !OccursAt(s, pat, 0);
      assert !StartsWith(s, pat) by {
        assert s[..|pat|] == s[0..0 + |pat|];
      }
      var t := s[1..];
      OccursShift(s, pat, i - 1);
      forall j | 0 <= j < i - 1
        ensures !OccursAt(t, pat, j)
      {
        OccursShift(s, pat, j);
      }
      ReplaceFirstAtFirstOccurrence(t, pat, rep, i - 1);
      ReplaceFirstStep(s, pat, rep);
      assert [s[0]] + t[..i - 1] == s[..i];
      assert t[i - 1 + |pat|..] == s[i + |pat|..];
    }
  }

  lemma ReplaceFirstStep(s: string, pat: string, rep: string)
    requires |s| > 0 && !StartsWith(s, pat)
    ensures ReplaceFirst(s, pat, rep) == [s[0]] + ReplaceFirst(s[1..], pat, rep)
  {
  }

  /** `xs.join(sep)` */
  function Join(xs: seq<string>, sep: string): string {
    if |xs| == 0 then ""
    else if |xs| == 1 then xs[0]
    else xs[0] + sep + Join(xs[1..], sep)
  }

  predicate IsDigits(s: string) {
    forall i :: 0 <= i < |s| ==> '0' <= s[i] <= '9'
  }

  function DigitChar(d: nat): char
    requires d < 10
  {
    (48 + d) as char
  }

  /** `${n}` for a non-negative integer `n`: its decimal numeral. */
  function Decimal(n: nat): (r: string)
    ensures |r| >= 1 && IsDigits(r)
  {
    if n < 10 then [DigitChar(n)] else Decimal(n / 10) + [DigitChar(n % 10)]
  }

  /** The number a string of decimal digits denotes. */
  function DecimalValue(s: string): nat
    requires IsDigits(s)
    decreases |s|
  {
    if |s| == 0 then 0 else 10 * DecimalValue(s[..|s| - 1]) + (s[|s| - 1] as int - 48)
  }

  lemma {:induction false} DecimalRoundTrip(n: nat)
    ensures DecimalValue(Decimal(n)) == n
  {
    if n >= 10 {
      DecimalRoundTrip(n / 10);
      var d := Decimal(n);
      assert d[..|d| - 1] == Decimal(n / 10);
    }
  }

  /** Distinct numbers render as distinct numerals. */
  lemma DecimalInjective(m: nat, n: nat)
    ensures Decimal(m) == Decimal(n) ==> m == n
  {
    DecimalRoundTrip(m);
    DecimalRoundTrip(n);
  }
}
