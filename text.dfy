/**
 * The string operations the repository relies on for file naming, written out
 * with Python's semantics: `str(n)`, `f"{n:04d}"`, `str.endswith`,
 * `str.startswith`, `str.replace`, `str.lower` (ASCII letters only) and
 * `os.path.splitext` on a bare file name.
 */
module Text {

  import opened Options

  predicate IsDigit(c: char)
  {
    '0' <= c <= '9'
  }

  predicate AllDigits(s: string)
  {
    forall i :: 0 <= i < |s| ==> IsDigit(s[i])
  }

  function DigitChar(d: nat): (c: char)
    requires d < 10
    ensures IsDigit(c) && c as int - '0' as int == d
  {
    ('0' as int + d) as char
  }

  /** `str(n)` for a non-negative integer: decimal digits without leading zeros. */
  function Decimal(n: nat): (s: string)
    ensures |s| >= 1 && AllDigits(s)
    ensures |s| > 1 ==> s[0] != '0'
    ensures n < 10 <==> |s| == 1
  {
    if n < 10 then [DigitChar(n)] else Decimal(n / 10) + [DigitChar(n % 10)]
  }

  /** The number a string of decimal digits denotes (leading zeros allowed). */
  function DigitsValue(s: string): nat
    requires AllDigits(s)
  {
    if s == [] then 0
    else DigitsValue(s[..|s| - 1]) * 10 + (s[|s| - 1] as int - '0' as int)
  }

  lemma {:induction false} DecimalRoundTrip(n: nat)
    ensures DigitsValue(Decimal(n)) == n
  {
    if n >= 10 {
      var s := Decimal(n);
      assert s[..|s| - 1] == Decimal(n / 10);
      DecimalRoundTrip(n / 10);
    }
  }

  function Zeros(k: nat): (s: string)
    ensures |s| == k && forall i :: 0 <= i < k ==> s[i] == '0'
  {
    seq(k, _ => '0')
  }

  /** `f"{n:0{width}d}"` for a non-negative integer. */
  function ZeroPad(n: nat, width: nat): (s: string)
    ensures AllDigits(s)
    ensures |s| == if |Decimal(n)| < width then width else |Decimal(n)|
  {
    var d := Decimal(n);
    if |d| < width then Zeros(width - |d|) + d else d
  }

  lemma {:induction false} ZerosValue(k: nat)
    ensures DigitsValue(Zeros(k)) == 0
  {
    if k > 0 {
      assert Zeros(k)[..k - 1] == Zeros(k - 1);
      ZerosValue(k - 1);
    }
  }

  lemma {:induction false} LeadingZerosValue(k: nat, s: string)
    requires AllDigits(s)
    ensures DigitsValue(Zeros(k) + s) == DigitsValue(s)
    decreases |s|
  {
    if s == [] {
      assert Zeros(k) + s == Zeros(k);
      ZerosValue(k);
    } else {
      var t := Zeros(k) + s;
      assert t[..|t| - 1] == Zeros(k) + s[..|s| - 1];
      LeadingZerosValue(k, s[..|s| - 1]);
    }
  }

  /** Zero padding never changes the number: the padded name can be read back. */
  lemma {:induction false} ZeroPadRoundTrip(n: nat, width: nat)
    ensures DigitsValue(ZeroPad(n, width)) == n
  {
    var d := Decimal(n);
    var z := ZeroPad(n, width);
    DecimalRoundTrip(n);
    if |d| < width {
      assert z == Zeros(width - |d|) + d;
      LeadingZerosValue(width - |d|, d);
    } else {
      assert z == d;
    }
  }

  predicate StartsWith(s: string, prefix: string)
  {
    |prefix| <= |s| && s[..|prefix|] == prefix
  }

  predicate EndsWith(s: string, suffix: string)
  {
    |suffix| <= |s| && s[|s| - |suffix|..] == suffix
  }

  function LowerChar(c: char): char
  {
    if 'A' <= c <= 'Z' then (c as int - 'A' as int + 'a' as int) as char else c
  }

  /** `s.lower()`, restricted to the ASCII letters. */
  function Lower(s: string): (r: string)
    ensures |r| == |s| && forall i :: 0 <= i < |s| ==> r[i] == LowerChar(s[i])
  {
    seq(|s|, i requires 0 <= i < |s| => LowerChar(s[i]))
  }

  /** `pat` occurs in `s` starting at index `i`. */
  predicate OccursAt(s: string, pat: string, i: nat)
  {
    i + |pat| <= |s| && s[i..i + |pat|] == pat
  }

  /** No proper prefix of `pat` is also a suffix of it, so two occurrences never overlap. */
  predicate Borderless(pat: string)
  {
    forall k :: 0 < k < |pat| ==> pat[..k] != pat[|pat| - k..]
  }

  /** `s.replace(pat, rep)`: every non-overlapping occurrence, scanned left to right. */
  function ReplaceAll(s: string, pat: string, rep: string): (r: string)
    requires |pat| > 0
    decreases |s|
    ensures |rep| == |pat| ==> |r| == |s|
    ensures (forall i :: 0 <= i <= |s| ==> !OccursAt(s, pat, i)) ==> r == s
  {
    if |s| < |pat| then s
    else if s[..|pat|] == pat then assert OccursAt(s, pat, 0); rep + ReplaceAll(s[|pat|..], pat, rep)
    else
      AbsentInTail(s, pat);
      [s[0]] + ReplaceAll(s[1..], pat, rep)
  }

  /** With `pat` borderless and absent from a non-empty `r`, `r + pat` does not start with `pat`. */
  lemma NotAtStart(r: string, pat: string)
    requires |pat| > 0 && Borderless(pat) && |r| > 0
    requires !OccursAt(r, pat, 0)
    ensures (r + pat)[..|pat|] != pat
  {
    var s := r + pat;
    if |r| >= |pat| {
      assert s[..|pat|] == r[0..|pat|];
    } else {
      var k := |pat| - |r|;
      assert pat[..k] != pat[|r|..];
      assert s[|r|..|pat|] == pat[..k];
      assert s[..|pat|][|r|..] == s[|r|..|pat|];
    }
  }

  /** Dropping the first character of `r` keeps `pat` absent. */
  lemma AbsentInTail(r: string, pat: string)
    requires |r| > 0
    ensures (forall i :: 0 <= i <= |r| ==> !OccursAt(r, pat, i)) ==>
            forall i :: 0 <= i <= |r[1..]| ==> !OccursAt(r[1..], pat, i)
  {
    forall i | 0 <= i <= |r[1..]| && OccursAt(r[1..], pat, i)
      ensures OccursAt(r, pat, i + 1)
    {
      assert r[1..][i..i + |pat|] == r[i + 1..i + 1 + |pat|];
    }
  }

  /**
   * Replacing a borderless pattern in `r + pat`, where `pat` does not occur in
   * `r`, touches only the final occurrence.
   */
  lemma {:induction false} ReplaceAllFinal(r: string, pat: string, rep: string)
    requires |pat| > 0 && Borderless(pat)
    requires forall i :: 0 <= i <= |r| ==> !OccursAt(r, pat, i)
    ensures ReplaceAll(r + pat, pat, rep) == r + rep
    decreases |r|
  {
    var s := r + pat;
    if r == [] {
      assert s == pat;
      assert s[|pat|..] == [];
    } else {
      NotAtStart(r, pat);
      assert ReplaceAll(s, pat, rep) == [s[0]] + ReplaceAll(s[1..], pat, rep);
      assert s[0] == r[0] && s[1..] == r[1..] + pat;
      AbsentInTail(r, pat);
      ReplaceAllFinal(r[1..], pat, rep);
      assert [r[0]] + (r[1..] + rep) == r + rep;
    }
  }

  /** Index of the last '.' in `s`, as `str.rfind('.')`. */
  function LastDot(s: string): (d: Option<nat>)
    ensures d.Some? ==> d.value < |s| && s[d.value] == '.' &&
                        forall j :: d.value < j < |s| ==> s[j] != '.'
    ensures d.None? ==> forall j :: 0 <= j < |s| ==> s[j] != '.'
  {
    if s == [] then None
    else if s[|s| - 1] == '.' then Some(|s| - 1)
    else LastDot(s[..|s| - 1])
  }

  predicate AllDots(s: string)
  {
    forall i :: 0 <= i < |s| ==> s[i] == '.'
  }

  /**
   * `os.path.splitext(f)[0]` for a file name without directory separators: the
   * text before the last dot, unless every character before that dot is itself
   * a dot (a leading-dot name such as ".png" has no extension).
   */
  function Stem(f: string): (r: string)
    ensures |r| <= |f| && f[..|r|] == r
    ensures r != f ==> f[|r|] == '.' && !AllDots(r) && forall j :: |r| < j < |f| ==> f[j] != '.'
  {
    match LastDot(f)
    case None => f
    case Some(d) => if AllDots(f[..d]) then f else f[..d]
  }

  /** Splitting `b + e` at `e`'s only dot gives back `b` when `b` is not all dots. */
  lemma StemOfSplit(b: string, e: string)
    requires |e| > 0 && e[0] == '.' && forall j :: 0 < j < |e| ==> e[j] != '.'
    requires !AllDots(b)
    ensures Stem(b + e) == b
  {
    var f := b + e;
    var d := LastDot(f);
    assert f[|b|] == '.';
    assert forall j :: |b| < j < |f| ==> f[j] == e[j - |b|] != '.';
    assert d.Some? && d.value == |b|;
    assert f[..|b|] == b;
  }

  /** How many names in a listing satisfy `str.endswith(suffix)`. */
  function CountEndingWith(names: seq<string>, suffix: string): (n: nat)
    ensures n <= |names|
  {
    if names == [] then 0
    else CountEndingWith(names[..|names| - 1], suffix) + (if EndsWith(names[|names| - 1], suffix) then 1 else 0)
  }

  /** How many names in a listing satisfy `str.startswith(prefix)`. */
  function CountStartingWith(names: seq<string>, prefix: string): (n: nat)
    ensures n <= |names|
  {
    if names == [] then 0
    else CountStartingWith(names[..|names| - 1], prefix) + (if StartsWith(names[|names| - 1], prefix) then 1 else 0)
  }
}
