/**
 * String operations the console relies on, over `seq<char>`: ASCII case mapping (JavaScript
 * `toLowerCase`/`toUpperCase` restricted to ASCII), substring search (`includes`, `indexOf`),
 * prefix/suffix tests, slash trimming (the `/^\/+|\/+$/g` replacement), Go's `strings.Split`
 * on a one-character separator and Go's `strconv.Atoi` for a 64-bit `int`.
 */
module Text {
  import opened Wrappers

  // ---------------------------------------------------------------- case mapping

  function LowerChar(c: char): char {
    if 'A' <= c <= 'Z' then (c as int + 32) as char else c
  }

  function UpperChar(c: char): char {
    if 'a' <= c <= 'z' then (c as int - 32) as char else c
  }

  /** `s.toLowerCase()` over ASCII: no upper-case letter is left, and only letters change. */
  function ToLower(s: string): string {
    seq(|s|, i requires 0 <= i < |s| => LowerChar(s[i]))
  }

  /** Lowering twice is lowering once, and raising first makes no difference. */
  lemma ToLowerIdempotentAndIgnoresCase(s: string)
    ensures ToLower(ToLower(s)) == ToLower(s)
    ensures ToLower(ToUpper(s)) == ToLower(s)
  {
    assert forall i :: 0 <= i < |s| ==> LowerChar(LowerChar(s[i])) == LowerChar(s[i]);
    assert forall i :: 0 <= i < |s| ==> LowerChar(UpperChar(s[i])) == LowerChar(s[i]);
  }

  /** `s.toUpperCase()` over ASCII. */
  function ToUpper(s: string): (r: string)
    ensures |r| == |s|
    ensures forall i :: 0 <= i < |s| ==> r[i] == UpperChar(s[i])
  {
    seq(|s|, i requires 0 <= i < |s| => UpperChar(s[i]))
  }

  // ---------------------------------------------------------------- searching

  /** `sub` occurs in `s` starting at index `i`. */
  predicate OccursAt(s: string, sub: string, i: int) {
    0 <= i && i + |sub| <= |s| && s[i..i + |sub|] == sub
  }

  /** JavaScript `s.includes(sub)`. */
  predicate Contains(s: string, sub: string) {
    exists i :: 0 <= i <= |s| - |sub| && OccursAt(s, sub, i)
  }

  /** Every string includes the empty string, so an empty filter keeps everything. */
  lemma ContainsEmpty(s: string)
    ensures Contains(s, "")
  {
    assert OccursAt(s, "", 0);
  }

  predicate StartsWith(s: string, prefix: string) {
    |prefix| <= |s| && s[..|prefix|] == prefix
  }

  /** JavaScript `s.endsWith(suffix)`. */
  predicate EndsWith(s: string, suffix: string) {
    |suffix| <= |s| && s[|s| - |suffix|..] == suffix
  }

  /** Index of the first `c` in `s`, or `|s|` when there is none. */
  function IndexOf(s: string, c: char): (r: nat)
    ensures r <= |s|
    ensures r < |s| ==> s[r] == c
    ensures forall j :: 0 <= j < r ==> s[j] != c
  {
    if s == [] then 0 else if s[0] == c then 0 else 1 + IndexOf(s[1..], c)
  }

  /** First index at or after `from` where `sub` occurs (JavaScript `indexOf(sub, from)`). */
  function FindFrom(s: string, sub: string, from: nat): (r: Option<nat>)
    requires from <= |s|
    ensures r.Some? ==> from <= r.value && OccursAt(s, sub, r.value)
    ensures r.Some? ==> forall j :: from <= j < r.value ==> !OccursAt(s, sub, j)
    ensures r.None? ==> forall j :: from <= j ==> !OccursAt(s, sub, j)
    decreases |s| - from
  {
    if OccursAt(s, sub, from) then Some(from)
    else if from == |s| then None
    else FindFrom(s, sub, from + 1)
  }

  /** First occurrence of `sub` in `s`. */
  function Find(s: string, sub: string): (r: Option<nat>)
    ensures r.Some? ==> OccursAt(s, sub, r.value)
    ensures r.Some? ==> forall j :: 0 <= j < r.value ==> !OccursAt(s, sub, j)
    ensures r.None? <==> !Contains(s, sub)
  {
    FindFrom(s, sub, 0)
  }

  // ---------------------------------------------------------------- slash trimming

  /** Removes the leading run of `/`. */
  function TrimLeadingSlashes(s: string): (r: string)
    ensures |r| <= |s| && r == s[|s| - |r|..]
    ensures forall j :: 0 <= j < |s| - |r| ==> s[j] == '/'
    ensures r == [] || r[0] != '/'
  {
    if |s| > 0 && s[0] == '/' then TrimLeadingSlashes(s[1..]) else s
  }

  /** Removes the trailing run of `/`. */
  function TrimTrailingSlashes(s: string): (r: string)
    ensures |r| <= |s| && r == s[..|r|]
    ensures forall j :: |r| <= j < |s| ==> s[j] == '/'
    ensures r == [] || r[|r| - 1] != '/'
  {
    if |s| > 0 && s[|s| - 1] == '/' then TrimTrailingSlashes(s[..|s| - 1]) else s
  }

  /** No `/` at either end. */
  predicate SlashFree(s: string) {
    s == [] || (s[0] != '/' && s[|s| - 1] != '/')
  }

  /**
   * `s.replace(/^\/+|\/+$/g, '')`: the global regular expression removes the leading run of
   * slashes and the trailing run of slashes and nothing in between.
   */
  function TrimSlashes(s: string): (r: string)
    ensures SlashFree(r)
    ensures Contains(s, r)
  {
    var t := TrimLeadingSlashes(s);
    var r := TrimTrailingSlashes(t);
    var k := |s| - |t|;
    assert 0 <= k <= |s| - |r| && OccursAt(s, r, k);
    r
  }

  /** Trimming changes nothing on a string without boundary slashes. */
  lemma {:induction false} TrimSlashesOfSlashFree(s: string)
    requires SlashFree(s)
    ensures TrimSlashes(s) == s
  {
    assert TrimLeadingSlashes(s) == s;
    assert TrimTrailingSlashes(s) == s;
  }

  /** Trimming is idempotent. */
  lemma TrimSlashesIdempotent(s: string)
    ensures TrimSlashes(TrimSlashes(s)) == TrimSlashes(s)
  {
    TrimSlashesOfSlashFree(TrimSlashes(s));
  }

  /** Go `strings.TrimPrefix`: one leading copy of `prefix` is removed, if there is one. */
  function TrimPrefix(s: string, prefix: string): (r: string)
    ensures StartsWith(s, prefix) ==> prefix + r == s
    ensures !StartsWith(s, prefix) ==> r == s
  {
    if StartsWith(s, prefix) then s[|prefix|..] else s
  }

  // ---------------------------------------------------------------- Go strings.Split

  /** Go `strings.Split(s, string(sep))`: the pieces between separators, at least one. */
  function Split(s: string, sep: char): (parts: seq<string>)
    ensures |parts| >= 1
    ensures forall k :: 0 <= k < |parts| ==> sep !in parts[k]
    decreases |s|
  {
    var i := IndexOf(s, sep);
    if i == |s| then [s] else [s[..i]] + Split(s[i + 1..], sep)
  }

  /** A string splits into exactly one piece iff it holds no separator. */
  lemma SplitSingle(s: string, sep: char)
    ensures |Split(s, sep)| == 1 <==> sep !in s
  {
    var i := IndexOf(s, sep);
    if i < |s| {
      assert |Split(s, sep)| == 1 + |Split(s[i + 1..], sep)|;
    }
  }

  /**
   * Splitting on `sep` gives the two pieces `[a, b]` exactly when `s == a + [sep] + b` and
   * neither piece holds the separator.
   */
  lemma SplitTwo(s: string, sep: char, a: string, b: string)
    ensures Split(s, sep) == [a, b] <==> (sep !in a && sep !in b && s == a + [sep] + b)
  {
    var i := IndexOf(s, sep);
    if Split(s, sep) == [a, b] {
      assert i < |s|;
      var rest := s[i + 1..];
      assert Split(s, sep) == [s[..i]] + Split(rest, sep);
      assert |Split(rest, sep)| == 1;
      SplitSingle(rest, sep);
      assert IndexOf(rest, sep) == |rest|;
      assert Split(rest, sep) == [rest];
      assert a == Split(s, sep)[0] == s[..i];
      assert b == Split(s, sep)[1] == rest;
      assert s == s[..i] + [sep] + rest;
    }
    if sep !in a && sep !in b && s == a + [sep] + b {
      assert s[|a|] == sep;
      assert forall j :: 0 <= j < |a| ==> s[j] == a[j];
      assert i == |a|;
      assert s[..i] == a && s[i + 1..] == b;
      assert IndexOf(b, sep) == |b|;
      assert Split(b, sep) == [b];
      assert Split(s, sep) == [s[..i]] + Split(s[i + 1..], sep);
    }
  }

  // ---------------------------------------------------------------- Go strconv.Atoi

  const MinInt64: int := -0x8000_0000_0000_0000
  const MaxInt64: int := 0x7FFF_FFFF_FFFF_FFFF

  predicate IsDigit(c: char) {
    '0' <= c <= '9'
  }

  predicate AllDigits(s: string) {
    forall i :: 0 <= i < |s| ==> IsDigit(s[i])
  }

  /** The value of a string of decimal digits. */
  function DigitsValue(s: string): nat
    requires AllDigits(s)
  {
    if s == [] then 0 else DigitsValue(s[..|s| - 1]) * 10 + (s[|s| - 1] as int - '0' as int)
  }

  /** Atoi's syntax: an optional `+` or `-`, then one or more decimal digits. */
  predicate AtoiSyntax(s: string) {
    var body := if |s| > 0 && (s[0] == '+' || s[0] == '-') then s[1..] else s;
    body != [] && AllDigits(body)
  }

  /** The number a string in Atoi's syntax denotes: its digits' value, negated after a `-`. */
  function SignedValue(s: string): int
    requires AtoiSyntax(s)
  {
    if s[0] == '-' then -(DigitsValue(s[1..]) as int)
    else if s[0] == '+' then DigitsValue(s[1..])
    else DigitsValue(s)
  }

  /** The decimal digits of a natural number, most significant first, as `strconv.Itoa` writes them. */
  function DecimalString(n: nat): (s: string)
    ensures s != [] && AllDigits(s)
  {
    if n < 10 then [('0' as int + n) as char]
    else DecimalString(n / 10) + [('0' as int + n % 10) as char]
  }

  /** The digits of a number read back as that number, and Atoi accepts them when it is in range. */
  lemma {:induction false} DecimalStringRoundTrip(n: nat)
    ensures AtoiSyntax(DecimalString(n)) && SignedValue(DecimalString(n)) == n
    ensures n <= MaxInt64 ==> Atoi(DecimalString(n)) == Some(n)
  {
    var s := DecimalString(n);
    if n < 10 {
      assert s[..0] == [];
    } else {
      DecimalStringRoundTrip(n / 10);
      assert s[..|s| - 1] == DecimalString(n / 10);
    }
    assert DigitsValue(s) == n;
    assert IsDigit(s[0]);
  }

  /**
   * Go `strconv.Atoi` on a 64-bit platform: a syntax error or a value outside the `int` range
   * is an error (`None`); there is no white space, no underscore and no other base. A string in
   * the syntax whose number is in range parses to that number.
   */
  function Atoi(s: string): (r: Option<int>)
    ensures r.Some? ==> AtoiSyntax(s) && MinInt64 <= r.value <= MaxInt64
    ensures !AtoiSyntax(s) ==> r.None?
    ensures AtoiSyntax(s) ==> (r.Some? <==> MinInt64 <= SignedValue(s) <= MaxInt64)
    ensures AtoiSyntax(s) && r.Some? ==> r.value == SignedValue(s)
  {
    var negative := |s| > 0 && s[0] == '-';
    var body := if |s| > 0 && (s[0] == '+' || s[0] == '-') then s[1..] else s;
    if body == [] || !AllDigits(body) then None
    else
      var d: int := DigitsValue(body);
      var v := if negative then -d else d;
      if MinInt64 <= v <= MaxInt64 then Some(v) else None
  }
}
