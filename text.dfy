/** ASCII models of the Python string methods the recipe models and views use:
    `str.strip`, `str.lower`, `str.capitalize`, the case-insensitive `istartswith` /
    `icontains` lookups of the database, and `str(n)` for a non-negative integer. */
module Text {

  /** Python's `str.isspace`, restricted to ASCII: tab, line feed, vertical tab,
      form feed, carriage return, the separators 0x1C to 0x1F, and space. */
  predicate IsSpace(c: char) {
    (9 <= c as int <= 13) || (28 <= c as int <= 31) || c == ' '
  }

  predicate IsUpper(c: char) { 'A' <= c <= 'Z' }

  predicate IsLower(c: char) { 'a' <= c <= 'z' }

  predicate IsDigit(c: char) { '0' <= c <= '9' }

  predicate AllSpace(s: string) {
    forall k :: 0 <= k < |s| ==> IsSpace(s[k])
  }

  function ToLower(c: char): (r: char)
    ensures !IsUpper(r)
    ensures IsSpace(r) <==> IsSpace(c)
    ensures !IsUpper(c) ==> r == c
  {
    if IsUpper(c) then (c as int + 32) as char else c
  }

  function ToUpper(c: char): (r: char)
    ensures !IsLower(r)
    ensures IsSpace(r) <==> IsSpace(c)
    ensures ToLower(r) == ToLower(c)
  {
    if IsLower(c) then (c as int - 32) as char else c
  }

  /** `s.lower()` */
  function Lower(s: string): (r: string)
    ensures |r| == |s|
    ensures forall k :: 0 <= k < |s| ==> r[k] == ToLower(s[k])
  {
    seq(|s|, k requires 0 <= k < |s| => ToLower(s[k]))
  }

  /** `s.capitalize()`: the first character upper-cased, the rest lower-cased. */
  function Capitalize(s: string): (r: string)
    ensures |r| == |s|
    ensures |s| > 0 ==> r[0] == ToUpper(s[0])
    ensures forall k :: 1 <= k < |s| ==> r[k] == ToLower(s[k])
  {
    if s == [] then [] else [ToUpper(s[0])] + Lower(s[1..])
  }

  /** `s.lstrip()`: the suffix of `s` left once the leading whitespace is dropped. */
  function TrimStart(s: string): (r: string)
    ensures |r| <= |s| && r == s[|s| - |r|..]
    ensures AllSpace(s[..|s| - |r|])
    ensures r == [] || !IsSpace(r[0])
  {
    if s != [] && IsSpace(s[0]) then TrimStart(s[1..]) else s
  }

  /** `s.rstrip()`: the prefix of `s` left once the trailing whitespace is dropped. */
  function TrimEnd(s: string): (r: string)
    ensures |r| <= |s| && r == s[..|r|]
    ensures AllSpace(s[|r|..])
    ensures r == [] || !IsSpace(r[|r| - 1])
  {
    if s != [] && IsSpace(s[|s| - 1]) then TrimEnd(s[..|s| - 1]) else s
  }

  /** `r` is the infix of `s` that starts at `i` and is surrounded by whitespace only. */
  predicate StrippedAt(s: string, i: int, r: string) {
    0 <= i && i + |r| <= |s| && s[i..i + |r|] == r && AllSpace(s[..i]) && AllSpace(s[i + |r|..])
  }

  /** `s.strip()`: drops the whitespace at both ends. */
  function Strip(s: string): (r: string)
    ensures |r| <= |s|
    ensures r == [] || (!IsSpace(r[0]) && !IsSpace(r[|r| - 1]))
  {
    var t := TrimStart(s);
    var r := TrimEnd(t);
    assert r == [] || r[0] == t[0];
    r
  }

  /** A whitespace prefix dropped from `s`, then a whitespace suffix dropped from what is
      left, leave an infix of `s` bordered by whitespace only. */
  lemma StrippedAtOfTrims(s: string, i: nat, t: string, r: string)
    requires i <= |s| && t == s[i..] && AllSpace(s[..i])
    requires |r| <= |t| && r == t[..|r|] && AllSpace(t[|r|..])
    ensures StrippedAt(s, i, r)
  {
    assert s[i..i + |r|] == t[..|r|];
    assert s[i + |r|..] == t[|r|..];
  }

  /** What `strip` leaves is an infix of its input bordered by whitespace only. */
  lemma StripIsInfix(s: string)
    ensures StrippedAt(s, |s| - |TrimStart(s)|, Strip(s))
  {
    var t := TrimStart(s);
    StrippedAtOfTrims(s, |s| - |t|, t, TrimEnd(t));
  }

  /** A string with no whitespace at either end is left alone by `strip`. */
  lemma StripOfStripped(s: string)
    requires s == [] || (!IsSpace(s[0]) && !IsSpace(s[|s| - 1]))
    ensures Strip(s) == s
  {
    assert TrimStart(s) == s;
    assert TrimEnd(s) == s;
  }

  /** Case mapping never adds or removes whitespace, so stripped strings stay stripped. */
  lemma CaseMappingKeepsStripped(s: string)
    requires s == [] || (!IsSpace(s[0]) && !IsSpace(s[|s| - 1]))
    ensures Strip(Lower(s)) == Lower(s)
    ensures Strip(Capitalize(s)) == Capitalize(s)
  {
    if s != [] {
      var l, c := Lower(s), Capitalize(s);
      assert l[0] == ToLower(s[0]) && l[|l| - 1] == ToLower(s[|s| - 1]);
      assert c[0] == ToUpper(s[0]);
      assert |s| > 1 ==> c[|c| - 1] == ToLower(s[|s| - 1]);
      StripOfStripped(l);
      StripOfStripped(c);
    }
  }

  /** Lower-casing twice is lower-casing once. */
  lemma LowerIdempotent(s: string)
    ensures Lower(Lower(s)) == Lower(s)
  {
  }

  /** Capitalising changes a string only up to case. */
  lemma LowerOfCapitalize(s: string)
    ensures Lower(Capitalize(s)) == Lower(s)
  {
    var c := Capitalize(s);
    forall k | 0 <= k < |s| ensures Lower(c)[k] == Lower(s)[k] {
      if k == 0 { assert c[0] == ToUpper(s[0]); }
    }
  }

  /** `s.lower().capitalize()` of a string with no whitespace at either end: still none
      there, a first character that is not a lower-case letter, no upper-case letter
      after it, and the same letters up to case. */
  lemma CapitalizedShape(t: string)
    requires t == [] || (!IsSpace(t[0]) && !IsSpace(t[|t| - 1]))
    ensures var r := Capitalize(Lower(t));
      && (r == [] || (!IsSpace(r[0]) && !IsSpace(r[|r| - 1])))
      && (r != [] ==> !IsLower(r[0]))
      && (forall k :: 1 <= k < |r| ==> !IsUpper(r[k]))
      && Lower(r) == Lower(t)
  {
    var l := Lower(t);
    var r := Capitalize(l);
    if t != [] {
      assert r[0] == ToUpper(l[0]) && l[0] == ToLower(t[0]);
      var n := |t| - 1;
      assert l[n] == ToLower(t[n]);
      assert n > 0 ==> r[n] == ToLower(l[n]);
    }
    LowerOfCapitalize(l);
    LowerIdempotent(t);
  }

  /** `s.istartswith(q)` in the database's ASCII case-insensitive comparison. */
  predicate IStartsWith(s: string, q: string) {
    |q| <= |s| && Lower(s[..|q|]) == Lower(q)
  }

  /** `s.icontains(q)`: some suffix of `s` case-insensitively starts with `q`. */
  predicate IContains(s: string, q: string)
    decreases |s|
  {
    IStartsWith(s, q) || (s != [] && IContains(s[1..], q))
  }

  /** `IContains` is the existence of a case-insensitive occurrence at some offset. */
  lemma {:induction false} IContainsAt(s: string, q: string)
    ensures IContains(s, q) <==> exists k :: 0 <= k <= |s| && IStartsWith(s[k..], q)
  {
    if IContains(s, q) {
      if !IStartsWith(s, q) {
        IContainsAt(s[1..], q);
        var k :| 0 <= k <= |s| - 1 && IStartsWith(s[1..][k..], q);
        assert s[1..][k..] == s[k + 1..];
      } else {
        assert s[0..] == s;
      }
    }
    if exists k :: 0 <= k <= |s| && IStartsWith(s[k..], q) {
      var k :| 0 <= k <= |s| && IStartsWith(s[k..], q);
      if k == 0 {
        assert s[0..] == s;
      } else {
        assert s[1..][k - 1..] == s[k..];
        IContainsAt(s[1..], q);
      }
    }
  }

  /** A prefix match is in particular a match. */
  lemma IStartsWithContains(s: string, q: string)
    requires IStartsWith(s, q)
    ensures IContains(s, q)
  {
  }

  /** A one-character query matches where some character equals it up to case. */
  lemma {:induction false} IContainsChar(s: string, c: char)
    ensures IContains(s, [c]) <==> exists k :: 0 <= k < |s| && ToLower(s[k]) == ToLower(c)
    decreases |s|
  {
    if s != [] {
      IContainsChar(s[1..], c);
      assert IStartsWith(s, [c]) <==> ToLower(s[0]) == ToLower(c) by {
        assert Lower(s[..1]) == [ToLower(s[0])];
      }
      if exists k :: 0 <= k < |s| && ToLower(s[k]) == ToLower(c) {
        var k :| 0 <= k < |s| && ToLower(s[k]) == ToLower(c);
        if k > 0 { assert s[1..][k - 1] == s[k]; }
      }
      if exists k :: 0 <= k < |s[1..]| && ToLower(s[1..][k]) == ToLower(c) {
        var k :| 0 <= k < |s[1..]| && ToLower(s[1..][k]) == ToLower(c);
        assert s[k + 1] == s[1..][k];
      }
    }
  }

  /** A string order for `ordering = ('name',)`, code point by code point. The database
      sorts by its collation; this order stands in for it, and the search-order proof
      uses only that filtering keeps an order, which holds for any collation. */
  predicate LexLe(a: string, b: string)
    decreases |a|
  {
    a == [] || (b != [] && (a[0] < b[0] || (a[0] == b[0] && LexLe(a[1..], b[1..]))))
  }

  predicate AllDigits(s: string) {
    forall k :: 0 <= k < |s| ==> IsDigit(s[k])
  }

  function Digit(d: nat): (c: char)
    requires d < 10
    ensures IsDigit(c) && c as int - '0' as int == d
  {
    ('0' as int + d) as char
  }

  /** `str(n)` for a non-negative integer: its decimal digits, without leading zeros. */
  function NatToDecimal(n: nat): (r: string)
    ensures |r| >= 1 && AllDigits(r)
    ensures r[0] == '0' ==> n == 0
    decreases n
  {
    if n < 10 then [Digit(n)] else NatToDecimal(n / 10) + [Digit(n % 10)]
  }

  /** The value of a string of decimal digits (the inverse of `NatToDecimal`). */
  function DecimalValue(s: string): nat
    requires AllDigits(s)
  {
    if s == [] then 0 else DecimalValue(s[..|s| - 1]) * 10 + (s[|s| - 1] as int - '0' as int)
  }

  lemma {:induction false} DecimalRoundTrip(n: nat)
    ensures DecimalValue(NatToDecimal(n)) == n
    decreases n
  {
    if n >= 10 {
      DecimalRoundTrip(n / 10);
      var r := NatToDecimal(n);
      assert r[..|r| - 1] == NatToDecimal(n / 10);
    }
  }
}
