/** Python string primitives the validator relies on: `str.isspace`, `str.strip`,
    `len`, `str(int)` as used by an f-string, and the substring test `in`.
    Strings are sequences of Unicode scalar values, so `|s|` is Python's
    `len(s)` for every string without lone surrogates. */
module Text {

  /** The code points CPython's `str.isspace` accepts, listed one by one. */
  const PythonWhitespace: set<char> := {
    '\t', '\n', '\U{0B}', '\U{0C}', '\r', '\U{1C}', '\U{1D}', '\U{1E}', '\U{1F}', ' ',
    '\U{85}', '\U{A0}', '\U{1680}',
    '\U{2000}', '\U{2001}', '\U{2002}', '\U{2003}', '\U{2004}', '\U{2005}',
    '\U{2006}', '\U{2007}', '\U{2008}', '\U{2009}', '\U{200A}',
    '\U{2028}', '\U{2029}', '\U{202F}', '\U{205F}', '\U{3000}'
  }

  /** Python's `str.isspace` for a single code point: the characters that
      `str.strip()` with no argument removes. */
  predicate IsSpace(c: char)
  {
    || ('\t' <= c <= '\r')              // U+0009 .. U+000D
    || ('\U{1C}' <= c <= ' ')           // U+001C .. U+001F and the space U+0020
    || c == '\U{85}' || c == '\U{A0}' || c == '\U{1680}'
    || ('\U{2000}' <= c <= '\U{200A}')
    || c == '\U{2028}' || c == '\U{2029}' || c == '\U{202F}'
    || c == '\U{205F}' || c == '\U{3000}'
  }

  /** `IsSpace`, written with ranges, accepts exactly the listed table. */
  lemma WhitespaceTable(c: char)
    ensures IsSpace(c) <==> c in PythonWhitespace
  {
  }

  /** Every character of `s` is whitespace (vacuously so for the empty string). */
  predicate IsBlank(s: string)
  {
    forall i | 0 <= i < |s| :: IsSpace(s[i])
  }

  /** `s` with its leading whitespace removed. */
  function TrimStart(s: string): (r: string)
    ensures |r| <= |s| && r == s[|s| - |r|..]
    ensures IsBlank(s[..|s| - |r|])
    ensures r == [] || !IsSpace(r[0])
  {
    if |s| > 0 && IsSpace(s[0]) then TrimStart(s[1..]) else s
  }

  /** `s` with its trailing whitespace removed. */
  function TrimEnd(s: string): (r: string)
    ensures |r| <= |s| && r == s[..|r|]
    ensures IsBlank(s[|r|..])
    ensures r == [] || !IsSpace(r[|r| - 1])
  {
    if |s| > 0 && IsSpace(s[|s| - 1]) then
      var r := TrimEnd(s[..|s| - 1]);
      assert s[|r|..] == s[..|s| - 1][|r|..] + [s[|s| - 1]];
      r
    else
      s
  }

  /** Python's `s.strip()`: whitespace removed from both ends. */
  function Strip(s: string): (r: string)
    ensures |r| <= |s|
    ensures r == [] <==> IsBlank(s)
    ensures r == [] || (!IsSpace(r[0]) && !IsSpace(r[|r| - 1]))
  {
    TrimBoth(s);
    TrimEnd(TrimStart(s))
  }

  /** What trimming both ends yields: nothing exactly when `s` is blank,
      and otherwise a string that starts and ends with non-whitespace. */
  lemma TrimBoth(s: string)
    ensures TrimEnd(TrimStart(s)) == [] <==> IsBlank(s)
    ensures TrimEnd(TrimStart(s)) == [] || !IsSpace(TrimEnd(TrimStart(s))[0])
  {
    var t := TrimStart(s);
    var r := TrimEnd(t);
    var k := |s| - |t|;
    if r == [] {
      assert IsBlank(t) by { assert t[|r|..] == t; }
      forall i | 0 <= i < |s| ensures IsSpace(s[i]) {
        if i < k { assert s[i] == s[..k][i]; } else { assert s[i] == t[i - k]; }
      }
    } else {
      assert s[k] == t[0] == r[0];
    }
  }

  /** Strip keeps a contiguous slice of its input and drops only whitespace
      on either side of it. */
  lemma StripSlice(s: string) returns (lo: nat, hi: nat)
    ensures lo <= hi <= |s|
    ensures Strip(s) == s[lo..hi]
    ensures IsBlank(s[..lo]) && IsBlank(s[hi..])
  {
    var t := TrimStart(s);
    var r := TrimEnd(t);
    lo := |s| - |t|;
    hi := lo + |r|;
    assert t[|r|..] == s[hi..];
  }

  /** The independent definition of `strip`: if `s` splits into a blank
      prefix, a core that neither starts nor ends with whitespace (or is
      empty), and a blank suffix, then that core is exactly `Strip(s)`. */
  lemma StripCharacterised(s: string, lo: nat, hi: nat)
    requires lo <= hi <= |s|
    requires IsBlank(s[..lo]) && IsBlank(s[hi..])
    requires lo == hi || (!IsSpace(s[lo]) && !IsSpace(s[hi - 1]))
    ensures Strip(s) == s[lo..hi]
  {
    if lo == hi {
      BlankJoin(s, lo);
    } else {
      var lo', hi' := StripSlice(s);
      assert !IsBlank(s) by { assert s[lo] == s[lo..hi][0]; }
      var r := Strip(s);
      assert s[lo'] == r[0] && s[hi' - 1] == r[|r| - 1];
      FirstNonSpaceUnique(s, lo, lo');
      LastNonSpaceUnique(s, hi, hi');
    }
  }

  /** Two positions that each hold non-whitespace with only whitespace
      before them are the same position. */
  lemma FirstNonSpaceUnique(s: string, a: nat, b: nat)
    requires a < |s| && b < |s|
    requires IsBlank(s[..a]) && IsBlank(s[..b])
    requires !IsSpace(s[a]) && !IsSpace(s[b])
    ensures a == b
  {
    BlankPrefix(s, a);
    BlankPrefix(s, b);
  }

  /** Two ends that each follow non-whitespace with only whitespace after
      them are the same end. */
  lemma LastNonSpaceUnique(s: string, a: nat, b: nat)
    requires 0 < a <= |s| && 0 < b <= |s|
    requires IsBlank(s[a..]) && IsBlank(s[b..])
    requires !IsSpace(s[a - 1]) && !IsSpace(s[b - 1])
    ensures a == b
  {
    BlankSuffix(s, a);
    BlankSuffix(s, b);
  }

  /** A blank prefix followed by a blank suffix is blank. */
  lemma BlankJoin(s: string, k: nat)
    requires k <= |s| && IsBlank(s[..k]) && IsBlank(s[k..])
    ensures IsBlank(s)
  {
    BlankPrefix(s, k);
    BlankSuffix(s, k);
  }

  /** Blankness of a prefix, stated on the positions of the whole string. */
  lemma BlankPrefix(s: string, k: nat)
    requires k <= |s| && IsBlank(s[..k])
    ensures forall i | 0 <= i < k :: IsSpace(s[i])
  {
    forall i | 0 <= i < k ensures IsSpace(s[i]) {
      assert s[i] == s[..k][i];
    }
  }

  /** Blankness of a suffix, stated on the positions of the whole string. */
  lemma BlankSuffix(s: string, k: nat)
    requires k <= |s| && IsBlank(s[k..])
    ensures forall i | k <= i < |s| :: IsSpace(s[i])
  {
    forall i | k <= i < |s| ensures IsSpace(s[i]) {
      assert s[i] == s[k..][i - k];
    }
  }

  /** Stripping twice is the same as stripping once. */
  lemma StripIdempotent(s: string)
    ensures Strip(Strip(s)) == Strip(s)
  {
    var r := Strip(s);
    assert r[..0] == [] && r[|r|..] == [];
    StripCharacterised(r, 0, |r|);
  }

  /** A string that does not start or end with whitespace is its own strip. */
  lemma StripUntrimmed(s: string)
    requires s == [] || (!IsSpace(s[0]) && !IsSpace(s[|s| - 1]))
    ensures Strip(s) == s
  {
    assert s[..0] == [] && s[|s|..] == [] && s[0..|s|] == s;
    StripCharacterised(s, 0, |s|);
  }

  /** A string made of `n` copies of `c`, as Python's `c * n`. */
  function Repeat(c: char, n: nat): (r: string)
    ensures |r| == n
    ensures forall i | 0 <= i < n :: r[i] == c
  {
    if n == 0 then [] else Repeat(c, n - 1) + [c]
  }

  // ---------------------------------------------------------------------
  // Decimal rendering of natural numbers, as `str(n)` / `f"{n}"` does

  predicate IsDigit(c: char)
  {
    '0' <= c <= '9'
  }

  predicate AllDigits(s: string)
  {
    forall i | 0 <= i < |s| :: IsDigit(s[i])
  }

  function DigitChar(d: nat): (c: char)
    requires d < 10
    ensures IsDigit(c)
  {
    ['0', '1', '2', '3', '4', '5', '6', '7', '8', '9'][d]
  }

  function DigitValue(c: char): (d: nat)
    requires IsDigit(c)
    ensures d < 10 && DigitChar(d) == c
  {
    (c as int - '0' as int) as nat
  }

  /** Python's `str(n)` for a natural number: base-10 digits, most
      significant first, with no leading zero except for `0` itself. */
  function NatToDecimal(n: nat): (r: string)
    ensures |r| > 0 && AllDigits(r)
    ensures r[0] == '0' ==> n == 0 && r == "0"
    decreases n
  {
    if n < 10 then [DigitChar(n)] else NatToDecimal(n / 10) + [DigitChar(n % 10)]
  }

  /** The value of a string of base-10 digits (Python's `int(s)` on digits). */
  function DecimalToNat(s: string): (n: nat)
    requires AllDigits(s)
  {
    if s == [] then 0 else DecimalToNat(s[..|s| - 1]) * 10 + DigitValue(s[|s| - 1])
  }

  /** Parsing the rendering of `n` gives back `n`. */
  lemma {:induction false} DecimalRoundTrip(n: nat)
    ensures DecimalToNat(NatToDecimal(n)) == n
    decreases n
  {
    var r := NatToDecimal(n);
    if n < 10 {
      assert r[..0] == [];
    } else {
      DecimalRoundTrip(n / 10);
      assert r[..|r| - 1] == NatToDecimal(n / 10);
    }
  }

  // ---------------------------------------------------------------------
  // Substring test, as Python's `sub in s` (and `re.search` on a literal)

  /** `sub` occurs in `s` starting at index `i`. */
  predicate OccursAt(s: string, sub: string, i: int)
  {
    0 <= i && i + |sub| <= |s| && s[i..i + |sub|] == sub
  }

  /** `sub` occurs in `s` at some position, scanning from the left. */
  predicate Contains(s: string, sub: string)
    ensures Contains(s, sub) <==> exists i :: OccursAt(s, sub, i)
    decreases |s|
  {
    if |sub| <= |s| && s[..|sub|] == sub then
      assert OccursAt(s, sub, 0);
      true
    else if |s| > 0 && Contains(s[1..], sub) then
      var i :| OccursAt(s[1..], sub, i);
      assert s[i + 1..i + 1 + |sub|] == s[1..][i..i + |sub|];
      assert OccursAt(s, sub, i + 1);
      true
    else
      assert |sub| <= |s| ==> s[..|sub|] == s[0..|sub|];
      assert forall i | OccursAt(s, sub, i) :: i > 0 && OccursAt(s[1..], sub, i - 1) by {
        forall i | OccursAt(s, sub, i) ensures i > 0 && OccursAt(s[1..], sub, i - 1) {
          assert i > 0;
          assert s[1..][i - 1..i - 1 + |sub|] == s[i..i + |sub|];
        }
      }
      false
  }

  /** A string contains every infix of it. */
  lemma {:induction false} ContainsInfix(a: string, sub: string, b: string)
    ensures Contains(a + sub + b, sub)
    decreases |a|
  {
    var s := a + sub + b;
    if a == [] {
      assert s[..|sub|] == sub;
    } else {
      ContainsInfix(a[1..], sub, b);
      assert s[1..] == a[1..] + sub + b;
    }
  }
}
