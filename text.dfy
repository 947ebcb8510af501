/**
 * The handful of JavaScript string operations the extension relies on:
 * the `\s` character class and `trim`, ASCII case mapping, substring search,
 * integer formatting (template literals) and `parseInt`.
 */
module Text {
  import opened Wrappers

  /** JavaScript's WhiteSpace and LineTerminator characters: what `\s` matches and what `trim` removes. */
  predicate IsSpace(c: char) {
    || c == ' ' || c == '\t' || c == '\n' || c == '\U{B}' || c == '\U{C}' || c == '\r'
    || c == '\U{A0}' || c == '\U{1680}' || ('\U{2000}' <= c <= '\U{200A}')
    || c == '\U{2028}' || c == '\U{2029}' || c == '\U{202F}' || c == '\U{205F}'
    || c == '\U{3000}' || c == '\U{FEFF}'
  }

  /** The character class `[-_\s]` of the ID-cleaning regular expressions. */
  predicate IsSeparator(c: char) {
    c == '-' || c == '_' || IsSpace(c)
  }

  predicate IsDigit(c: char) {
    '0' <= c <= '9'
  }

  function LowerChar(c: char): char {
    if 'A' <= c <= 'Z' then (c as int + 32) as char else c
  }

  function UpperChar(c: char): char {
    if 'a' <= c <= 'z' then (c as int - 32) as char else c
  }

  /** `toLowerCase()`, restricted to the ASCII letters. */
  function Lower(s: string): string {
    seq(|s|, i requires 0 <= i < |s| => LowerChar(s[i]))
  }

  /** `toUpperCase()`, restricted to the ASCII letters. */
  function Upper(s: string): string {
    seq(|s|, i requires 0 <= i < |s| => UpperChar(s[i]))
  }

  /** `s.replace(/[class]/g, '')`: every character `drop` accepts removed, order kept. */
  function Without(s: string, drop: char -> bool): (r: string)
    ensures |r| <= |s|
  {
    if s == [] then [] else (if drop(s[0]) then [] else [s[0]]) + Without(s[1..], drop)
  }

  /** `s.replace(/\s/g, '')` */
  function RemoveSpaces(s: string): string {
    Without(s, IsSpace)
  }

  /** `s.replace(/[-_\s]/g, '')` */
  function StripSeparators(s: string): string {
    Without(s, IsSeparator)
  }

  /** Leading white space removed; what is removed is all white space. */
  function TrimStart(s: string): (r: string)
    ensures |r| <= |s| && r == s[|s| - |r|..]
    ensures forall i :: 0 <= i < |s| - |r| ==> IsSpace(s[i])
    ensures |r| > 0 ==> !IsSpace(r[0])
  {
    if |s| > 0 && IsSpace(s[0]) then TrimStart(s[1..]) else s
  }

  /** Trailing white space removed; what is removed is all white space. */
  function TrimEnd(s: string): (r: string)
    ensures |r| <= |s| && r == s[..|r|]
    ensures forall i :: |r| <= i < |s| ==> IsSpace(s[i])
    ensures |r| > 0 ==> !IsSpace(r[|r| - 1])
  {
    if |s| > 0 && IsSpace(s[|s| - 1]) then TrimEnd(s[..|s| - 1]) else s
  }

  /** `trim()` */
  function Trim(s: string): string {
    TrimEnd(TrimStart(s))
  }

  /** `s.replace(/\s+/g, ' ')`: each run of white space becomes one blank. */
  function CollapseSpaces(s: string): string
    decreases |s|
  {
    if s == [] then []
    else if IsSpace(s[0]) then [' '] + CollapseSpaces(TrimStart(s))
    else [s[0]] + CollapseSpaces(s[1..])
  }

  predicate StartsWith(s: string, prefix: string) {
    |prefix| <= |s| && s[..|prefix|] == prefix
  }

  /** `s.includes(sub)` */
  predicate Contains(s: string, sub: string)
    decreases |s|
  {
    StartsWith(s, sub) || (|s| > 0 && Contains(s[1..], sub))
  }

  function DigitChar(d: nat): (c: char)
    requires d < 10
    ensures IsDigit(c)
  {
    "0123456789"[d]
  }

  function DigitValue(c: char): nat
    requires IsDigit(c)
  {
    c as int - '0' as int
  }

  /** The decimal text of `n`, as a template literal `${n}` writes a non-negative integer. */
  function NatToString(n: nat): (r: string)
    ensures |r| > 0 && forall i :: 0 <= i < |r| ==> IsDigit(r[i])
  {
    if n < 10 then [DigitChar(n)] else NatToString(n / 10) + [DigitChar(n % 10)]
  }

  /** The longest prefix made of decimal digits. */
  function DigitPrefix(s: string): (r: string)
    ensures |r| <= |s| && r == s[..|r|]
    ensures forall i :: 0 <= i < |r| ==> IsDigit(r[i])
  {
    if |s| > 0 && IsDigit(s[0]) then [s[0]] + DigitPrefix(s[1..]) else []
  }

  function DigitsValue(ds: string): nat
    requires forall i :: 0 <= i < |ds| ==> IsDigit(ds[i])
  {
    if ds == [] then 0 else 10 * DigitsValue(ds[..|ds| - 1]) + DigitValue(ds[|ds| - 1])
  }

  /**
   * `parseInt(s)` with no radix: leading white space skipped, an optional sign,
   * then the longest run of decimal digits; `None` is `NaN` (no digit at all).
   */
  function ParseInt(s: string): Option<int> {
    var t := TrimStart(s);
    var negative := |t| > 0 && t[0] == '-';
    var body := if |t| > 0 && (t[0] == '-' || t[0] == '+') then t[1..] else t;
    var ds := DigitPrefix(body);
    if ds == [] then None
    else
      var magnitude: int := DigitsValue(ds);
      Some(if negative then -magnitude else magnitude)
  }

  // ---------------------------------------------------------------------------
  // Lemmas about the helpers

  /** What survives the removal was in the input and is not of the removed class. */
  lemma {:induction false} WithoutMembers(s: string, drop: char -> bool)
    ensures forall c :: c in Without(s, drop) ==> c in s && !drop(c)
  {
    if s != [] {
      WithoutMembers(s[1..], drop);
    }
  }

  lemma {:induction false} WithoutAppend(a: string, b: string, drop: char -> bool)
    ensures Without(a + b, drop) == Without(a, drop) + Without(b, drop)
  {
    if a == [] {
      assert a + b == b;
    } else {
      assert (a + b)[0] == a[0];
      assert (a + b)[1..] == a[1..] + b;
      WithoutAppend(a[1..], b, drop);
    }
  }

  lemma {:induction false} WithoutAllDropped(a: string, drop: char -> bool)
    requires forall i :: 0 <= i < |a| ==> drop(a[i])
    ensures Without(a, drop) == []
  {
    if a != [] {
      WithoutAllDropped(a[1..], drop);
    }
  }

  lemma {:induction false} WithoutNoneDropped(a: string, drop: char -> bool)
    requires forall i :: 0 <= i < |a| ==> !drop(a[i])
    ensures Without(a, drop) == a
  {
    if a != [] {
      WithoutNoneDropped(a[1..], drop);
      assert [a[0]] + a[1..] == a;
    }
  }

  /** Removing a class of characters twice is removing it once. */
  lemma {:induction false} WithoutIdempotent(a: string, drop: char -> bool)
    ensures Without(Without(a, drop), drop) == Without(a, drop)
  {
    var r := Without(a, drop);
    WithoutMembers(a, drop);
    forall i | 0 <= i < |r| ensures !drop(r[i]) {
      assert r[i] in r;
    }
    WithoutNoneDropped(r, drop);
  }

  /** Removing a larger class after a smaller one is removing the larger one. */
  lemma {:induction false} WithoutSubsumed(a: string, small: char -> bool, large: char -> bool)
    requires forall c :: small(c) ==> large(c)
    ensures Without(Without(a, small), large) == Without(a, large)
  {
    if a != [] {
      WithoutSubsumed(a[1..], small, large);
      var head := if small(a[0]) then [] else [a[0]];
      WithoutAppend(head, Without(a[1..], small), large);
    }
  }

  /** Trimming keeps a middle slice of the string and drops only white space around it. */
  lemma {:induction false} TrimSlice(s: string) returns (lo: nat, hi: nat)
    ensures lo <= hi <= |s| && Trim(s) == s[lo..hi]
    ensures forall i :: 0 <= i < lo ==> IsSpace(s[i])
    ensures forall i :: hi <= i < |s| ==> IsSpace(s[i])
  {
    var t := TrimStart(s);
    lo := |s| - |t|;
    var r := TrimEnd(t);
    hi := lo + |r|;
    TrailingSpaces(s, lo, r);
  }

  /** What `TrimEnd` leaves of a suffix of `s` ends where the white-space tail of `s` begins. */
  lemma {:induction false} TrailingSpaces(s: string, lo: nat, r: string)
    requires lo <= |s| && r == TrimEnd(s[lo..])
    ensures lo + |r| <= |s| && r == s[lo..lo + |r|]
    ensures forall i :: lo + |r| <= i < |s| ==> IsSpace(s[i])
  {
    var t := s[lo..];
    forall i | lo + |r| <= i < |s| ensures IsSpace(s[i]) {
      assert s[i] == t[i - lo];
    }
  }

  /** A run of white space vanishes under a class that covers white space. */
  lemma {:induction false} SpacesDropped(t: string, drop: char -> bool)
    requires forall c :: IsSpace(c) ==> drop(c)
    requires forall i :: 0 <= i < |t| ==> IsSpace(t[i])
    ensures Without(t, drop) == []
  {
    WithoutAllDropped(t, drop);
  }

  /** Removing a class that covers white space ignores the trimmed margins. */
  lemma {:induction false} WithoutTrim(s: string, drop: char -> bool)
    requires forall c :: IsSpace(c) ==> drop(c)
    ensures Without(Trim(s), drop) == Without(s, drop)
  {
    var lo, hi := TrimSlice(s);
    MarginsVanish(s, lo, hi, drop);
    WithoutSplit(s, lo, hi, drop);
  }

  /** White-space margins of `s` vanish under a class that covers white space. */
  lemma {:induction false} MarginsVanish(s: string, lo: nat, hi: nat, drop: char -> bool)
    requires lo <= hi <= |s|
    requires forall c :: IsSpace(c) ==> drop(c)
    requires forall i :: 0 <= i < lo ==> IsSpace(s[i])
    requires forall i :: hi <= i < |s| ==> IsSpace(s[i])
    ensures Without(s[..lo], drop) == [] && Without(s[hi..], drop) == []
  {
    assert forall i :: 0 <= i < lo ==> s[..lo][i] == s[i];
    assert forall i :: 0 <= i < |s| - hi ==> s[hi..][i] == s[hi + i];
    SpacesDropped(s[..lo], drop);
    SpacesDropped(s[hi..], drop);
  }

  /** Removal works piecewise on three consecutive slices. */
  lemma {:induction false} WithoutSplit(s: string, lo: nat, hi: nat, drop: char -> bool)
    requires lo <= hi <= |s|
    ensures Without(s, drop) == Without(s[..lo], drop) + Without(s[lo..hi], drop) + Without(s[hi..], drop)
  {
    assert s[..hi] + s[hi..] == s;
    WithoutAppend(s[..hi], s[hi..], drop);
    assert s[..lo] + s[lo..hi] == s[..hi];
    WithoutAppend(s[..lo], s[lo..hi], drop);
  }

  /** Trimming never removes a character that is not white space. */
  lemma {:induction false} TrimKeeps(s: string, c: char)
    requires !IsSpace(c)
    ensures c in Trim(s) <==> c in s
  {
    var lo, hi := TrimSlice(s);
    MiddleKeeps(s, lo, hi, c);
  }

  /** Between white-space margins lies every character of `s` that is not white space. */
  lemma {:induction false} MiddleKeeps(s: string, lo: nat, hi: nat, c: char)
    requires lo <= hi <= |s| && !IsSpace(c)
    requires forall i :: 0 <= i < lo ==> IsSpace(s[i])
    requires forall i :: hi <= i < |s| ==> IsSpace(s[i])
    ensures c in s[lo..hi] <==> c in s
  {
    if c in s {
      var i :| 0 <= i < |s| && s[i] == c;
      assert lo <= i < hi;
      assert s[lo..hi][i - lo] == c;
    }
    if c in s[lo..hi] {
      var j :| 0 <= j < hi - lo && s[lo..hi][j] == c;
      assert s[lo + j] == c;
    }
  }


  /** A string without white space is its own trim. */
  lemma {:induction false} TrimNoSpace(s: string)
    requires forall i :: 0 <= i < |s| ==> !IsSpace(s[i])
    ensures Trim(s) == s
  {
  }

  /** `trim()` is idempotent. */
  lemma {:induction false} TrimIdempotent(s: string)
    ensures Trim(Trim(s)) == Trim(s)
  {
    var t := TrimStart(s);
    var r := TrimEnd(t);
    assert |r| > 0 ==> r[0] == t[0];
  }

  lemma {:induction false} ContainsAt(s: string, sub: string, i: nat)
    requires i + |sub| <= |s| && s[i..i + |sub|] == sub
    ensures Contains(s, sub)
  {
    if i > 0 {
      assert s[1..][i - 1..i - 1 + |sub|] == sub;
      ContainsAt(s[1..], sub, i - 1);
    }
  }

  /** A substring of a piece is a substring of any concatenation around it. */
  lemma {:induction false} ContainsInside(a: string, b: string, c: string, sub: string, i: nat)
    requires i + |sub| <= |b| && b[i..i + |sub|] == sub
    ensures Contains(a + b + c, sub)
  {
    var s := a + b + c;
    assert s[|a| + i..|a| + i + |sub|] == sub;
    ContainsAt(s, sub, |a| + i);
  }

  /** Every substring found by `Contains` sits at some position. */
  lemma {:induction false} ContainsWitness(s: string, sub: string) returns (i: nat)
    requires Contains(s, sub)
    ensures i + |sub| <= |s| && s[i..i + |sub|] == sub
    decreases |s|
  {
    if StartsWith(s, sub) {
      i := 0;
    } else {
      var j := ContainsWitness(s[1..], sub);
      i := j + 1;
      assert s[i..i + |sub|] == s[1..][j..j + |sub|];
    }
  }

  /** A string of digits only contains no other character. */
  lemma {:induction false} DigitsContainOnlyDigits(s: string, sub: string)
    requires forall i :: 0 <= i < |s| ==> IsDigit(s[i])
    requires |sub| > 0 && !IsDigit(sub[0])
    ensures !Contains(s, sub)
    decreases |s|
  {
    if |s| > 0 {
      if |sub| <= |s| {
        assert s[..|sub|][0] == s[0];
      }
      DigitsContainOnlyDigits(s[1..], sub);
    }
  }

  lemma {:induction false} DigitPrefixOfDigits(s: string)
    requires forall i :: 0 <= i < |s| ==> IsDigit(s[i])
    ensures DigitPrefix(s) == s
  {
    if s != [] {
      DigitPrefixOfDigits(s[1..]);
      assert [s[0]] + s[1..] == s;
    }
  }

  lemma {:induction false} DigitsValueOfNat(n: nat)
    ensures DigitsValue(NatToString(n)) == n
  {
    var r := NatToString(n);
    if n < 10 {
      assert r[..0] == [];
      assert "0123456789"[n] as int - '0' as int == n;
    } else {
      var p := NatToString(n / 10);
      assert r[..|r| - 1] == p;
      DigitsValueOfNat(n / 10);
      assert "0123456789"[n % 10] as int - '0' as int == n % 10;
    }
  }

  /** `parseInt` reads back the decimal text of a non-negative integer. */
  lemma {:induction false} ParseIntNatToString(n: nat)
    ensures ParseInt(NatToString(n)) == Some(n)
  {
    var s := NatToString(n);
    assert !IsSpace(s[0]);
    assert TrimStart(s) == s;
    DigitPrefixOfDigits(s);
    DigitsValueOfNat(n);
  }

  /** The digit run stops at the first character that is not a digit. */
  lemma {:induction false} DigitPrefixStops(ds: string, s: string)
    requires forall i :: 0 <= i < |ds| ==> IsDigit(ds[i])
    requires s == [] || !IsDigit(s[0])
    ensures DigitPrefix(ds + s) == ds
  {
    if ds == [] {
      assert ds + s == s;
    } else {
      DigitPrefixStops(ds[1..], s);
      assert (ds + s)[1..] == ds[1..] + s;
      assert [ds[0]] + ds[1..] == ds;
    }
  }

  /** `parseInt` reads a whole number and ignores whatever non-digit text follows it. */
  lemma {:induction false} ParseIntNumberThenText(n: nat, s: string)
    requires s == [] || !IsDigit(s[0])
    ensures ParseInt(NatToString(n) + s) == Some(n)
  {
    var d := NatToString(n);
    var t := d + s;
    assert t[0] == d[0];
    assert !IsSpace(t[0]) && t[0] != '-' && t[0] != '+';
    assert TrimStart(t) == t;
    DigitPrefixStops(d, s);
    assert DigitPrefix(t) == d;
    DigitsValueOfNat(n);
  }

  /** Lower-casing after upper-casing is lower-casing. */
  lemma {:induction false} LowerOfUpper(s: string)
    ensures Lower(Upper(s)) == Lower(s)
  {
    assert forall i :: 0 <= i < |s| ==> LowerChar(UpperChar(s[i])) == LowerChar(s[i]);
  }

  /** Lower-casing twice is lower-casing once. */
  lemma {:induction false} LowerIdempotent(s: string)
    ensures Lower(Lower(s)) == Lower(s)
  {
    assert forall i :: 0 <= i < |s| ==> LowerChar(LowerChar(s[i])) == LowerChar(s[i]);
  }

  /** Lower-casing works character by character, so it distributes over concatenation. */
  lemma {:induction false} LowerAppend(a: string, b: string)
    ensures Lower(a + b) == Lower(a) + Lower(b)
  {
    assert forall i :: 0 <= i < |a| ==> (a + b)[i] == a[i];
    assert forall i :: |a| <= i < |a| + |b| ==> (a + b)[i] == b[i - |a|];
  }

  /** A word without white space passes through the collapsing unchanged. */
  lemma {:induction false} CollapseWord(w: string, z: string)
    requires forall i :: 0 <= i < |w| ==> !IsSpace(w[i])
    ensures CollapseSpaces(w + z) == w + CollapseSpaces(z)
  {
    if w == [] {
      assert w + z == z;
    } else {
      assert (w + z)[0] == w[0];
      assert (w + z)[1..] == w[1..] + z;
      CollapseWord(w[1..], z);
      assert [w[0]] + w[1..] == w;
    }
  }

  lemma {:induction false} TrimStartSpace(y: string)
    ensures TrimStart(" " + y) == TrimStart(y)
  {
    assert (" " + y)[0] == ' ';
    assert (" " + y)[1..] == y;
  }

  /** One space and a run of three collapse alike. */
  lemma {:induction false} CollapseRun(y: string)
    ensures CollapseSpaces(" " + y) == CollapseSpaces("   " + y)
  {
    assert "   " + y == " " + (" " + (" " + y));
    TrimStartSpace(y);
    TrimStartSpace(" " + y);
    TrimStartSpace(" " + (" " + y));
    assert ("   " + y)[0] == ' ';
  }

  /** Different integers have different decimal texts. */
  lemma {:induction false} NatToStringInjective(m: nat, n: nat)
    requires NatToString(m) == NatToString(n)
    ensures m == n
  {
    ParseIntNatToString(m);
    ParseIntNatToString(n);
  }
}
