/** Character and string helpers with the semantics of the JavaScript string
    operations the pages use: `/\d/`, `toLowerCase` (ASCII letters only),
    `includes`, `trim`, relational `<` on strings and `padStart(w, "0")`. */
module Text {

  /** `/\d/` without the `u` flag: the ten ASCII digits. */
  predicate IsDigit(c: char) {
    '0' <= c <= '9'
  }

  predicate AllDigits(s: string) {
    forall i :: 0 <= i < |s| ==> IsDigit(s[i])
  }

  /** The numeric value of a decimal digit. */
  function DigitValue(c: char): (v: nat)
    requires IsDigit(c)
    ensures v < 10
  {
    c as int - '0' as int
  }

  /** The decimal digit for `n`. */
  function DigitChar(n: nat): (c: char)
    requires n < 10
    ensures IsDigit(c) && DigitValue(c) == n
  {
    ('0' as int + n) as char
  }

  /** `toLowerCase` restricted to ASCII: upper-case letters map to lower case,
      every other character is kept. */
  function LowerChar(c: char): char {
    if 'A' <= c <= 'Z' then (c as int + 32) as char else c
  }

  function Lower(s: string): (r: string)
    ensures |r| == |s|
  {
    seq(|s|, i requires 0 <= i < |s| => LowerChar(s[i]))
  }

  /** `needle` occurs in `hay` starting at index `i`. */
  predicate OccursAt(hay: string, needle: string, i: int) {
    0 <= i && i + |needle| <= |hay| && hay[i..i + |needle|] == needle
  }

  /** `hay.includes(needle)`. */
  predicate Contains(hay: string, needle: string) {
    exists i | 0 <= i <= |hay| :: OccursAt(hay, needle, i)
  }

  /** Every string includes the empty string, so an empty search term keeps
      every item of a search filter. */
  lemma ContainsEmpty(hay: string)
    ensures Contains(hay, "")
  {
    assert OccursAt(hay, "", 0);
  }

  /** `hay.toLowerCase().includes(term.toLowerCase())`: the search the admin
      pages run. */
  predicate MatchesIgnoringCase(hay: string, term: string) {
    Contains(Lower(hay), Lower(term))
  }

  /** The characters JavaScript's `trim` removes: WhiteSpace and
      LineTerminator code points of ECMAScript. */
  predicate IsSpace(c: char) {
    var n := c as int;
    n == 0x09 || n == 0x0A || n == 0x0B || n == 0x0C || n == 0x0D || n == 0x20
    || n == 0xA0 || n == 0x1680 || (0x2000 <= n <= 0x200A) || n == 0x2028 || n == 0x2029
    || n == 0x202F || n == 0x205F || n == 0x3000 || n == 0xFEFF
  }

  function TrimStart(s: string): (r: string)
    ensures |r| <= |s|
    ensures |r| > 0 ==> !IsSpace(r[0])
    ensures r == s[|s| - |r|..]
  {
    if |s| > 0 && IsSpace(s[0]) then TrimStart(s[1..]) else s
  }

  function TrimEnd(s: string): (r: string)
    ensures |r| <= |s|
    ensures |r| > 0 ==> !IsSpace(r[|r| - 1])
    ensures r == s[..|r|]
  {
    if |s| > 0 && IsSpace(s[|s| - 1]) then TrimEnd(s[..|s| - 1]) else s
  }

  /** `s.trim()`. */
  function Trim(s: string): string {
    TrimEnd(TrimStart(s))
  }

  /** A string that trims to "" consists of white space only. */
  predicate IsBlank(s: string) {
    forall i :: 0 <= i < |s| ==> IsSpace(s[i])
  }

  lemma {:induction false} TrimStartBlank(s: string)
    ensures TrimStart(s) == "" <==> IsBlank(s)
    decreases |s|
  {
    if |s| > 0 && IsSpace(s[0]) {
      TrimStartBlank(s[1..]);
      assert IsBlank(s) <==> IsBlank(s[1..]) by {
        if IsBlank(s[1..]) {
          forall i | 0 <= i < |s| ensures IsSpace(s[i]) {
            if i > 0 { assert s[i] == s[1..][i - 1]; }
          }
        }
      }
    }
  }

  /** `!s.trim()` holds exactly when every character of `s` is white space. */
  lemma TrimEmptyIffBlank(s: string)
    ensures Trim(s) == "" <==> IsBlank(s)
  {
    TrimStartBlank(s);
    var t := TrimStart(s);
    if t != "" {
      assert !IsSpace(t[0]);
      assert TrimEnd(t) != "" by {
        if TrimEnd(t) == "" { TrimEndKeepsNonSpaceHead(t); }
      }
    }
  }

  lemma {:induction false} TrimEndKeepsNonSpaceHead(t: string)
    requires |t| > 0 && !IsSpace(t[0])
    ensures TrimEnd(t) != ""
    decreases |t|
  {
    if IsSpace(t[|t| - 1]) {
      assert |t| > 1;
      TrimEndKeepsNonSpaceHead(t[..|t| - 1]);
    }
  }

  /** JavaScript's relational `a < b` on strings: lexicographic order on
      code units, where a proper prefix is smaller. */
  predicate StrLess(a: string, b: string)
    decreases |a|
  {
    if |a| == 0 then |b| > 0
    else if |b| == 0 then false
    else if a[0] != b[0] then a[0] < b[0]
    else StrLess(a[1..], b[1..])
  }

  /** `a <= b` on strings. */
  predicate StrLessEq(a: string, b: string) {
    StrLess(a, b) || a == b
  }

  /** The empty string sorts before every other string and after none. */
  lemma EmptyIsLeast(s: string)
    ensures StrLess("", s) <==> s != ""
    ensures !StrLess(s, "")
  {
  }

  /** Comparing two concatenations whose first parts have equal length
      compares the first parts, and on a tie the second parts: the reason
      fixed-width fields compare field by field. */
  lemma {:induction false} StrLessConcat(a: string, b: string, a': string, b': string)
    requires |a| == |a'|
    ensures StrLess(a + b, a' + b') <==> StrLess(a, a') || (a == a' && StrLess(b, b'))
    decreases |a|
  {
    if |a| == 0 {
      assert a + b == b && a' + b' == b';
    } else {
      assert (a + b)[0] == a[0] && (a' + b')[0] == a'[0];
      if a[0] == a'[0] {
        assert (a + b)[1..] == a[1..] + b;
        assert (a' + b')[1..] == a'[1..] + b';
        StrLessConcat(a[1..], b, a'[1..], b');
        assert a == a' <==> a[1..] == a'[1..] by {
          if a[1..] == a'[1..] { assert a == [a[0]] + a[1..] && a' == [a'[0]] + a'[1..]; }
        }
      }
    }
  }

  function Pow10(w: nat): (p: nat)
    ensures p >= 1
  {
    if w == 0 then 1 else 10 * Pow10(w - 1)
  }

  /** `n.toString().padStart(w, "0")` for `0 <= n < 10^w`: exactly `w`
      decimal digits, most significant first. */
  function Pad(n: nat, w: nat): (r: string)
    ensures |r| == w
    ensures AllDigits(r)
  {
    if w == 0 then "" else Pad(n / 10, w - 1) + [DigitChar(n % 10)]
  }

  /** The number a string of decimal digits denotes. */
  function DigitsValue(s: string): nat
    requires AllDigits(s)
  {
    if |s| == 0 then 0 else 10 * DigitsValue(s[..|s| - 1]) + DigitValue(s[|s| - 1])
  }

  /** Reading back a padded number gives the number. */
  lemma {:induction false} PadRoundTrip(n: nat, w: nat)
    requires n < Pow10(w)
    ensures DigitsValue(Pad(n, w)) == n
  {
    if w > 0 {
      var q, d := n / 10, n % 10;
      assert q < Pow10(w - 1);
      PadRoundTrip(q, w - 1);
      var p := Pad(n, w);
      assert p == Pad(q, w - 1) + [DigitChar(d)];
      assert p[..|p| - 1] == Pad(q, w - 1);
      assert DigitValue(p[|p| - 1]) == d;
      assert n == 10 * q + d;
    }
  }

  /** For numbers that fit in `w` digits, string order of the padded forms is
      numeric order, and equal padded forms mean equal numbers. */
  lemma {:induction false} PadOrder(n: nat, m: nat, w: nat)
    requires n < Pow10(w) && m < Pow10(w)
    ensures StrLess(Pad(n, w), Pad(m, w)) <==> n < m
    ensures Pad(n, w) == Pad(m, w) <==> n == m
  {
    if w > 0 {
      PadOrder(n / 10, m / 10, w - 1);
      var pn, pm := Pad(n / 10, w - 1), Pad(m / 10, w - 1);
      var dn, dm := [DigitChar(n % 10)], [DigitChar(m % 10)];
      StrLessConcat(pn, dn, pm, dm);
      assert StrLess(dn, dm) <==> n % 10 < m % 10 by {
        assert dn[1..] == [] && dm[1..] == [];
      }
      assert pn + dn == pm + dm <==> pn == pm && dn == dm by {
        if pn + dn == pm + dm {
          assert pn == (pn + dn)[..w - 1] && pm == (pm + dm)[..w - 1];
          assert dn[0] == (pn + dn)[w - 1] && dm[0] == (pm + dm)[w - 1];
        }
      }
      assert dn == dm <==> n % 10 == m % 10;
      assert n == 10 * (n / 10) + n % 10 && m == 10 * (m / 10) + m % 10;
    }
  }

  /** Two concatenations whose first parts have equal length are equal
      exactly when both parts are. */
  lemma ConcatEq(a: string, b: string, a': string, b': string)
    requires |a| == |a'|
    ensures a + b == a' + b' <==> a == a' && b == b'
  {
    if a + b == a' + b' {
      assert a == (a + b)[..|a|] && a' == (a' + b')[..|a|];
      assert b == (a + b)[|a|..] && b' == (a' + b')[|a|..];
    }
  }

  /** Padding the value of a digit string to its own width gives the string
      back. */
  lemma {:induction false} DigitsRoundTrip(s: string)
    requires AllDigits(s)
    ensures DigitsValue(s) < Pow10(|s|)
    ensures Pad(DigitsValue(s), |s|) == s
    decreases |s|
  {
    if |s| > 0 {
      var init := s[..|s| - 1];
      DigitsRoundTrip(init);
      var v := DigitsValue(s);
      var d := DigitValue(s[|s| - 1]);
      assert v / 10 == DigitsValue(init) && v % 10 == d;
      assert s == init + [s[|s| - 1]];
    }
  }
}
