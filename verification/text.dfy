/** The JVM string operations the build scripts rely on, written out over
    `seq<char>`: prefix and substring tests, `String.replace`, `split(..)[0]`,
    `trim`, `substringAfterLast`, `String.join`, ASCII lower-casing and decimal
    rendering of integers. */
module Text {
  import opened Wrappers

  predicate StartsWith(s: string, prefix: string) {
    |prefix| <= |s| && s[..|prefix|] == prefix
  }

  /** `s` holds `t` as a contiguous substring (Java's `String.contains`). */
  predicate Contains(s: string, t: string)
    decreases |s|
  {
    StartsWith(s, t) || (|s| > 0 && Contains(s[1..], t))
  }

  lemma {:induction false} ContainsAt(s: string, t: string, i: nat)
    requires i + |t| <= |s| && s[i..i + |t|] == t
    ensures Contains(s, t)
    decreases i
  {
    if i > 0 {
      assert s[1..][i - 1..i - 1 + |t|] == s[i..i + |t|];
      ContainsAt(s[1..], t, i - 1);
    } else {
      assert s[..|t|] == t;
    }
  }

  /** A string holding `p + q` holds `p`. */
  lemma {:induction false} ContainsPrefixOf(s: string, p: string, q: string)
    requires Contains(s, p + q)
    ensures Contains(s, p)
    decreases |s|
  {
    if StartsWith(s, p + q) {
      assert s[..|p|] == (p + q)[..|p|] == p;
    } else {
      ContainsPrefixOf(s[1..], p, q);
    }
  }

  /** A substring of either part is a substring of the concatenation. */
  lemma {:induction false} ContainsConcat(a: string, b: string, t: string)
    ensures Contains(a, t) ==> Contains(a + b, t)
    ensures Contains(b, t) ==> Contains(a + b, t)
    decreases |a|
  {
    if a == [] {
      assert a + b == b;
      assert !Contains(a, t) || StartsWith(a, t);
    } else {
      ContainsConcat(a[1..], b, t);
      assert (a + b)[1..] == a[1..] + b;
      if StartsWith(a, t) {
        assert (a + b)[..|t|] == a[..|t|];
      }
    }
  }

  /** A single character occurs in `s` exactly when the one-character string does. */
  lemma {:induction false} ContainsChar(s: string, c: char)
    ensures Contains(s, [c]) <==> c in s
    decreases |s|
  {
    if s != [] {
      ContainsChar(s[1..], c);
      assert s == [s[0]] + s[1..];
    }
  }

  /** `String.replace(target, replacement)` (Kotlin's, as Java's for a non-empty
      target): the string is scanned from the left and every non-overlapping
      occurrence of `target` is replaced. */
  function ReplaceAll(s: string, target: string, replacement: string): string
    requires target != []
    decreases |s|
  {
    if s == [] then []
    else if StartsWith(s, target) then replacement + ReplaceAll(s[|target|..], target, replacement)
    else [s[0]] + ReplaceAll(s[1..], target, replacement)
  }

  /** Replacing a target that does not occur changes nothing. */
  lemma {:induction false} ReplaceAllAbsent(s: string, target: string, replacement: string)
    requires target != [] && !Contains(s, target)
    ensures ReplaceAll(s, target, replacement) == s
    decreases |s|
  {
    if s != [] {
      ReplaceAllAbsent(s[1..], target, replacement);
      assert s == [s[0]] + s[1..];
    }
  }

  /** A leading occurrence of the target is replaced, and the scan resumes after it. */
  lemma ReplaceAllAtStart(target: string, rest: string, replacement: string)
    requires target != []
    ensures ReplaceAll(target + rest, target, replacement) == replacement + ReplaceAll(rest, target, replacement)
  {
    assert (target + rest)[..|target|] == target;
    assert (target + rest)[|target|..] == rest;
  }

  /** Characters before which no occurrence can start (none is the target's first
      character) are copied unchanged, and the scan goes on after them. */
  lemma {:induction false} ReplaceAllSkip(a: string, rest: string, target: string, replacement: string)
    requires target != [] && target[0] !in a
    ensures ReplaceAll(a + rest, target, replacement) == a + ReplaceAll(rest, target, replacement)
    decreases |a|
  {
    if a != [] {
      var s := a + rest;
      assert s[0] == a[0] && s[1..] == a[1..] + rest;
      assert !StartsWith(s, target);
      ReplaceAllSkip(a[1..], rest, target, replacement);
      assert a == [a[0]] + a[1..];
    } else {
      assert a + rest == rest;
    }
  }

  /** Replacing a target by itself changes nothing. */
  lemma {:induction false} ReplaceAllSelf(s: string, target: string)
    requires target != []
    ensures ReplaceAll(s, target, target) == s
    decreases |s|
  {
    if s != [] {
      if StartsWith(s, target) {
        ReplaceAllSelf(s[|target|..], target);
        assert s == s[..|target|] + s[|target|..];
      } else {
        ReplaceAllSelf(s[1..], target);
        assert s == [s[0]] + s[1..];
      }
    }
  }

  /** A replacement no longer than the target never makes the string longer. */
  lemma {:induction false} ReplaceAllShrinks(s: string, target: string, replacement: string)
    requires target != [] && |replacement| <= |target|
    ensures |ReplaceAll(s, target, replacement)| <= |s|
    decreases |s|
  {
    if s != [] {
      if StartsWith(s, target) {
        ReplaceAllShrinks(s[|target|..], target, replacement);
      } else {
        ReplaceAllShrinks(s[1..], target, replacement);
      }
    }
  }

  /** Replacing one character by another is a character-wise map. */
  lemma {:induction false} ReplaceCharPointwise(s: string, c: char, d: char)
    ensures |ReplaceAll(s, [c], [d])| == |s|
    ensures forall i :: 0 <= i < |s| ==>
      ReplaceAll(s, [c], [d])[i] == (if s[i] == c then d else s[i])
    decreases |s|
  {
    if s != [] {
      ReplaceCharPointwise(s[1..], c, d);
      var rest := ReplaceAll(s[1..], [c], [d]);
      assert ReplaceAll(s, [c], [d]) == [if s[0] == c then d else s[0]] + rest;
    }
  }

  /** Kotlin's `split(c)[0]`: the text before the first `c`, or all of `s`. */
  function BeforeFirst(s: string, c: char): string
    decreases |s|
  {
    if s == [] || s[0] == c then [] else [s[0]] + BeforeFirst(s[1..], c)
  }

  /** `BeforeFirst` is a prefix free of `c`, cut either at the end of `s` or at a `c`. */
  lemma {:induction false} BeforeFirstSpec(s: string, c: char)
    ensures var r := BeforeFirst(s, c);
      |r| <= |s| && r == s[..|r|] && c !in r && (|r| == |s| || s[|r|] == c)
    decreases |s|
  {
    if s != [] && s[0] != c {
      BeforeFirstSpec(s[1..], c);
    }
  }

  /** Kotlin's `trim(predicate)`: drop leading and trailing characters satisfying `blank`. */
  function TrimStart(s: string, blank: char -> bool): string
    decreases |s|
  {
    if s != [] && blank(s[0]) then TrimStart(s[1..], blank) else s
  }

  function TrimEnd(s: string, blank: char -> bool): string
    decreases |s|
  {
    if s != [] && blank(s[|s| - 1]) then TrimEnd(s[..|s| - 1], blank) else s
  }

  function Trim(s: string, blank: char -> bool): string {
    TrimEnd(TrimStart(s, blank), blank)
  }

  lemma {:induction false} TrimStartSpec(s: string, blank: char -> bool)
    ensures var r := TrimStart(s, blank);
      |r| <= |s| && r == s[|s| - |r|..] && (r != [] ==> !blank(r[0]))
      && forall k :: 0 <= k < |s| - |r| ==> blank(s[k])
    decreases |s|
  {
    if s != [] && blank(s[0]) {
      TrimStartSpec(s[1..], blank);
    }
  }

  lemma {:induction false} TrimEndSpec(s: string, blank: char -> bool)
    ensures var r := TrimEnd(s, blank);
      |r| <= |s| && r == s[..|r|] && (r != [] ==> !blank(r[|r| - 1]))
      && forall k :: |r| <= k < |s| ==> blank(s[k])
    decreases |s|
  {
    if s != [] && blank(s[|s| - 1]) {
      TrimEndSpec(s[..|s| - 1], blank);
    }
  }

  /** The trimmed text is a slice of `s` that neither starts nor ends with a blank,
      and everything cut away is blank. */
  lemma {:induction false} TrimSpec(s: string, blank: char -> bool)
    ensures var r, i := Trim(s, blank), |s| - |TrimStart(s, blank)|;
      0 <= i && i + |r| <= |s| && r == s[i..i + |r|]
        && (forall k :: 0 <= k < i ==> blank(s[k]))
        && (forall k :: i + |r| <= k < |s| ==> blank(s[k]))
    ensures var r := Trim(s, blank);
      r != [] ==> !blank(r[0]) && !blank(r[|r| - 1])
  {
    var m := TrimStart(s, blank);
    TrimStartSpec(s, blank);
    TrimEndSpec(m, blank);
    var r := TrimEnd(m, blank);
    assert r == Trim(s, blank);
    var i := |s| - |m|;
    SliceOfSuffix(s, i, m, r);
    forall k | i + |r| <= k < |s| ensures blank(s[k]) {
      assert s[k] == m[k - i];
    }
    if r != [] {
      assert r[0] == m[0];
    }
  }

  /** A prefix of a suffix of `s` is a slice of `s`. */
  lemma SliceOfSuffix(s: string, i: nat, m: string, r: string)
    requires i <= |s| && m == s[i..] && |r| <= |m| && r == m[..|r|]
    ensures i + |r| <= |s| && r == s[i..i + |r|]
  {
    forall k | 0 <= k < |r| ensures r[k] == s[i + k] {
      assert r[k] == m[k];
    }
  }

  lemma {:induction false} TrimStartSkips(pre: string, rest: string, blank: char -> bool)
    requires forall k :: 0 <= k < |pre| ==> blank(pre[k])
    ensures TrimStart(pre + rest, blank) == TrimStart(rest, blank)
    decreases |pre|
  {
    if pre == [] {
      assert pre + rest == rest;
    } else {
      assert (pre + rest)[1..] == pre[1..] + rest;
      TrimStartSkips(pre[1..], rest, blank);
    }
  }

  lemma {:induction false} TrimEndSkips(rest: string, post: string, blank: char -> bool)
    requires forall k :: 0 <= k < |post| ==> blank(post[k])
    ensures TrimEnd(rest + post, blank) == TrimEnd(rest, blank)
    decreases |post|
  {
    if post == [] {
      assert rest + post == rest;
    } else {
      assert (rest + post)[..|rest + post| - 1] == rest + post[..|post| - 1];
      TrimEndSkips(rest, post[..|post| - 1], blank);
    }
  }

  /** Blank padding around a text that neither starts nor ends with a blank is all
      that trimming removes. */
  lemma TrimPadded(pre: string, s: string, post: string, blank: char -> bool)
    requires forall k :: 0 <= k < |pre| ==> blank(pre[k])
    requires forall k :: 0 <= k < |post| ==> blank(post[k])
    requires s != [] ==> !blank(s[0]) && !blank(s[|s| - 1])
    ensures Trim(pre + s + post, blank) == s
  {
    assert pre + s + post == pre + (s + post);
    TrimStartSkips(pre, s + post, blank);
    if s == [] {
      assert s + post == post + [];
      TrimStartSkips(post, [], blank);
    }
    TrimEndSkips(s, post, blank);
  }

  /** The blanks of Kotlin's `trim { it <= ' ' }`: controls and the space. */
  predicate IsControlOrSpace(c: char) {
    c <= ' '
  }

  /** Kotlin's `Char.isWhitespace` on the JVM: Java whitespace or a Unicode space
      separator (categories Zs, Zl and Zp), which is what `String.trim()` drops. */
  predicate IsWhitespace(c: char) {
    ('\U{9}' <= c <= '\U{D}') || ('\U{1C}' <= c <= ' ') || c == '\U{A0}' || c == '\U{1680}'
    || ('\U{2000}' <= c <= '\U{200A}') || c == '\U{2028}' || c == '\U{2029}'
    || c == '\U{202F}' || c == '\U{205F}' || c == '\U{3000}'
  }

  /** Kotlin's `substringAfterLast(c)`: the text after the last `c`, or all of `s`. */
  function AfterLast(s: string, c: char): string
    decreases |s|
  {
    if s == [] || s[|s| - 1] == c then [] else AfterLast(s[..|s| - 1], c) + [s[|s| - 1]]
  }

  /** `AfterLast` is a suffix free of `c`, cut either at the start of `s` or after a `c`. */
  lemma {:induction false} AfterLastSpec(s: string, c: char)
    ensures var r := AfterLast(s, c);
      |r| <= |s| && r == s[|s| - |r|..] && c !in r && (|r| == |s| || s[|s| - |r| - 1] == c)
    decreases |s|
  {
    if s != [] && s[|s| - 1] != c {
      AfterLastSpec(s[..|s| - 1], c);
      var r := AfterLast(s[..|s| - 1], c);
      assert AfterLast(s, c) == r + [s[|s| - 1]];
    }
  }

  /** The pieces of `s` between occurrences of `c` (always at least one). */
  function Split(s: string, c: char): (parts: seq<string>)
    ensures |parts| > 0
    decreases |s|
  {
    if s == [] then [[]]
    else
      var rest := Split(s[1..], c);
      if s[0] == c then [[]] + rest else [[s[0]] + rest[0]] + rest[1..]
  }

  /** Java's `String.join(sep, xs)`. */
  function Join(xs: seq<string>, sep: string): string
    decreases |xs|
  {
    if xs == [] then []
    else if |xs| == 1 then xs[0]
    else xs[0] + sep + Join(xs[1..], sep)
  }

  lemma JoinConsHead(x: char, first: string, rest: seq<string>, sep: string)
    ensures Join([[x] + first] + rest, sep) == [x] + Join([first] + rest, sep)
  {
    var xs := [[x] + first] + rest;
    var ys := [first] + rest;
    if rest != [] {
      assert xs[1..] == rest == ys[1..];
    }
  }

  /** Joining the pieces of a split with the separator gives the string back. */
  lemma {:induction false} JoinSplit(s: string, c: char)
    ensures Join(Split(s, c), [c]) == s
    decreases |s|
  {
    if s != [] {
      var rest := Split(s[1..], c);
      JoinSplit(s[1..], c);
      if s[0] == c {
        assert ([[]] + rest)[1..] == rest;
      } else {
        assert rest == [rest[0]] + rest[1..];
        JoinConsHead(s[0], rest[0], rest[1..], [c]);
      }
    }
  }

  /** Each joined part occurs in the joined string. */
  lemma {:induction false} JoinContainsEach(xs: seq<string>, sep: string, i: nat)
    requires i < |xs|
    ensures Contains(Join(xs, sep), xs[i])
    decreases |xs|
  {
    if |xs| == 1 {
      ContainsAt(xs[0], xs[0], 0);
    } else if i == 0 {
      ContainsAt(xs[0], xs[0], 0);
      ContainsConcat(xs[0], sep + Join(xs[1..], sep), xs[0]);
      assert xs[0] + sep + Join(xs[1..], sep) == xs[0] + (sep + Join(xs[1..], sep));
    } else {
      JoinContainsEach(xs[1..], sep, i - 1);
      ContainsConcat(xs[0] + sep, Join(xs[1..], sep), xs[i]);
    }
  }

  function Sum(lengths: seq<nat>): nat
    decreases |lengths|
  {
    if lengths == [] then 0 else lengths[0] + Sum(lengths[1..])
  }

  /** A join is as long as its parts plus one separator between each two. */
  lemma {:induction false} JoinLength(xs: seq<string>, sep: string)
    ensures |Join(xs, sep)| ==
      Sum(seq(|xs|, i requires 0 <= i < |xs| => |xs[i]|)) + (if xs == [] then 0 else (|xs| - 1) * |sep|)
    decreases |xs|
  {
    var lens := seq(|xs|, i requires 0 <= i < |xs| => |xs[i]|);
    if |xs| == 1 {
      assert lens[1..] == [];
    } else if |xs| > 1 {
      JoinLength(xs[1..], sep);
      assert lens[1..] == seq(|xs[1..]|, i requires 0 <= i < |xs[1..]| => |xs[1..][i]|);
    }
  }

  function LowerChar(c: char): char {
    if 'A' <= c <= 'Z' then (c as int + 32) as char else c
  }

  /** Lower-casing restricted to the ASCII letters. */
  function LowerAscii(s: string): string {
    seq(|s|, i requires 0 <= i < |s| => LowerChar(s[i]))
  }

  lemma LowerAsciiSpec(s: string)
    ensures |LowerAscii(s)| == |s|
    ensures forall i :: 0 <= i < |s| ==> !('A' <= LowerAscii(s)[i] <= 'Z')
    ensures LowerAscii(LowerAscii(s)) == LowerAscii(s)
  {
  }

  function DigitChar(d: nat): char
    requires d < 10
  {
    ('0' as int + d) as char
  }

  /** Decimal rendering of a natural number, most significant digit first. */
  function NatToString(n: nat): string
    decreases n
  {
    if n < 10 then [DigitChar(n)] else NatToString(n / 10) + [DigitChar(n % 10)]
  }

  /** Decimal rendering of an integer, as string templates write `$exit`. */
  function IntToString(i: int): string {
    if i < 0 then "-" + NatToString(-i) else NatToString(i)
  }

  predicate IsAsciiDigit(c: char) {
    '0' <= c <= '9'
  }

  predicate AllDigits(s: string) {
    forall i :: 0 <= i < |s| ==> IsAsciiDigit(s[i])
  }

  /** The value of a string of decimal digits, most significant first. */
  function DigitsValue(s: string): nat
    requires AllDigits(s)
    decreases |s|
  {
    if s == [] then 0 else 10 * DigitsValue(s[..|s| - 1]) + (s[|s| - 1] as int - '0' as int)
  }

  const IntMin: int := -0x8000_0000
  const IntMax: int := 0x7fff_ffff

  /** `Integer.parseInt` in base 10 over ASCII digits: an optional sign, at least one
      digit, and a value within the 32-bit range; `None` is the NumberFormatException. */
  function ParseInt(s: string): Option<int> {
    var negative := |s| > 0 && s[0] == '-';
    var digits := if |s| > 0 && (s[0] == '-' || s[0] == '+') then s[1..] else s;
    if digits == [] || !AllDigits(digits) then None
    else
      var magnitude: int := DigitsValue(digits);
      var v := if negative then -magnitude else magnitude;
      if IntMin <= v <= IntMax then Some(v) else None
  }

  lemma {:induction false} NatToStringDigits(n: nat)
    ensures NatToString(n) != [] && AllDigits(NatToString(n)) && DigitsValue(NatToString(n)) == n
    decreases n
  {
    if n >= 10 {
      NatToStringDigits(n / 10);
      var s := NatToString(n);
      assert s[..|s| - 1] == NatToString(n / 10);
    }
  }

  /** Unsigned digits parse to their value when it is within range. */
  lemma ParseIntUnsigned(d: string)
    requires d != [] && AllDigits(d)
    ensures ParseInt(d) == (if DigitsValue(d) <= IntMax then Some(DigitsValue(d)) else None)
  {
    assert IsAsciiDigit(d[0]);
  }

  /** A minus sign before digits negates their value, which must stay within range. */
  lemma ParseIntNegated(d: string)
    requires d != [] && AllDigits(d)
    ensures ParseInt("-" + d) == (if DigitsValue(d) <= -IntMin then Some(-(DigitsValue(d) as int)) else None)
  {
    var s := "-" + d;
    assert s[0] == '-' && s[1..] == d;
  }

  /** Rendering then parsing gives back every 32-bit integer. */
  lemma IntToStringParses(i: int)
    requires IntMin <= i <= IntMax
    ensures ParseInt(IntToString(i)) == Some(i)
  {
    if i < 0 {
      NatToStringDigits(-i);
      ParseIntNegated(NatToString(-i));
    } else {
      NatToStringDigits(i);
      ParseIntUnsigned(NatToString(i));
    }
  }
}
