/**
 * String helpers with the meaning of the Python built-ins the bot relies on:
 * `str.strip`, `str.split(sep)`, `sep.join`, `str.split()`, `str.upper`,
 * `str.replace`, `str(int)` and `int(str)`.
 *
 * Whitespace and case are modelled on ASCII: Python's whitespace outside
 * ASCII (U+0085, U+00A0, U+2000 and the like) and non-ASCII case mappings
 * are not modelled.
 */
module Text {
  import opened Basics

  // ---------------------------------------------------------------------------
  // Whitespace and strip
  // ---------------------------------------------------------------------------

  /**
   * The ASCII characters `str.isspace` accepts: space, tab, line feed,
   * vertical tab, form feed, carriage return and the four separators
   * U+001C to U+001F.
   */
  predicate IsSpace(c: char) {
    c == ' ' || c == '\t' || c == '\n' || c == '\r' || c == '\U{000B}' || c == '\U{000C}'
    || ('\U{001C}' <= c <= '\U{001F}')
  }

  function StripLeft(s: string): (r: string)
    ensures |r| <= |s| && r == s[|s| - |r|..]
    ensures |r| > 0 ==> !IsSpace(r[0])
    ensures forall i :: 0 <= i < |s| - |r| ==> IsSpace(s[i])
  {
    if |s| > 0 && IsSpace(s[0]) then StripLeft(s[1..]) else s
  }

  function StripRight(s: string): (r: string)
    ensures |r| <= |s| && r == s[..|r|]
    ensures |r| > 0 ==> !IsSpace(r[|r| - 1])
    ensures forall i :: |r| <= i < |s| ==> IsSpace(s[i])
  {
    if |s| > 0 && IsSpace(s[|s| - 1]) then StripRight(s[..|s| - 1]) else s
  }

  /** `s.strip()`: whitespace removed from both ends. */
  function Strip(s: string): (r: string)
    ensures |r| <= |s|
    ensures |r| > 0 ==> !IsSpace(r[0]) && !IsSpace(r[|r| - 1])
  {
    StripRight(StripLeft(s))
  }

  /** What `strip` keeps is an infix of the text, starting where the leading whitespace ends. */
  lemma {:induction false} StripIsInfix(s: string)
    ensures var r := Strip(s);
      var k := |s| - |StripLeft(s)|;
      k + |r| <= |s| && r == s[k..k + |r|]
  {
    var left := StripLeft(s);
    var r := StripRight(left);
    var k := |s| - |left|;
    StripKeepsInfix(s, left, r, k);
  }

  /** What `strip` removes is whitespace, at either end. */
  lemma {:induction false} StripRemovesSpaces(s: string)
    ensures var r := Strip(s);
      var k := |s| - |StripLeft(s)|;
      && (forall i :: 0 <= i < k ==> IsSpace(s[i]))
      && (forall i :: k + |r| <= i < |s| ==> IsSpace(s[i]))
  {
    var left := StripLeft(s);
    var r := StripRight(left);
    var k := |s| - |left|;
    assert left == s[k..];
    forall i | k + |r| <= i < |s|
      ensures IsSpace(s[i])
    {
      assert s[i] == left[i - k];
    }
  }

  lemma StripKeepsInfix(s: string, left: string, r: string, k: nat)
    requires k <= |s| && left == s[k..] && |r| <= |left| && r == left[..|r|]
    ensures r == s[k..k + |r|]
  {
  }

  lemma StripNoSpaceIdentity(s: string)
    requires forall i :: 0 <= i < |s| ==> !IsSpace(s[i])
    ensures Strip(s) == s
  {
  }

  /** Text that neither starts nor ends with whitespace is left as it is. */
  lemma StripTrimmed(s: string)
    requires |s| > 0 ==> !IsSpace(s[0]) && !IsSpace(s[|s| - 1])
    ensures Strip(s) == s
  {
  }

  // ---------------------------------------------------------------------------
  // split(sep) and join
  // ---------------------------------------------------------------------------

  /** `sep.join(parts)`. */
  function Join(parts: seq<string>, sep: char): string {
    if |parts| == 0 then ""
    else if |parts| == 1 then parts[0]
    else parts[0] + [sep] + Join(parts[1..], sep)
  }

  /** `s.split(sep)` for a one-character separator: never empty, no part holds `sep`. */
  function Split(s: string, sep: char): (parts: seq<string>)
    ensures |parts| >= 1
    ensures forall i :: 0 <= i < |parts| ==> sep !in parts[i]
  {
    if |s| == 0 then [""]
    else
      var rest := Split(s[1..], sep);
      if s[0] == sep then [""] + rest
      else [[s[0]] + rest[0]] + rest[1..]
  }

  lemma {:induction false} SplitNoSeparator(s: string, sep: char)
    requires sep !in s
    ensures Split(s, sep) == [s]
  {
    if |s| > 0 {
      SplitNoSeparator(s[1..], sep);
      assert [s[0]] + s[1..] == s;
    }
  }

  /** Splitting at a separator splits the two sides independently. */
  lemma {:induction false} SplitAppend(a: string, sep: char, b: string)
    requires sep !in a
    ensures Split(a + [sep] + b, sep) == [a] + Split(b, sep)
  {
    if |a| == 0 {
      assert a + [sep] + b == [sep] + b;
      assert ([sep] + b)[1..] == b;
    } else {
      var s := a + [sep] + b;
      assert s[1..] == a[1..] + [sep] + b;
      SplitAppend(a[1..], sep, b);
      assert [a[0]] + a[1..] == a;
    }
  }

  /** Splitting a join of separator-free parts gives the parts back. */
  lemma {:induction false} SplitJoin(parts: seq<string>, sep: char)
    requires |parts| >= 1
    requires forall i :: 0 <= i < |parts| ==> sep !in parts[i]
    ensures Split(Join(parts, sep), sep) == parts
  {
    if |parts| == 1 {
      SplitNoSeparator(parts[0], sep);
    } else {
      SplitJoin(parts[1..], sep);
      SplitAppend(parts[0], sep, Join(parts[1..], sep));
      assert [parts[0]] + parts[1..] == parts;
    }
  }

  /** The last field of `x + sep + d` is `d` when `d` holds no separator. */
  lemma {:induction false} SplitLast(x: string, sep: char, d: string)
    requires sep !in d
    ensures var parts := Split(x + [sep] + d, sep);
      |parts| >= 2 && parts[|parts| - 1] == d
  {
    var s := x + [sep] + d;
    if |x| == 0 {
      assert s[1..] == d;
      SplitNoSeparator(d, sep);
    } else {
      assert s[1..] == x[1..] + [sep] + d;
      SplitLast(x[1..], sep, d);
    }
  }

  /** `s.split(sep)[-1]`. */
  function LastField(s: string, sep: char): string {
    var parts := Split(s, sep);
    parts[|parts| - 1]
  }

  /** The last field of `prefix + d` is `d` when the prefix ends in the separator and `d` holds none. */
  lemma LastFieldAfterPrefix(prefix: string, sep: char, d: string)
    requires |prefix| > 0 && prefix[|prefix| - 1] == sep && sep !in d
    ensures LastField(prefix + d, sep) == d
  {
    var x := prefix[..|prefix| - 1];
    assert prefix + d == x + [sep] + d;
    SplitLast(x, sep, d);
  }

  /** `sep.join(s.split(sep)) == s`. */
  lemma {:induction false} JoinSplit(s: string, sep: char)
    ensures Join(Split(s, sep), sep) == s
  {
    if |s| > 0 {
      JoinSplit(s[1..], sep);
      var rest := Split(s[1..], sep);
      if s[0] == sep {
        assert Join([""] + rest, sep) == "" + [sep] + Join(rest, sep);
        assert [s[0]] + s[1..] == s;
      } else {
        var parts := [[s[0]] + rest[0]] + rest[1..];
        if |rest| == 1 {
          assert Join(parts, sep) == [s[0]] + rest[0];
        } else {
          assert parts[1..] == rest[1..];
          assert Join(rest, sep) == rest[0] + [sep] + Join(rest[1..], sep);
        }
        assert [s[0]] + s[1..] == s;
      }
    }
  }

  // ---------------------------------------------------------------------------
  // split() on whitespace
  // ---------------------------------------------------------------------------

  /** The characters of `s` that are not whitespace, in order. */
  function NonSpace(s: string): string {
    if |s| == 0 then ""
    else if IsSpace(s[0]) then NonSpace(s[1..])
    else [s[0]] + NonSpace(s[1..])
  }

  function Concat(words: seq<string>): string {
    if |words| == 0 then "" else words[0] + Concat(words[1..])
  }

  predicate IsWord(w: string) {
    |w| > 0 && forall i :: 0 <= i < |w| ==> !IsSpace(w[i])
  }

  /**
   * `s.split()`: the maximal runs of non-whitespace characters. The words are
   * non-empty, hold no whitespace, and together spell `s` without its spaces.
   */
  function Words(s: string): (r: seq<string>)
    ensures forall i :: 0 <= i < |r| ==> IsWord(r[i])
    ensures Concat(r) == NonSpace(s)
    ensures |s| > 0 && !IsSpace(s[0]) ==> |r| > 0 && |r[0]| > 0 && r[0][0] == s[0]
  {
    if |s| == 0 then []
    else
      var rest := Words(s[1..]);
      if IsSpace(s[0]) then rest
      else if |s| > 1 && !IsSpace(s[1]) then
        var w := [s[0]] + rest[0];
        assert Concat(rest) == rest[0] + Concat(rest[1..]);
        assert ([w] + rest[1..])[1..] == rest[1..];
        assert NonSpace(s) == [s[0]] + NonSpace(s[1..]);
        [w] + rest[1..]
      else
        assert ([[s[0]]] + rest)[1..] == rest;
        [[s[0]]] + rest
  }

  lemma {:induction false} WordsOfWord(w: string)
    requires IsWord(w)
    ensures Words(w) == [w]
  {
    if |w| > 1 {
      WordsOfWord(w[1..]);
      assert [w[0]] + w[1..] == w;
      assert Words(w) == [[w[0]] + Words(w[1..])[0]] + Words(w[1..])[1..];
    } else {
      assert Words(w) == [[w[0]]] + Words(w[1..]);
      assert [w[0]] == w;
    }
  }

  lemma {:induction false} WordsLeadingSpace(s: string)
    requires |s| > 0 && IsSpace(s[0])
    ensures Words(s) == Words(s[1..])
  {
  }

  /** A word followed by a space and more text splits off as the first word. */
  lemma {:induction false} WordsAppend(w: string, rest: string)
    requires IsWord(w)
    ensures Words(w + " " + rest) == [w] + Words(rest)
  {
    var s := w + " " + rest;
    if |w| == 1 {
      assert s[1..] == " " + rest;
      assert (" " + rest)[1..] == rest;
      WordsLeadingSpace(" " + rest);
      assert Words(s) == [[s[0]]] + Words(s[1..]);
      assert [s[0]] == w;
    } else {
      assert s[1..] == w[1..] + " " + rest;
      WordsAppend(w[1..], rest);
      assert [w[0]] + w[1..] == w;
    }
  }

  // ---------------------------------------------------------------------------
  // upper() and replace()
  // ---------------------------------------------------------------------------

  function UpperChar(c: char): char {
    if 'a' <= c <= 'z' then (c as int - 32) as char else c
  }

  /** `s.upper()` on ASCII letters. */
  function Upper(s: string): (r: string)
    ensures |r| == |s|
    ensures forall i :: 0 <= i < |s| ==> r[i] == UpperChar(s[i])
  {
    seq(|s|, i requires 0 <= i < |s| => UpperChar(s[i]))
  }

  lemma UpperIdempotent(s: string)
    ensures Upper(Upper(s)) == Upper(s)
  {
  }

  /** `s.replace(c, with)` for a one-character pattern. */
  function Replace(s: string, c: char, with: string): (r: string)
    ensures c !in s ==> r == s
  {
    if |s| == 0 then ""
    else (if s[0] == c then with else [s[0]]) + Replace(s[1..], c, with)
  }

  /** Replacing in a concatenation replaces in each side. */
  lemma {:induction false} ReplaceAppend(a: string, b: string, c: char, with: string)
    ensures Replace(a + b, c, with) == Replace(a, c, with) + Replace(b, c, with)
  {
    if |a| > 0 {
      ReplaceAppend(a[1..], b, c, with);
      assert (a + b)[1..] == a[1..] + b;
    } else {
      assert a + b == b;
    }
  }

  /** `s[:n]`: at most the first `n` characters. */
  function Take(s: string, n: nat): (r: string)
    ensures |r| <= n && |r| <= |s|
    ensures |s| <= n ==> r == s
    ensures r == s[..|r|]
  {
    if |s| <= n then s else s[..n]
  }

  /** `s.startswith(prefix)`. */
  predicate StartsWith(s: string, prefix: string) {
    |prefix| <= |s| && s[..|prefix|] == prefix
  }

  /** Appending keeps a prefix. */
  lemma StartsWithAppend(s: string, t: string, prefix: string)
    requires StartsWith(s, prefix)
    ensures StartsWith(s + t, prefix)
  {
    assert (s + t)[..|prefix|] == s[..|prefix|];
  }

  /** A prefix of a prefix is a prefix. */
  lemma StartsWithShorter(s: string, long: string, short: string)
    requires StartsWith(s, long) && StartsWith(long, short)
    ensures StartsWith(s, short)
  {
    assert s[..|short|] == s[..|long|][..|short|];
  }

  /** A position where the two differ rules out the prefix. */
  lemma NotPrefix(p: string, q: string, k: nat)
    requires k < |p| && k < |q| && p[k] != q[k]
    ensures !StartsWith(p, q)
  {
    if |q| <= |p| {
      assert p[..|q|][k] == p[k];
    }
  }

  // ---------------------------------------------------------------------------
  // Integers as decimal text: str(i) and int(s)
  // ---------------------------------------------------------------------------

  predicate IsDigit(c: char) {
    '0' <= c <= '9'
  }

  predicate AllDigits(s: string) {
    forall i :: 0 <= i < |s| ==> IsDigit(s[i])
  }

  function DigitChar(d: nat): (c: char)
    requires d < 10
    ensures IsDigit(c) && c as int - '0' as int == d
  {
    ('0' as int + d) as char
  }

  /** `str(n)` for a natural number: no sign and no leading zeros. */
  function NatToString(n: nat): (r: string)
    ensures |r| > 0 && AllDigits(r)
  {
    if n < 10 then [DigitChar(n)] else NatToString(n / 10) + [DigitChar(n % 10)]
  }

  /** `str(i)`. */
  function IntToString(i: int): (r: string)
    ensures |r| > 0 && (r[0] == '-' || IsDigit(r[0]))
    ensures forall k :: 0 < k < |r| ==> IsDigit(r[k])
  {
    if i < 0 then "-" + NatToString(-i) else NatToString(i)
  }

  /** The value of a string of decimal digits. */
  function DigitsValue(s: string): nat
    requires AllDigits(s)
  {
    if |s| == 0 then 0
    else DigitsValue(s[..|s| - 1]) * 10 + (s[|s| - 1] as int - '0' as int)
  }

  /**
   * `int(s)` on an optional sign followed by decimal digits; anything else is
   * the `ValueError` case. Python also skips surrounding whitespace and `_`
   * separators; the bot's own payloads never contain either.
   */
  function ParseInt(s: string): (r: Option<int>)
    ensures r.Some? ==> |s| > 0
    ensures |s| > 0 && s[0] != '-' && s[0] != '+' && !IsDigit(s[0]) ==> r.None?
  {
    if |s| > 0 && (s[0] == '-' || s[0] == '+') then
      var body := s[1..];
      if |body| > 0 && AllDigits(body) then
        var v: int := DigitsValue(body);
        Some(if s[0] == '-' then -v else v)
      else None
    else if |s| > 0 && AllDigits(s) then Some(DigitsValue(s))
    else None
  }

  lemma {:induction false} NatToStringValue(n: nat)
    ensures DigitsValue(NatToString(n)) == n
  {
    if n >= 10 {
      NatToStringValue(n / 10);
      var s := NatToString(n);
      assert s[..|s| - 1] == NatToString(n / 10);
    }
  }

  /** `str(i)` holds only digits and a leading minus, so it never holds a field separator. */
  lemma IntToStringHasNo(i: int, sep: char)
    requires sep != '-' && !IsDigit(sep)
    ensures sep !in IntToString(i)
  {
    var r := IntToString(i);
    forall k | 0 <= k < |r|
      ensures r[k] != sep
    {
      assert k == 0 || IsDigit(r[k]);
    }
  }

  /** `int(str(i)) == i`. */
  lemma IntToStringRoundTrip(i: int)
    ensures ParseInt(IntToString(i)) == Some(i)
  {
    if i < 0 {
      NatToStringValue(-i);
      assert IntToString(i)[1..] == NatToString(-i);
    } else {
      NatToStringValue(i);
    }
  }

  // ---------------------------------------------------------------------------
  // Code-point order on strings (Python's `<` on str)
  // ---------------------------------------------------------------------------

  predicate LexLe(a: string, b: string) {
    if |a| == 0 then true
    else if |b| == 0 then false
    else if a[0] != b[0] then a[0] < b[0]
    else LexLe(a[1..], b[1..])
  }

  lemma {:induction false} LexLeTotal(a: string, b: string)
    ensures LexLe(a, b) || LexLe(b, a)
  {
    if |a| > 0 && |b| > 0 && a[0] == b[0] {
      LexLeTotal(a[1..], b[1..]);
    }
  }

  lemma {:induction false} LexLeTransitive(a: string, b: string, c: string)
    requires LexLe(a, b) && LexLe(b, c)
    ensures LexLe(a, c)
  {
    if |a| > 0 && |b| > 0 && |c| > 0 && a[0] == b[0] && b[0] == c[0] {
      LexLeTransitive(a[1..], b[1..], c[1..]);
    }
  }

  lemma {:induction false} LexLeAntisymmetric(a: string, b: string)
    requires LexLe(a, b) && LexLe(b, a)
    ensures a == b
  {
    if |a| > 0 && |b| > 0 {
      LexLeAntisymmetric(a[1..], b[1..]);
      assert a == [a[0]] + a[1..];
      assert b == [b[0]] + b[1..];
    }
  }
}
