/**
 * The string primitives the table code is built from: Python's `str.split` and
 * `str.join` with a one-character separator, the line-ending normalisation done with
 * `re.sub`, decimal formatting of codes (`"%s" % n`) and whole-word matching with
 * `re.match("^...$", s, re.I)`.
 */
module Text {

  /** `s.split(sep)`: never empty; adjacent separators give empty parts. */
  function Split(s: string, sep: char): (parts: seq<string>)
    ensures |parts| >= 1
    ensures forall i :: 0 <= i < |parts| ==> sep !in parts[i]
  {
    if |s| == 0 then [""]
    else
      var rest := Split(s[1..], sep);
      if s[0] == sep then [""] + rest
      else [[s[0]] + rest[0]] + rest[1..]
  }

  /** `sep.join(parts)`. */
  function Join(parts: seq<string>, sep: char): string
  {
    if |parts| == 0 then ""
    else if |parts| == 1 then parts[0]
    else parts[0] + [sep] + Join(parts[1..], sep)
  }

  /** Joining the parts of a split gives back the original string. */
  lemma {:induction false} JoinSplit(s: string, sep: char)
    ensures Join(Split(s, sep), sep) == s
  {
    if |s| > 0 {
      JoinSplit(s[1..], sep);
      var rest := Split(s[1..], sep);
      if s[0] == sep {
        assert ([""] + rest)[1..] == rest;
      } else {
        var parts := [[s[0]] + rest[0]] + rest[1..];
        if |rest| > 1 {
          assert parts[1..] == rest[1..];
        }
      }
      assert s == [s[0]] + s[1..];
    }
  }

  lemma {:induction false} SplitWithoutSeparator(a: string, sep: char)
    requires sep !in a
    ensures Split(a, sep) == [a]
  {
    if |a| > 0 {
      SplitWithoutSeparator(a[1..], sep);
      assert a == [a[0]] + a[1..];
    }
  }

  lemma {:induction false} SplitAfterPart(a: string, b: string, sep: char)
    requires sep !in a
    ensures Split(a + [sep] + b, sep) == [a] + Split(b, sep)
  {
    if |a| == 0 {
      assert a + [sep] + b == [sep] + b;
      assert ([sep] + b)[1..] == b;
    } else {
      SplitAfterPart(a[1..], b, sep);
      assert (a + [sep] + b)[1..] == a[1..] + [sep] + b;
      assert a == [a[0]] + a[1..];
    }
  }

  /** A separator ends the parts of what comes before it: the split of `a + [sep] + b` is that of `a`, then that of `b`. */
  lemma {:induction false} SplitAtSeparator(a: string, b: string, sep: char)
    ensures Split(a + [sep] + b, sep) == Split(a, sep) + Split(b, sep)
  {
    if |a| == 0 {
      SplitAfterPart(a, b, sep);
    } else {
      SplitAtSeparator(a[1..], b, sep);
      if a[0] == sep {
        SplitAtSeparatorSep(a, b, sep);
      } else {
        SplitAtSeparatorOther(a, b, sep);
      }
    }
  }

  // The steps of SplitAtSeparator, by the first character of `a`.

  lemma SplitAtSeparatorSep(a: string, b: string, sep: char)
    requires |a| > 0 && a[0] == sep
    requires Split(a[1..] + [sep] + b, sep) == Split(a[1..], sep) + Split(b, sep)
    ensures Split(a + [sep] + b, sep) == Split(a, sep) + Split(b, sep)
  {
    var ra, rb := Split(a[1..], sep), Split(b, sep);
    assert (a + [sep] + b)[1..] == a[1..] + [sep] + b;
    assert [""] + (ra + rb) == ([""] + ra) + rb;
  }

  lemma SplitAtSeparatorOther(a: string, b: string, sep: char)
    requires |a| > 0 && a[0] != sep
    requires Split(a[1..] + [sep] + b, sep) == Split(a[1..], sep) + Split(b, sep)
    ensures Split(a + [sep] + b, sep) == Split(a, sep) + Split(b, sep)
  {
    assert (a + [sep] + b)[1..] == a[1..] + [sep] + b;
    ExtendFirstPart(a[0], Split(a[1..], sep), Split(b, sep));
  }

  lemma ExtendFirstPart(c: char, ra: seq<string>, rb: seq<string>)
    requires |ra| >= 1
    ensures [[c] + (ra + rb)[0]] + (ra + rb)[1..] == ([[c] + ra[0]] + ra[1..]) + rb
  {
    assert (ra + rb)[1..] == ra[1..] + rb;
  }

  /** Splitting a join gives back the parts, provided no part contains the separator. */
  lemma {:induction false} SplitJoin(parts: seq<string>, sep: char)
    requires |parts| >= 1
    requires forall i :: 0 <= i < |parts| ==> sep !in parts[i]
    ensures Split(Join(parts, sep), sep) == parts
  {
    if |parts| == 1 {
      SplitWithoutSeparator(parts[0], sep);
    } else {
      SplitJoin(parts[1..], sep);
      SplitAfterPart(parts[0], Join(parts[1..], sep), sep);
    }
  }

  /** A character missing from a string is missing from every part of its split. */
  lemma {:induction false} SplitPartsAvoid(s: string, sep: char, c: char)
    requires c !in s
    ensures forall i :: 0 <= i < |Split(s, sep)| ==> c !in Split(s, sep)[i]
  {
    if |s| > 0 {
      SplitPartsAvoid(s[1..], sep, c);
      var rest := Split(s[1..], sep);
      assert c !in s[1..] && s[0] != c;
      if s[0] != sep {
        var parts := [[s[0]] + rest[0]] + rest[1..];
        forall i | 0 <= i < |parts| ensures c !in parts[i] {
          if i > 0 { assert parts[i] == rest[i]; }
        }
      }
    }
  }

  /** A joined string contains the separator only where the parts or the join put it. */
  lemma {:induction false} JoinAvoids(parts: seq<string>, sep: char, c: char)
    requires c != sep
    requires forall i :: 0 <= i < |parts| ==> c !in parts[i]
    ensures c !in Join(parts, sep)
  {
    if |parts| > 1 {
      JoinAvoids(parts[1..], sep, c);
    }
  }

  /** `s` with every carriage return and line feed removed. */
  function WithoutLineBreaks(s: string): string
  {
    if |s| == 0 then s
    else if s[0] == '\r' || s[0] == '\n' then WithoutLineBreaks(s[1..])
    else [s[0]] + WithoutLineBreaks(s[1..])
  }

  /** `re.sub("(\r\n)|(\r)", "\n", s)`: each CR LF pair, and each CR on its own, becomes one LF. */
  function NormalizeNewlines(s: string): (r: string)
    ensures '\r' !in r
    ensures '\r' !in s ==> r == s
    ensures |r| <= |s|
  {
    if |s| == 0 then s
    else if s[0] == '\r' then
      if |s| > 1 && s[1] == '\n' then "\n" + NormalizeNewlines(s[2..])
      else "\n" + NormalizeNewlines(s[1..])
    else [s[0]] + NormalizeNewlines(s[1..])
  }

  /** Normalisation only rewrites line breaks: every other character survives, in order. */
  lemma {:induction false} NormalizeKeepsText(s: string)
    ensures WithoutLineBreaks(NormalizeNewlines(s)) == WithoutLineBreaks(s)
  {
    if |s| > 0 {
      if s[0] == '\r' && |s| > 1 && s[1] == '\n' {
        NormalizeKeepsText(s[2..]);
        assert s[1..][1..] == s[2..];
      } else {
        NormalizeKeepsText(s[1..]);
      }
    }
  }

  /**
   * Normalisation works piece by piece: the normal form of `a + b` is that of `a`
   * followed by that of `b`, unless the cut separates the CR and the LF of one pair.
   */
  lemma {:induction false} NormalizeAppend(a: string, b: string)
    requires |a| == 0 || |b| == 0 || a[|a| - 1] != '\r' || b[0] != '\n'
    ensures NormalizeNewlines(a + b) == NormalizeNewlines(a) + NormalizeNewlines(b)
  {
    if |a| == 0 {
      assert a + b == b;
    } else if a[0] == '\r' && |a| > 1 && a[1] == '\n' {
      NormalizeAppend(a[2..], b);
      NormalizeAppendCrLf(a, b);
    } else if a[0] == '\r' && |a| > 1 {
      NormalizeAppend(a[1..], b);
      NormalizeAppendLoneCr(a, b);
    } else if a[0] == '\r' {
      NormalizeAppendFinalCr(a, b);
    } else {
      NormalizeAppend(a[1..], b);
      NormalizeAppendOther(a, b);
    }
  }

  // The steps of NormalizeAppend, by the first characters of `a`.

  lemma NormalizeAppendCrLf(a: string, b: string)
    requires |a| > 1 && a[0] == '\r' && a[1] == '\n'
    requires NormalizeNewlines(a[2..] + b) == NormalizeNewlines(a[2..]) + NormalizeNewlines(b)
    ensures NormalizeNewlines(a + b) == NormalizeNewlines(a) + NormalizeNewlines(b)
  {
    assert (a + b)[2..] == a[2..] + b;
    ConcatAssoc("\n", NormalizeNewlines(a[2..]), NormalizeNewlines(b));
  }

  lemma NormalizeAppendLoneCr(a: string, b: string)
    requires |a| > 1 && a[0] == '\r' && a[1] != '\n'
    requires NormalizeNewlines(a[1..] + b) == NormalizeNewlines(a[1..]) + NormalizeNewlines(b)
    ensures NormalizeNewlines(a + b) == NormalizeNewlines(a) + NormalizeNewlines(b)
  {
    var s := a + b;
    assert s[1..] == a[1..] + b && s[1] == a[1];
    ConcatAssoc("\n", NormalizeNewlines(a[1..]), NormalizeNewlines(b));
  }

  lemma NormalizeAppendFinalCr(a: string, b: string)
    requires a == "\r" && (|b| == 0 || b[0] != '\n')
    ensures NormalizeNewlines(a + b) == NormalizeNewlines(a) + NormalizeNewlines(b)
  {
    NormalizeLoneCrHead(b);
    assert NormalizeNewlines(a) == "\n" + NormalizeNewlines(a[1..]);
  }

  lemma NormalizeAppendOther(a: string, b: string)
    requires |a| > 0 && a[0] != '\r'
    requires NormalizeNewlines(a[1..] + b) == NormalizeNewlines(a[1..]) + NormalizeNewlines(b)
    ensures NormalizeNewlines(a + b) == NormalizeNewlines(a) + NormalizeNewlines(b)
  {
    assert (a + b)[1..] == a[1..] + b;
    ConcatAssoc([a[0]], NormalizeNewlines(a[1..]), NormalizeNewlines(b));
  }

  lemma ConcatAssoc(x: string, y: string, z: string)
    ensures x + (y + z) == (x + y) + z
  {
  }

  /** The rewrite at the start of a string: CR LF, or CR not before LF, becomes LF. */
  lemma NormalizeCrLfHead(b: string)
    ensures NormalizeNewlines("\r\n" + b) == "\n" + NormalizeNewlines(b)
  {
    var t := "\r\n" + b;
    assert t[2..] == b;
  }

  lemma NormalizeLoneCrHead(b: string)
    requires |b| == 0 || b[0] != '\n'
    ensures NormalizeNewlines("\r" + b) == "\n" + NormalizeNewlines(b)
  {
    var t := "\r" + b;
    assert t[1..] == b;
  }

  /** Each CR LF pair becomes a single LF. */
  lemma NormalizeCrLf(a: string, b: string)
    ensures NormalizeNewlines(a + "\r\n" + b) == NormalizeNewlines(a) + "\n" + NormalizeNewlines(b)
  {
    var t, n := "\r\n" + b, NormalizeNewlines(b);
    assert a + "\r\n" + b == a + t;
    NormalizeAppend(a, t);
    NormalizeCrLfHead(b);
    assert NormalizeNewlines(a) + ("\n" + n) == NormalizeNewlines(a) + "\n" + n;
  }

  /** A CR not followed by an LF becomes a single LF. */
  lemma NormalizeLoneCr(a: string, b: string)
    requires |b| == 0 || b[0] != '\n'
    ensures NormalizeNewlines(a + "\r" + b) == NormalizeNewlines(a) + "\n" + NormalizeNewlines(b)
  {
    var t, n := "\r" + b, NormalizeNewlines(b);
    assert a + "\r" + b == a + t;
    NormalizeAppend(a, t);
    NormalizeLoneCrHead(b);
    assert NormalizeNewlines(a) + ("\n" + n) == NormalizeNewlines(a) + "\n" + n;
  }

  predicate IsDigit(c: char) { '0' <= c <= '9' }

  function DigitChar(d: nat): (c: char)
    requires d < 10
    ensures IsDigit(c) && c as int - '0' as int == d
  {
    (d + '0' as int) as char
  }

  /** `"%s" % n` for a non-negative integer: its decimal digits, no leading zero. */
  function NatToString(n: nat): (r: string)
    ensures |r| >= 1
    ensures forall i :: 0 <= i < |r| ==> IsDigit(r[i])
    ensures r[0] == '0' ==> r == "0"
  {
    if n < 10 then [DigitChar(n)] else NatToString(n / 10) + [DigitChar(n % 10)]
  }

  /** The value of a string of decimal digits. */
  function DigitsValue(s: string): nat
    requires forall i :: 0 <= i < |s| ==> IsDigit(s[i])
  {
    if |s| == 0 then 0
    else
      assert IsDigit(s[|s| - 1]);
      DigitsValue(s[..|s| - 1]) * 10 + (s[|s| - 1] as int - '0' as int)
  }

  /** Reading the decimal text of a code back gives the code. */
  lemma {:induction false} NatToStringRoundTrip(n: nat)
    ensures DigitsValue(NatToString(n)) == n
  {
    if n >= 10 {
      NatToStringRoundTrip(n / 10);
      var r := NatToString(n);
      assert r[..|r| - 1] == NatToString(n / 10);
    }
  }

  /** Distinct codes are written as distinct strings. */
  lemma NatToStringInjective(m: nat, n: nat)
    requires NatToString(m) == NatToString(n)
    ensures m == n
  {
    NatToStringRoundTrip(m);
    NatToStringRoundTrip(n);
  }

  function Lower(c: char): char
  {
    if 'A' <= c <= 'Z' then (c as int + 32) as char else c
  }

  /**
   * Whether the character `c` matches the ASCII pattern character `p` under Python's
   * `re.IGNORECASE`: ASCII letters match either case, and besides those Python's
   * matcher accepts U+0130 and U+0131 for `i`, U+017F for `s` and U+212A for `k`.
   */
  predicate SameIgnoringCase(c: char, p: char)
  {
    || Lower(c) == Lower(p)
    || (Lower(p) == 'i' && (c == '\U{130}' || c == '\U{131}'))
    || (Lower(p) == 's' && c == '\U{17F}')
    || (Lower(p) == 'k' && c == '\U{212A}')
  }

  /**
   * `re.match("^" + word + "$", s, re.I)` for a word without regular-expression
   * metacharacters: `$` matches at the end or just before a final newline.
   */
  predicate FullMatchIgnoringCase(s: string, word: string)
  {
    && (|s| == |word| || (|s| == |word| + 1 && s[|word|] == '\n'))
    && forall i :: 0 <= i < |word| ==> SameIgnoringCase(s[i], word[i])
  }
}
