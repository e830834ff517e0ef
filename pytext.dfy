/**
 * The Python string built-ins that chat.py relies on for commands and the
 * handshake: `str.strip()`, `str.split()` with and without `maxsplit`,
 * `str.split(":")`, `int(text)` and the decimal text of an `int` in an
 * f-string. Strings are sequences of Unicode scalar values.
 */
module PyText {
  import opened Wrappers

  /** `c.isspace()`: the characters that `strip()` and `split()` skip; `int()` skips IntSpace. */
  predicate IsSpace(c: char)
  {
    var n := c as int;
    || 9 <= n <= 13 || 28 <= n <= 32 || n == 0x85 || n == 0xA0 || n == 0x1680
    || 0x2000 <= n <= 0x200A || n == 0x2028 || n == 0x2029 || n == 0x202F
    || n == 0x205F || n == 0x3000
  }

  predicate AllSpace(s: string)
  {
    forall i :: 0 <= i < |s| ==> IsSpace(s[i])
  }

  predicate NoSpace(s: string)
  {
    forall i :: 0 <= i < |s| ==> !IsSpace(s[i])
  }

  // ---------------------------------------------------------------------------
  // strip

  /** `s.lstrip()` */
  function LStrip(s: string): (r: string)
    ensures |r| <= |s|
    ensures r == [] || !IsSpace(r[0])
  {
    if s != [] && IsSpace(s[0]) then LStrip(s[1..]) else s
  }

  /** `lstrip()` drops the leading whitespace and nothing else. */
  lemma {:induction false} LStripDropsLeadingSpace(s: string)
    ensures var r := LStrip(s); r == s[|s| - |r|..] && AllSpace(s[..|s| - |r|])
  {
    if s != [] && IsSpace(s[0]) {
      LStripDropsLeadingSpace(s[1..]);
      var r := LStrip(s);
      assert s[..|s| - |r|] == [s[0]] + s[1..][..|s| - 1 - |r|];
    }
  }

  /** `s.rstrip()`: drops the trailing whitespace and nothing else. */
  function RStrip(s: string): (r: string)
    ensures |r| <= |s| && r == s[..|r|]
    ensures AllSpace(s[|r|..])
    ensures r == [] || !IsSpace(r[|r| - 1])
  {
    if s != [] && IsSpace(s[|s| - 1]) then
      var r := RStrip(s[..|s| - 1]);
      assert s[|r|..] == s[..|s| - 1][|r|..] + [s[|s| - 1]];
      r
    else
      s
  }

  /** `s.strip()` */
  function Strip(s: string): (r: string)
    ensures |r| <= |s|
    ensures r == [] || (!IsSpace(r[0]) && !IsSpace(r[|r| - 1]))
  {
    RStrip(LStrip(s))
  }

  lemma {:induction false} LStripPadded(g: string, x: string)
    requires AllSpace(g)
    requires x == [] || !IsSpace(x[0])
    ensures LStrip(g + x) == x
    decreases |g|
  {
    if g != [] {
      assert (g + x)[1..] == g[1..] + x;
      LStripPadded(g[1..], x);
    } else {
      assert g + x == x;
    }
  }

  /** Leading whitespace never changes what `lstrip()` leaves. */
  lemma {:induction false} LStripSkipsSpace(g: string, s: string)
    requires AllSpace(g)
    ensures LStrip(g + s) == LStrip(s)
    decreases |g|
  {
    if g != [] {
      assert (g + s)[1..] == g[1..] + s;
      LStripSkipsSpace(g[1..], s);
    } else {
      assert g + s == s;
    }
  }

  lemma {:induction false} RStripPadded(x: string, g: string)
    requires AllSpace(g)
    requires x == [] || !IsSpace(x[|x| - 1])
    ensures RStrip(x + g) == x
    decreases |g|
  {
    if g != [] {
      var g' := g[..|g| - 1];
      assert (x + g)[..|x + g| - 1] == x + g';
      RStripPadded(x, g');
    } else {
      assert x + g == x;
    }
  }

  /**
   * Whitespace on either side of a text whose ends are not whitespace is
   * exactly what `strip()` removes.
   */
  lemma StripPadded(g1: string, x: string, g2: string)
    requires AllSpace(g1) && AllSpace(g2)
    requires x == [] || (!IsSpace(x[0]) && !IsSpace(x[|x| - 1]))
    ensures Strip(g1 + x + g2) == x
  {
    if x == [] {
      assert g1 + x + g2 == g1 + g2;
      assert AllSpace(g1 + g2);
      LStripPadded(g1 + g2, []);
      assert g1 + g2 + [] == g1 + g2;
    } else {
      assert g1 + x + g2 == g1 + (x + g2);
      LStripPadded(g1, x + g2);
      RStripPadded(x, g2);
    }
  }

  /** Whitespace added on either side of a text never changes its `strip()`. */
  lemma {:induction false} StripAbsorbs(g1: string, s: string, g2: string)
    requires AllSpace(g1) && AllSpace(g2)
    ensures Strip(g1 + s + g2) == Strip(s)
  {
    var h1, r, h2 := StripParts(s);
    assert g1 + s + g2 == (g1 + h1) + r + (h2 + g2);
    AllSpaceJoin(g1, h1);
    AllSpaceJoin(h2, g2);
    StripPadded(g1 + h1, r, h2 + g2);
  }

  /** Every text is its leading whitespace, its `strip()`, and its trailing whitespace. */
  lemma {:induction false} StripParts(s: string) returns (h1: string, r: string, h2: string)
    ensures s == h1 + r + h2 && AllSpace(h1) && AllSpace(h2)
    ensures r == Strip(s)
  {
    var l := LStrip(s);
    LStripDropsLeadingSpace(s);
    r := Strip(s);
    h1 := s[..|s| - |l|];
    h2 := l[|r|..];
    assert l == r + h2;
    assert s == h1 + l;
  }

  lemma AllSpaceJoin(a: string, b: string)
    requires AllSpace(a) && AllSpace(b)
    ensures AllSpace(a + b)
  {
    forall i | 0 <= i < |a + b|
      ensures IsSpace((a + b)[i])
    {
      if i >= |a| {
        assert (a + b)[i] == b[i - |a|];
      }
    }
  }

  // ---------------------------------------------------------------------------
  // split() and split(maxsplit=m)

  /** The longest prefix of `s` without whitespace. */
  function TakeWord(s: string): (w: string)
    ensures |w| <= |s| && w == s[..|w|] && NoSpace(w)
    ensures |w| == |s| || IsSpace(s[|w|])
  {
    if s == [] || IsSpace(s[0]) then [] else [s[0]] + TakeWord(s[1..])
  }

  lemma TakeWordOf(w: string, rest: string)
    requires NoSpace(w)
    requires rest == [] || IsSpace(rest[0])
    ensures TakeWord(w + rest) == w
  {
    assert (w + rest)[..|w|] == w;
  }

  /**
   * `s.split(maxsplit=m)` for `m >= 0`, and `s.split()` for `m < 0` (Python's
   * default `maxsplit=-1`). Runs of whitespace separate the parts; leading
   * whitespace is skipped; once `m` parts are cut off, the rest of the text
   * after its leading whitespace is the last part, inner and trailing
   * whitespace included.
   */
  function SplitWs(s: string, maxsplit: int): (parts: seq<string>)
    ensures maxsplit >= 0 ==> |parts| <= maxsplit + 1
    ensures forall i :: 0 <= i < |parts| ==> parts[i] != [] && !IsSpace(parts[i][0])
    ensures forall i :: 0 <= i < |parts| && (maxsplit < 0 || i < maxsplit) ==> NoSpace(parts[i])
    decreases |s|
  {
    var t := LStrip(s);
    if t == [] then []
    else if maxsplit == 0 then [t]
    else
      var w := TakeWord(t);
      [w] + SplitWs(t[|w|..], maxsplit - 1)
  }

  /** Leading whitespace never changes a split. */
  lemma SplitWsSkipsSpace(g: string, s: string, maxsplit: int)
    requires AllSpace(g)
    ensures SplitWs(g + s, maxsplit) == SplitWs(s, maxsplit)
  {
    LStripSkipsSpace(g, s);
  }

  /** A word followed by whitespace (or nothing) is the next part of a split. */
  lemma SplitWsWord(w: string, rest: string, maxsplit: int)
    requires w != [] && NoSpace(w)
    requires rest == [] || IsSpace(rest[0])
    requires maxsplit != 0
    ensures SplitWs(w + rest, maxsplit) == [w] + SplitWs(rest, maxsplit - 1)
  {
    assert [] + (w + rest) == w + rest;
    LStripPadded([], w + rest);
    TakeWordOf(w, rest);
    assert (w + rest)[|w|..] == rest;
  }

  /** Once the split budget is spent, the rest after its leading whitespace is one part. */
  lemma SplitWsRest(g: string, x: string)
    requires AllSpace(g) && x != [] && !IsSpace(x[0])
    ensures SplitWs(g + x, 0) == [x]
  {
    LStripPadded(g, x);
  }

  /** Whitespace alone splits into nothing. */
  lemma SplitWsBlank(g: string, maxsplit: int)
    requires AllSpace(g)
    ensures SplitWs(g, maxsplit) == []
  {
    LStripPadded(g, []);
    assert g + [] == g;
  }

  /** `split(maxsplit=2)` of two words and a rest keeps the rest whole. */
  lemma SplitWsTwoAndRest(w1: string, g1: string, w2: string, g2: string, x: string)
    requires w1 != [] && NoSpace(w1) && w2 != [] && NoSpace(w2)
    requires g1 != [] && AllSpace(g1) && g2 != [] && AllSpace(g2)
    requires x != [] && !IsSpace(x[0])
    ensures SplitWs(w1 + (g1 + (w2 + (g2 + x))), 2) == [w1, w2, x]
  {
    SplitWsWord(w1, g1 + (w2 + (g2 + x)), 2);
    SplitWsSkipsSpace(g1, w2 + (g2 + x), 1);
    SplitWsWord(w2, g2 + x, 1);
    SplitWsRest(g2, x);
  }

  /** A single word is split into itself. */
  lemma SplitWsOneWord(w: string, maxsplit: int)
    requires w != [] && NoSpace(w) && maxsplit != 0
    ensures SplitWs(w, maxsplit) == [w]
  {
    assert w + [] == w;
    SplitWsWord(w, [], maxsplit);
    SplitWsBlank([], maxsplit - 1);
  }

  /** `split()` of two words. */
  lemma SplitWsTwoWords(w1: string, g1: string, w2: string)
    requires w1 != [] && NoSpace(w1) && w2 != [] && NoSpace(w2)
    requires g1 != [] && AllSpace(g1)
    ensures SplitWs(w1 + (g1 + w2), -1) == [w1, w2]
  {
    SplitWsWord(w1, g1 + w2, -1);
    SplitWsSkipsSpace(g1, w2, -2);
    SplitWsOneWord(w2, -2);
  }

  /** `split()` of three words. */
  lemma SplitWsThreeWords(w1: string, g1: string, w2: string, g2: string, w3: string)
    requires w1 != [] && NoSpace(w1) && w2 != [] && NoSpace(w2) && w3 != [] && NoSpace(w3)
    requires g1 != [] && AllSpace(g1) && g2 != [] && AllSpace(g2)
    ensures SplitWs(w1 + (g1 + (w2 + (g2 + w3))), -1) == [w1, w2, w3]
  {
    SplitWsWord(w1, g1 + (w2 + (g2 + w3)), -1);
    SplitWsSkipsSpace(g1, w2 + (g2 + w3), -2);
    SplitWsWord(w2, g2 + w3, -2);
    SplitWsSkipsSpace(g2, w3, -3);
    SplitWsOneWord(w3, -3);
  }

  /** When the budget `m` is used up, the last part is a suffix of the input. */
  lemma {:induction false} SplitWsLastIsSuffix(s: string, maxsplit: nat)
    requires |SplitWs(s, maxsplit)| == maxsplit + 1
    ensures var parts := SplitWs(s, maxsplit);
      var last := parts[maxsplit];
      |last| <= |s| && s[|s| - |last|..] == last
    decreases |s|
  {
    var t := LStrip(s);
    LStripDropsLeadingSpace(s);
    assert t != [];
    if maxsplit == 0 {
      assert SplitWs(s, 0) == [t];
    } else {
      var w := TakeWord(t);
      var rest := t[|w|..];
      assert SplitWs(s, maxsplit) == [w] + SplitWs(rest, maxsplit - 1);
      SplitWsLastIsSuffix(rest, maxsplit - 1);
      var last := SplitWs(rest, maxsplit - 1)[maxsplit - 1];
      assert SplitWs(s, maxsplit)[maxsplit] == last;
      assert rest == s[|s| - |rest|..];
      assert rest[|rest| - |last|..] == s[|s| - |last|..];
    }
  }

  // ---------------------------------------------------------------------------
  // split(":") and ":".join(...)

  function Count(s: string, c: char): (n: nat)
    ensures n <= |s|
    ensures n == 0 <==> c !in s
  {
    if s == [] then 0 else (if s[0] == c then 1 else 0) + Count(s[1..], c)
  }

  /** `s.split(sep)` for a one-character separator: always at least one part. */
  function SplitOn(s: string, sep: char): (parts: seq<string>)
    ensures |parts| == Count(s, sep) + 1
    ensures forall i :: 0 <= i < |parts| ==> sep !in parts[i]
  {
    if s == [] then [[]]
    else
      var rest := SplitOn(s[1..], sep);
      if s[0] == sep then [[]] + rest
      else [[s[0]] + rest[0]] + rest[1..]
  }

  /** `sep.join(parts)` */
  function JoinWith(parts: seq<string>, sep: char): string
  {
    if parts == [] then []
    else if |parts| == 1 then parts[0]
    else parts[0] + [sep] + JoinWith(parts[1..], sep)
  }

  /** Joining the parts of a split restores the text. */
  lemma {:induction false} JoinSplit(s: string, sep: char)
    ensures JoinWith(SplitOn(s, sep), sep) == s
  {
    if s != [] {
      var rest := SplitOn(s[1..], sep);
      JoinSplit(s[1..], sep);
      if s[0] == sep {
        assert SplitOn(s, sep) == [[]] + rest;
        assert ([[]] + rest)[1..] == rest;
      } else {
        var parts := SplitOn(s, sep);
        assert parts == [[s[0]] + rest[0]] + rest[1..];
        if |rest| == 1 {
          assert JoinWith(parts, sep) == [s[0]] + rest[0];
        } else {
          assert parts[1..] == rest[1..];
          assert JoinWith(rest, sep) == rest[0] + [sep] + JoinWith(rest[1..], sep);
        }
      }
    }
  }

  /** A text without the separator splits into itself. */
  lemma {:induction false} SplitOnNone(p: string, sep: char)
    requires sep !in p
    ensures SplitOn(p, sep) == [p]
  {
    if p != [] {
      SplitOnNone(p[1..], sep);
      assert [p[0]] + p[1..] == p;
    }
  }

  /** The text up to the first separator is the first part. */
  lemma {:induction false} SplitOnFirst(p: string, sep: char, rest: string)
    requires sep !in p
    ensures SplitOn(p + [sep] + rest, sep) == [p] + SplitOn(rest, sep)
  {
    var s := p + [sep] + rest;
    if p == [] {
      assert s == [sep] + rest;
      assert s[1..] == rest;
    } else {
      assert s[1..] == p[1..] + [sep] + rest;
      SplitOnFirst(p[1..], sep, rest);
      assert [p[0]] + p[1..] == p;
    }
  }

  /** Splitting a join of separator-free parts gives the parts back. */
  lemma {:induction false} SplitJoin(parts: seq<string>, sep: char)
    requires |parts| >= 1
    requires forall i :: 0 <= i < |parts| ==> sep !in parts[i]
    ensures SplitOn(JoinWith(parts, sep), sep) == parts
  {
    if |parts| == 1 {
      SplitOnNone(parts[0], sep);
    } else {
      SplitJoin(parts[1..], sep);
      SplitOnFirst(parts[0], sep, JoinWith(parts[1..], sep));
      assert [parts[0]] + parts[1..] == parts;
    }
  }

  // ---------------------------------------------------------------------------
  // int(text) and str(n)

  predicate IsDigit(c: char)
  {
    '0' <= c <= '9'
  }

  function DigitValue(c: char): nat
    requires IsDigit(c)
  {
    (c as int) - ('0' as int)
  }

  /**
   * The body of a decimal literal as `int()` accepts it: digits, where a
   * single underscore may stand between two digits.
   */
  predicate IsDigitRun(s: string)
  {
    && |s| > 0 && IsDigit(s[0]) && IsDigit(s[|s| - 1])
    && (forall i :: 0 <= i < |s| ==> IsDigit(s[i]) || s[i] == '_')
    && (forall i :: 0 <= i < |s| - 1 ==> IsDigit(s[i]) || IsDigit(s[i + 1]))
  }

  /** The number the digits of `s` spell, underscores skipped. */
  function DigitsValue(s: string): nat
  {
    if s == [] then 0
    else
      var last := s[|s| - 1];
      if IsDigit(last) then 10 * DigitsValue(s[..|s| - 1]) + DigitValue(last)
      else DigitsValue(s[..|s| - 1])
  }

  /**
   * The padding `int()` skips around a literal: ASCII ` \t\n\v\f\r` and
   * the non-ASCII characters `isspace()` accepts. The separators
   * U+001C..U+001F satisfy `isspace()` but are not skipped by `int()`.
   */
  predicate IntSpace(c: char)
  {
    IsSpace(c) && !IsSeparator(c)
  }

  /** The information separators U+001C..U+001F. */
  predicate IsSeparator(c: char)
  {
    28 <= c as int <= 31
  }

  predicate NoSeparator(s: string)
  {
    forall i :: 0 <= i < |s| ==> !IsSeparator(s[i])
  }

  predicate AllIntSpace(s: string)
  {
    forall i :: 0 <= i < |s| ==> IntSpace(s[i])
  }

  /** The leading padding `int()` skips. */
  function LStripInt(s: string): (r: string)
    ensures |r| <= |s|
    ensures r == [] || !IntSpace(r[0])
  {
    if s != [] && IntSpace(s[0]) then LStripInt(s[1..]) else s
  }

  lemma {:induction false} LStripIntDrops(s: string)
    ensures var r := LStripInt(s); r == s[|s| - |r|..] && AllIntSpace(s[..|s| - |r|])
  {
    if s != [] && IntSpace(s[0]) {
      LStripIntDrops(s[1..]);
      var r := LStripInt(s);
      assert s[..|s| - |r|] == [s[0]] + s[1..][..|s| - 1 - |r|];
    }
  }

  /** The trailing padding `int()` skips. */
  function RStripInt(s: string): (r: string)
    ensures |r| <= |s| && r == s[..|r|] && AllIntSpace(s[|r|..])
    ensures r == [] || !IntSpace(r[|r| - 1])
  {
    if s != [] && IntSpace(s[|s| - 1]) then
      var r := RStripInt(s[..|s| - 1]);
      assert s[|r|..] == s[..|s| - 1][|r|..] + [s[|s| - 1]];
      r
    else
      s
  }

  /** An optional sign followed by a digit run: the literals `int()` accepts. */
  predicate IsSignedRun(t: string)
  {
    || IsDigitRun(t)
    || (|t| > 0 && (t[0] == '-' || t[0] == '+') && IsDigitRun(t[1..]))
  }

  /** The number a signed digit run spells. */
  function SignedValue(t: string): int
    requires IsSignedRun(t)
  {
    if IsDigitRun(t) then DigitsValue(t)
    else
      var magnitude: int := DigitsValue(t[1..]);
      if t[0] == '-' then -magnitude else magnitude
  }

  /**
   * `int(s)` in base 10: the padding `int()` skips is dropped from both
   * ends, and what is left must be a signed digit run; anything else is a
   * `ValueError` (None). ParseIntSucceeds and ParseIntPadded say which
   * texts succeed and with what value.
   */
  function ParseInt(s: string): Option<int>
  {
    var t := RStripInt(LStripInt(s));
    if IsSignedRun(t) then Some(SignedValue(t)) else None
  }

  /**
   * A text `int()` accepts is a signed digit run inside `strip()`'s padding,
   * it reads as that run's value, and it holds no separator U+001C..U+001F.
   */
  lemma ParseIntSucceeds(s: string)
    requires ParseInt(s).Some?
    ensures Strip(s) != [] && NoSpace(Strip(s))
    ensures IsSignedRun(Strip(s)) && ParseInt(s) == Some(SignedValue(Strip(s)))
    ensures NoSeparator(s)
  {
    SignedCore(s);
  }

  /** When the text inside `int()`'s padding is a signed run, it is also what `strip()` leaves. */
  lemma {:induction false} SignedCore(s: string)
    requires IsSignedRun(RStripInt(LStripInt(s)))
    ensures var t := RStripInt(LStripInt(s)); Strip(s) == t && t != [] && NoSpace(t)
    ensures NoSeparator(s)
  {
    var g1, t, g2 := IntPadding(s);
    SignedRunPadded(g1, t, g2);
  }

  /** Every text is the padding `int()` skips, the text inside it, and the padding after it. */
  lemma {:induction false} IntPadding(s: string) returns (g1: string, t: string, g2: string)
    ensures s == g1 + t + g2 && AllIntSpace(g1) && AllIntSpace(g2)
    ensures t == RStripInt(LStripInt(s))
  {
    var l := LStripInt(s);
    LStripIntDrops(s);
    t := RStripInt(l);
    g1 := s[..|s| - |l|];
    g2 := l[|t|..];
    assert l == t + g2;
    assert s == g1 + l;
  }

  /** A signed digit run with `int()` padding: `strip()` leaves the run, and no separator occurs. */
  lemma SignedRunPadded(g1: string, t: string, g2: string)
    requires AllIntSpace(g1) && AllIntSpace(g2) && IsSignedRun(t)
    ensures Strip(g1 + t + g2) == t && t != [] && NoSpace(t)
    ensures NoSeparator(g1 + t + g2)
  {
    SignedRunChars(t);
    var s := g1 + t + g2;
    forall i | 0 <= i < |s|
      ensures !IsSeparator(s[i])
    {
      if i < |g1| {
        assert s[i] == g1[i];
      } else if i < |g1| + |t| {
        assert s[i] == t[i - |g1|];
      } else {
        assert s[i] == g2[i - |g1| - |t|];
      }
    }
    StripPadded(g1, t, g2);
  }

  /** A signed digit run is made of digits, underscores and a sign, and ends in a digit. */
  lemma SignedRunChars(t: string)
    requires IsSignedRun(t)
    ensures t != [] && IsDigit(t[|t| - 1])
    ensures forall i :: 0 <= i < |t| ==> IsDigit(t[i]) || t[i] == '_' || t[i] == '-' || t[i] == '+'
  {
    if !IsDigitRun(t) {
      var body := t[1..];
      assert t[|t| - 1] == body[|body| - 1];
      forall i | 1 <= i < |t|
        ensures IsDigit(t[i]) || t[i] == '_'
      {
        assert t[i] == body[i - 1];
      }
    }
  }

  lemma {:induction false} LStripIntPadded(g: string, x: string)
    requires AllIntSpace(g)
    requires x == [] || !IntSpace(x[0])
    ensures LStripInt(g + x) == x
    decreases |g|
  {
    if g != [] {
      assert (g + x)[1..] == g[1..] + x;
      LStripIntPadded(g[1..], x);
    } else {
      assert g + x == x;
    }
  }

  lemma {:induction false} RStripIntPadded(x: string, g: string)
    requires AllIntSpace(g)
    requires x == [] || !IntSpace(x[|x| - 1])
    ensures RStripInt(x + g) == x
    decreases |g|
  {
    if g != [] {
      var g' := g[..|g| - 1];
      assert (x + g)[..|x + g| - 1] == x + g';
      RStripIntPadded(x, g');
    } else {
      assert x + g == x;
    }
  }

  /**
   * Every signed digit run, with any padding `int()` skips on either side,
   * reads as its value: the converse of ParseIntSucceeds.
   */
  lemma ParseIntPadded(g1: string, t: string, g2: string)
    requires AllIntSpace(g1) && AllIntSpace(g2) && IsSignedRun(t)
    ensures ParseInt(g1 + t + g2) == Some(SignedValue(t))
  {
    SignedRunPadded(g1, t, g2);
    assert g1 + t + g2 == g1 + (t + g2);
    LStripIntPadded(g1, t + g2);
    RStripIntPadded(t, g2);
  }

  /** A separator U+001C..U+001F before a number makes `int()` fail, though `strip()` drops it. */
  lemma ParseIntRejectsSeparator(digits: string)
    requires IsDigitRun(digits)
    ensures Strip("\U{1C}" + digits) == digits
    ensures ParseInt("\U{1C}" + digits) == None
  {
    assert IsSpace("\U{1C}"[0]) && IsDigit(digits[0]) && IsDigit(digits[|digits| - 1]);
    StripPadded("\U{1C}", digits, []);
    assert "\U{1C}" + digits + [] == "\U{1C}" + digits;
  }

  function Digit(d: nat): (c: char)
    requires d < 10
    ensures IsDigit(c) && DigitValue(c) == d
  {
    ('0' as int + d) as char
  }

  /** The decimal text of a natural number, as `str(n)` writes it. */
  function ShowNat(n: nat): (s: string)
    ensures |s| > 0 && forall i :: 0 <= i < |s| ==> IsDigit(s[i])
  {
    if n < 10 then [Digit(n)] else ShowNat(n / 10) + [Digit(n % 10)]
  }

  /** The decimal text of an integer, as `str(n)` and f-strings write it. */
  function ShowInt(n: int): (s: string)
    ensures s != [] && forall i :: 0 <= i < |s| ==> IsDigit(s[i]) || s[i] == '-'
    ensures NoSpace(s)
  {
    if n < 0 then "-" + ShowNat(-n) else ShowNat(n)
  }

  lemma {:induction false} DigitsValueOfShowNat(n: nat)
    ensures DigitsValue(ShowNat(n)) == n
  {
    if n >= 10 {
      DigitsValueOfShowNat(n / 10);
      var s := ShowNat(n);
      assert s[..|s| - 1] == ShowNat(n / 10);
    }
  }

  /** A text that neither starts nor ends with whitespace is its own `strip()`. */
  lemma StripUnpadded(s: string)
    requires s != [] && !IsSpace(s[0]) && !IsSpace(s[|s| - 1])
    ensures Strip(s) == s
  {
    StripPadded([], s, []);
    assert [] + s + [] == s;
  }

  /** `int(str(n)) == n`: the text written for a number reads back as that number. */
  lemma ParseShowInt(n: int)
    ensures ParseInt(ShowInt(n)) == Some(n)
  {
    var s := ShowInt(n);
    var m: nat := if n < 0 then -n else n;
    var digits := ShowNat(m);
    DigitsValueOfShowNat(m);
    assert IsDigitRun(digits);
    if n < 0 {
      assert s[1..] == digits && !IsDigit(s[0]);
      assert SignedValue(s) == n;
    } else {
      assert SignedValue(s) == n;
    }
    ParseIntPadded([], s, []);
    assert [] + s + [] == s;
  }
}
