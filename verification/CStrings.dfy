/** The C library calls that the request parser makes on NUL-terminated text. */
module CStrings {
  const NUL := '\0'
  const BLANK := {' ', '\t'}

  /** The C string that starts `s`: everything before its first NUL. */
  function Cut(s: string): (r: string)
    ensures |r| <= |s| && r == s[..|r|] && NUL !in r
    ensures |r| == |s| || s[|r|] == NUL
  {
    if s == "" || s[0] == NUL then "" else [s[0]] + Cut(s[1..])
  }

  /** `strpbrk` and `strchr`: the offset of the first character of `cs`, or the length when there is none. */
  function Find(s: string, cs: set<char>): (i: nat)
    ensures i <= |s| && (forall k :: 0 <= k < i ==> s[k] !in cs)
    ensures i < |s| ==> s[i] in cs
  {
    if s == "" || s[0] in cs then 0 else 1 + Find(s[1..], cs)
  }

  /** `strspn`: the length of the longest prefix made of characters of `cs`. */
  function Span(s: string, cs: set<char>): (i: nat)
    ensures i <= |s| && (forall k :: 0 <= k < i ==> s[k] in cs)
    ensures i < |s| ==> s[i] !in cs
  {
    if s == "" || s[0] !in cs then 0 else 1 + Span(s[1..], cs)
  }

  function Lower(c: char): char {
    if 'A' <= c <= 'Z' then (c as int + 32) as char else c
  }

  /** `strcasecmp(a, b) == 0`. */
  predicate EqFold(a: string, b: string) {
    |a| == |b| && forall i :: 0 <= i < |a| ==> Lower(a[i]) == Lower(b[i])
  }

  /** `strncasecmp(s, p, strlen(p)) == 0`. */
  predicate StartsFold(s: string, p: string): (b: bool)
    ensures b ==> |p| <= |s|
  {
    |p| <= |s| && EqFold(s[..|p|], p)
  }

  /** The same character, or the two cases of one ASCII letter. */
  predicate SameLetter(x: char, y: char) {
    || x == y
    || ('A' <= x <= 'Z' && y as int == x as int + 32)
    || ('A' <= y <= 'Z' && x as int == y as int + 32)
  }

  /** Two spellings of one word. */
  predicate Same(a: string, b: string) {
    |a| == |b| && forall i :: 0 <= i < |a| ==> SameLetter(a[i], b[i])
  }

  /** `strcasecmp` ignores exactly the case of ASCII letters. */
  lemma FoldIff(a: string, b: string)
    ensures EqFold(a, b) <==> Same(a, b)
  {
    assert forall x: char, y: char :: Lower(x) == Lower(y) <==> SameLetter(x, y);
  }

  lemma PrefixFoldIff(s: string, p: string)
    ensures StartsFold(s, p) <==> |p| <= |s| && Same(s[..|p|], p)
  {
    if |p| <= |s| { FoldIff(s[..|p|], p); }
  }

  /** A blank or a tab. */
  predicate IsBlank(c: char) { c == ' ' || c == '\t' }

  ghost predicate Blanks(s: string) { forall i :: 0 <= i < |s| ==> IsBlank(s[i]) }

  lemma BlankIff(c: char)
    ensures c in BLANK <==> IsBlank(c)
  {
  }

  predicate IsDigit(c: char) { '0' <= c <= '9' }

  function Digit(c: char): nat {
    if IsDigit(c) then c as int - '0' as int else 0
  }

  function Digits(s: string): nat {
    if s == "" then 0 else 10 * Digits(s[..|s| - 1]) + Digit(s[|s| - 1])
  }

  /** The white space of the C locale: blank, tab, line feed, vertical tab, form feed, carriage return. */
  const SPACE := {' ', '\t', '\n', '\U{000B}', '\U{000C}', '\r'}
  const DIGIT := {'0', '1', '2', '3', '4', '5', '6', '7', '8', '9'}

  /** `atol` on text without a minus sign: white space, an optional plus, then the longest run of digits. */
  function Atol(s: string): nat {
    var t := s[Span(s, SPACE)..];
    var u := if t != "" && t[0] == '+' then t[1..] else t;
    Digits(u[..Span(u, DIGIT)])
  }

  function DigitChar(d: nat): (c: char)
    requires d < 10
    ensures IsDigit(c) && Digit(c) == d
  {
    (d + '0' as int) as char
  }

  /** The decimal form of a number. */
  function Decimal(n: nat): (s: string)
    ensures s != "" && forall k :: 0 <= k < |s| ==> IsDigit(s[k])
  {
    if n < 10 then [DigitChar(n)] else Decimal(n / 10) + [DigitChar(n % 10)]
  }

  lemma DigitsAppend(s: string, c: char)
    ensures Digits(s + [c]) == 10 * Digits(s) + Digit(c)
  {
    assert (s + [c])[..|s|] == s;
  }

  lemma {:induction false} DigitsOfDecimal(n: nat)
    ensures Digits(Decimal(n)) == n
  {
    if n < 10 {
      DigitsAppend("", DigitChar(n));
      assert "" + [DigitChar(n)] == [DigitChar(n)];
    } else {
      DigitsOfDecimal(n / 10);
      DigitsAppend(Decimal(n / 10), DigitChar(n % 10));
    }
  }

  /** Printing a length and reading it back with `atol` is the identity. */
  lemma AtolOfDecimal(n: nat)
    ensures Atol(Decimal(n)) == n
  {
    var s := Decimal(n);
    assert IsDigit(s[0]);
    assert Span(s, SPACE) == 0 && s[0..] == s;
    var i := Span(s, DIGIT);
    assert i < |s| ==> IsDigit(s[i]);
    assert i == |s| && s[..i] == s;
    DigitsOfDecimal(n);
  }

  lemma {:induction false} SpanSplit(a: string, b: string, cs: set<char>)
    requires (forall k :: 0 <= k < |a| ==> a[k] in cs) && (b == "" || b[0] !in cs)
    ensures Span(a + b, cs) == |a|
  {
    if a == "" {
      assert a + b == b;
    } else {
      assert (a + b)[1..] == a[1..] + b;
      SpanSplit(a[1..], b, cs);
    }
  }

  ghost predicate Spaces(s: string) {
    forall i :: 0 <= i < |s| ==> s[i] == ' ' || 9 <= s[i] as int <= 13
  }

  lemma {:induction false} ZerosVanish(zeros: string, digits: string)
    requires forall i :: 0 <= i < |zeros| ==> zeros[i] == '0'
    ensures Digits(zeros + digits) == Digits(digits)
    decreases |digits|, |zeros|
  {
    if digits != "" {
      var front := digits[..|digits| - 1];
      assert (zeros + digits)[..|zeros + digits| - 1] == zeros + front;
      ZerosVanish(zeros, front);
    } else if zeros != "" {
      assert zeros + digits == zeros && zeros == zeros[..|zeros| - 1] + "0";
      assert zeros[..|zeros| - 1] + "" == zeros[..|zeros| - 1];
      ZerosVanish(zeros[..|zeros| - 1], "");
      DigitsAppend(zeros[..|zeros| - 1], '0');
    } else {
      assert zeros + digits == digits;
    }
  }

  /** White space, an optional plus and leading zeros in front of a number do not matter, nor does what follows it. */
  lemma AtolReads(space: string, sign: string, zeros: string, n: nat, tail: string)
    requires Spaces(space) && (sign == "" || sign == "+") && (forall i :: 0 <= i < |zeros| ==> zeros[i] == '0')
    requires tail == "" || !IsDigit(tail[0])
    ensures Atol(space + (sign + (zeros + Decimal(n) + tail))) == n
  {
    hide Span, Digits, Decimal;
    var d := zeros + Decimal(n);
    assert forall k :: 0 <= k < |d| ==> IsDigit(d[k]) by {
      assert forall k :: 0 <= k < |Decimal(n)| ==> IsDigit(Decimal(n)[k]);
    }
    assert IsDigit(d[0]);
    var u := d + tail;
    var t := sign + u;
    assert t[0] == if sign == "" then d[0] else '+';
    SpanSplit(space, t, SPACE);
    assert (space + t)[|space|..] == t;
    assert u == if t[0] == '+' then t[1..] else t;
    SpanSplit(d, tail, DIGIT);
    assert u[..|d|] == d;
    ZerosVanish(zeros, Decimal(n));
    DigitsOfDecimal(n);
  }

  /** Without a digit where the number should be, `atol` gives 0. */
  lemma AtolNothing(space: string, sign: string, tail: string)
    requires Spaces(space) && (sign == "" || sign == "+") && (tail == "" || !IsDigit(tail[0]))
    requires sign == "" ==> tail == "" || (tail[0] != '+' && !Spaces(tail[..1]))
    ensures Atol(space + (sign + tail)) == 0
  {
    hide Span;
    var t := sign + tail;
    SpanSplit(space, t, SPACE);
    assert (space + t)[|space|..] == t;
    assert tail == if t != "" && t[0] == '+' then t[1..] else t;
    SpanSplit("", tail, DIGIT);
    assert "" + tail == tail && tail[..0] == "";
  }

  /** A C string does not depend on what lies behind its NUL. */
  lemma {:induction false} CutLocal(a: string, b: string, end: nat)
    requires end < |a| && end < |b| && a[..end] == b[..end] && a[end] == b[end] == NUL
    ensures Cut(a) == Cut(b) && |Cut(a)| <= end
  {
    if end > 0 {
      assert a[0] == a[..end][0] == b[0];
      assert a[1..][..end - 1] == a[..end][1..] == b[1..][..end - 1];
      CutLocal(a[1..], b[1..], end - 1);
    }
  }

  /** Text without NUL, followed by one, is exactly the C string that starts there. */
  lemma {:induction false} CutIs(s: string, n: nat)
    requires n <= |s| && NUL !in s[..n] && (n == |s| || s[n] == NUL)
    ensures Cut(s) == s[..n]
  {
    if n > 0 {
      assert s[0] == s[..n][0];
      assert s[1..][..n - 1] == s[..n][1..];
      CutIs(s[1..], n - 1);
    }
  }

  /** The C string at offset `at` is `w` when `w` stands there, free of NUL, with a NUL behind it. */
  lemma ReadsAs(b: string, at: nat, w: string)
    requires at + |w| < |b| && b[at..at + |w|] == w && NUL !in w && b[at + |w|] == NUL
    ensures Cut(b[at..]) == w
  {
    CutIs(b[at..], |w|);
  }

  /** Only the part before some NUL matters. */
  lemma {:induction false} CutPrefix(a: string, n: nat)
    requires n < |a| && a[n] == NUL
    ensures Cut(a) == Cut(a[..n])
  {
    if n > 0 {
      assert a[1..][..n - 1] == a[..n][1..];
      CutPrefix(a[1..], n - 1);
    }
  }
}
