/** The string handling the scanner relies on, with Rust's semantics:
    `str::trim`, `str::split(char)` and the integer `FromStr` parsers
    (`u16`, `u32`, `i32`, all radix 10). Strings are sequences of Unicode
    scalar values. */
module Text {
  import opened Wrappers

  /** Rust's `char::is_whitespace`: the Unicode `White_Space` property. */
  predicate IsWhitespace(c: char) {
    || ('\t' <= c <= '\r')
    || c == ' '
    || c == '\U{85}'
    || c == '\U{A0}'
    || c == '\U{1680}'
    || ('\U{2000}' <= c <= '\U{200A}')
    || c == '\U{2028}'
    || c == '\U{2029}'
    || c == '\U{202F}'
    || c == '\U{205F}'
    || c == '\U{3000}'
  }

  predicate AllWhitespace(s: string) {
    forall i :: 0 <= i < |s| ==> IsWhitespace(s[i])
  }

  /** Neither the first nor the last character (if any) is whitespace. */
  predicate Trimmed(s: string) {
    |s| > 0 ==> !IsWhitespace(s[0]) && !IsWhitespace(s[|s| - 1])
  }

  /** `str::trim_start`: drops the longest whitespace prefix. */
  function TrimStart(s: string): string {
    if |s| > 0 && IsWhitespace(s[0]) then TrimStart(s[1..]) else s
  }

  /** `str::trim_end`: drops the longest whitespace suffix. */
  function TrimEnd(s: string): string {
    if |s| > 0 && IsWhitespace(s[|s| - 1]) then TrimEnd(s[..|s| - 1]) else s
  }

  /** `str::trim`: drops leading and trailing whitespace. */
  function Trim(s: string): string {
    TrimEnd(TrimStart(s))
  }

  lemma {:induction false} TrimStartSpec(s: string)
    ensures |TrimStart(s)| <= |s| && TrimStart(s) == s[|s| - |TrimStart(s)|..]
    ensures AllWhitespace(s[..|s| - |TrimStart(s)|])
    ensures |TrimStart(s)| > 0 ==> !IsWhitespace(TrimStart(s)[0])
    decreases |s|
  {
    if |s| > 0 && IsWhitespace(s[0]) {
      TrimStartSpec(s[1..]);
      var k := |s| - |TrimStart(s)|;
      assert s[..k] == [s[0]] + s[1..][..k - 1];
    }
  }

  lemma {:induction false} TrimEndSpec(s: string)
    ensures |TrimEnd(s)| <= |s| && TrimEnd(s) == s[..|TrimEnd(s)|]
    ensures AllWhitespace(s[|TrimEnd(s)|..])
    ensures |TrimEnd(s)| > 0 ==> !IsWhitespace(TrimEnd(s)[|TrimEnd(s)| - 1])
    decreases |s|
  {
    if |s| > 0 && IsWhitespace(s[|s| - 1]) {
      var init := s[..|s| - 1];
      TrimEndSpec(init);
      var k := |TrimEnd(s)|;
      assert s[k..] == init[k..] + [s[|s| - 1]];
    }
  }

  /** `trim` keeps a contiguous part of the text with no whitespace at either
      end, and everything it drops is whitespace. */
  lemma TrimSpec(s: string)
    ensures Trimmed(Trim(s))
    ensures exists i ::
      (&& 0 <= i <= i + |Trim(s)| <= |s|
       && Trim(s) == s[i..i + |Trim(s)|]
       && AllWhitespace(s[..i]) && AllWhitespace(s[i + |Trim(s)|..]))
  {
    var t := TrimStart(s);
    TrimStartSpec(s);
    TrimEndSpec(t);
    var i := |s| - |t|;
    var r := Trim(s);
    assert r == t[..|r|];
    assert s[i..i + |r|] == r;
    assert s[i + |r|..] == t[|r|..];
    if |r| > 0 {
      assert r[0] == t[0];
    }
  }

  lemma {:induction false} TrimStartPadded(ws: string, t: string)
    requires AllWhitespace(ws)
    requires |t| > 0 ==> !IsWhitespace(t[0])
    ensures TrimStart(ws + t) == t
    decreases |ws|
  {
    if |ws| == 0 {
      assert ws + t == t;
    } else {
      assert (ws + t)[1..] == ws[1..] + t;
      TrimStartPadded(ws[1..], t);
    }
  }

  lemma {:induction false} TrimEndPadded(t: string, ws: string)
    requires AllWhitespace(ws)
    requires |t| > 0 ==> !IsWhitespace(t[|t| - 1])
    ensures TrimEnd(t + ws) == t
    decreases |ws|
  {
    if |ws| == 0 {
      assert t + ws == t;
    } else {
      assert (t + ws)[..|t + ws| - 1] == t + ws[..|ws| - 1];
      TrimEndPadded(t, ws[..|ws| - 1]);
    }
  }

  /** Trimming undoes any whitespace padding around an already-trimmed text,
      such as the line terminator `read_line` keeps. */
  lemma TrimPadded(pre: string, t: string, post: string)
    requires AllWhitespace(pre) && AllWhitespace(post)
    requires Trimmed(t)
    ensures Trim(pre + t + post) == t
  {
    if |t| == 0 {
      assert pre + t + post == pre + post;
      TrimStartPadded(pre + post, "");
      assert pre + post + "" == pre + post;
      TrimEndPadded("", "");
    } else {
      assert pre + t + post == pre + (t + post);
      TrimStartPadded(pre, t + post);
      TrimEndPadded(t, post);
    }
  }

  /** Number of occurrences of `c` in `s`. */
  function Count(s: string, c: char): nat {
    if |s| == 0 then 0 else (if s[0] == c then 1 else 0) + Count(s[1..], c)
  }

  /** `str::split(sep)` collected into a vector: the maximal `sep`-free pieces
      between separators, empty pieces included. */
  function Split(s: string, sep: char): (parts: seq<string>)
    ensures |parts| == Count(s, sep) + 1
    ensures forall i :: 0 <= i < |parts| ==> sep !in parts[i]
    decreases |s|
  {
    if |s| == 0 then [""]
    else
      var rest := Split(s[1..], sep);
      if s[0] == sep then [""] + rest
      else [[s[0]] + rest[0]] + rest[1..]
  }

  /** The pieces glued back together with `sep` between them. */
  function Join(parts: seq<string>, sep: char): string
    requires |parts| > 0
    decreases |parts|
  {
    if |parts| == 1 then parts[0] else parts[0] + [sep] + Join(parts[1..], sep)
  }

  /** Splitting loses nothing: joining the pieces restores the text. */
  lemma {:induction false} JoinSplit(s: string, sep: char)
    ensures Join(Split(s, sep), sep) == s
    decreases |s|
  {
    if |s| > 0 {
      var rest := Split(s[1..], sep);
      JoinSplit(s[1..], sep);
      if s[0] == sep {
        assert ([""] + rest)[1..] == rest;
        assert s == [s[0]] + s[1..];
      } else {
        var parts := [[s[0]] + rest[0]] + rest[1..];
        if |rest| == 1 {
          assert s == [s[0]] + s[1..];
        } else {
          assert parts[1..] == rest[1..];
          assert Join(rest, sep) == rest[0] + [sep] + Join(rest[1..], sep);
          assert s == [s[0]] + s[1..];
        }
      }
    }
  }

  /** Splitting a text made of two `sep`-free pieces joined by `sep` gives the
      two pieces back. */
  lemma SplitTwo(a: string, b: string, sep: char)
    requires sep !in a && sep !in b
    ensures Split(a + [sep] + b, sep) == [a, b]
  {
    SplitFree(b, sep);
    SplitPrefix(a, [sep] + b, sep);
    assert a + [sep] + b == a + ([sep] + b);
    assert ([sep] + b)[1..] == b;
  }

  lemma {:induction false} SplitFree(s: string, sep: char)
    requires sep !in s
    ensures Split(s, sep) == [s]
    decreases |s|
  {
    if |s| > 0 {
      SplitFree(s[1..], sep);
      assert [s[0]] + s[1..] == s;
    }
  }

  /** A `sep`-free prefix is glued onto the first piece of the rest. */
  lemma {:induction false} SplitPrefix(a: string, t: string, sep: char)
    requires sep !in a
    requires |t| > 0 && t[0] == sep
    ensures Split(a + t, sep) == [a] + Split(t[1..], sep)
    decreases |a|
  {
    if |a| == 0 {
      assert a + t == t;
    } else {
      assert (a + t)[1..] == a[1..] + t;
      SplitPrefix(a[1..], t, sep);
      assert [a[0]] + a[1..] == a;
    }
  }

  // ---------------------------------------------------------------------------
  // Integer parsing

  predicate IsDigit(c: char) {
    '0' <= c <= '9'
  }

  predicate AllDigits(s: string) {
    forall i :: 0 <= i < |s| ==> IsDigit(s[i])
  }

  function DigitValue(c: char): (d: nat)
    requires IsDigit(c)
    ensures d < 10
  {
    (c as int) - ('0' as int)
  }

  function DigitChar(d: nat): (c: char)
    requires d < 10
    ensures IsDigit(c) && DigitValue(c) == d
  {
    (('0' as int) + d) as char
  }

  /** The value of a non-empty run of decimal digits, most significant
      first; `None` for the empty text or any other character. */
  function Digits(s: string): Option<nat>
    decreases |s|
  {
    if |s| == 0 || !IsDigit(s[|s| - 1]) then None
    else if |s| == 1 then Some(DigitValue(s[0]))
    else
      match Digits(s[..|s| - 1])
      case None => None
      case Some(v) => Some(v * 10 + DigitValue(s[|s| - 1]))
  }

  /** Rust's `FromStr` for a radix-10 integer type whose values are `lo..=hi`.
      An optional `+` is accepted; a `-` only when the type is signed; a sign
      alone, the empty text, any non-digit and any out-of-range value are
      errors. Leading zeros are accepted. */
  function ParseInt(s: string, signed: bool, lo: int, hi: int): (r: Option<int>)
    ensures r.Some? ==> lo <= r.value <= hi
  {
    if |s| == 0 then None
    else if (s[0] == '+' || s[0] == '-') && |s| == 1 then None
    else
      var negative := signed && s[0] == '-';
      var digits := if s[0] == '+' || negative then s[1..] else s;
      match Digits(digits)
      case None => None
      case Some(magnitude) =>
        var m: int := magnitude;
        var v := if negative then -m else m;
        if lo <= v <= hi then Some(v) else None
  }

  /** A parse succeeds only on a non-empty text whose characters are digits
      after an optional sign (`+`, or `-` for a signed type), with at least
      one digit after the sign; an unsigned parse never sees a `-`. */
  lemma ParseIntShape(s: string, signed: bool, lo: int, hi: int)
    requires ParseInt(s, signed, lo, hi).Some?
    ensures |s| > 0
    ensures IsDigit(s[0]) || s[0] == '+' || (signed && s[0] == '-')
    ensures !IsDigit(s[0]) ==> |s| >= 2
    ensures forall i :: 1 <= i < |s| ==> IsDigit(s[i])
    ensures !signed ==> forall i :: 0 <= i < |s| ==> s[i] != '-'
  {
    var digits := if s[0] == '+' || (signed && s[0] == '-') then s[1..] else s;
    DigitsAreDigits(digits);
    if digits == s {
      assert IsDigit(digits[0]);
    }
    forall i | 1 <= i < |s| ensures IsDigit(s[i]) {
      if digits == s[1..] {
        assert s[i] == digits[i - 1];
      }
    }
  }

  lemma {:induction false} DigitsAreDigits(s: string)
    requires Digits(s).Some?
    ensures |s| > 0 && AllDigits(s)
    decreases |s|
  {
    if |s| > 1 {
      DigitsAreDigits(s[..|s| - 1]);
      assert forall i :: 0 <= i < |s| - 1 ==> s[i] == s[..|s| - 1][i];
    }
  }

  const U16_MAX: int := 0xFFFF
  const I32_MIN: int := -0x8000_0000
  const I32_MAX: int := 0x7FFF_FFFF

  /** `s.parse::<u16>()` */
  function ParseU16(s: string): Option<int> {
    ParseInt(s, false, 0, U16_MAX)
  }

  /** `s.parse::<u32>()` */
  function ParseU32(s: string): Option<int> {
    ParseInt(s, false, 0, 0xFFFF_FFFF)
  }

  /** `s.parse::<i32>()` */
  function ParseI32(s: string): Option<int> {
    ParseInt(s, true, I32_MIN, I32_MAX)
  }

  /** Decimal rendering of a natural number without leading zeros, as
      `Display` writes it. */
  function Decimal(n: nat): (s: string)
    ensures |s| > 0 && AllDigits(s)
  {
    if n < 10 then [DigitChar(n)] else Decimal(n / 10) + [DigitChar(n % 10)]
  }

  lemma {:induction false} DecimalDigits(n: nat)
    ensures Digits(Decimal(n)) == Some(n)
  {
    if n >= 10 {
      DecimalDigits(n / 10);
      var s := Decimal(n);
      assert s[..|s| - 1] == Decimal(n / 10);
    }
  }

  /** Parsing inverts rendering: every in-range value written in decimal
      parses back to itself, whatever the integer type. */
  lemma ParseDecimal(n: nat, signed: bool, lo: int, hi: int)
    requires lo <= n <= hi
    ensures ParseInt(Decimal(n), signed, lo, hi) == Some(n)
  {
    DecimalDigits(n);
    var s := Decimal(n);
    assert IsDigit(s[0]);
  }

  /** A leading `+` is accepted and changes nothing. */
  lemma ParsePlus(n: nat, signed: bool, lo: int, hi: int)
    requires lo <= n <= hi
    ensures ParseInt("+" + Decimal(n), signed, lo, hi) == Some(n)
  {
    DecimalDigits(n);
    assert ("+" + Decimal(n))[1..] == Decimal(n);
  }
}
