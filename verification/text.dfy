/** The few operations of Rust's `str` that the two puzzle units rely on:
    `find`, `split_once`, `split`, `trim`, and `parse` into an unsigned
    integer. Text is ASCII, so one `char` stands for one byte and byte
    offsets are sequence indices. */
module Text {
  import opened Wrappers

  const U16Max: nat := 0xFFFF
  const U32Max: nat := 0xFFFF_FFFF

  /** The values of a `u16`. */
  type U16 = n: nat | n <= 0xFFFF

  /** A line that could not be read from the input (an I/O or decoding failure). */
  datatype IoError = IoError

  /** `p` occurs in `s` starting at offset `i`. */
  predicate OccursAt(s: string, p: string, i: nat) {
    i + |p| <= |s| && s[i..i + |p|] == p
  }

  /** An occurrence fixes the first `n` characters where it starts. */
  lemma OccursPrefix(s: string, w: string, i: nat, n: nat)
    requires n <= |w|
    ensures OccursAt(s, w, i) ==> i + n <= |s| && s[i..i + n] == w[..n]
    ensures OccursAt(s, w, i) ==> forall j :: 0 <= j < n ==> s[i + j] == w[j]
  {
    if OccursAt(s, w, i) {
      assert s[i..i + n] == s[i..i + |w|][..n];
      forall j | 0 <= j < n
        ensures s[i + j] == w[j]
      {
        assert s[i..i + |w|][j] == s[i + j];
      }
    }
  }

  /** An occurrence in the suffix `s[k..]` is an occurrence in `s`, shifted by `k`. */
  lemma OccursInSuffix(s: string, p: string, k: nat)
    requires k <= |s|
    ensures forall j: nat :: k <= j ==> (OccursAt(s[k..], p, j - k) <==> OccursAt(s, p, j))
  {
    forall j: nat | k <= j
      ensures OccursAt(s[k..], p, j - k) <==> OccursAt(s, p, j)
    {
      if j + |p| <= |s| {
        assert s[k..][j - k..j - k + |p|] == s[j..j + |p|];
      }
    }
  }

  /** `s.find(p)`: the offset of the first occurrence of `p` in `s`. */
  function Find(s: string, p: string): (r: Option<nat>)
    ensures r.Some? ==> OccursAt(s, p, r.value)
    ensures r.Some? ==> forall j: nat :: j < r.value ==> !OccursAt(s, p, j)
    ensures r.None? <==> forall j: nat :: !OccursAt(s, p, j)
  {
    FindFrom(s, p, 0)
  }

  /** The first occurrence of `p` in `s` at or after offset `i`. */
  function FindFrom(s: string, p: string, i: nat): (r: Option<nat>)
    decreases |s| - i
    ensures r.Some? ==> i <= r.value && OccursAt(s, p, r.value)
    ensures r.Some? ==> forall j: nat :: i <= j < r.value ==> !OccursAt(s, p, j)
    ensures r.None? <==> forall j: nat :: i <= j ==> !OccursAt(s, p, j)
  {
    if i + |p| > |s| then None
    else if s[i..i + |p|] == p then assert OccursAt(s, p, i); Some(i)
    else FindFrom(s, p, i + 1)
  }

  /** `s.split_once(sep)`: the text before and after the first `sep`. */
  function SplitOnce(s: string, sep: char): (r: Option<(string, string)>)
    ensures r.None? <==> sep !in s
    ensures r.Some? ==> s == r.value.0 + [sep] + r.value.1 && sep !in r.value.0
  {
    if |s| == 0 then None
    else if s[0] == sep then Some(([], s[1..]))
    else match SplitOnce(s[1..], sep)
      case None => None
      case Some((before, after)) =>
        assert s == [s[0]] + s[1..];
        Some(([s[0]] + before, after))
  }

  /** `s.split(sep)`: the pieces between the separators, one more than there are separators. */
  function Split(s: string, sep: char): (r: seq<string>)
    decreases |s|
    ensures |r| >= 1
    ensures forall k :: 0 <= k < |r| ==> sep !in r[k]
    ensures Join(r, sep) == s
  {
    match SplitOnce(s, sep)
    case None => [s]
    case Some((before, after)) => [before] + Split(after, sep)
  }

  /** The pieces glued back together with `sep` between neighbours. */
  function Join(pieces: seq<string>, sep: char): string {
    if |pieces| == 0 then []
    else if |pieces| == 1 then pieces[0]
    else pieces[0] + [sep] + Join(pieces[1..], sep)
  }

  /** Splitting undoes joining, for pieces free of the separator. */
  lemma {:induction false} SplitJoin(pieces: seq<string>, sep: char)
    requires |pieces| >= 1
    requires forall k :: 0 <= k < |pieces| ==> sep !in pieces[k]
    ensures Split(Join(pieces, sep), sep) == pieces
    decreases |pieces|
  {
    if |pieces| == 1 {
      assert SplitOnce(pieces[0], sep).None?;
    } else {
      var s := Join(pieces, sep);
      var rest := Join(pieces[1..], sep);
      assert s == pieces[0] + [sep] + rest;
      SplitOnceAt(pieces[0], sep, rest);
      SplitJoin(pieces[1..], sep);
      assert pieces == [pieces[0]] + pieces[1..];
    }
  }

  /** A separator that follows separator-free text is the first one. */
  lemma {:induction false} SplitOnceAt(before: string, sep: char, after: string)
    requires sep !in before
    ensures SplitOnce(before + [sep] + after, sep) == Some((before, after))
    decreases |before|
  {
    var s := before + [sep] + after;
    if |before| > 0 {
      assert s[1..] == before[1..] + [sep] + after;
      SplitOnceAt(before[1..], sep, after);
      assert [s[0]] + before[1..] == before;
    }
  }

  /** `char::is_whitespace` restricted to ASCII: space, tab, line feed,
      vertical tab, form feed and carriage return. */
  predicate IsWhitespace(c: char) {
    c == ' ' || c == '\t' || c == '\n' || c == '\U{000B}' || c == '\U{000C}' || c == '\r'
  }

  /** The number of leading whitespace characters. */
  function LeadingSpace(s: string): (n: nat)
    ensures n <= |s|
    ensures forall k :: 0 <= k < n ==> IsWhitespace(s[k])
    ensures n < |s| ==> !IsWhitespace(s[n])
  {
    if |s| == 0 || !IsWhitespace(s[0]) then 0 else 1 + LeadingSpace(s[1..])
  }

  /** The number of trailing whitespace characters. */
  function TrailingSpace(s: string): (n: nat)
    ensures n <= |s|
    ensures forall k :: |s| - n <= k < |s| ==> IsWhitespace(s[k])
    ensures n < |s| ==> !IsWhitespace(s[|s| - n - 1])
  {
    if |s| == 0 || !IsWhitespace(s[|s| - 1]) then 0 else 1 + TrailingSpace(s[..|s| - 1])
  }

  /** `s.trim()`: `s` without its leading and trailing whitespace. */
  function Trim(s: string): (r: string)
    ensures r == [] || (!IsWhitespace(r[0]) && !IsWhitespace(r[|r| - 1]))
    ensures exists i, j :: 0 <= i <= j <= |s| && r == s[i..j] && Margins(s, i, j)
  {
    var a := LeadingSpace(s);
    var t := s[a..];
    var b := TrailingSpace(t);
    var r := t[..|t| - b];
    assert r == s[a..a + |r|];
    assert Margins(s, a, a + |r|);
    r
  }

  /** Everything of `s` outside `s[i..j]` is whitespace. */
  predicate Margins(s: string, i: nat, j: nat)
    requires i <= j <= |s|
  {
    && (forall k :: 0 <= k < i ==> IsWhitespace(s[k]))
    && (forall k :: j <= k < |s| ==> IsWhitespace(s[k]))
  }

  /** Trimming text that already has no whitespace at either end changes nothing,
      and neither does one leading space more. */
  lemma TrimSpaced(t: string)
    requires t == [] || (!IsWhitespace(t[0]) && !IsWhitespace(t[|t| - 1]))
    ensures Trim(t) == t
    ensures Trim([' '] + t) == t
  {
    var s := [' '] + t;
    assert s[1..] == t;
  }

  predicate IsAsciiDigit(c: char) {
    '0' <= c <= '9'
  }

  predicate AllDigits(s: string) {
    forall k :: 0 <= k < |s| ==> IsAsciiDigit(s[k])
  }

  function DigitValue(c: char): (d: nat)
    requires IsAsciiDigit(c)
    ensures d <= 9
  {
    c as int - '0' as int
  }

  function DigitChar(d: nat): (c: char)
    requires d <= 9
    ensures IsAsciiDigit(c) && DigitValue(c) == d
  {
    ('0' as int + d) as char
  }

  /** The number that a string of decimal digits denotes, most significant first. */
  function DigitsValue(s: string): nat
    requires AllDigits(s)
  {
    if |s| == 0 then 0 else 10 * DigitsValue(s[..|s| - 1]) + DigitValue(s[|s| - 1])
  }

  /** The decimal rendering of `n`, without leading zeros. */
  function Show(n: nat): (s: string)
    ensures |s| >= 1 && AllDigits(s)
    ensures DigitsValue(s) == n
  {
    if n < 10 then [DigitChar(n)]
    else
      var s := Show(n / 10) + [DigitChar(n % 10)];
      assert s[..|s| - 1] == Show(n / 10);
      s
  }

  /** `s.parse::<usize>()` ignoring the width limit: an optional leading `+`
      and then at least one decimal digit, and nothing else. */
  function ParseNat(s: string): (r: Option<nat>)
    ensures r.Some? ==> |s| >= 1 && (AllDigits(s) || (|s| >= 2 && s[0] == '+' && AllDigits(s[1..])))
    ensures AllDigits(s) && |s| >= 1 ==> r == Some(DigitsValue(s))
    ensures |s| >= 2 && s[0] == '+' && AllDigits(s[1..]) ==> r == Some(DigitsValue(s[1..]))
  {
    var digits := if |s| >= 2 && s[0] == '+' then s[1..] else s;
    if |digits| == 0 || !AllDigits(digits) then None
    else Some(DigitsValue(digits))
  }

  /** `s.parse()` into an unsigned type whose largest value is `limit`. */
  function ParseBounded(s: string, limit: nat): (r: Option<nat>)
    ensures r.Some? ==> r.value <= limit && ParseNat(s) == r
    ensures ParseNat(s).Some? && ParseNat(s).value <= limit ==> r.Some?
  {
    match ParseNat(s)
    case None => None
    case Some(v) => if v <= limit then Some(v) else None
  }

  /** Parsing reads back what `Show` renders, with or without a leading `+`. */
  lemma ParseShow(n: nat)
    ensures ParseNat(Show(n)) == Some(n)
    ensures ParseNat(['+'] + Show(n)) == Some(n)
  {
    var s := ['+'] + Show(n);
    assert s[1..] == Show(n);
  }

  /** Concatenation is associative. */
  lemma ConcatAssoc<T>(x: seq<T>, y: seq<T>, z: seq<T>)
    ensures x + (y + z) == (x + y) + z
  {
  }
}
