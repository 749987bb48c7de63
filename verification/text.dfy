/**
 * The string operations of Python's `str` that the scraper relies on, over
 * Dafny strings (`seq<char>`): digit tests, `int()` of a digit run, `str()` of
 * a natural number, `lower()`, `split()`, `split(sep)`, `strip()`,
 * `replace` of one character, and substring search.
 *
 * Character classes follow CPython for ASCII, Latin-1 and the Unicode space
 * characters; other scripts are outside the model.
 */
module Text {

  import opened Wrappers

  // ---------------------------------------------------------------- digits

  predicate IsDigit(c: char) {
    '0' <= c <= '9'
  }

  predicate AllDigits(s: string) {
    forall i :: 0 <= i < |s| ==> IsDigit(s[i])
  }

  /** Python's `str.isdigit()`: non-empty and every character a digit. */
  predicate IsDigitString(s: string) {
    |s| > 0 && AllDigits(s)
  }

  function DigitValue(c: char): (d: nat)
    requires IsDigit(c)
    ensures d < 10
  {
    (c as int) - ('0' as int)
  }

  function DigitChar(d: nat): (c: char)
    requires d < 10
    ensures IsDigit(c) && DigitValue(c) == d
  {
    (d + '0' as int) as char
  }

  /** Python's `int(s)` for a string of decimal digits. */
  function NatValue(s: string): nat
    requires AllDigits(s)
  {
    if |s| == 0 then 0 else NatValue(s[..|s| - 1]) * 10 + DigitValue(s[|s| - 1])
  }

  /** Python's `str(n)` for a natural number: decimal, no leading zeros. */
  function NatToString(n: nat): (s: string)
    ensures IsDigitString(s)
    ensures |s| == 1 || s[0] != '0'
  {
    if n < 10 then [DigitChar(n)] else NatToString(n / 10) + [DigitChar(n % 10)]
  }

  /** `str` and `int` are inverse on natural numbers. */
  lemma {:induction false} NatValueOfNatToString(n: nat)
    ensures NatValue(NatToString(n)) == n
  {
    if n >= 10 {
      var s := NatToString(n);
      assert s[..|s| - 1] == NatToString(n / 10);
      NatValueOfNatToString(n / 10);
    }
  }

  function Pow10(k: nat): nat {
    if k == 0 then 1 else 10 * Pow10(k - 1)
  }

  /** A string of `k` digits denotes a number below `10^k`. */
  lemma {:induction false} NatValueBelow(s: string)
    requires AllDigits(s)
    ensures NatValue(s) < Pow10(|s|)
  {
    if |s| > 0 {
      NatValueBelow(s[..|s| - 1]);
    }
  }

  lemma NatValueAppendDigit(s: string, c: char)
    requires AllDigits(s) && IsDigit(c)
    ensures AllDigits(s + [c])
    ensures NatValue(s + [c]) == NatValue(s) * 10 + DigitValue(c)
  {
    assert (s + [c])[..|s + [c]| - 1] == s;
  }

  // ------------------------------------------------------------ whitespace

  /** Python's `str.isspace()` for a single character. */
  predicate IsSpace(c: char) {
    var n := c as int;
    n == 0x20 || 0x09 <= n <= 0x0D || 0x1C <= n <= 0x1F || n == 0x85 || n == 0xA0
    || n == 0x1680 || 0x2000 <= n <= 0x200A || n == 0x2028 || n == 0x2029
    || n == 0x202F || n == 0x205F || n == 0x3000
  }

  /** Length of the longest prefix of `s` without whitespace. */
  function RunLength(s: string): (n: nat)
    ensures n <= |s|
    ensures forall k :: 0 <= k < n ==> !IsSpace(s[k])
    ensures n == |s| || IsSpace(s[n])
  {
    if |s| == 0 || IsSpace(s[0]) then 0 else 1 + RunLength(s[1..])
  }

  /** Python's `str.split()` with no argument: the maximal runs of non-whitespace, in order. */
  function Words(s: string): seq<string>
    decreases |s|
  {
    if |s| == 0 then []
    else if IsSpace(s[0]) then Words(s[1..])
    else
      var n := RunLength(s);
      [s[..n]] + Words(s[n..])
  }

  /** `s[i..j]` is a maximal run of non-whitespace characters of `s`. */
  predicate IsWordAt(s: string, i: int, j: int) {
    && 0 <= i < j <= |s|
    && (forall k :: i <= k < j ==> !IsSpace(s[k]))
    && (i == 0 || IsSpace(s[i - 1]))
    && (j == |s| || IsSpace(s[j]))
  }

  /** The leading run ends at `n` when nothing before `n` is whitespace and `s[n]` is. */
  lemma {:induction false} RunLengthAt(s: string, n: nat)
    requires n <= |s| && forall k :: 0 <= k < n ==> !IsSpace(s[k])
    requires n == |s| || IsSpace(s[n])
    ensures RunLength(s) == n
  {
    if n > 0 {
      assert !IsSpace(s[0]);
      RunLengthAt(s[1..], n - 1);
    }
  }

  /** A non-empty string without whitespace is one word. */
  lemma WordsOfRun(w: string)
    requires |w| > 0 && forall k :: 0 <= k < |w| ==> !IsSpace(w[k])
    ensures Words(w) == [w]
  {
    RunLengthAt(w, |w|);
    assert !IsSpace(w[0]);
    assert w[..|w|] == w && w[|w|..] == [];
  }

  /** A word followed by text that starts with whitespace. */
  lemma WordsOfRunThen(w: string, rest: string)
    requires |w| > 0 && forall k :: 0 <= k < |w| ==> !IsSpace(w[k])
    requires |rest| > 0 && IsSpace(rest[0])
    ensures Words(w + rest) == [w] + Words(rest)
  {
    var s := w + rest;
    assert forall k :: 0 <= k < |w| ==> s[k] == w[k];
    assert s[|w|] == rest[0];
    RunLengthAt(s, |w|);
    assert !IsSpace(s[0]);
    assert s[..|w|] == w && s[|w|..] == rest;
  }

  /** A run of the suffix `s[d..]` is a run of `s` when `s[d..]` starts after whitespace. */
  lemma ShiftWord(s: string, d: nat, i: int, j: int)
    requires d <= |s| && (d == 0 || i > 0 || IsSpace(s[d - 1]))
    requires IsWordAt(s[d..], i, j)
    ensures IsWordAt(s, i + d, j + d)
    ensures s[i + d..j + d] == s[d..][i..j]
  {
    var t := s[d..];
    forall k | i + d <= k < j + d
      ensures !IsSpace(s[k])
    {
      assert s[k] == t[k - d];
    }
    if i > 0 {
      assert s[i + d - 1] == t[i - 1];
    }
    if j < |t| {
      assert s[j + d] == t[j];
    }
  }

  /** A run of `s` that starts at or after `d` is a run of the suffix `s[d..]`. */
  lemma UnshiftWord(s: string, d: nat, i: int, j: int)
    requires d <= i
    requires IsWordAt(s, i, j)
    ensures IsWordAt(s[d..], i - d, j - d)
    ensures s[i..j] == s[d..][i - d..j - d]
  {
    var t := s[d..];
    forall k | i - d <= k < j - d
      ensures !IsSpace(t[k])
    {
      assert t[k] == s[k + d];
    }
    if i - d > 0 {
      assert t[i - d - 1] == s[i - 1];
    }
    if j - d < |t| {
      assert t[j - d] == s[j];
    }
  }

  /** Every token `split()` returns is a maximal non-whitespace run. */
  lemma {:induction false} WordsAreRuns(s: string, w: string)
    requires w in Words(s)
    ensures exists i, j :: IsWordAt(s, i, j) && s[i..j] == w
    decreases |s|
  {
    if IsSpace(s[0]) {
      WordsAreRuns(s[1..], w);
      var i, j :| IsWordAt(s[1..], i, j) && s[1..][i..j] == w;
      ShiftWord(s, 1, i, j);
    } else {
      var n := RunLength(s);
      assert Words(s) == [s[..n]] + Words(s[n..]);
      if w == s[..n] {
        assert IsWordAt(s, 0, n);
        assert s[0..n] == w;
      } else {
        assert w in Words(s[n..]);
        WordsAreRuns(s[n..], w);
        var i, j :| IsWordAt(s[n..], i, j) && s[n..][i..j] == w;
        ShiftWord(s, n, i, j);
      }
    }
  }

  /** Every maximal non-whitespace run is a token `split()` returns. */
  lemma {:induction false} RunsAreWords(s: string, i: int, j: int)
    requires IsWordAt(s, i, j)
    ensures s[i..j] in Words(s)
    decreases |s|, 1
  {
    if IsSpace(s[0]) {
      RunsAfterSpace(s, i, j);
    } else if i == 0 {
      WordsFirstRun(s);
      WordAtStart(s, j);
    } else {
      RunsAfterRun(s, i, j);
    }
  }

  /** After leading whitespace, the runs of `s` are those of `s[1..]`. */
  lemma {:induction false} RunsAfterSpace(s: string, i: int, j: int)
    requires IsWordAt(s, i, j) && IsSpace(s[0])
    ensures s[i..j] in Words(s)
    decreases |s|, 0
  {
    assert i != 0 by { assert !IsSpace(s[i]); }
    WordsSkipSpace(s);
    UnshiftWord(s, 1, i, j);
    RunsAreWords(s[1..], i - 1, j - 1);
  }

  /** A run past the leading run is one of the words after it. */
  lemma {:induction false} RunsAfterRun(s: string, i: int, j: int)
    requires IsWordAt(s, i, j) && !IsSpace(s[0]) && i > 0
    ensures s[i..j] in Words(s)
    decreases |s|, 0
  {
    var n := RunLength(s);
    WordsFirstRun(s);
    WordAfterRun(s, i, j);
    UnshiftWord(s, n, i, j);
    RunsAreWords(s[n..], i - n, j - n);
    var rest := Words(s[n..]);
    assert s[i..j] in rest;
    assert Words(s) == [s[..n]] + rest;
  }

  /** Leading whitespace produces no word. */
  lemma WordsSkipSpace(s: string)
    requires |s| > 0 && IsSpace(s[0])
    ensures Words(s) == Words(s[1..])
  {
  }

  /** A text that starts with a non-space character starts with its leading run. */
  lemma WordsFirstRun(s: string)
    requires |s| > 0 && !IsSpace(s[0])
    ensures Words(s) == [s[..RunLength(s)]] + Words(s[RunLength(s)..])
  {
  }

  /** A run that starts the text is the leading run. */
  lemma WordAtStart(s: string, j: int)
    requires IsWordAt(s, 0, j)
    ensures j == RunLength(s) && s[0..j] == s[..RunLength(s)]
  {
    RunLengthAt(s, j);
  }

  /** A run that does not start the text lies past the leading run. */
  lemma WordAfterRun(s: string, i: int, j: int)
    requires IsWordAt(s, i, j) && i > 0
    ensures i > RunLength(s)
  {
  }

  /** Python's `str.strip()`: whitespace removed from both ends. */
  function Strip(s: string): (r: string)
    ensures |r| <= |s|
    ensures |r| > 0 ==> !IsSpace(r[0]) && !IsSpace(r[|r| - 1])
  {
    StripRight(StripLeft(s))
  }

  function StripLeft(s: string): (r: string)
    ensures |r| <= |s| && r == s[|s| - |r|..]
    ensures |r| > 0 ==> !IsSpace(r[0])
  {
    if |s| > 0 && IsSpace(s[0]) then StripLeft(s[1..]) else s
  }

  function StripRight(s: string): (r: string)
    ensures |r| <= |s| && r == s[..|r|]
    ensures |r| > 0 ==> !IsSpace(r[|r| - 1])
  {
    if |s| > 0 && IsSpace(s[|s| - 1]) then StripRight(s[..|s| - 1]) else s
  }

  // ------------------------------------------------------------ case, accents

  /** Python's `str.lower()` on one character: ASCII and Latin-1 capitals. */
  function LowerChar(c: char): char {
    var n := c as int;
    if 0x41 <= n <= 0x5A || (0xC0 <= n <= 0xDE && n != 0xD7) then (n + 32) as char else c
  }

  /** Python's `str.upper()` on one character: ASCII and Latin-1 small letters with a capital. */
  function UpperChar(c: char): char {
    var n := c as int;
    if 0x61 <= n <= 0x7A || (0xE0 <= n <= 0xFE && n != 0xF7) then (n - 32) as char else c
  }

  function Lower(s: string): (r: string)
    ensures |r| == |s| && forall i :: 0 <= i < |s| ==> r[i] == LowerChar(s[i])
  {
    seq(|s|, i requires 0 <= i < |s| => LowerChar(s[i]))
  }

  function Upper(s: string): (r: string)
    ensures |r| == |s| && forall i :: 0 <= i < |s| ==> r[i] == UpperChar(s[i])
  {
    seq(|s|, i requires 0 <= i < |s| => UpperChar(s[i]))
  }

  /** The five replacements á→a, é→e, í→i, ó→o, ú→u, on one character. */
  function FoldAccentChar(c: char): char {
    match c
    case 'á' => 'a'
    case 'é' => 'e'
    case 'í' => 'i'
    case 'ó' => 'o'
    case 'ú' => 'u'
    case _ => c
  }

  function FoldAccents(s: string): (r: string)
    ensures |r| == |s| && forall i :: 0 <= i < |s| ==> r[i] == FoldAccentChar(s[i])
  {
    seq(|s|, i requires 0 <= i < |s| => FoldAccentChar(s[i]))
  }

  // ------------------------------------------------------------ split, replace, search

  /** Index of the first `sep` in `s`, or `|s|` when there is none. */
  function IndexOf(s: string, sep: char): (k: nat)
    ensures k <= |s|
    ensures forall i :: 0 <= i < k ==> s[i] != sep
    ensures k < |s| ==> s[k] == sep
  {
    if |s| == 0 || s[0] == sep then 0 else 1 + IndexOf(s[1..], sep)
  }

  /** Python's `s.split(sep)` for a one-character separator: never empty, pieces free of `sep`. */
  function SplitOn(s: string, sep: char): (parts: seq<string>)
    ensures |parts| >= 1
    ensures forall p :: p in parts ==> sep !in p
    decreases |s|
  {
    var k := IndexOf(s, sep);
    if k == |s| then [s] else [s[..k]] + SplitOn(s[k + 1..], sep)
  }

  /** The first `sep` sits at `k` when none comes before it. */
  lemma {:induction false} IndexOfAt(s: string, sep: char, k: nat)
    requires k <= |s|
    requires forall i :: 0 <= i < k ==> s[i] != sep
    requires k < |s| ==> s[k] == sep
    ensures IndexOf(s, sep) == k
  {
    if k > 0 {
      IndexOfAt(s[1..], sep, k - 1);
    }
  }

  /** A piece without `sep`, then `sep`, then more: the piece is the first part of the split. */
  lemma SplitOnPiece(piece: string, sep: char, rest: string)
    requires sep !in piece
    ensures SplitOn(piece + [sep] + rest, sep) == [piece] + SplitOn(rest, sep)
  {
    var s := piece + [sep] + rest;
    assert forall i :: 0 <= i < |piece| ==> s[i] == piece[i];
    IndexOfAt(s, sep, |piece|);
    assert s[..|piece|] == piece;
    assert s[|piece| + 1..] == rest;
  }

  /** A string without `sep` splits into itself alone. */
  lemma SplitOnWhole(s: string, sep: char)
    requires sep !in s
    ensures SplitOn(s, sep) == [s]
  {
    IndexOfAt(s, sep, |s|);
  }

  /** Joining the pieces of `split(sep)` with `sep` gives the string back. */
  lemma {:induction false} JoinSplitOn(s: string, sep: char)
    ensures Join([sep], SplitOn(s, sep)) == s
    decreases |s|
  {
    var k := IndexOf(s, sep);
    if k < |s| {
      var head, tail := s[..k], s[k + 1..];
      JoinSplitOn(tail, sep);
      JoinCons([sep], head, SplitOn(tail, sep));
      SplitAround(s, k);
    }
  }

  /** A string is its prefix before `k`, the character at `k` and the rest. */
  lemma SplitAround(s: string, k: nat)
    requires k < |s|
    ensures s == s[..k] + [s[k]] + s[k + 1..]
  {
  }

  /** Concatenation is associative. */
  lemma ConcatAssoc<T>(a: seq<T>, b: seq<T>, c: seq<T>)
    ensures (a + b) + c == a + (b + c)
  {
  }

  /** Joining three parts writes the separator between each pair. */
  lemma JoinThree(sep: string, a: string, b: string, c: string)
    ensures Join(sep, [a, b, c]) == a + sep + b + sep + c
  {
    assert [a, b, c][1..] == [b, c];
    assert Join(sep, [b, c]) == b + sep + c;
    assert a + sep + (b + sep + c) == a + sep + b + sep + c;
  }

  /** Joining four parts writes the separator between each pair. */
  lemma JoinFour(sep: string, a: string, b: string, c: string, d: string)
    ensures Join(sep, [a, b, c, d]) == a + sep + b + sep + c + sep + d
  {
    assert [c, d][1..] == [d];
    assert Join(sep, [c, d]) == c + sep + d;
    assert [b, c, d][1..] == [c, d];
    assert Join(sep, [b, c, d]) == b + sep + (c + sep + d);
    assert [a, b, c, d][1..] == [b, c, d];
    assert Join(sep, [a, b, c, d]) == a + sep + (b + sep + (c + sep + d));
  }

  /** Joining a head in front of at least one more part puts a separator after the head. */
  lemma JoinCons(sep: string, head: string, parts: seq<string>)
    requires |parts| >= 1
    ensures Join(sep, [head] + parts) == head + sep + Join(sep, parts)
  {
    assert ([head] + parts)[1..] == parts;
  }

  /** Splitting a join on its separator gives the parts back when no part contains the separator. */
  lemma {:induction false} SplitOnJoin(parts: seq<string>, sep: char)
    requires |parts| >= 1
    requires forall i :: 0 <= i < |parts| ==> sep !in parts[i]
    ensures SplitOn(Join([sep], parts), sep) == parts
  {
    if |parts| == 1 {
      SplitOnWhole(parts[0], sep);
    } else {
      SplitOnJoin(parts[1..], sep);
      SplitOnPiece(parts[0], sep, Join([sep], parts[1..]));
    }
  }

  /** Python's `sep.join(parts)`. */
  function Join(sep: string, parts: seq<string>): string {
    if |parts| == 0 then ""
    else if |parts| == 1 then parts[0]
    else parts[0] + sep + Join(sep, parts[1..])
  }

  /** Python's `s.replace(old, new)` for a one-character `old`. */
  function Replace(s: string, target: char, replacement: string): (r: string)
    ensures target !in s ==> r == s
  {
    if |s| == 0 then ""
    else (if s[0] == target then replacement else [s[0]]) + Replace(s[1..], target, replacement)
  }

  /** `sub` occurs in `s` starting at index `i`. */
  predicate OccursAt(s: string, sub: string, i: int) {
    0 <= i <= |s| - |sub| && s[i..i + |sub|] == sub
  }

  /** Python's `sub in s` on strings. */
  predicate Contains(s: string, sub: string) {
    exists i | 0 <= i <= |s| - |sub| :: OccursAt(s, sub, i)
  }

  // ------------------------------------------------------------ first integer

  /**
   * The value of the first maximal run of digits of `s`, or None when `s`
   * has no digit: the scan that appends digits to a buffer and stops at the
   * first non-digit after the buffer became non-empty.
   */
  function FirstInt(s: string): (r: Option<nat>)
    ensures r.None? <==> forall k :: 0 <= k < |s| ==> !IsDigit(s[k])
    ensures r.Some? ==> exists i, j :: IsFirstDigitRun(s, i, j) && r.value == NatValue(s[i..j])
    decreases |s|
  {
    if |s| == 0 then None
    else if !IsDigit(s[0]) then
      var r := FirstInt(s[1..]);
      if r.Some? then ShiftFirstDigitRun(s, r.value); r else r
    else
      var n := DigitRunLength(s);
      assert IsFirstDigitRun(s, 0, n);
      Some(NatValue(s[..n]))
  }

  /** `s[i..j]` is a non-empty maximal digit run with no digit before it. */
  predicate IsFirstDigitRun(s: string, i: int, j: int) {
    && 0 <= i < j <= |s|
    && (forall k :: 0 <= k < i ==> !IsDigit(s[k]))
    && AllDigits(s[i..j])
    && (j == |s| || !IsDigit(s[j]))
  }

  lemma ShiftFirstDigitRun(s: string, v: nat)
    requires |s| > 0 && !IsDigit(s[0])
    requires exists i, j :: IsFirstDigitRun(s[1..], i, j) && v == NatValue(s[1..][i..j])
    ensures exists i, j :: IsFirstDigitRun(s, i, j) && v == NatValue(s[i..j])
  {
    var i, j :| IsFirstDigitRun(s[1..], i, j) && v == NatValue(s[1..][i..j]);
    assert s[1..][i..j] == s[i + 1..j + 1];
    assert IsFirstDigitRun(s, i + 1, j + 1);
  }

  function DigitRunLength(s: string): (n: nat)
    ensures n <= |s| && AllDigits(s[..n])
    ensures n == |s| || !IsDigit(s[n])
  {
    if |s| == 0 || !IsDigit(s[0]) then 0
    else
      var n := 1 + DigitRunLength(s[1..]);
      assert s[..n] == [s[0]] + s[1..][..n - 1];
      n
  }

  /** The first digit run determines the result: there is only one. */
  lemma FirstDigitRunUnique(s: string, i: int, j: int, i': int, j': int)
    requires IsFirstDigitRun(s, i, j) && IsFirstDigitRun(s, i', j')
    ensures i == i' && j == j'
  {
    assert IsDigit(s[i]) by { assert s[i..j][0] == s[i]; }
    assert IsDigit(s[i']) by { assert s[i'..j'][0] == s[i']; }
    assert i == i';
    forall k | i <= k < j
      ensures IsDigit(s[k])
    {
      assert s[i..j][k - i] == s[k];
    }
    forall k | i <= k < j'
      ensures IsDigit(s[k])
    {
      assert s[i'..j'][k - i] == s[k];
    }
  }

  /** A number written after some digit-free text is what `FirstInt` reads back. */
  lemma FirstIntReadsNumber(prefix: string, n: nat, suffix: string)
    requires forall k :: 0 <= k < |prefix| ==> !IsDigit(prefix[k])
    requires |suffix| == 0 || !IsDigit(suffix[0])
    ensures FirstInt(prefix + NatToString(n) + suffix) == Some(n)
  {
    var s := prefix + NatToString(n) + suffix;
    var i, j := |prefix|, |prefix| + |NatToString(n)|;
    assert s[i..j] == NatToString(n);
    assert IsFirstDigitRun(s, i, j);
    var r := FirstInt(s);
    var i', j' :| IsFirstDigitRun(s, i', j') && r.value == NatValue(s[i'..j']);
    FirstDigitRunUnique(s, i, j, i', j');
    NatValueOfNatToString(n);
  }
}
