/**
 * Character classes and the few Python string operations the column engine relies on:
 * `int()` on a digit string, `str.strip`, `str.split()` and `str.replace`.
 */
module Text {
  import opened Wrappers

  /** The characters Python's `str.isspace`, `\s` in a `str` regex, `str.split()` and `str.strip()` treat as whitespace. */
  predicate IsSpace(c: char) {
    c == ' ' || c == '\t' || c == '\n' || c == '\r' || c == '\U{000B}' || c == '\U{000C}'
    || ('\U{001C}' <= c <= '\U{001F}') || c == '\U{0085}' || c == '\U{00A0}' || c == '\U{1680}'
    || ('\U{2000}' <= c <= '\U{200A}') || c == '\U{2028}' || c == '\U{2029}' || c == '\U{202F}'
    || c == '\U{205F}' || c == '\U{3000}'
  }

  predicate IsNonSpace(c: char) {
    !IsSpace(c)
  }

  /** A run of one or more whitespace characters. */
  predicate IsBlank(sep: string) {
    sep != [] && forall i | 0 <= i < |sep| :: IsSpace(sep[i])
  }

  /** A non-empty string without whitespace. */
  predicate IsWord(w: string) {
    w != [] && forall i | 0 <= i < |w| :: !IsSpace(w[i])
  }

  predicate IsQuote(c: char) {
    c == '"'
  }

  /** An ASCII decimal digit, the class `[0-9]`. */
  predicate IsDigit(c: char) {
    '0' <= c <= '9'
  }

  predicate AllDigits(s: string) {
    forall i | 0 <= i < |s| :: IsDigit(s[i])
  }

  function DigitValue(c: char): (d: nat)
    requires IsDigit(c)
    ensures d < 10
  {
    (c as int) - ('0' as int)
  }

  function DigitChar(d: nat): (c: char)
    requires d < 10
    ensures IsDigit(c) && DigitValue(c) == d
  {
    (('0' as int) + d) as char
  }

  /** The value of a string of decimal digits, most significant first. */
  function DigitsValue(s: string): nat
    requires AllDigits(s)
    decreases |s|
  {
    if s == [] then 0 else DigitsValue(s[..|s| - 1]) * 10 + DigitValue(s[|s| - 1])
  }

  /**
   * `int(s)` restricted to what the column syntax writes: a non-empty run of ASCII digits.
   * Anything else is the `ValueError` branch.
   */
  function ParseNat(s: string): Option<nat> {
    if |s| > 0 && AllDigits(s) then Some(DigitsValue(s)) else None
  }

  /** The texts `int()` accepts once stripped: an optional `+` or `-`, then one or more ASCII digits. */
  predicate IsIntText(t: string) {
    || (t != [] && AllDigits(t))
    || (|t| > 1 && (t[0] == '+' || t[0] == '-') && AllDigits(t[1..]))
  }

  /**
   * `int(s)` on a string: surrounding whitespace is ignored, then an optional `+` or `-` sign
   * and a non-empty run of ASCII digits. Anything else is the `ValueError` branch.
   */
  function ParseInt(s: string): (r: Option<int>)
    ensures ParseNat(Strip(s)).Some? ==> r == Some(ParseNat(Strip(s)).value)
  {
    var t := Strip(s);
    if |t| > 0 && (t[0] == '+' || t[0] == '-') then
      match ParseNat(t[1..])
      case None => None
      case Some(n) =>
        var v: int := if t[0] == '-' then -(n as int) else n;
        Some(v)
    else match ParseNat(t)
      case None => None
      case Some(n) =>
        var v: int := n;
        Some(v)
  }

  /** The decimal rendering of `n`, as `str(n)` writes it. */
  function NatToString(n: nat): (s: string)
    ensures |s| > 0 && AllDigits(s)
    ensures s[0] == '0' ==> n == 0
    decreases n
  {
    if n < 10 then [DigitChar(n)] else NatToString(n / 10) + [DigitChar(n % 10)]
  }

  /** Reading back the decimal rendering of a number gives the number. */
  lemma {:induction false} ParseNatOfString(n: nat)
    ensures ParseNat(NatToString(n)) == Some(n)
  {
    DigitsOfString(n);
  }

  lemma {:induction false} DigitsOfString(n: nat)
    ensures DigitsValue(NatToString(n)) == n
    decreases n
  {
    var s := NatToString(n);
    if n < 10 {
      assert s[..|s| - 1] == [];
    } else {
      DigitsOfString(n / 10);
      assert s[..|s| - 1] == NatToString(n / 10);
    }
  }

  /** Reading back the decimal rendering of a number with `int()` gives the number. */
  lemma ParseIntOfString(n: nat)
    ensures ParseInt(NatToString(n)) == Some(n)
  {
    var s := NatToString(n);
    StripKeeps(s, IsSpace);
    ParseNatOfString(n);
  }

  /** `int()` succeeds exactly on the integer texts, after stripping; otherwise it raises `ValueError`. */
  lemma ParseIntAccepts(s: string)
    ensures ParseInt(s).Some? <==> IsIntText(Strip(s))
  {
  }

  /** `int()` reads a signed decimal rendering, with either sign, as the signed number. */
  lemma ParseIntSigned(n: nat)
    ensures ParseInt("-" + NatToString(n)) == Some(-(n as int))
    ensures ParseInt("+" + NatToString(n)) == Some(n)
  {
    ParseNatOfString(n);
    SignedRendering('-', n);
    SignedRendering('+', n);
  }

  lemma SignedRendering(sign: char, n: nat)
    requires sign == '+' || sign == '-'
    ensures Strip([sign] + NatToString(n)) == [sign] + NatToString(n)
    ensures ([sign] + NatToString(n))[1..] == NatToString(n)
  {
    var s := [sign] + NatToString(n);
    assert IsDigit(s[|s| - 1]);
    StripKeeps(s, IsSpace);
  }

  /** How many leading characters of `s` satisfy `p`. */
  function LeadingRun(s: string, p: char -> bool): (n: nat)
    ensures n <= |s|
    ensures forall i | 0 <= i < n :: p(s[i])
    ensures n < |s| ==> !p(s[n])
    decreases |s|
  {
    if s != [] && p(s[0]) then 1 + LeadingRun(s[1..], p) else 0
  }

  /** How many trailing characters of `s` satisfy `p`. */
  function TrailingRun(s: string, p: char -> bool): (n: nat)
    ensures n <= |s|
    ensures forall i | |s| - n <= i < |s| :: p(s[i])
    ensures n < |s| ==> !p(s[|s| - 1 - n])
    decreases |s|
  {
    if s != [] && p(s[|s| - 1]) then 1 + TrailingRun(s[..|s| - 1], p) else 0
  }

  /** `s.strip(chars)` where `p` says which characters are stripped. */
  function StripBy(s: string, p: char -> bool): (r: string)
    ensures exists lo, hi ::
              && 0 <= lo <= hi <= |s| && r == s[lo..hi]
              && (forall i | 0 <= i < lo :: p(s[i]))
              && (forall i | hi <= i < |s| :: p(s[i]))
    ensures r != [] ==> !p(r[0]) && !p(r[|r| - 1])
  {
    var lo := LeadingRun(s, p);
    var t := s[lo..];
    var n := TrailingRun(t, p);
    StripWindow(s, t, p, lo, n);
    t[..|t| - n]
  }

  /** The part `StripBy` keeps is the slice between the leading and the trailing run. */
  lemma StripWindow(s: string, t: string, p: char -> bool, lo: nat, n: nat)
    requires lo <= |s| && t == s[lo..] && (lo < |s| ==> !p(s[lo]))
    requires n <= |t| && (forall j | |t| - n <= j < |t| :: p(t[j])) && (n < |t| ==> !p(t[|t| - 1 - n]))
    ensures lo <= |s| - n && t[..|t| - n] == s[lo..|s| - n]
    ensures forall i | |s| - n <= i < |s| :: p(s[i])
    ensures lo < |s| - n ==> !p(s[lo]) && !p(s[|s| - n - 1])
  {
    var hi := |s| - n;
    forall i | hi <= i < |s| ensures p(s[i]) {
      assert s[i] == t[i - lo];
    }
    if lo < hi {
      assert s[hi - 1] == t[|t| - 1 - n];
    }
  }

  /** A string whose first and last characters are not stripped is left as it is. */
  lemma StripKeeps(s: string, p: char -> bool)
    requires s != [] ==> !p(s[0]) && !p(s[|s| - 1])
    ensures StripBy(s, p) == s
  {
    if s != [] {
      assert LeadingRun(s, p) == 0;
      assert TrailingRun(s, p) == 0;
      assert s[0..] == s;
    }
  }

  /** `s.strip('"')`: the source's way of unwrapping a quoted argument. */
  function StripQuotes(s: string): string {
    StripBy(s, IsQuote)
  }

  /** A quoted literal `"name"` unwraps to `name` when `name` neither starts nor ends with a quote. */
  lemma StripQuotesOfQuoted(name: string)
    requires name != [] ==> !IsQuote(name[0]) && !IsQuote(name[|name| - 1])
    ensures StripQuotes("\"" + name + "\"") == name
  {
    var s := "\"" + name + "\"";
    if name == [] {
      assert LeadingRun(s[1..], IsQuote) == 1;
      assert LeadingRun(s, IsQuote) == 2;
      assert s[2..] == [];
    } else {
      assert s[1..][0] == name[0];
      assert LeadingRun(s, IsQuote) == 1;
      var t := s[1..];
      assert t == name + "\"";
      assert t[..|t| - 1] == name;
      assert TrailingRun(t, IsQuote) == 1;
    }
  }

  /** `s.strip()`. */
  function Strip(s: string): string {
    StripBy(s, IsSpace)
  }

  predicate StartsWith(s: string, prefix: string) {
    |prefix| <= |s| && s[..|prefix|] == prefix
  }

  /** `s.split()` with no separator: the maximal runs of non-whitespace characters, in order. */
  function Words(s: string): (ws: seq<string>)
    ensures forall k | 0 <= k < |ws| :: ws[k] != [] && forall i | 0 <= i < |ws[k]| :: !IsSpace(ws[k][i])
    decreases |s|
  {
    var t := s[LeadingRun(s, IsSpace)..];
    if t == [] then []
    else
      var n := LeadingRun(t, IsNonSpace);
      [t[..n]] + Words(t[n..])
  }

  /** `split()` yields no words exactly when the text is all whitespace. */
  lemma WordsNone(s: string)
    ensures Words(s) == [] <==> forall i | 0 <= i < |s| :: IsSpace(s[i])
  {
    var lo := LeadingRun(s, IsSpace);
    if lo < |s| {
      assert !IsSpace(s[lo]);
    }
  }

  /**
   * Leading whitespace, then a word that ends at whitespace or at the end of the text: the
   * word is the first of `split()`'s results and the rest are the words after it. With the
   * all-whitespace case of `WordsNone`, this determines `split()` on every string.
   */
  lemma WordsCons(sep: string, w: string, rest: string)
    requires forall i | 0 <= i < |sep| :: IsSpace(sep[i])
    requires IsWord(w)
    requires rest == [] || IsSpace(rest[0])
    ensures Words(sep + w + rest) == [w] + Words(rest)
  {
    RunBeforeStop(sep, w, rest, IsSpace);
    assert forall i | 0 <= i < |w| :: IsNonSpace(w[i]);
    RunBeforeStop(w, rest, [], IsNonSpace);
    Pieces(sep, w, rest);
  }

  /** A run of `p` followed by a character that stops it has the run's length. */
  lemma RunBeforeStop(a: string, b: string, c: string, p: char -> bool)
    requires forall i | 0 <= i < |a| :: p(a[i])
    requires b == [] || !p(b[0])
    requires c == [] || b != []
    ensures LeadingRun(a + b + c, p) == |a|
  {
    var s := a + b + c;
    forall i | 0 <= i < |a| ensures p(s[i]) {
      assert s[i] == a[i];
    }
    if |a| < |s| {
      assert s[|a|] == b[0];
    }
    RunIs(s, p, |a|);
  }

  lemma Pieces(sep: string, w: string, rest: string)
    ensures (sep + w + rest)[|sep|..] == w + rest
    ensures w + rest + [] == w + rest
    ensures (w + rest)[..|w|] == w && (w + rest)[|w|..] == rest
  {
    assert (sep + w + rest)[|sep|..] == w + rest;
  }
  /** Two words with whitespace between them split into exactly those two words. */
  lemma WordsTwo(w1: string, sep: string, w2: string)
    requires IsWord(w1) && IsBlank(sep) && IsWord(w2)
    ensures Words(w1 + sep + w2) == [w1, w2]
  {
    WordsCons([], w1, sep + w2);
    Regroup(w1, sep, w2);
    WordsCons(sep, w2, []);
    NoRest(sep + w2);
  }

  lemma Regroup(a: string, b: string, c: string)
    ensures a + b + c == [] + a + (b + c)
  {
  }

  lemma NoRest(a: string)
    ensures a + [] == a
  {
  }
  /** The leading run is exactly the first `n` characters when the character after them stops it. */
  lemma RunIs(s: string, p: char -> bool, n: nat)
    requires n <= |s| && (forall i | 0 <= i < n :: p(s[i])) && (n < |s| ==> !p(s[n]))
    ensures LeadingRun(s, p) == n
  {
  }

  /** `find` occurs somewhere in `s`. */
  predicate Occurs(s: string, find: string) {
    exists i | 0 <= i <= |s| :: StartsWith(s[i..], find)
  }

  /**
   * `s.replace(find, repl)`: every non-overlapping occurrence of `find`, scanning from the
   * left, is replaced by `repl`. With an empty `find`, Python puts `repl` before every
   * character and once more at the end.
   */
  function Replace(s: string, find: string, repl: string): string {
    if find == [] then Interleave(s, repl) else ReplaceNonEmpty(s, find, repl)
  }

  function Interleave(s: string, sep: string): string
    decreases |s|
  {
    if s == [] then sep else sep + [s[0]] + Interleave(s[1..], sep)
  }

  function ReplaceNonEmpty(s: string, find: string, repl: string): string
    requires find != []
    decreases |s|
  {
    if |s| < |find| then s
    else if StartsWith(s, find) then repl + ReplaceNonEmpty(s[|find|..], find, repl)
    else [s[0]] + ReplaceNonEmpty(s[1..], find, repl)
  }

  /** Replacing a string that does not occur changes nothing. */
  lemma {:induction false} ReplaceAbsent(s: string, find: string, repl: string)
    requires find != [] && !Occurs(s, find)
    ensures Replace(s, find, repl) == s
  {
    ReplaceNonEmptyAbsent(s, find, repl);
  }

  lemma {:induction false} ReplaceNonEmptyAbsent(s: string, find: string, repl: string)
    requires find != [] && !Occurs(s, find)
    ensures ReplaceNonEmpty(s, find, repl) == s
    decreases |s|
  {
    if |s| >= |find| {
      assert s[0..] == s;
      assert !StartsWith(s, find);
      assert !Occurs(s[1..], find) by {
        forall i | 0 <= i <= |s[1..]| ensures !StartsWith(s[1..][i..], find) {
          assert s[1..][i..] == s[i + 1..];
        }
      }
      ReplaceNonEmptyAbsent(s[1..], find, repl);
    }
  }

  /** Replacing a string by itself changes nothing. */
  lemma {:induction false} ReplaceSelf(s: string, find: string)
    ensures Replace(s, find, find) == s
  {
    if find == [] {
      InterleaveEmpty(s);
    } else {
      ReplaceNonEmptySelf(s, find);
    }
  }

  lemma {:induction false} InterleaveEmpty(s: string)
    ensures Interleave(s, []) == s
    decreases |s|
  {
    if s != [] {
      InterleaveEmpty(s[1..]);
    }
  }

  lemma {:induction false} ReplaceNonEmptySelf(s: string, find: string)
    requires find != []
    ensures ReplaceNonEmpty(s, find, find) == s
    decreases |s|
  {
    if |s| >= |find| {
      if StartsWith(s, find) {
        ReplaceNonEmptySelf(s[|find|..], find);
        assert s == s[..|find|] + s[|find|..];
      } else {
        ReplaceNonEmptySelf(s[1..], find);
        assert s == [s[0]] + s[1..];
      }
    }
  }

  /** A replacement as long as what it replaces keeps the length of the text. */
  lemma {:induction false} ReplaceKeepsLength(s: string, find: string, repl: string)
    requires |find| == |repl|
    ensures |Replace(s, find, repl)| == |s|
  {
    if find == [] {
      InterleaveEmpty(s);
    } else {
      ReplaceNonEmptyLength(s, find, repl);
    }
  }

  lemma {:induction false} ReplaceNonEmptyLength(s: string, find: string, repl: string)
    requires find != [] && |find| == |repl|
    ensures |ReplaceNonEmpty(s, find, repl)| == |s|
    decreases |s|
  {
    if |s| >= |find| {
      if StartsWith(s, find) {
        ReplaceNonEmptyLength(s[|find|..], find, repl);
      } else {
        ReplaceNonEmptyLength(s[1..], find, repl);
      }
    }
  }
}
