/**
 * The op-line tokenizer of cols.py and pycsv.py,
 * `re.findall(r'@[0-9]+|@\"[^\"]+\"|\".+?\"|\S+', op)`, and the `use @N-@M` range pattern.
 * The alternatives are tried in order at each position; the first that matches is taken and
 * scanning resumes after it, and a position where none matches (whitespace) is skipped.
 */
module Tokens {
  import opened Wrappers
  import opened Text

  predicate IsNotQuote(c: char) {
    c != '"'
  }

  /** What `.` may match inside a lazy quoted literal and is not its closing quote. */
  predicate IsLiteralChar(c: char) {
    c != '"' && c != '\n'
  }

  /** Alternative `@[0-9]+` matches at the start of `s`. */
  predicate AtPosition(s: string) {
    |s| >= 2 && s[0] == '@' && IsDigit(s[1])
  }

  /** Alternative `@\"[^\"]+\"` matches at the start of `s`. */
  predicate AtQuotedName(s: string) {
    |s| >= 2 && s[0] == '@' && s[1] == '"'
    && var k := LeadingRun(s[2..], IsNotQuote); k >= 1 && 2 + k < |s|
  }

  /** Alternative `\".+?\"` matches at the start of `s`. */
  predicate AtLiteral(s: string) {
    |s| >= 3 && s[0] == '"' && s[1] != '\n'
    && var k := LeadingRun(s[2..], IsLiteralChar); 2 + k < |s| && s[2 + k] == '"'
  }

  /** The length of the token that starts `s`, or 0 when `s` starts with whitespace. */
  function MatchLength(s: string): (n: nat)
    requires s != []
    ensures n <= |s|
    ensures n == 0 <==> IsSpace(s[0])
  {
    if AtPosition(s) then 1 + LeadingRun(s[1..], IsDigit)
    else if AtQuotedName(s) then 3 + LeadingRun(s[2..], IsNotQuote)
    else if AtLiteral(s) then 3 + LeadingRun(s[2..], IsLiteralChar)
    else if !IsSpace(s[0]) then LeadingRun(s, IsNonSpace)
    else 0
  }

  /** `re.findall` of the op-line pattern. */
  function Tokenize(s: string): (ts: seq<string>)
    ensures forall k | 0 <= k < |ts| :: ts[k] != [] && !IsSpace(ts[k][0])
    decreases |s|
  {
    if s == [] then []
    else
      var n := MatchLength(s);
      if n == 0 then Tokenize(s[1..]) else [s[..n]] + Tokenize(s[n..])
  }

  /**
   * cols.py's guard for the range branch, `^@(\d+)-(?:@)?(\d+)$`, over ASCII digits: `@`,
   * digits, `-`, an optional `@`, digits, and nothing after.
   */
  predicate LooseRange(t: string) {
    |t| >= 1 && t[0] == '@'
    && var d := LeadingRun(t[1..], IsDigit);
    d >= 1 && 1 + d < |t| && t[1 + d] == '-'
    && var rest := t[2 + d..];
    var second := if |rest| >= 1 && rest[0] == '@' then rest[1..] else rest;
    |second| >= 1 && AllDigits(second)
  }

  /**
   * The range pattern `^@(\d+)-@(\d+)$` of pycsv.py and of cols.py's second match, over
   * ASCII digits, with the two numbers it captures.
   */
  function RangeRef(t: string): (r: Option<(nat, nat)>)
    ensures r.Some? ==> LooseRange(t)
  {
    if |t| >= 1 && t[0] == '@' then
      var d := LeadingRun(t[1..], IsDigit);
      if d >= 1 && 2 + d < |t| && t[1 + d] == '-' && t[2 + d] == '@'
         && |t[3 + d..]| >= 1 && AllDigits(t[3 + d..])
      then
        assert t[2 + d..][1..] == t[3 + d..];
        Some((DigitsValue(t[1..1 + d]), DigitsValue(t[3 + d..])))
      else None
    else None
  }

  /**
   * No token the tokenizer produces has the range shape: a token that starts with `@` and an
   * ASCII digit is always the `@[0-9]+` alternative and ends with the digits. So the range
   * branch of `use` is never taken for a tokenized line, and `use @2-@4` reads as `use @2`.
   */
  lemma {:induction false} TokensNeverRange(s: string)
    ensures forall k | 0 <= k < |Tokenize(s)| :: !LooseRange(Tokenize(s)[k])
    ensures forall k | 0 <= k < |Tokenize(s)| :: RangeRef(Tokenize(s)[k]).None?
    decreases |s|
  {
    if s != [] {
      var n := MatchLength(s);
      if n == 0 {
        TokensNeverRange(s[1..]);
      } else {
        TokenNotRange(s);
        TokensNeverRange(s[n..]);
        assert Tokenize(s) == [s[..n]] + Tokenize(s[n..]);
      }
    }
  }

  lemma TokenNotRange(s: string)
    requires s != [] && MatchLength(s) > 0
    ensures !LooseRange(s[..MatchLength(s)])
  {
    var n := MatchLength(s);
    var t := s[..n];
    if AtPosition(s) {
      assert t[1..] == s[1..][..n - 1];
      RunIs(t[1..], IsDigit, n - 1);
    } else if AtQuotedName(s) {
      assert t[1] == '"';
    } else if AtLiteral(s) {
      assert t[0] == '"';
    } else if |t| >= 2 {
      assert t[1] == s[1];
      assert LeadingRun(t[1..], IsDigit) == 0 || t[0] != '@';
    }
  }

  /** The documented range line reaches the executor as a `use` with the two tokens `@2` and `-@4`. */
  lemma RangeLineTokens(line: string)
    requires line == "use @2-@4"
    ensures Tokenize(line) == ["use", "@2", "-@4"]
  {
    RangeLineHead(line);
    assert line[4..] == "@2-@4";
    RangeLinePosition(line[4..]);
    assert line[4..][2..] == "-@4";
    WordToken(line[4..][2..]);
  }

  lemma RangeLineHead(line: string)
    requires line == "use @2-@4"
    ensures Tokenize(line) == [line[..3]] + Tokenize(line[4..]) && line[..3] == "use"
  {
    RunIs(line, IsNonSpace, 3);
    TokenStep(line, 3);
    SpaceStep(line[3..]);
    assert line[3..][1..] == line[4..];
  }

  lemma RangeLinePosition(s: string)
    requires s == "@2-@4"
    ensures Tokenize(s) == [s[..2]] + Tokenize(s[2..]) && s[..2] == "@2"
  {
    RunIs(s[1..], IsDigit, 1);
    TokenStep(s, 2);
  }

  /** A quoted name keeps its inner space and forms one token; the new name is a quoted literal. */
  lemma QuotedNameTokens(line: string)
    requires line == "rn @\"First Name\" \"Name\""
    ensures Tokenize(line) == ["rn", "@\"First Name\"", "\"Name\""]
  {
    QuotedLineHead(line);
    QuotedLineName(line[3..]);
    LiteralToken(line[3..][14..]);
  }

  lemma QuotedLineHead(line: string)
    requires line == "rn @\"First Name\" \"Name\""
    ensures Tokenize(line) == ["rn"] + Tokenize(line[3..])
    ensures line[3..] == "@\"First Name\" \"Name\""
  {
    assert line[..2] == "rn";
    RunIs(line, IsNonSpace, 2);
    TokenStep(line, 2);
    SpaceStep(line[2..]);
    assert line[2..][1..] == line[3..];
  }

  lemma QuotedLineName(s: string)
    requires s == "@\"First Name\" \"Name\""
    ensures Tokenize(s) == ["@\"First Name\""] + Tokenize(s[14..])
    ensures s[14..] == "\"Name\""
  {
    RunIs(s[2..], IsNotQuote, 10);
    TokenStep(s, 13);
    assert s[..13] == "@\"First Name\"";
    SpaceStep(s[13..]);
    assert s[13..][1..] == s[14..];
  }

  lemma LiteralToken(s: string)
    requires s == "\"Name\""
    ensures Tokenize(s) == ["\"Name\""]
  {
    RunIs(s[2..], IsLiteralChar, 3);
    TokenStep(s, 6);
    assert s[6..] == [] && s[..6] == s;
  }

  lemma WordToken(s: string)
    requires s == "-@4"
    ensures Tokenize(s) == [s]
  {
    RunIs(s, IsNonSpace, 3);
    TokenStep(s, 3);
    assert s[3..] == [] && s[..3] == s;
  }

  /** `LeadingRun` is pinned down by its contract: a run of `n` that stops at `n`. */
  lemma TokenStep(s: string, n: nat)
    requires s != [] && 0 < n <= |s| && MatchLength(s) == n
    ensures Tokenize(s) == [s[..n]] + Tokenize(s[n..])
  {
  }

  lemma SpaceStep(s: string)
    requires s != [] && IsSpace(s[0])
    ensures Tokenize(s) == Tokenize(s[1..])
  {
  }
}
