/**
 * The line classification of `parse_config` in cols.py and pycsv.py: every line is stripped;
 * blank lines and `#` comments are skipped, `in key [value]` lines become row-window specs,
 * and every other line is kept, stripped, as an op line.
 */
module Config {
  import opened Wrappers
  import opened Text
  import opened Tokens
  import opened RowWindow

  /** What one configuration line is, after `line.strip()`. */
  datatype Entry = Skipped | SpecLine(words: seq<string>) | OpLine(op: string)

  /** The stripped line starts with `in ` (a space, not any whitespace). */
  predicate IsSpecText(line: string) {
    |line| >= 3 && line[..3] == "in "
  }

  function Classify(raw: string): (e: Entry)
    ensures e.OpLine? ==> e.op == Strip(raw) && e.op != [] && e.op[0] != '#' && !IsSpecText(e.op)
  {
    var line := Strip(raw);
    if line == [] || line[0] == '#' then Skipped
    else if IsSpecText(line) then SpecLine(Words(line[3..]))
    else OpLine(line)
  }

  /** The value a spec line stores: its second word, or `True` when it has none. */
  function SpecOf(words: seq<string>): SpecValue
    requires words != []
  {
    if |words| > 1 then Word(words[1]) else Flag
  }

  /** `specs[keyval[0]] = ...` when `keyval` is not empty. */
  function AddSpec(specs: Specs, words: seq<string>): Specs {
    if words == [] then specs else specs[words[0] := SpecOf(words)]
  }

  /** What `parse_config` returns. */
  datatype Parsed = Parsed(specs: Specs, ops: seq<string>)

  /** Each line of the file, classified. */
  function Entries(lines: seq<string>): (es: seq<Entry>)
    ensures |es| == |lines|
  {
    seq(|lines|, i requires 0 <= i < |lines| => Classify(lines[i]))
  }

  /** The specs and ops collected from the classified lines, read in order. */
  function Collect(es: seq<Entry>): Parsed
    decreases |es|
  {
    if es == [] then Parsed(map[], [])
    else
      var p := Collect(es[..|es| - 1]);
      match es[|es| - 1]
      case Skipped => p
      case SpecLine(w) => p.(specs := AddSpec(p.specs, w))
      case OpLine(op) => p.(ops := p.ops + [op])
  }

  function ParseConfig(lines: seq<string>): Parsed {
    Collect(Entries(lines))
  }

  /** The `for line in f` loop of `parse_config`, over the lines the file delivers. */
  method ReadConfig(lines: seq<string>) returns (specs: Specs, ops: seq<string>)
    ensures Parsed(specs, ops) == ParseConfig(lines)
  {
    specs, ops := map[], [];
    var i := 0;
    while i < |lines|
      invariant 0 <= i <= |lines|
      invariant Parsed(specs, ops) == Collect(Entries(lines)[..i])
    {
      assert Entries(lines)[..i + 1][..i] == Entries(lines)[..i];
      var line := Strip(lines[i]);
      if line == [] || line[0] == '#' {
      } else if IsSpecText(line) {
        var keyval := Words(line[3..]);
        if keyval != [] {
          specs := specs[keyval[0] := if |keyval| > 1 then Word(keyval[1]) else Flag];
        }
      } else {
        ops := ops + [line];
      }
      i := i + 1;
    }
    assert Entries(lines)[..i] == Entries(lines);
  }

  /** A non-empty string that starts with a non-space character has a first token. */
  lemma TokenizeStarts(s: string)
    requires s != [] && !IsSpace(s[0])
    ensures Tokenize(s) != [] && Tokenize(s)[0] == s[..MatchLength(s)]
  {
  }

  /** Every collected op is the text of one of the op entries. */
  lemma {:induction false} OpsFromEntries(es: seq<Entry>)
    ensures forall k | 0 <= k < |Collect(es).ops| :: exists j | 0 <= j < |es| :: es[j] == OpLine(Collect(es).ops[k])
    decreases |es|
  {
    if es != [] {
      var init := es[..|es| - 1];
      OpsFromEntries(init);
      var before := Collect(init).ops;
      var ops := Collect(es).ops;
      var last := es[|es| - 1];
      assert ops == if last.OpLine? then before + [last.op] else before;
      forall k | 0 <= k < |ops| ensures exists j | 0 <= j < |es| :: es[j] == OpLine(ops[k]) {
        if k < |before| {
          assert ops[k] == before[k];
          var j :| 0 <= j < |init| && init[j] == OpLine(before[k]);
          assert es[j] == init[j];
        } else {
          assert es[|es| - 1] == OpLine(ops[k]);
        }
      }
      assert forall k | 0 <= k < |ops| :: exists j | 0 <= j < |es| :: es[j] == OpLine(ops[k]);
    } else {
      assert Collect(es).ops == [];
    }
  }

  /** What an op entry of the file holds. */
  lemma OpEntry(lines: seq<string>, op: string)
    requires exists j | 0 <= j < |lines| :: Entries(lines)[j] == OpLine(op)
    ensures (exists j | 0 <= j < |lines| :: op == Strip(lines[j]))
    ensures op != [] && op[0] != '#' && !IsSpecText(op) && Tokenize(op) != []
  {
    var j :| 0 <= j < |lines| && Entries(lines)[j] == OpLine(op);
    assert Classify(lines[j]) == OpLine(op);
    TokenizeStarts(op);
  }

  /**
   * Every op line is one of the file's lines stripped, is not a comment or a spec, and has a
   * first token, so `tokens[0]` in the op loop never raises.
   */
  lemma OpsHaveCommands(lines: seq<string>)
    ensures forall k | 0 <= k < |ParseConfig(lines).ops| ::
              && (exists j | 0 <= j < |lines| :: ParseConfig(lines).ops[k] == Strip(lines[j]))
              && ParseConfig(lines).ops[k] != []
              && ParseConfig(lines).ops[k][0] != '#' && !IsSpecText(ParseConfig(lines).ops[k])
              && Tokenize(ParseConfig(lines).ops[k]) != []
  {
    var ops := ParseConfig(lines).ops;
    OpsFromEntries(Entries(lines));
    forall k | 0 <= k < |ops|
      ensures (exists j | 0 <= j < |lines| :: ops[k] == Strip(lines[j]))
      ensures ops[k] != [] && ops[k][0] != '#' && !IsSpecText(ops[k]) && Tokenize(ops[k]) != []
    {
      OpEntry(lines, ops[k]);
    }
  }

  /** A last entry that does not name `key` leaves the spec for `key` as it was. */
  lemma OtherEntryKeepsSpec(es: seq<Entry>, key: string)
    requires es != [] && !Names(es[|es| - 1], key)
    ensures var before := Collect(es[..|es| - 1]).specs;
            var after := Collect(es).specs;
            (key in after <==> key in before) && (key in after ==> after[key] == before[key])
  {
  }

  /** A key is in the specs exactly when some spec line names it. */
  lemma {:induction false} SpecPresent(es: seq<Entry>, key: string)
    ensures key in Collect(es).specs <==> exists j | 0 <= j < |es| :: Names(es[j], key)
    decreases |es|
  {
    if es != [] {
      var init := es[..|es| - 1];
      SpecPresent(init, key);
      if !Names(es[|es| - 1], key) {
        OtherEntryKeepsSpec(es, key);
        if exists j | 0 <= j < |es| :: Names(es[j], key) {
          var j :| 0 <= j < |es| && Names(es[j], key);
          assert es[j] == init[j];
        }
        forall j | 0 <= j < |init| ensures es[j] == init[j] {
        }
      }
    }
  }

  /** The value of a key is the one stored by the last spec line that names it. */
  lemma {:induction false} SpecFromLast(es: seq<Entry>, key: string)
    requires key in Collect(es).specs
    ensures exists j | 0 <= j < |es| ::
              && Names(es[j], key) && Collect(es).specs[key] == SpecOf(es[j].words)
              && forall m | j < m < |es| :: !Names(es[m], key)
    decreases |es|
  {
    var init := es[..|es| - 1];
    var last := |es| - 1;
    if !Names(es[last], key) {
      OtherEntryKeepsSpec(es, key);
      SpecFromLast(init, key);
      var j :| 0 <= j < |init| && Names(init[j], key) && Collect(init).specs[key] == SpecOf(init[j].words)
               && forall m | j < m < |init| :: !Names(init[m], key);
      assert es[j] == init[j];
      forall m | j < m < |es| ensures !Names(es[m], key) {
        if m < last {
          assert es[m] == init[m];
        }
      }
    }
  }

  /**
   * A key is in the specs exactly when some `in` line of the file names it, and then its
   * value is the one the last such line stores.
   */
  lemma SpecFromLastLine(lines: seq<string>, key: string)
    ensures key in ParseConfig(lines).specs <==>
              exists j | 0 <= j < |lines| :: Names(Entries(lines)[j], key)
    ensures key in ParseConfig(lines).specs ==>
              exists j | 0 <= j < |lines| ::
                && Names(Entries(lines)[j], key)
                && ParseConfig(lines).specs[key] == SpecOf(Entries(lines)[j].words)
                && forall m | j < m < |lines| :: !Names(Entries(lines)[m], key)
  {
    SpecPresent(Entries(lines), key);
    if key in ParseConfig(lines).specs {
      SpecFromLast(Entries(lines), key);
    }
  }

  /** The line is a spec line whose first word is `key`. */
  predicate Names(e: Entry, key: string) {
    e.SpecLine? && e.words != [] && e.words[0] == key
  }

  /** `in key value`, with a word for each, is a spec line whose words are exactly key and value. */
  lemma SpecLineWords(key: string, value: string)
    requires IsWord(key) && IsWord(value)
    ensures Classify("in " + key + " " + value) == SpecLine([key, value])
  {
    var sp := " ";
    assert IsBlank(sp);
    WordsTwo(key, sp, value);
    ClassifySpec(key + sp + value);
    RegroupAfter("in ", key, sp, value);
  }

  lemma RegroupAfter(p: string, a: string, b: string, c: string)
    ensures p + a + b + c == p + (a + b + c)
  {
  }
  /** A bare `in key` is a spec line with the single word key, which stores `True`. */
  lemma SpecLineBare(key: string)
    requires IsWord(key)
    ensures Classify("in " + key) == SpecLine([key])
  {
    WordsCons([], key, []);
    assert [] + key + [] == key;
    ClassifySpec(key);
  }

  /** `in ` followed by text that starts and ends with a non-space is a spec line on that text. */
  lemma ClassifySpec(body: string)
    requires body != [] && !IsSpace(body[0]) && !IsSpace(body[|body| - 1])
    ensures Classify("in " + body) == SpecLine(Words(body))
  {
    var raw := "in " + body;
    SpecShape(body, raw);
    StripKeeps(raw, IsSpace);
  }

  lemma SpecShape(body: string, raw: string)
    requires body != [] && raw == "in " + body
    ensures raw[0] == 'i' && raw[..3] == "in " && raw[3..] == body && raw[|raw| - 1] == body[|body| - 1]
  {
  }

  /**
   * `in` followed by a tab is not a spec line: after stripping it starts with `in\t`, not
   * `in `, so it reaches the op loop as an op whose command token is `in`.
   */
  lemma InWithTabIsOp(rest: string)
    requires rest != [] && !IsSpace(rest[|rest| - 1])
    ensures Classify("in\t" + rest) == OpLine("in\t" + rest)
    ensures Tokenize("in\t" + rest) != [] && Tokenize("in\t" + rest)[0] == "in"
  {
    var raw := "in\t" + rest;
    InTabShape(rest, raw);
    StripKeeps(raw, IsSpace);
    assert !IsSpecText(raw) by {
      assert raw[..3][2] == '\t';
    }
    InTabToken(raw);
  }

  lemma InTabShape(rest: string, raw: string)
    requires rest != [] && raw == "in\t" + rest
    ensures |raw| > 3 && raw[0] == 'i' && raw[1] == 'n' && raw[2] == '\t' && raw[|raw| - 1] == rest[|rest| - 1]
  {
  }

  lemma InTabToken(raw: string)
    requires |raw| > 3 && raw[0] == 'i' && raw[1] == 'n' && raw[2] == '\t'
    ensures Tokenize(raw) != [] && Tokenize(raw)[0] == "in"
  {
    RunIs(raw, IsNonSpace, 2);
    TokenizeStarts(raw);
    assert raw[..2] == "in";
  }
}
