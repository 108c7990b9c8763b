/**
 * csv.py, the earlier draft of the engine: `parse_col` raises instead of returning None and
 * does no bounds check, `keep_cols` starts as every column and `use` only ever adds to it,
 * `rn` records renames in a dict that is applied after the op loop, and the output is the
 * kept columns of the renamed header and of each row. A raised exception is `Err`.
 */
module Draft {
  import opened Wrappers
  import opened Text
  import opened Lists
  import ColRef

  /** The exceptions the draft raises. */
  datatype Failure =
    | BadColumnSpec(ref: string)    // a reference without `@`
    | NameNotFound(name: string)    // `@"Name"` for a name the header lacks
    | NotANumber(text: string)      // `int()` rejects the reference body
    | MissingToken                  // `tokens[0]` or `tokens[1]` of too few tokens
    | OutOfRange(index: int)        // `colnames[idx]` or `row[i]` past either end

  /** `parse_col(ref, header)` of csv.py. */
  function ParseCol(ref: string, header: seq<string>): (r: Result<int, Failure>)
    ensures r.Ok? ==> |ref| >= 1 && ref[0] == '@'
  {
    if |ref| == 0 || ref[0] != '@' then Err(BadColumnSpec(ref))
    else
      var body := ref[1..];
      if ColRef.IsQuotedBody(body) then
        match IndexOf(header, ColRef.QuotedName(body))
        case Some(i) => Ok(i)
        case None => Err(NameNotFound(ColRef.QuotedName(body)))
      else
        match ParseInt(body)
        case Some(i) => Ok(i)
        case None => Err(NotANumber(body))
  }

  /** `@"Name"` gives the first position of Name, and raises when the header lacks it. */
  lemma ParseColByName(name: string, header: seq<string>)
    ensures name in header ==>
              && ParseCol(ColRef.NameRef(name), header).Ok?
              && var i := ParseCol(ColRef.NameRef(name), header).value;
                 0 <= i < |header| && header[i] == name && forall j | 0 <= j < i :: header[j] != name
    ensures name !in header ==> ParseCol(ColRef.NameRef(name), header) == Err(NameNotFound(name))
  {
    var body := ColRef.NameRef(name)[1..];
    assert body == "\"" + name + "\"";
    assert ColRef.QuotedName(body) == name;
  }

  /** `@N` gives N whatever the header's length: the draft does no bounds check. */
  lemma ParseColNoBound(i: nat, header: seq<string>)
    ensures ParseCol(ColRef.PosRef(i), header) == Ok(i)
  {
    var body := ColRef.PosRef(i)[1..];
    assert body == NatToString(i);
    assert !ColRef.IsQuotedBody(body) by {
      assert IsDigit(body[0]);
    }
    ParseIntOfString(i);
  }

  /** A reference without `@` raises. */
  lemma ParseColNeedsMarker(ref: string, header: seq<string>)
    requires |ref| == 0 || ref[0] != '@'
    ensures ParseCol(ref, header) == Err(BadColumnSpec(ref))
  {
  }

  /** `xs[i]` with Python's indexing from the end for negative `i`; `None` is `IndexError`. */
  function PyIndex(n: nat, i: int): (r: Option<nat>)
    ensures r.Some? ==> r.value < n && (r.value == i || r.value == i + n)
    ensures r.None? <==> i >= n || i + n < 0
  {
    if 0 <= i < n then Some(i) else if 0 <= i + n < n then Some(i + n) else None
  }

  /** One line of the draft's configuration: the opcode and the rest of the line. */
  datatype Op = Op(opcode: string, args: string)

  /**
   * `re.split(r'\s+', line, maxsplit=1)` on a stripped line: the first word, and what follows
   * the whitespace after it, or `""` when the line is one word.
   */
  function SplitOpcode(line: string): Op {
    var n := LeadingRun(line, IsNonSpace);
    if n == |line| then Op(line, "")
    else Op(line[..n], line[n + LeadingRun(line[n..], IsSpace)..])
  }

  /**
   * A non-empty line with no whitespace at either end splits into a non-empty opcode without
   * whitespace, then a run of whitespace and the remainder; with no whitespace the remainder
   * is `""`.
   */
  lemma SplitOpcodeOf(line: string)
    requires line != [] && !IsSpace(line[0]) && !IsSpace(line[|line| - 1])
    ensures var op := SplitOpcode(line);
            && IsWord(op.opcode)
            && (op.args == [] ==> op.opcode == line)
            && (op.args != [] ==>
                  && !IsSpace(op.args[0])
                  && exists sep :: IsBlank(sep) && line == op.opcode + sep + op.args)
  {
    var n := LeadingRun(line, IsNonSpace);
    var op := SplitOpcode(line);
    assert n >= 1;
    assert IsWord(line[..n]);
    if n == |line| {
      assert op == Op(line, "");
      assert line[..n] == line;
    } else {
      SplitOpcodeTwoParts(line, n);
    }
  }

  lemma SplitOpcodeTwoParts(line: string, n: nat)
    requires n == LeadingRun(line, IsNonSpace) && n < |line| && !IsSpace(line[|line| - 1])
    ensures var op := SplitOpcode(line);
            && op.opcode == line[..n] && op.args != [] && !IsSpace(op.args[0])
            && exists sep :: IsBlank(sep) && line == op.opcode + sep + op.args
  {
    var m := LeadingRun(line[n..], IsSpace);
    SpaceRunInside(line, n, m);
    SplitOpcodeIs(line, n, m);
    var op := SplitOpcode(line);
    var sep := line[n..n + m];
    ThreeSlices(line, n, n + m);
    assert op.args[0] == line[n + m];
    assert IsBlank(sep) && line == op.opcode + sep + op.args;
  }

  lemma SplitOpcodeIs(line: string, n: nat, m: nat)
    requires n == LeadingRun(line, IsNonSpace) && n < |line|
    requires m == LeadingRun(line[n..], IsSpace) && n + m <= |line|
    ensures SplitOpcode(line) == Op(line[..n], line[n + m..])
  {
  }

  /** The whitespace after the opcode is non-empty and stops before the line's last character. */
  lemma SpaceRunInside(line: string, n: nat, m: nat)
    requires n < |line| && IsSpace(line[n]) && !IsSpace(line[|line| - 1]) && m == LeadingRun(line[n..], IsSpace)
    ensures 1 <= m && n + m < |line| && !IsSpace(line[n + m])
    ensures IsBlank(line[n..n + m])
  {
    var rest := line[n..];
    assert rest[0] == line[n];
    assert rest[|rest| - 1] == line[|line| - 1];
    assert line[n..n + m] == rest[..m];
    if n + m < |line| {
      assert line[n + m] == rest[m];
    }
  }

  lemma ThreeSlices<T>(xs: seq<T>, a: nat, b: nat)
    requires a <= b <= |xs|
    ensures xs == xs[..a] + xs[a..b] + xs[b..]
  {
  }

  /** What `parse_config` of csv.py stores for a line that is neither blank nor a comment. */
  lemma SplitOpcodeRejoins(raw: string)
    requires Strip(raw) != []
    ensures var line := Strip(raw);
            var op := SplitOpcode(line);
            && IsWord(op.opcode)
            && (op.args == [] ==> op.opcode == line)
            && (op.args != [] ==>
                  && !IsSpace(op.args[0])
                  && exists sep :: IsBlank(sep) && line == op.opcode + sep + op.args)
  {
    SplitOpcodeOf(Strip(raw));
  }

  /** The lines of the draft's configuration: stripped, with blank and `#` lines skipped. */
  function DraftConfig(lines: seq<string>): (ops: seq<Op>)
    decreases |lines|
  {
    if lines == [] then []
    else
      var line := Strip(lines[|lines| - 1]);
      DraftConfig(lines[..|lines| - 1]) + (if line == [] || line[0] == '#' then [] else [SplitOpcode(line)])
  }

  /** Alternative `@[^\s]+` of the `rn` pattern matches at the start of `s`. */
  predicate AtRef(s: string) {
    |s| >= 2 && s[0] == '@' && !IsSpace(s[1])
  }

  /** Alternative `"[^"]+"` of the `rn` pattern matches at the start of `s`. */
  predicate AtQuoted(s: string) {
    |s| >= 3 && s[0] == '"' && var k := LeadingRun(s[1..], IsNotQuote); k >= 1 && 1 + k < |s|
  }

  predicate IsNotQuote(c: char) {
    !IsQuote(c)
  }

  /** `re.findall(r'@[^\s]+|"[^"]+"', argstr)`. */
  function RnTokens(s: string): (ts: seq<string>)
    ensures forall k | 0 <= k < |ts| :: |ts[k]| >= 2 && (ts[k][0] == '@' || ts[k][0] == '"')
    decreases |s|
  {
    if s == [] then []
    else if AtRef(s) then
      var n := 1 + LeadingRun(s[1..], IsNonSpace);
      [s[..n]] + RnTokens(s[n..])
    else if AtQuoted(s) then
      var n := 2 + LeadingRun(s[1..], IsNotQuote);
      [s[..n]] + RnTokens(s[n..])
    else RnTokens(s[1..])
  }

  /** The dict `renames`: its entries in insertion order, each key once. */
  type Renames = seq<(int, string)>

  predicate DistinctKeys(d: Renames) {
    forall i, j | 0 <= i < j < |d| :: d[i].0 != d[j].0
  }

  /** `d[k]`, or None when `k` is not a key. */
  function Lookup(d: Renames, k: int): Option<string>
    decreases |d|
  {
    if d == [] then None else if d[0].0 == k then Some(d[0].1) else Lookup(d[1..], k)
  }

  /** `d[k] = v`: an existing key keeps its place, a new key goes last. */
  function Put(d: Renames, k: int, v: string): (r: Renames)
    ensures |r| == |d| || |r| == |d| + 1
    decreases |d|
  {
    if d == [] then [(k, v)]
    else if d[0].0 == k then [(k, v)] + d[1..]
    else [d[0]] + Put(d[1..], k, v)
  }

  /** After `d[k] = v`, `d[k]` is v and every other key keeps its value. */
  lemma {:induction false} PutLookup(d: Renames, k: int, v: string, j: int)
    ensures Lookup(Put(d, k, v), j) == if j == k then Some(v) else Lookup(d, j)
    decreases |d|
  {
    if d != [] && d[0].0 != k {
      PutLookup(d[1..], k, v, j);
      assert Put(d, k, v)[1..] == Put(d[1..], k, v);
    }
  }

  /** `x` is a key of `d`. */
  predicate HasKey(d: Renames, x: int) {
    exists j | 0 <= j < |d| :: d[j].0 == x
  }

  /** The keys of `d` after `d[k] = v` are the keys before and k, still each once. */
  lemma {:induction false} PutKeys(d: Renames, k: int, v: string)
    requires DistinctKeys(d)
    ensures DistinctKeys(Put(d, k, v))
    ensures forall i | 0 <= i < |Put(d, k, v)| :: Put(d, k, v)[i].0 == k || HasKey(d, Put(d, k, v)[i].0)
    decreases |d|
  {
    if d != [] && d[0].0 != k {
      PutKeys(d[1..], k, v);
      PutKeysStep(d, k, Put(d[1..], k, v));
    } else if d != [] {
      var r := Put(d, k, v);
      forall i | 1 <= i < |r| ensures HasKey(d, r[i].0) {
        assert r[i] == d[i];
      }
    }
  }

  /** Putting `d[0]` back in front of the updated tail keeps the keys distinct and known. */
  lemma PutKeysStep(d: Renames, k: int, t: Renames)
    requires d != [] && d[0].0 != k && DistinctKeys(d)
    requires DistinctKeys(t) && forall i | 0 <= i < |t| :: t[i].0 == k || HasKey(d[1..], t[i].0)
    ensures DistinctKeys([d[0]] + t)
    ensures forall i | 0 <= i < |[d[0]] + t| :: ([d[0]] + t)[i].0 == k || HasKey(d, ([d[0]] + t)[i].0)
  {
    var r := [d[0]] + t;
    forall i | 0 <= i < |t| ensures t[i].0 != d[0].0 && (t[i].0 == k || HasKey(d, t[i].0)) {
      if t[i].0 != k {
        var j :| 0 <= j < |d[1..]| && d[1..][j].0 == t[i].0;
        assert d[j + 1].0 == t[i].0;
      }
    }
    forall i | 1 <= i < |r| ensures r[i] == t[i - 1] {
    }
  }

  /** Two assignments to the same key leave only the later value. */
  lemma {:induction false} PutOverwrites(d: Renames, k: int, a: string, b: string)
    ensures Put(Put(d, k, a), k, b) == Put(d, k, b)
    decreases |d|
  {
    if d != [] && d[0].0 != k {
      PutOverwrites(d[1..], k, a, b);
    }
  }

  /** The state the draft's op loop threads: `keep_cols` and `renames`. */
  datatype DraftState = DraftState(keep: seq<int>, renames: Renames)

  /** `range(n)` as a list of ints. */
  function AllIndices(n: nat): (r: seq<int>)
    ensures |r| == n && forall i | 0 <= i < n :: r[i] == i
  {
    seq(n, i requires 0 <= i < n => i)
  }

  /**
   * `[idx] if not keep_cols else keep_cols + [idx] if idx not in keep_cols else keep_cols`:
   * idx is kept, nothing already kept is lost or moved, and nothing is kept twice.
   */
  function Keep(keep: seq<int>, idx: int): (r: seq<int>)
    ensures idx in r && forall x :: x in r <==> x in keep || x == idx
    ensures |keep| <= |r| <= |keep| + 1 && r[..|keep|] == keep
    ensures idx in keep ==> r == keep
  {
    if keep == [] then [idx] else if idx !in keep then keep + [idx] else keep
  }

  /** One op of the loop; opcodes other than `use` and `rn` are ignored. */
  function DoOp(header: seq<string>, s: DraftState, op: Op): Result<DraftState, Failure> {
    if op.opcode == "use" then
      var tokens := Words(op.args);
      if tokens == [] then Err(MissingToken)
      else match ParseCol(tokens[0], header)
        case Err(e) => Err(e)
        case Ok(idx) => Ok(s.(keep := Keep(s.keep, idx)))
    else if op.opcode == "rn" then
      var tokens := RnTokens(op.args);
      if tokens == [] then Err(MissingToken)
      else match ParseCol(tokens[0], header)
        case Err(e) => Err(e)
        case Ok(idx) =>
          if |tokens| < 2 then Err(MissingToken)
          else Ok(s.(renames := Put(s.renames, idx, StripQuotes(tokens[1]))))
    else Ok(s)
  }

  /** The op loop: every lookup is against the header as read, never a renamed one. */
  function RunOps(header: seq<string>, ops: seq<Op>): Result<DraftState, Failure>
    decreases |ops|
  {
    if ops == [] then Ok(DraftState(AllIndices(|header|), []))
    else match RunOps(header, ops[..|ops| - 1])
      case Err(e) => Err(e)
      case Ok(s) => DoOp(header, s, ops[|ops| - 1])
  }

  /** `for idx, newname in renames.items(): colnames[idx] = newname`, in insertion order. */
  function ApplyRenames(names: seq<string>, d: Renames): (r: Result<seq<string>, Failure>)
    ensures r.Ok? ==> |r.value| == |names|
    decreases |d|
  {
    if d == [] then Ok(names)
    else match PyIndex(|names|, d[0].0)
      case None => Err(OutOfRange(d[0].0))
      case Some(i) => ApplyRenames(names[i := d[0].1], d[1..])
  }

  /** `[xs[i] for i in keep]`; the first index out of range raises. */
  function Select(xs: seq<string>, keep: seq<int>): (r: Result<seq<string>, Failure>)
    ensures r.Ok? ==> |r.value| == |keep|
    decreases |keep|
  {
    if keep == [] then Ok([])
    else match PyIndex(|xs|, keep[0])
      case None => Err(OutOfRange(keep[0]))
      case Some(i) =>
        match Select(xs, keep[1..])
        case Err(e) => Err(e)
        case Ok(rest) => Ok([xs[i]] + rest)
  }

  /**
   * The selection succeeds exactly when every kept index is in range, Python-style, and then
   * holds the element at each kept index in order; otherwise it fails on an out-of-range index.
   */
  lemma {:induction false} SelectSpec(xs: seq<string>, keep: seq<int>)
    ensures var r := Select(xs, keep);
            && (r.Ok? <==> forall j | 0 <= j < |keep| :: PyIndex(|xs|, keep[j]).Some?)
            && (r.Ok? ==> forall j | 0 <= j < |keep| :: r.value[j] == xs[PyIndex(|xs|, keep[j]).value])
            && (r.Err? ==> exists j | 0 <= j < |keep| :: PyIndex(|xs|, keep[j]).None? && r.error == OutOfRange(keep[j]))
    decreases |keep|
  {
    if keep != [] {
      var rest := keep[1..];
      SelectSpec(xs, rest);
      assert forall j | 1 <= j < |keep| :: keep[j] == rest[j - 1];
      var r := Select(xs, keep);
      match PyIndex(|xs|, keep[0])
      case None =>
      case Some(i) =>
        var tail := Select(xs, rest);
        if tail.Err? {
          var j :| 0 <= j < |rest| && PyIndex(|xs|, rest[j]).None? && tail.error == OutOfRange(rest[j]);
          assert keep[j + 1] == rest[j];
        } else {
          assert r.value == [xs[i]] + tail.value;
        }
    }
  }

  /** `apply_ops`: the output header, and the positions each row is projected onto. */
  function ApplyOps(header: seq<string>, ops: seq<Op>): Result<(seq<string>, seq<int>), Failure> {
    match RunOps(header, ops)
    case Err(e) => Err(e)
    case Ok(s) =>
      match ApplyRenames(header, s.renames)
      case Err(e) => Err(e)
      case Ok(names) =>
        match Select(names, s.keep)
        case Err(e) => Err(e)
        case Ok(out) => Ok((out, s.keep))
  }

  /** What `process_csv` writes before it ends, and the exception that ended it, if any. */
  datatype Written = Written(lines: seq<seq<string>>, failure: Option<Failure>)

  /** The rows the generator yields, until a row too short for a kept position raises. */
  function WriteRows(rows: seq<seq<string>>, keep: seq<int>): Written
    decreases |rows|
  {
    if rows == [] then Written([], None)
    else match Select(rows[0], keep)
      case Err(e) => Written([], Some(e))
      case Ok(line) =>
        var rest := WriteRows(rows[1..], keep);
        Written([line] + rest.lines, rest.failure)
  }

  /**
   * The generator yields the selection of each row, in order, until the first row that lacks
   * a kept position; that row's `IndexError` ends the run and nothing after it is written.
   */
  lemma {:induction false} WriteRowsStops(rows: seq<seq<string>>, keep: seq<int>)
    ensures var w := WriteRows(rows, keep);
            && |w.lines| <= |rows|
            && (forall k | 0 <= k < |w.lines| :: Select(rows[k], keep) == Ok(w.lines[k]))
            && (w.failure.None? <==> |w.lines| == |rows|)
            && (w.failure.Some? ==> Select(rows[|w.lines|], keep) == Err(w.failure.value))
    decreases |rows|
  {
    if rows != [] && Select(rows[0], keep).Ok? {
      WriteRowsStops(rows[1..], keep);
      var w := WriteRows(rows, keep);
      var rest := WriteRows(rows[1..], keep);
      assert w.lines == [Select(rows[0], keep).value] + rest.lines;
      forall k | 1 <= k < |w.lines| ensures Select(rows[k], keep) == Ok(w.lines[k]) {
        assert rows[k] == rows[1..][k - 1];
      }
      if w.failure.Some? {
        assert rows[|w.lines|] == rows[1..][|rest.lines|];
      }
    }
  }

  /** `process_csv` of csv.py for one file: the header line, then the rows. */
  function Process(header: seq<string>, rows: seq<seq<string>>, ops: seq<Op>): Written {
    match ApplyOps(header, ops)
    case Err(e) => Written([], Some(e))
    case Ok((out, keep)) =>
      var body := WriteRows(rows, keep);
      Written([out] + body.lines, body.failure)
  }

  /** The op loop of `apply_ops`, stopping at the first op that raises. */
  method RunOpsLoop(header: seq<string>, ops: seq<Op>) returns (r: Result<DraftState, Failure>)
    ensures r == RunOps(header, ops)
  {
    var s := DraftState(AllIndices(|header|), []);
    var i := 0;
    while i < |ops|
      invariant 0 <= i <= |ops|
      invariant RunOps(header, ops[..i]) == Ok(s)
    {
      assert ops[..i + 1][..i] == ops[..i];
      var next := DoOp(header, s, ops[i]);
      if next.Err? {
        RunOpsStops(header, ops, i + 1);
        return next;
      }
      s := next.value;
      i := i + 1;
    }
    assert ops[..i] == ops;
    return Ok(s);
  }

  /** `for idx, newname in renames.items(): colnames[idx] = newname`. */
  method RenameLoop(names: seq<string>, d: Renames) returns (r: Result<seq<string>, Failure>)
    ensures r == ApplyRenames(names, d)
  {
    var colnames := names;
    var j := 0;
    assert d[j..] == d;
    while j < |d|
      invariant 0 <= j <= |d| && |colnames| == |names|
      invariant ApplyRenames(names, d) == ApplyRenames(colnames, d[j..])
    {
      assert d[j..][1..] == d[j + 1..];
      var idx := PyIndex(|colnames|, d[j].0);
      if idx.None? {
        return Err(OutOfRange(d[j].0));
      }
      colnames := colnames[idx.value := d[j].1];
      j := j + 1;
    }
    return Ok(colnames);
  }

  /** `out` put in front of the selection `r`, unless `r` raised. */
  function Prefixed(out: seq<string>, r: Result<seq<string>, Failure>): Result<seq<string>, Failure> {
    match r
    case Err(e) => Err(e)
    case Ok(rest) => Ok(out + rest)
  }

  /** `[xs[i] for i in keep]`, one index at a time. */
  method SelectLoop(xs: seq<string>, keep: seq<int>) returns (r: Result<seq<string>, Failure>)
    ensures r == Select(xs, keep)
  {
    var out: seq<string> := [];
    var k := 0;
    PrefixedNothing(Select(xs, keep));
    assert keep[k..] == keep;
    while k < |keep|
      invariant 0 <= k <= |keep|
      invariant Select(xs, keep) == Prefixed(out, Select(xs, keep[k..]))
    {
      SelectFrom(xs, keep, k);
      var idx := PyIndex(|xs|, keep[k]);
      if idx.None? {
        return Err(OutOfRange(keep[k]));
      }
      PrefixedMore(out, xs[idx.value], Select(xs, keep[k + 1..]));
      out := out + [xs[idx.value]];
      k := k + 1;
    }
    assert keep[k..] == [];
    assert out + [] == out;
    return Ok(out);
  }

  lemma PrefixedNothing(r: Result<seq<string>, Failure>)
    ensures Prefixed([], r) == r
  {
    if r.Ok? {
      assert [] + r.value == r.value;
    }
  }

  lemma PrefixedMore(out: seq<string>, x: string, r: Result<seq<string>, Failure>)
    ensures Prefixed(out, Prefixed([x], r)) == Prefixed(out + [x], r)
  {
    if r.Ok? {
      assert out + ([x] + r.value) == (out + [x]) + r.value;
    }
  }

  /** The selection from position k on: that index, then the rest. */
  lemma SelectFrom(xs: seq<string>, keep: seq<int>, k: nat)
    requires k < |keep|
    ensures Select(xs, keep[k..]) == match PyIndex(|xs|, keep[k])
              case None => Err(OutOfRange(keep[k]))
              case Some(i) => Prefixed([xs[i]], Select(xs, keep[k + 1..]))
  {
    assert keep[k..][0] == keep[k] && keep[k..][1..] == keep[k + 1..];
  }

  /** `apply_ops` as the draft runs it: the op loop, then the renames, then the header. */
  method ApplyOpsLoop(header: seq<string>, ops: seq<Op>) returns (r: Result<(seq<string>, seq<int>), Failure>)
    ensures r == ApplyOps(header, ops)
  {
    var s := RunOpsLoop(header, ops);
    if s.Err? {
      return Err(s.error);
    }
    var colnames := RenameLoop(header, s.value.renames);
    if colnames.Err? {
      return Err(colnames.error);
    }
    var out := SelectLoop(colnames.value, s.value.keep);
    if out.Err? {
      return Err(out.error);
    }
    return Ok((out.value, s.value.keep));
  }

  /** Once the op loop raises, it stays raised. */
  lemma {:induction false} RunOpsStops(header: seq<string>, ops: seq<Op>, i: nat)
    requires i <= |ops| && RunOps(header, ops[..i]).Err?
    ensures RunOps(header, ops) == RunOps(header, ops[..i])
    decreases |ops| - i
  {
    if i < |ops| {
      assert ops[..i + 1][..i] == ops[..i];
      RunOpsStops(header, ops, i + 1);
    } else {
      assert ops[..i] == ops;
    }
  }

  /**
   * `use` never narrows the output: `keep_cols` starts as every column, and every column of
   * the header stays kept, in header order, ahead of whatever `use` adds.
   */
  lemma {:induction false} KeepStartsAll(header: seq<string>, ops: seq<Op>)
    requires RunOps(header, ops).Ok?
    ensures var keep := RunOps(header, ops).value.keep;
            |keep| >= |header| && keep[..|header|] == AllIndices(|header|)
    decreases |ops|
  {
    if ops != [] {
      KeepStartsAll(header, ops[..|ops| - 1]);
      var s := RunOps(header, ops[..|ops| - 1]).value;
      var op := ops[|ops| - 1];
      if op.opcode == "use" {
        var idx := ParseCol(Words(op.args)[0], header).value;
        assert Keep(s.keep, idx)[..|s.keep|] == s.keep;
        assert Keep(s.keep, idx)[..|header|] == s.keep[..|header|];
      }
    }
  }


  /** The `for row in out_rows: writer.writerow(row)` loop, driving the generator. */
  method WriteLoop(rows: seq<seq<string>>, keep: seq<int>) returns (w: Written)
    ensures w == WriteRows(rows, keep)
  {
    var lines: seq<seq<string>> := [];
    var i := 0;
    assert rows[i..] == rows;
    while i < |rows|
      invariant 0 <= i <= |rows|
      invariant WriteRows(rows, keep) == Written(lines + WriteRows(rows[i..], keep).lines, WriteRows(rows[i..], keep).failure)
    {
      assert rows[i..][1..] == rows[i + 1..];
      var row := SelectLoop(rows[i], keep);
      if row.Err? {
        assert lines + [] == lines;
        return Written(lines, Some(row.error));
      }
      assert lines + ([row.value] + WriteRows(rows[i + 1..], keep).lines) == (lines + [row.value]) + WriteRows(rows[i + 1..], keep).lines;
      lines := lines + [row.value];
      i := i + 1;
    }
    assert lines + [] == lines;
    return Written(lines, None);
  }

  /** `process_csv`: the header line is written, then each row the generator yields. */
  method ProcessCsv(header: seq<string>, rows: seq<seq<string>>, ops: seq<Op>) returns (w: Written)
    ensures w == Process(header, rows, ops)
  {
    var applied := ApplyOpsLoop(header, ops);
    if applied.Err? {
      return Written([], Some(applied.error));
    }
    var body := WriteLoop(rows, applied.value.1);
    return Written([applied.value.0] + body.lines, body.failure);
  }

  /** The `for line in f` loop of `parse_config` in csv.py. */
  method ReadDraftConfig(lines: seq<string>) returns (ops: seq<Op>)
    ensures ops == DraftConfig(lines)
  {
    ops := [];
    var i := 0;
    while i < |lines|
      invariant 0 <= i <= |lines|
      invariant ops == DraftConfig(lines[..i])
    {
      DraftConfigNext(lines, i);
      var line := Strip(lines[i]);
      if line != [] && line[0] != '#' {
        ops := ops + [SplitOpcode(line)];
      }
      i := i + 1;
    }
    assert lines[..i] == lines;
  }

  /** Reading one more line adds its op, if it has one, at the end. */
  lemma DraftConfigNext(lines: seq<string>, i: nat)
    requires i < |lines|
    ensures var line := Strip(lines[i]);
            DraftConfig(lines[..i + 1])
            == DraftConfig(lines[..i]) + (if line == [] || line[0] == '#' then [] else [SplitOpcode(line)])
  {
    assert lines[..i + 1][..i] == lines[..i];
    assert lines[..i + 1][i] == lines[i];
  }

  /** Every op of the draft's configuration has a non-empty opcode without whitespace. */
  lemma {:induction false} DraftConfigOpcodes(lines: seq<string>)
    ensures forall k | 0 <= k < |DraftConfig(lines)| :: IsWord(DraftConfig(lines)[k].opcode)
    decreases |lines|
  {
    if lines != [] {
      var init := lines[..|lines| - 1];
      DraftConfigOpcodes(init);
      var line := Strip(lines[|lines| - 1]);
      var ops := DraftConfig(lines);
      var before := DraftConfig(init);
      if line == [] || line[0] == '#' {
        assert ops == before;
      } else {
        SplitOpcodeRejoins(lines[|lines| - 1]);
        assert ops == before + [SplitOpcode(line)];
        assert forall k | 0 <= k < |before| :: ops[k] == before[k];
      }
    }
  }

  /**
   * The draft and the final `parse_col` agree wherever the final one resolves, and the draft
   * resolves a reference to a header position exactly when the final one does.
   */
  lemma ParseColAgrees(ref: string, header: seq<string>, i: int)
    ensures ColRef.ParseCol(ref, header) == Some(i) <==> ParseCol(ref, header) == Ok(i) && 0 <= i < |header|
  {
  }

  /** A key no entry holds is not found. */
  lemma {:induction false} LookupAbsent(d: Renames, k: int)
    requires forall j | 0 <= j < |d| :: d[j].0 != k
    ensures Lookup(d, k) == None
    decreases |d|
  {
    if d != [] {
      LookupAbsent(d[1..], k);
    }
  }

  /** The op loop keeps each key of `renames` once. */
  lemma {:induction false} RunOpsDistinct(header: seq<string>, ops: seq<Op>)
    requires RunOps(header, ops).Ok?
    ensures DistinctKeys(RunOps(header, ops).value.renames)
    decreases |ops|
  {
    if ops != [] {
      RunOpsDistinct(header, ops[..|ops| - 1]);
      var s := RunOps(header, ops[..|ops| - 1]).value;
      var op := ops[|ops| - 1];
      if op.opcode == "rn" {
        var tokens := RnTokens(op.args);
        PutKeys(s.renames, ParseCol(tokens[0], header).value, StripQuotes(tokens[1]));
      }
    }
  }

  /**
   * After the renames are applied, a position renamed in the dict carries its new name and
   * any other position keeps its old one, provided no negative key names the same position.
   */
  lemma {:induction false} ApplyRenamesAt(names: seq<string>, d: Renames, k: nat)
    requires DistinctKeys(d) && k < |names| && Lookup(d, k - |names|).None?
    requires ApplyRenames(names, d).Ok?
    ensures ApplyRenames(names, d).value[k] == match Lookup(d, k) case Some(v) => v case None => names[k]
    decreases |d|
  {
    if d != [] {
      var key := d[0].0;
      var i := PyIndex(|names|, key).value;
      var tail := d[1..];
      assert DistinctKeys(tail);
      assert Lookup(tail, k - |names|).None?;
      ApplyRenamesAt(names[i := d[0].1], tail, k);
      if key == k {
        LookupAbsent(tail, k);
      }
    }
  }

  /**
   * A rename is not visible to the ops after it: once `rn` gives a column a new name that the
   * header lacks, `use` of that new name raises.
   */
  lemma RenameNotVisible(header: seq<string>, s: DraftState, rnArgs: string, useArgs: string, was: string, now: string)
    requires was in header && now !in header
    requires RnTokens(rnArgs) == [ColRef.NameRef(was), "\"" + now + "\""]
    requires Words(useArgs) == [ColRef.NameRef(now)]
    ensures DoOp(header, s, Op("rn", rnArgs)).Ok?
    ensures DoOp(header, DoOp(header, s, Op("rn", rnArgs)).value, Op("use", useArgs)) == Err(NameNotFound(now))
  {
    ParseColByName(was, header);
    ParseColByName(now, header);
  }

  /** A second `rn` of the same column replaces the first: the dict holds only the later name. */
  lemma SecondRenameReplaces(header: seq<string>, s: DraftState, args1: string, args2: string)
    requires |RnTokens(args1)| >= 2 && |RnTokens(args2)| >= 2
    requires RnTokens(args1)[0] == RnTokens(args2)[0] && ParseCol(RnTokens(args1)[0], header).Ok?
    ensures DoOp(header, s, Op("rn", args1)).Ok?
    ensures DoOp(header, DoOp(header, s, Op("rn", args1)).value, Op("rn", args2)) == DoOp(header, s, Op("rn", args2))
  {
    var idx := ParseCol(RnTokens(args1)[0], header).value;
    PutOverwrites(s.renames, idx, StripQuotes(RnTokens(args1)[1]), StripQuotes(RnTokens(args2)[1]));
  }

  /** Without a `use` op every column is kept, in header order. */
  lemma {:induction false} NoUseKeepsAll(header: seq<string>, ops: seq<Op>)
    requires forall k | 0 <= k < |ops| :: ops[k].opcode != "use"
    requires RunOps(header, ops).Ok?
    ensures RunOps(header, ops).value.keep == AllIndices(|header|)
    decreases |ops|
  {
    if ops != [] {
      NoUseKeepsAll(header, ops[..|ops| - 1]);
    }
  }

  /** The header line has one field per kept position, and so has every row line written. */
  lemma ProcessWidths(header: seq<string>, rows: seq<seq<string>>, ops: seq<Op>)
    requires ApplyOps(header, ops).Ok?
    ensures var w := Process(header, rows, ops);
            var keep := ApplyOps(header, ops).value.1;
            && |w.lines| >= 1 && w.lines[0] == ApplyOps(header, ops).value.0
            && forall k | 0 <= k < |w.lines| :: |w.lines[k]| == |keep|
  {
    var keep := ApplyOps(header, ops).value.1;
    WriteRowsStops(rows, keep);
    var body := WriteRows(rows, keep);
    var w := Process(header, rows, ops);
    assert w.lines == [ApplyOps(header, ops).value.0] + body.lines;
    forall k | 1 <= k < |w.lines| ensures |w.lines[k]| == |keep| {
      assert w.lines[k] == body.lines[k - 1];
    }
  }
}
