/**
 * Whole runs of `process_csv` on scripts as a user writes them: the lines are tokenized,
 * executed from a fresh table and projected.
 */
module Scenarios {
  import opened Wrappers
  import opened Text
  import opened Lists
  import opened ColRef
  import opened Tokens
  import opened RowWindow
  import opened Engine
  import opened EngineFacts
  import opened OutputFacts

  /** A name that a quoted reference or a quoted literal can carry: no quote, no line break. */
  predicate PlainName(name: string) {
    name != [] && forall k | 0 <= k < |name| :: name[k] != '"' && name[k] != '\n'
  }

  /** The literal `"v"` as a script writes it. */
  function Quoted(v: string): string {
    "\"" + v + "\""
  }

  /** `rn @"c" "n"`. */
  function RenameLine(c: string, n: string): string {
    "rn " + NameRef(c) + " " + Quoted(n)
  }

  /** `use @"a"`. */
  function UseLine(a: string): string {
    "use " + NameRef(a)
  }

  /** `add @i "name"`. */
  function AddLine(i: nat, name: string): string {
    "add " + PosRef(i) + " " + Quoted(name)
  }

  /** A command word followed by a space is one token. */
  lemma CommandToken(w: string, rest: string)
    requires w != [] && w[0] != '@' && w[0] != '"'
    requires forall k | 0 <= k < |w| :: IsNonSpace(w[k])
    ensures Tokenize(w + " " + rest) == [w] + Tokenize(rest)
  {
    var s := w + " " + rest;
    assert s[|w|] == ' ';
    RunIs(s, IsNonSpace, |w|);
    assert s[..|w|] == w;
    TokenStep(s, |w|);
    SpaceStep(s[|w|..]);
    assert s[|w|..][1..] == rest;
  }

  /** `@"name"` is one token, taken by the quoted-name alternative. */
  lemma NameRefToken(name: string, rest: string)
    requires PlainName(name)
    ensures Tokenize(NameRef(name) + rest) == [NameRef(name)] + Tokenize(rest)
  {
    var s := NameRef(name) + rest;
    var n := |name|;
    assert s[2..][..n] == name;
    RunIs(s[2..], IsNotQuote, n);
    assert AtQuotedName(s);
    assert s[..3 + n] == NameRef(name);
    TokenStep(s, 3 + n);
    assert s[3 + n..] == rest;
  }

  /** `@N` followed by a space or the end of the line is one token. */
  lemma PosRefToken(i: nat, rest: string)
    requires rest != [] ==> IsSpace(rest[0])
    ensures Tokenize(PosRef(i) + rest) == [PosRef(i)] + Tokenize(rest)
  {
    var s := PosRef(i) + rest;
    var d := NatToString(i);
    assert s[1..][..|d|] == d;
    RunIs(s[1..], IsDigit, |d|);
    assert s[..1 + |d|] == PosRef(i);
    TokenStep(s, 1 + |d|);
    assert s[1 + |d|..] == rest;
  }

  /** `"v"` is one token, taken by the lazy quoted-literal alternative. */
  lemma LiteralTokenOf(v: string)
    requires PlainName(v)
    ensures Tokenize(Quoted(v)) == [Quoted(v)]
  {
    var s := Quoted(v);
    var n := |v|;
    assert s[2..][..n - 1] == v[1..];
    RunIs(s[2..], IsLiteralChar, n - 1);
    assert AtLiteral(s);
    TokenStep(s, n + 2);
    assert s[n + 2..] == [] && s[..n + 2] == s;
  }

  lemma RenameLineTokens(c: string, n: string)
    requires PlainName(c) && PlainName(n)
    ensures Tokenize(RenameLine(c, n)) == ["rn", NameRef(c), Quoted(n)]
  {
    assert RenameLine(c, n) == "rn" + " " + (NameRef(c) + (" " + Quoted(n)));
    CommandToken("rn", NameRef(c) + (" " + Quoted(n)));
    NameRefToken(c, " " + Quoted(n));
    SpaceStep(" " + Quoted(n));
    assert (" " + Quoted(n))[1..] == Quoted(n);
    LiteralTokenOf(n);
  }

  lemma UseLineTokens(a: string)
    requires PlainName(a)
    ensures Tokenize(UseLine(a)) == ["use", NameRef(a)]
  {
    assert UseLine(a) == "use" + " " + (NameRef(a) + "");
    CommandToken("use", NameRef(a) + "");
    NameRefToken(a, "");
  }

  lemma AddLineTokens(i: nat, name: string)
    requires PlainName(name)
    ensures Tokenize(AddLine(i, name)) == ["add", PosRef(i), Quoted(name)]
  {
    assert AddLine(i, name) == "add" + " " + (PosRef(i) + (" " + Quoted(name)));
    CommandToken("add", PosRef(i) + (" " + Quoted(name)));
    PosRefToken(i, " " + Quoted(name));
    SpaceStep(" " + Quoted(name));
    assert (" " + Quoted(name))[1..] == Quoted(name);
    LiteralTokenOf(name);
  }

  lemma PlainQuoted(v: string)
    requires PlainName(v)
    ensures StripQuotes(Quoted(v)) == v
  {
    StripQuotesOfQuoted(v);
  }

  /** One op line whose tokens are known runs as the step on those tokens. */
  lemma RunLineOf(t: Table, line: string, cmd: string, args: seq<string>, copy: Copy)
    requires Tokenize(line) == [cmd] + args
    ensures RunLine(t, line, copy) == Step(t, cmd, args, copy)
  {
    assert Tokenize(line)[1..] == args;
  }

  lemma RenameStep(t: Table, line: string, c: string, n: string, copy: Copy)
    requires Tokenize(line) == ["rn", NameRef(c), Quoted(n)]
    requires PlainName(n) && |t.header| == 3 && t.header[2] == c && t.header[0] != c && t.header[1] != c
    ensures RunLine(t, line, copy) == Some(t.(header := t.header[2 := n]))
  {
    var args := [NameRef(c), Quoted(n)];
    RunLineOf(t, line, "rn", args, copy);
    RenameThird(t, args, c, n, copy);
  }

  lemma RenameThird(t: Table, args: seq<string>, c: string, n: string, copy: Copy)
    requires args == [NameRef(c), Quoted(n)]
    requires PlainName(n) && |t.header| == 3 && t.header[2] == c && t.header[0] != c && t.header[1] != c
    ensures Step(t, "rn", args, copy) == Some(t.(header := t.header[2 := n]))
  {
    StepRenameIs(t, args, copy);
    ResolvesToThird(t.header, c);
    PlainQuoted(n);
    RenameIs(t, args, 2);
  }

  lemma ResolvesToThird(header: seq<string>, c: string)
    requires |header| == 3 && header[2] == c && header[0] != c && header[1] != c
    ensures ParseCol(NameRef(c), header) == Some(2)
  {
    ParseColByName(c, header);
  }

  lemma UseStep(t: Table, line: string, name: string, i: nat, copy: Copy)
    requires Tokenize(line) == ["use", NameRef(name)]
    requires i < |t.header| && t.header[i] == name
    requires forall j | 0 <= j < i :: t.header[j] != name
    ensures RunLine(t, line, copy) == Some(t.(sel := Selection(false, None, t.sel.singles + [i])))
  {
    var args := [NameRef(name)];
    RunLineOf(t, line, "use", args, copy);
    StepUseIs(t, args, copy);
    ParseColByName(name, t.header);
    NameRefPlain(name);
  }

  /** The table after `rn @"c" "n"` then `use @"a"` then `use @"n"` on the header `a,b,c`. */
  lemma RenameThenUseTable(a: string, b: string, c: string, n: string, rows: seq<seq<string>>,
                           lines: seq<string>, copy: Copy)
    requires PlainName(n) && c != a && c != b && n != a && n != b
    requires |lines| == 3
    requires Tokenize(lines[0]) == ["rn", NameRef(c), Quoted(n)]
    requires Tokenize(lines[1]) == ["use", NameRef(a)]
    requires Tokenize(lines[2]) == ["use", NameRef(n)]
    ensures Exec(Table([a, b, c], rows, NoUse), lines, copy)
            == Some(Table([a, b, n], rows, Selection(false, None, [0, 2])))
  {
    var t0 := Table([a, b, c], rows, NoUse);
    var t1 := Table([a, b, n], rows, NoUse);
    RenameStep(t0, lines[0], c, n, copy);
    assert [a, b, c][2 := n] == [a, b, n];
    ExecFirst(t0, lines[0], lines[1..], t1, copy);
    assert lines == [lines[0]] + lines[1..];
    TwoUses(t1, lines[1..], a, n, copy);
  }

  /** `use @"a"` then `use @"n"` on the header `a,b,n`. */
  lemma TwoUses(t: Table, lines: seq<string>, a: string, n: string, copy: Copy)
    requires |t.header| == 3 && t.header[0] == a && t.header[2] == n && n != a && n != t.header[1]
    requires t.sel == NoUse
    requires |lines| == 2
    requires Tokenize(lines[0]) == ["use", NameRef(a)]
    requires Tokenize(lines[1]) == ["use", NameRef(n)]
    ensures Exec(t, lines, copy) == Some(t.(sel := Selection(false, None, [0, 2])))
  {
    var t2 := t.(sel := Selection(false, None, [0]));
    UseStep(t, lines[0], a, 0, copy);
    assert t.sel.singles + [0] == [0];
    ExecFirst(t, lines[0], lines[1..], t2, copy);
    assert lines == [lines[0]] + lines[1..];
    LastUse(t2, lines[1..], n, copy);
  }

  lemma LastUse(t: Table, lines: seq<string>, n: string, copy: Copy)
    requires |t.header| == 3 && t.header[2] == n && n != t.header[0] && n != t.header[1]
    requires t.sel == Selection(false, None, [0])
    requires |lines| == 1 && Tokenize(lines[0]) == ["use", NameRef(n)]
    ensures Exec(t, lines, copy) == Some(t.(sel := Selection(false, None, [0, 2])))
  {
    UseStep(t, lines[0], n, 2, copy);
    assert t.sel.singles + [2] == [0, 2];
    ExecOne(t, lines, copy);
  }

  /** A one-line op list runs that line. */
  lemma ExecOne(t: Table, lines: seq<string>, copy: Copy)
    requires |lines| == 1
    ensures Exec(t, lines, copy) == RunLine(t, lines[0], copy)
  {
    assert lines[1..] == [];
  }

  lemma ExecFirst(t: Table, line: string, rest: seq<string>, t': Table, copy: Copy)
    requires RunLine(t, line, copy) == Some(t')
    ensures Exec(t, [line] + rest, copy) == Exec(t', rest, copy)
  {
    assert ([line] + rest)[1..] == rest;
  }

  lemma FirstAndLastColumns(sel: Selection)
    requires sel == Selection(false, None, [0, 2])
    ensures OutputColumns(sel, 3) == [0, 2]
  {
    assert Dedup([0, 2]) == [0, 2] by {
      assert [0, 2][..1] == [0];
      assert [0][..0] == [];
    }
  }

  /** Printing columns 0 and 2 of a three-column table. */
  lemma ProjectFirstAndLast(a: string, b: string, n: string, rows: seq<seq<string>>)
    requires forall k | 0 <= k < |rows| :: |rows[k]| == 3
    ensures var t := Table([a, b, n], rows, Selection(false, None, [0, 2]));
            Fits(t)
            && Project(t) == Output([a, n], seq(|rows|, k requires 0 <= k < |rows| => [rows[k][0], rows[k][2]]))
  {
    var t := Table([a, b, n], rows, Selection(false, None, [0, 2]));
    FirstAndLastColumns(t.sel);
    ProjectRectangular(t);
    assert Project(t).header == [a, n];
    forall k | 0 <= k < |rows| ensures Project(t).rows[k] == [rows[k][0], rows[k][2]] {
      assert Project(t).rows[k] == Pick(rows[k], [0, 2]);
    }
  }

  /**
   * Renaming a column and then using it by its new name, with another column before it:
   * the output header is the two names, and every row keeps those two fields.
   */
  lemma RenameThenUse(a: string, b: string, c: string, n: string, rows: seq<seq<string>>, copy: Copy)
    requires PlainName(a) && PlainName(c) && PlainName(n)
    requires c != a && c != b && n != a && n != b
    requires forall k | 0 <= k < |rows| :: |rows[k]| == 3
    ensures ProcessFile([a, b, c], rows, map[], [RenameLine(c, n), UseLine(a), UseLine(n)], copy)
            == Some(Output([a, n], seq(|rows|, k requires 0 <= k < |rows| => [rows[k][0], rows[k][2]])))
  {
    NoWindowKeepsAll(rows, map[]);
    RenameLineTokens(c, n);
    UseLineTokens(a);
    UseLineTokens(n);
    RenameThenUseTable(a, b, c, n, rows, [RenameLine(c, n), UseLine(a), UseLine(n)], copy);
    ProjectFirstAndLast(a, b, n, rows);
  }

  /** The documented example: header `id,name,amount`, rename amount to Total, use id and Total. */
  lemma RenameThenUseExample(header: seq<string>, rows: seq<seq<string>>, lines: seq<string>, copy: Copy)
    requires header == ["id", "name", "amount"]
    requires rows == [["1", "Alice", "10"], ["2", "Bob", "20"]]
    requires lines == ["rn @\"amount\" \"Total\"", "use @\"" + "id" + "\"", "use @\"" + "Total" + "\""]
    ensures ProcessFile(header, rows, map[], lines, copy) == Some(Output(["id", "Total"], [["1", "10"], ["2", "20"]]))
  {
    // Names bound to variables, so that the solver does not evaluate the run on literals.
    var a, b, c := header[0], header[1], header[2];
    var n :| n == "Total";
    ExampleNames();
    ExampleRenameLine(lines[0]);
    ExampleUseLine(lines[1], "id");
    ExampleUseLine(lines[2], "Total");
    assert lines == [RenameLine(c, n), UseLine(a), UseLine(n)];
    RenameThenUse(a, b, c, n, rows, copy);
    ExamplePickedRows(rows);
  }

  lemma ExamplePickedRows(rows: seq<seq<string>>)
    requires rows == [["1", "Alice", "10"], ["2", "Bob", "20"]]
    ensures seq(|rows|, k requires 0 <= k < |rows| => [rows[k][0], rows[k][2]]) == [["1", "10"], ["2", "20"]]
  {
    var out := seq(|rows|, k requires 0 <= k < |rows| => [rows[k][0], rows[k][2]]);
    assert out[0] == ["1", "10"];
    assert out[1] == ["2", "20"];
  }

  lemma ExampleNames()
    ensures PlainName("id") && PlainName("amount") && PlainName("Total") && PlainName("Notes")
  {
  }

  lemma ExampleRenameLine(line: string)
    requires line == "rn @\"amount\" \"Total\""
    ensures line == RenameLine("amount", "Total")
  {
  }

  lemma ExampleUseLine(line: string, name: string)
    requires name == "id" || name == "Total"
    requires line == "use @\"" + name + "\""
    ensures line == UseLine(name)
  {
  }

  /** The table after `add @i "name"` alone. */
  lemma AddStep(header: seq<string>, rows: seq<seq<string>>, i: nat, name: string, copy: Copy)
    requires PlainName(name) && i < |header|
    requires forall k | 0 <= k < |rows| :: |rows[k]| == |header|
    ensures Exec(Table(header, rows, NoUse), [AddLine(i, name)], copy).Some?
    ensures var t := Exec(Table(header, rows, NoUse), [AddLine(i, name)], copy).value;
            && Rectangular(t) && t.sel == NoUse
            && t.header == header[..i] + [name] + header[i..]
            && t.rows == seq(|rows|, k requires 0 <= k < |rows| => rows[k][..i] + [""] + rows[k][i..])
  {
    var t0 := Table(header, rows, NoUse);
    var args := [PosRef(i), Quoted(name)];
    AddLineTokens(i, name);
    RunLineOf(t0, AddLine(i, name), "add", args, copy);
    var t1 := AddAt(t0, args, i, name, copy);
    ExecOne(t0, [AddLine(i, name)], copy);
  }

  /** `add @i "name"` on a rectangular table with no selection. */
  lemma AddAt(t0: Table, args: seq<string>, i: nat, name: string, copy: Copy) returns (t1: Table)
    requires args == [PosRef(i), Quoted(name)] && PlainName(name) && i < |t0.header|
    requires Rectangular(t0) && t0.sel == NoUse
    ensures Step(t0, "add", args, copy) == Some(t1)
    ensures Rectangular(t1) && t1.sel == NoUse
    ensures t1.header == t0.header[..i] + [name] + t0.header[i..]
    ensures t1.rows == seq(|t0.rows|, k requires 0 <= k < |t0.rows| => t0.rows[k][..i] + [""] + t0.rows[k][i..])
  {
    ParseColByPosition(i, t0.header);
    PlainQuoted(name);
    AddShape(t0, args, copy);
    t1 := Step(t0, "add", args, copy).value;
    AddedTable(t0, t1, i, name);
  }

  /** The shape `add` leaves, read back as the header and rows with the new column inserted. */
  lemma AddedTable(t0: Table, t1: Table, i: nat, name: string)
    requires i < |t0.header| && |t1.rows| == |t0.rows|
    requires |t1.header| == |t0.header| + 1 && t1.header[i] == name
    requires t1.header[..i] == t0.header[..i] && t1.header[i + 1..] == t0.header[i..]
    requires forall k | 0 <= k < |t0.rows| :: i <= |t0.rows[k]| && |t1.rows[k]| == |t0.rows[k]| + 1
    requires forall k | 0 <= k < |t0.rows| ::
               t1.rows[k][i] == "" && t1.rows[k][..i] == t0.rows[k][..i] && t1.rows[k][i + 1..] == t0.rows[k][i..]
    ensures t1.header == t0.header[..i] + [name] + t0.header[i..]
    ensures t1.rows == seq(|t0.rows|, k requires 0 <= k < |t0.rows| => t0.rows[k][..i] + [""] + t0.rows[k][i..])
  {
    Reassembled(t0.header, t1.header, i, name);
    AddedRows(t0.rows, t1.rows, i);
  }

  /** A list that agrees with `xs` around `x` at position `i` is `xs` with `x` inserted there. */
  lemma Reassembled(xs: seq<string>, ys: seq<string>, i: nat, x: string)
    requires i <= |xs| && |ys| == |xs| + 1 && ys[i] == x && ys[..i] == xs[..i] && ys[i + 1..] == xs[i..]
    ensures ys == xs[..i] + [x] + xs[i..]
  {
    assert ys == ys[..i] + [ys[i]] + ys[i + 1..];
  }

  /** Rows that agree with `rows` around an empty cell at `i` are `rows` with that cell inserted. */
  lemma AddedRows(rows: seq<seq<string>>, rows': seq<seq<string>>, i: nat)
    requires |rows'| == |rows|
    requires forall k | 0 <= k < |rows| :: i <= |rows[k]| && |rows'[k]| == |rows[k]| + 1
    requires forall k | 0 <= k < |rows| ::
               rows'[k][i] == "" && rows'[k][..i] == rows[k][..i] && rows'[k][i + 1..] == rows[k][i..]
    ensures rows' == seq(|rows|, k requires 0 <= k < |rows| => rows[k][..i] + [""] + rows[k][i..])
  {
    forall k | 0 <= k < |rows| ensures rows'[k] == rows[k][..i] + [""] + rows[k][i..] {
      assert rows'[k] == rows'[k][..i] + [rows'[k][i]] + rows'[k][i + 1..];
    }
  }

  /**
   * With no `use`, `add @i "name"` on a rectangular table prints the whole table with the new
   * column at position i and an empty field in it on every row.
   */
  lemma AddWithoutUse(header: seq<string>, rows: seq<seq<string>>, i: nat, name: string, copy: Copy)
    requires PlainName(name) && i < |header|
    requires forall k | 0 <= k < |rows| :: |rows[k]| == |header|
    ensures ProcessFile(header, rows, map[], [AddLine(i, name)], copy)
            == Some(Output(header[..i] + [name] + header[i..],
                           seq(|rows|, k requires 0 <= k < |rows| => rows[k][..i] + [""] + rows[k][i..])))
  {
    NoWindowKeepsAll(rows, map[]);
    AddStep(header, rows, i, name, copy);
    ProjectWithoutUse(Exec(Table(header, rows, NoUse), [AddLine(i, name)], copy).value);
  }

  /** The documented example: `add @1 "Notes"` alone adds an empty Notes column at position 1. */
  lemma AddNotesExample(header: seq<string>, rows: seq<seq<string>>, lines: seq<string>, copy: Copy)
    requires header == ["id", "name", "amount"]
    requires rows == [["1", "Alice", "10"], ["2", "Bob", "20"]]
    requires lines == ["add @1 \"Notes\""]
    ensures ProcessFile(header, rows, map[], lines, copy)
            == Some(Output(["id", "Notes", "name", "amount"], [["1", "", "Alice", "10"], ["2", "", "Bob", "20"]]))
  {
    var name :| name == "Notes";
    ExampleAddLine(lines[0]);
    ExampleNames();
    AddWithoutUse(header, rows, 1, name, copy);
    ExampleAddedRows(rows);
    ExampleAddedHeader(header, name);
  }

  lemma ExampleAddedRows(rows: seq<seq<string>>)
    requires rows == [["1", "Alice", "10"], ["2", "Bob", "20"]]
    ensures seq(|rows|, k requires 0 <= k < |rows| => rows[k][..1] + [""] + rows[k][1..])
            == [["1", "", "Alice", "10"], ["2", "", "Bob", "20"]]
  {
    var out := seq(|rows|, k requires 0 <= k < |rows| => rows[k][..1] + [""] + rows[k][1..]);
    assert out[0] == ["1", "", "Alice", "10"];
    assert out[1] == ["2", "", "Bob", "20"];
  }

  lemma ExampleAddedHeader(header: seq<string>, name: string)
    requires header == ["id", "name", "amount"] && name == "Notes"
    ensures header[..1] + [name] + header[1..] == ["id", "Notes", "name", "amount"]
  {
  }

  lemma ExampleAddLine(line: string)
    requires line == "add @1 \"Notes\""
    ensures line == AddLine(1, "Notes")
  {
    assert NatToString(1) == "1";
  }
}
