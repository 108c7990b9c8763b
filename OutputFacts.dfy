/**
 * What the selection and the projection promise: the last `use` decides, a column used twice
 * is printed once, every printed row is as wide as the printed header, and the two copies of
 * the engine compute the same tables and differ only in which header lines they print.
 */
module OutputFacts {
  import opened Wrappers
  import opened Text
  import opened Lists
  import opened ColRef
  import opened Tokens
  import opened RowWindow
  import opened Engine
  import opened EngineFacts

  /** `use @N` for a header position appends N to the singles and clears `use all` and the range. */
  lemma UseAppends(t: Table, i: nat, copy: Copy)
    requires i < |t.header|
    ensures Step(t, "use", [PosRef(i)], copy) == Some(t.(sel := Selection(false, None, t.sel.singles + [i])))
  {
    PosRefPlain(i);
    ParseColByPosition(i, t.header);
  }

  /** `use all` prints every column of the header, whatever was selected before it. */
  lemma UseAllSelectsEverything(t: Table, copy: Copy)
    ensures Step(t, "use", ["all"], copy).Some?
    ensures var t' := Step(t, "use", ["all"], copy).value;
            t'.header == t.header && t'.rows == t.rows
            && OutputColumns(t'.sel, |t'.header|) == AllColumns(|t.header|)
  {
  }

  /** A `use @N` after `use all` is not overridden by it: the later line decides, and only N is printed. */
  lemma LastUseWins(t: Table, i: nat, copy: Copy)
    requires i < |t.header|
    ensures Step(t, "use", ["all"], copy).Some?
    ensures var t1 := Step(t, "use", ["all"], copy).value;
            Step(t1, "use", [PosRef(i)], copy).Some?
            && OutputColumns(Step(t1, "use", [PosRef(i)], copy).value.sel, |t.header|) == [i]
  {
    var t1 := Step(t, "use", ["all"], copy).value;
    UseAppends(t1, i, copy);
    assert t1.sel.singles + [i] == [i];
    assert Dedup([i]) == [i] by {
      assert [i][..0] == [];
    }
  }

  /** Using a column that is already selected does not print it a second time. */
  lemma UseAgainCollapses(t: Table, i: nat, copy: Copy)
    requires i < |t.header| && !t.sel.all && t.sel.range.None? && i in t.sel.singles
    ensures Step(t, "use", [PosRef(i)], copy).Some?
    ensures OutputColumns(Step(t, "use", [PosRef(i)], copy).value.sel, |t.header|)
            == OutputColumns(t.sel, |t.header|)
  {
    UseAppends(t, i, copy);
    DedupRepeat(t.sel.singles, i);
  }

  /** `use @N` twice on a fresh table prints the single column N. */
  lemma UseTwiceOneColumn(t: Table, i: nat, copy: Copy)
    requires i < |t.header| && t.sel == NoUse
    ensures Step(t, "use", [PosRef(i)], copy).Some?
    ensures var t1 := Step(t, "use", [PosRef(i)], copy).value;
            Step(t1, "use", [PosRef(i)], copy).Some?
            && OutputColumns(Step(t1, "use", [PosRef(i)], copy).value.sel, |t.header|) == [i]
  {
    UseAppends(t, i, copy);
    var t1 := Step(t, "use", [PosRef(i)], copy).value;
    assert t1.sel.singles == [i];
    UseAgainCollapses(t1, i, copy);
    assert Dedup([i]) == [i] by {
      assert [i][..0] == [];
    }
  }

  /** `use @"Name"` for a name the header lacks neither fails nor changes the selection. */
  lemma MissingNameSkipped(t: Table, name: string, copy: Copy)
    requires name !in t.header
    ensures Step(t, "use", [NameRef(name)], copy) == Some(t)
  {
    NameRefPlain(name);
    ParseColByName(name, t.header);
    UnresolvedUseSkipped(t, [NameRef(name)], copy);
  }

  /** Every printed row has one field per output column. */
  lemma {:induction false} ProjectRowsWidth(rows: seq<seq<string>>, cols: seq<nat>)
    ensures |ProjectRows(rows, cols)| <= |rows|
    ensures forall k | 0 <= k < |ProjectRows(rows, cols)| :: |ProjectRows(rows, cols)[k]| == |cols|
    decreases |rows|
  {
    if rows != [] {
      ProjectRowsWidth(rows[..|rows| - 1], cols);
    }
  }

  /** For every emitted row, `len(output_row) == len(output_header)`. */
  lemma OutputWidth(t: Table)
    requires Fits(t)
    ensures forall k | 0 <= k < |Project(t).rows| :: |Project(t).rows[k]| == |Project(t).header|
  {
    ProjectRowsWidth(t.rows, OutputColumns(t.sel, |t.header|));
  }

  /** When every row reaches every output column, no row is dropped and each is projected in place. */
  lemma {:induction false} ProjectRowsCovered(rows: seq<seq<string>>, cols: seq<nat>)
    requires forall k | 0 <= k < |rows| :: Covers(rows[k], cols)
    ensures |ProjectRows(rows, cols)| == |rows|
    ensures forall k | 0 <= k < |rows| :: ProjectRows(rows, cols)[k] == Pick(rows[k], cols)
    decreases |rows|
  {
    if rows != [] {
      var init := rows[..|rows| - 1];
      ProjectRowsCovered(init, cols);
      assert ProjectRows(rows, cols) == ProjectRows(init, cols) + [Pick(rows[|rows| - 1], cols)];
    }
  }

  /** On a rectangular table every row is printed, as the selected fields of that row. */
  lemma ProjectRectangular(t: Table)
    requires Fits(t) && Rectangular(t)
    ensures var cols := OutputColumns(t.sel, |t.header|);
            |Project(t).rows| == |t.rows|
            && forall k | 0 <= k < |t.rows| :: Project(t).rows[k] == Pick(t.rows[k], cols)
  {
    var cols := OutputColumns(t.sel, |t.header|);
    forall k | 0 <= k < |t.rows| ensures Covers(t.rows[k], cols) {
    }
    ProjectRowsCovered(t.rows, cols);
  }

  /** Picking every position of a row gives back the row. */
  lemma PickAll(row: seq<string>)
    ensures Covers(row, AllColumns(|row|)) && Pick(row, AllColumns(|row|)) == row
  {
  }

  /** Without any `use`, a rectangular table is printed whole. */
  lemma ProjectWithoutUse(t: Table)
    requires t.sel == NoUse && Rectangular(t)
    ensures Project(t) == Output(t.header, t.rows)
  {
    ProjectRectangular(t);
    PickAll(t.header);
    forall k | 0 <= k < |t.rows| ensures Project(t).rows[k] == t.rows[k] {
      PickAll(t.rows[k]);
    }
  }

  /**
   * A file whose rows are as long as its header prints one line per row of the window, each
   * as wide as the printed header.
   */
  lemma ProcessFileKeepsRows(header: seq<string>, rows: seq<seq<string>>, specs: Specs, lines: seq<string>, copy: Copy)
    requires forall k | 0 <= k < |rows| :: |rows[k]| == |header|
    requires ProcessFile(header, rows, specs, lines, copy).Some?
    ensures var o := ProcessFile(header, rows, specs, lines, copy).value;
            |o.rows| == |Window(rows, specs).value|
            && forall k | 0 <= k < |o.rows| :: |o.rows[k]| == |o.header|
  {
    var w := Window(rows, specs).value;
    WindowIsSlice(rows, specs);
    var lo, hi :| 0 <= lo <= hi <= |rows| && w == rows[lo..hi];
    var t0 := Table(header, w, NoUse);
    assert Rectangular(t0) by {
      forall k | 0 <= k < |w| ensures |w[k]| == |header| {
        assert w[k] == rows[lo + k];
      }
    }
    ExecRectangular(t0, lines, copy);
    var t := Exec(t0, lines, copy).value;
    ProjectRectangular(t);
    OutputWidth(t);
  }

  /** The two copies' range guards disagree only on tokens of the range shape. */
  lemma StepAgrees(t: Table, cmd: string, args: seq<string>)
    requires |args| == 1 ==> !LooseRange(args[0]) && RangeRef(args[0]).None?
    ensures Step(t, cmd, args, Cols) == Step(t, cmd, args, Pycsv)
  {
    if cmd == "use" {
      assert Use(t, args, Cols) == Use(t, args, Pycsv);
    }
  }

  /** cols.py and pycsv.py do the same to the table for every op line. */
  lemma RunLineAgrees(t: Table, line: string)
    ensures RunLine(t, line, Cols) == RunLine(t, line, Pycsv)
  {
    var ts := Tokenize(line);
    TokensNeverRange(line);
    if |ts| == 2 {
      assert ts[1..][0] == ts[1];
    }
    if ts != [] {
      StepAgrees(t, ts[0], ts[1..]);
    }
  }

  lemma {:induction false} ExecAgrees(t: Table, lines: seq<string>)
    ensures Exec(t, lines, Cols) == Exec(t, lines, Pycsv)
    decreases |lines|
  {
    if lines != [] {
      RunLineAgrees(t, lines[0]);
      var r := RunLine(t, lines[0], Cols);
      if r.Some? {
        ExecAgrees(r.value, lines[1..]);
      }
    }
  }

  /** Both copies compute the same output for every file. */
  lemma ProcessFileAgrees(header: seq<string>, rows: seq<seq<string>>, specs: Specs, lines: seq<string>)
    ensures ProcessFile(header, rows, specs, lines, Cols) == ProcessFile(header, rows, specs, lines, Pycsv)
  {
    if Window(rows, specs).Some? {
      ExecAgrees(Table(header, Window(rows, specs).value, NoUse), lines);
    }
  }

  /** The outputs up to the first failure. */
  ghost function Done(rs: seq<Option<Output>>): seq<Output>
    decreases |rs|
  {
    if rs == [] then []
    else match rs[0]
      case None => []
      case Some(o) => [o] + Done(rs[1..])
  }

  /** Each output's header line followed by its data lines. */
  ghost function WithHeaders(os: seq<Output>): seq<seq<string>>
    decreases |os|
  {
    if os == [] then [] else [os[0].header] + os[0].rows + WithHeaders(os[1..])
  }

  /** Each output's data lines only. */
  ghost function RowsOnly(os: seq<Output>): seq<seq<string>>
    decreases |os|
  {
    if os == [] then [] else os[0].rows + RowsOnly(os[1..])
  }

  /** Both copies give the same result for every file, so `Report` prints the same outputs for both. */
  lemma ResultsAgree(inputs: seq<Input>, specs: Specs, lines: seq<string>)
    ensures Results(inputs, specs, lines, Pycsv) == Results(inputs, specs, lines, Cols)
  {
    forall k | 0 <= k < |inputs|
      ensures Results(inputs, specs, lines, Pycsv)[k] == Results(inputs, specs, lines, Cols)[k]
    {
      ProcessFileAgrees(inputs[k].header, inputs[k].rows, specs, lines);
    }
  }

  /** pycsv.py prints a header line before the rows of every file, up to the first failure. */
  lemma {:induction false} PycsvHeaderPerFile(rs: seq<Option<Output>>, filenum: nat)
    ensures Printed(rs, Pycsv, filenum) == WithHeaders(Done(rs))
    decreases |rs|
  {
    if rs != [] && rs[0].Some? {
      PycsvHeaderPerFile(rs[1..], filenum + 1);
    }
  }

  /** cols.py prints no header line for the files after the first. */
  lemma {:induction false} ColsRowsAfterFirst(rs: seq<Option<Output>>, filenum: nat)
    requires filenum > 0
    ensures Printed(rs, Cols, filenum) == RowsOnly(Done(rs))
    decreases |rs|
  {
    if rs != [] && rs[0].Some? {
      ColsRowsAfterFirst(rs[1..], filenum + 1);
    }
  }

  /** cols.py prints the first file's header once, then the rows of every file, up to the first failure. */
  lemma ColsHeaderOnce(rs: seq<Option<Output>>)
    ensures var os := Done(rs);
            Printed(rs, Cols, 0) == if os == [] then [] else [os[0].header] + RowsOnly(os)
  {
    if rs != [] && rs[0].Some? {
      ColsRowsAfterFirst(rs[1..], 1);
    }
  }
}
