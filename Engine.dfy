/**
 * The operation executor and output projector of `process_csv` (cols.py:155-329 and
 * pycsv.py:73-245): every op line is tokenized and dispatched on its first token, each
 * command changes the header, the rows or the selection, and at the end the selected columns
 * of the header and of every row are emitted.
 *
 * A Python exception that ends the run (an `IndexError` for a missing argument or a row too
 * short for a column, a `ValueError` from `int()`) is `None`. A reference that does not resolve
 * is not an error: the op is skipped and nothing changes.
 */
module Engine {
  import opened Wrappers
  import opened Text
  import opened Lists
  import opened ColRef
  import opened Tokens
  import opened RowWindow

  /** Which copy of the engine runs; they differ in the range guard and in printing headers. */
  datatype Copy = Cols | Pycsv

  /** `last_use_all`, `last_use_range` and `last_use_single`. */
  datatype Selection = Selection(all: bool, range: Option<(nat, nat)>, singles: seq<nat>)

  /** `col_names`, `rows` and the selection, as the op loop threads them. */
  datatype Table = Table(header: seq<string>, rows: seq<seq<string>>, sel: Selection)

  /** The selection before any `use`. */
  const NoUse := Selection(false, None, [])

  /** Every selected single position is a position of the header. */
  predicate Fits(t: Table) {
    forall k | 0 <= k < |t.sel.singles| :: t.sel.singles[k] < |t.header|
  }

  /** Every row has one field per header entry. */
  predicate Rectangular(t: Table) {
    forall k | 0 <= k < |t.rows| :: |t.rows[k]| == |t.header|
  }

  /**
   * What every op promises: on success the row count is kept, the header never gets shorter,
   * and selected positions stay inside the header.
   */
  predicate Grows(t: Table, r: Option<Table>) {
    r.Some? ==> |r.value.header| >= |t.header| && |r.value.rows| == |t.rows| && (Fits(t) ==> Fits(r.value))
  }

  /** What one command does to each row, in the source's per-row loop. */
  datatype RowEdit =
    | Fill(col: nat, value: string)                  // set: `row[idx] = val`
    | Substitute(col: nat, find: string, repl: string) // replace @c: `row[idx] = do_replace(row[idx], ...)`
    | SubstituteAll(find: string, repl: string)        // replace_all, replace_cell: every cell
    | Blank(col: nat)                                // add: `row.insert(idx, "")`
    | Relocate(from: nat, to: nat)                   // move: `do_move(row, a, b)`
    | Exchange(a: nat, b: nat)                       // swap: `do_swap(row, a, b)`

  /** The row is long enough for the edit; otherwise indexing it raises `IndexError`. */
  predicate FitsRow(e: RowEdit, row: seq<string>) {
    match e
    case Fill(c, _) => c < |row|
    case Substitute(c, _, _) => c < |row|
    case SubstituteAll(_, _) => true
    case Blank(_) => true
    case Relocate(a, _) => a < |row|
    case Exchange(a, b) => a < |row| && b < |row|
  }

  /** `[do_replace(x, find, repl) for x in xs]`. */
  function ReplaceEach(xs: seq<string>, find: string, repl: string): seq<string> {
    seq(|xs|, j requires 0 <= j < |xs| => Replace(xs[j], find, repl))
  }

  /** The row after the edit; `insert` past the end of a short row appends. */
  function Edit(e: RowEdit, row: seq<string>): seq<string>
    requires FitsRow(e, row)
  {
    match e
    case Fill(c, v) => row[c := v]
    case Substitute(c, f, r) => row[c := Replace(row[c], f, r)]
    case SubstituteAll(f, r) => ReplaceEach(row, f, r)
    case Blank(c) => Inserted(row, if c <= |row| then c else |row|, "")
    case Relocate(a, b) => Moved(row, a, b)
    case Exchange(a, b) => Swapped(row, a, b)
  }

  predicate AllFit(rows: seq<seq<string>>, e: RowEdit) {
    forall k | 0 <= k < |rows| :: FitsRow(e, rows[k])
  }

  function EditRows(rows: seq<seq<string>>, e: RowEdit): seq<seq<string>>
    requires AllFit(rows, e)
  {
    seq(|rows|, k requires 0 <= k < |rows| => Edit(e, rows[k]))
  }

  /** The edit applied to every row, or `None` when some row is too short for it. */
  function EditAll(t: Table, e: RowEdit): Option<Table> {
    if AllFit(t.rows, e) then Some(t.(rows := EditRows(t.rows, e))) else None
  }

  /** The guard of the range branch: cols.py's loose pattern, pycsv.py's strict one. */
  predicate RangeGuard(arg: string, copy: Copy) {
    if copy == Cols then LooseRange(arg) else RangeRef(arg).Some?
  }

  /** `use all`, `use @N-@M`, `use <ref>`. */
  function Use(t: Table, args: seq<string>, copy: Copy): Option<Table> {
    if |args| == 1 && args[0] == "all" then Some(t.(sel := Selection(true, None, [])))
    else if |args| == 1 && RangeGuard(args[0], copy) then
      match RangeRef(args[0])
      case None => None
      case Some(p) => Some(t.(sel := Selection(false, Some(p), [])))
    else if |args| == 0 then None
    else match ParseCol(args[0], t.header)
      case None => Some(t)
      case Some(i) => Some(t.(sel := Selection(false, None, t.sel.singles + [i])))
  }

  /** `rn <ref> <name>`. */
  function Rename(t: Table, args: seq<string>): Option<Table> {
    if |args| == 0 then None
    else match ParseCol(args[0], t.header)
      case None => Some(t)
      case Some(i) =>
        if |args| < 2 then None else Some(t.(header := t.header[i := StripQuotes(args[1])]))
  }

  /** `add <ref> <name>`. */
  function Add(t: Table, args: seq<string>): Option<Table> {
    if |args| == 0 then None
    else match ParseCol(args[0], t.header)
      case None => Some(t)
      case Some(i) =>
        if |args| < 2 then None
        else EditAll(t.(header := Inserted(t.header, i, StripQuotes(args[1]))), Blank(i))
  }

  /** `set <ref> <value>`. */
  function Set(t: Table, args: seq<string>): Option<Table> {
    if |args| == 0 then None
    else match ParseCol(args[0], t.header)
      case None => Some(t)
      case Some(i) => if |args| < 2 then None else EditAll(t, Fill(i, StripQuotes(args[1])))
  }

  /** `replace_all`, `replace_head` and `replace_cell`, which differ only in what they touch. */
  function ReplaceText(t: Table, args: seq<string>, inHeader: bool, inCells: bool): Option<Table> {
    if |args| < 2 then None
    else
      var find := StripQuotes(args[0]);
      var repl := StripQuotes(args[1]);
      var t' := if inHeader then t.(header := ReplaceEach(t.header, find, repl)) else t;
      if inCells then EditAll(t', SubstituteAll(find, repl)) else Some(t')
  }

  /** `replace <ref> <find> <repl>`. */
  function ReplaceColumn(t: Table, args: seq<string>): Option<Table> {
    if |args| == 0 then None
    else match ParseCol(args[0], t.header)
      case None => Some(t)
      case Some(i) =>
        if |args| < 3 then None
        else EditAll(t, Substitute(i, StripQuotes(args[1]), StripQuotes(args[2])))
  }

  /** `move <ref> <ref>`: both references are resolved before anything moves. */
  function Move(t: Table, args: seq<string>): Option<Table> {
    if |args| < 2 then None
    else match (ParseCol(args[0], t.header), ParseCol(args[1], t.header))
      case (Some(a), Some(b)) => EditAll(t.(header := Moved(t.header, a, b)), Relocate(a, b))
      case _ => Some(t)
  }

  /** `swap <ref> <ref>`. */
  function Swap(t: Table, args: seq<string>): Option<Table> {
    if |args| < 2 then None
    else match (ParseCol(args[0], t.header), ParseCol(args[1], t.header))
      case (Some(a), Some(b)) => EditAll(t.(header := Swapped(t.header, a, b)), Exchange(a, b))
      case _ => Some(t)
  }

  /**
   * The `in col N str X` branch: it changes nothing, but evaluating its guard and its debug
   * message reads `args[0]`, `args[2]`, `int(args[1])` and `args[3]`, each of which can raise.
   */
  function InCol(t: Table, args: seq<string>): Option<Table> {
    if |args| == 0 then None
    else if args[0] != "col" then Some(t)
    else if |args| < 3 then None
    else if args[2] != "str" then Some(t)
    else if ParseInt(args[1]).None? || |args| < 4 then None
    else Some(t)
  }

  /** One pass of the `for op in ops` loop, dispatched on the command token. */
  function Step(t: Table, cmd: string, args: seq<string>, copy: Copy): Option<Table> {
    if cmd == "use" then Use(t, args, copy)
    else if cmd == "rn" then Rename(t, args)
    else if cmd == "add" then Add(t, args)
    else if cmd == "set" then Set(t, args)
    else if cmd == "replace_all" then ReplaceText(t, args, true, true)
    else if cmd == "replace_head" then ReplaceText(t, args, true, false)
    else if cmd == "replace_cell" then ReplaceText(t, args, false, true)
    else if cmd == "replace" then ReplaceColumn(t, args)
    else if cmd == "move" then Move(t, args)
    else if cmd == "swap" then Swap(t, args)
    else if cmd == "in" then InCol(t, args)
    else Some(t)
  }

  /** Every op keeps the row count, never shortens the header and keeps the selection inside it. */
  lemma StepGrows(t: Table, cmd: string, args: seq<string>, copy: Copy)
    ensures Grows(t, Step(t, cmd, args, copy))
  {
    var r := Step(t, cmd, args, copy);
    if cmd == "use" {
      assert r == Use(t, args, copy);
      UseGrows(t, args, copy);
    } else if cmd == "rn" {
      assert r == Rename(t, args);
    } else if cmd == "add" {
      assert r == Add(t, args);
      AddGrows(t, args);
    } else if cmd == "set" {
      assert r == Set(t, args);
    } else if cmd == "replace_all" || cmd == "replace_head" || cmd == "replace_cell" {
      assert r == ReplaceText(t, args, cmd != "replace_cell", cmd != "replace_head");
      ReplaceTextGrows(t, args, cmd != "replace_cell", cmd != "replace_head");
    } else if cmd == "replace" {
      assert r == ReplaceColumn(t, args);
    } else if cmd == "move" {
      assert r == Move(t, args);
      MoveGrows(t, args);
    } else if cmd == "swap" {
      assert r == Swap(t, args);
      SwapGrows(t, args);
    } else if cmd == "in" {
      assert r == InCol(t, args);
    }
  }

  lemma UseGrows(t: Table, args: seq<string>, copy: Copy)
    ensures Grows(t, Use(t, args, copy))
  {
    if |args| >= 1 && !(|args| == 1 && (args[0] == "all" || RangeGuard(args[0], copy))) {
      match ParseCol(args[0], t.header)
      case None =>
      case Some(i) =>
        var singles := t.sel.singles + [i];
        if Fits(t) {
          forall k | 0 <= k < |singles| ensures singles[k] < |t.header| {
            if k < |t.sel.singles| {
              assert singles[k] == t.sel.singles[k];
            }
          }
        }
    }
  }

  /** An edit of the rows leaves a table with a longer or equal header as long as the original. */
  lemma EditGrows(t: Table, t': Table, e: RowEdit)
    requires |t'.header| >= |t.header| && |t'.rows| == |t.rows| && t'.sel == t.sel
    ensures Grows(t, EditAll(t', e))
  {
  }

  lemma AddGrows(t: Table, args: seq<string>)
    ensures Grows(t, Add(t, args))
  {
    if |args| >= 2 && ParseCol(args[0], t.header).Some? {
      var i := ParseCol(args[0], t.header).value;
      var h := Inserted(t.header, i, StripQuotes(args[1]));
      InsertedAt(t.header, i, StripQuotes(args[1]));
      EditGrows(t, t.(header := h), Blank(i));
    }
  }

  lemma ReplaceTextGrows(t: Table, args: seq<string>, inHeader: bool, inCells: bool)
    ensures Grows(t, ReplaceText(t, args, inHeader, inCells))
  {
    if |args| >= 2 && inCells {
      var find, repl := StripQuotes(args[0]), StripQuotes(args[1]);
      var t' := if inHeader then t.(header := ReplaceEach(t.header, find, repl)) else t;
      EditGrows(t, t', SubstituteAll(find, repl));
    }
  }

  lemma MoveGrows(t: Table, args: seq<string>)
    ensures Grows(t, Move(t, args))
  {
    if |args| >= 2 && ParseCol(args[0], t.header).Some? && ParseCol(args[1], t.header).Some? {
      var a, b := ParseCol(args[0], t.header).value, ParseCol(args[1], t.header).value;
      MovedAt(t.header, a, b);
      EditGrows(t, t.(header := Moved(t.header, a, b)), Relocate(a, b));
    }
  }

  lemma SwapGrows(t: Table, args: seq<string>)
    ensures Grows(t, Swap(t, args))
  {
    if |args| >= 2 && ParseCol(args[0], t.header).Some? && ParseCol(args[1], t.header).Some? {
      var a, b := ParseCol(args[0], t.header).value, ParseCol(args[1], t.header).value;
      SwappedAt(t.header, a, b);
      EditGrows(t, t.(header := Swapped(t.header, a, b)), Exchange(a, b));
    }
  }

  /** One op line: tokenize it, take the first token as the command and the rest as arguments. */
  function RunLine(t: Table, line: string, copy: Copy): (r: Option<Table>)
    ensures r.Some? ==> |r.value.header| >= |t.header| && |r.value.rows| == |t.rows|
    ensures r.Some? && Fits(t) ==> Fits(r.value)
  {
    var ts := Tokenize(line);
    if ts == [] then None else StepGrows(t, ts[0], ts[1..], copy); Step(t, ts[0], ts[1..], copy)
  }

  /** The whole op loop; the first exception ends it. */
  function Exec(t: Table, lines: seq<string>, copy: Copy): (r: Option<Table>)
    ensures r.Some? ==> |r.value.header| >= |t.header| && |r.value.rows| == |t.rows|
    ensures r.Some? && Fits(t) ==> Fits(r.value)
    decreases |lines|
  {
    if lines == [] then Some(t)
    else match RunLine(t, lines[0], copy)
      case None => None
      case Some(t') => Exec(t', lines[1..], copy)
  }

  /** The op loop from line i runs that line, then goes on from the next one. */
  lemma ExecFrom(t: Table, lines: seq<string>, i: nat, copy: Copy)
    requires i < |lines|
    ensures Exec(t, lines[i..], copy)
            == match RunLine(t, lines[i], copy)
                 case None => None
                 case Some(t') => Exec(t', lines[i + 1..], copy)
  {
    assert lines[i..][0] == lines[i] && lines[i..][1..] == lines[i + 1..];
  }

  /** `list(range(n))`. */
  function AllColumns(n: nat): seq<nat> {
    seq(n, i requires 0 <= i < n => i)
  }

  /** `[i for i in range(start, end+1) if i < n]`. */
  function RangeColumns(start: nat, end: nat, n: nat): seq<nat> {
    var stop := Min(end + 1, n);
    if start < stop then seq(stop - start, j requires 0 <= j < stop - start => start + j) else []
  }

  /** The output positions, by the precedence `use all`, range, singles, everything. */
  function OutputColumns(sel: Selection, n: nat): (cols: seq<nat>)
    ensures (forall k | 0 <= k < |sel.singles| :: sel.singles[k] < n) ==>
              forall j | 0 <= j < |cols| :: cols[j] < n
  {
    if sel.all then AllColumns(n)
    else if sel.range.Some? then RangeColumns(sel.range.value.0, sel.range.value.1, n)
    else if sel.singles != [] then
      DedupMembers(sel.singles);
      assert forall j | 0 <= j < |Dedup(sel.singles)| :: Dedup(sel.singles)[j] in sel.singles;
      Dedup(sel.singles)
    else AllColumns(n)
  }

  /** The columns of one file's output: its header line and its data lines, as field lists. */
  datatype Output = Output(header: seq<string>, rows: seq<seq<string>>)

  /** `[row[i] for i in cols]` succeeds. */
  predicate Covers(row: seq<string>, cols: seq<nat>) {
    forall j | 0 <= j < |cols| :: cols[j] < |row|
  }

  function Pick(row: seq<string>, cols: seq<nat>): seq<string>
    requires Covers(row, cols)
  {
    seq(|cols|, j requires 0 <= j < |cols| => row[cols[j]])
  }

  /** The printed rows: each row projected, and a row too short for some column dropped. */
  function ProjectRows(rows: seq<seq<string>>, cols: seq<nat>): seq<seq<string>>
    decreases |rows|
  {
    if rows == [] then []
    else
      var last := rows[|rows| - 1];
      ProjectRows(rows[..|rows| - 1], cols) + (if Covers(last, cols) then [Pick(last, cols)] else [])
  }

  /** The output of one file once the ops have run. */
  function Project(t: Table): Output
    requires Fits(t)
  {
    var cols := OutputColumns(t.sel, |t.header|);
    Output(Pick(t.header, cols), ProjectRows(t.rows, cols))
  }

  /** One input file: the row window, the op loop from a fresh table, the projection. */
  function ProcessFile(header: seq<string>, rows: seq<seq<string>>, specs: Specs, lines: seq<string>, copy: Copy)
    : Option<Output>
  {
    match Window(rows, specs)
    case None => None
    case Some(w) =>
      match Exec(Table(header, w, NoUse), lines, copy)
      case None => None
      case Some(t) => Some(Project(t))
  }

  /** An input file as the reader delivers it: the first line and the rest. */
  datatype Input = Input(header: seq<string>, rows: seq<seq<string>>)

  /** What processing each input file gives, on its own. */
  function Results(inputs: seq<Input>, specs: Specs, lines: seq<string>, copy: Copy): (rs: seq<Option<Output>>)
    ensures |rs| == |inputs|
  {
    seq(|inputs|, k requires 0 <= k < |inputs| => ProcessFile(inputs[k].header, inputs[k].rows, specs, lines, copy))
  }

  /**
   * The lines printed for per-file results, numbered from `filenum`: cols.py prints the header
   * only for file 0, pycsv.py for every file; the first exception ends the run.
   */
  function Printed(rs: seq<Option<Output>>, copy: Copy, filenum: nat): seq<seq<string>>
    decreases |rs|
  {
    if rs == [] then []
    else match rs[0]
      case None => []
      case Some(o) =>
        (if copy == Pycsv || filenum == 0 then [o.header] else []) + o.rows + Printed(rs[1..], copy, filenum + 1)
  }

  /** The lines printed for the input files, numbered from `filenum`. */
  function Report(inputs: seq<Input>, specs: Specs, lines: seq<string>, copy: Copy, filenum: nat)
    : seq<seq<string>>
  {
    Printed(Results(inputs, specs, lines, copy), copy, filenum)
  }

  /** One row edit, as the source's statement does it; `replace_all` and `replace_cell` loop over the cells. */
  method EditRow(e: RowEdit, row: seq<string>) returns (r: seq<string>)
    requires FitsRow(e, row)
    ensures r == Edit(e, row)
  {
    match e {
      case Fill(c, v) => r := row[c := v];
      case Substitute(c, f, x) => r := row[c := Replace(row[c], f, x)];
      case SubstituteAll(f, x) =>
        r := row;
        var j := 0;
        while j < |r|
          invariant 0 <= j <= |r| == |row|
          invariant forall i | 0 <= i < j :: r[i] == Replace(row[i], f, x)
          invariant forall i | j <= i < |r| :: r[i] == row[i]
        {
          r := r[j := Replace(r[j], f, x)];
          j := j + 1;
        }
      case Blank(c) => r := Inserted(row, if c <= |row| then c else |row|, "");
      case Relocate(a, b) => r := Moved(row, a, b);
      case Exchange(a, b) => r := Swapped(row, a, b);
    }
  }

  /** `seen = set(); [x for x in xs if not (x in seen or seen.add(x))]`. */
  method DedupFirst(xs: seq<nat>) returns (r: seq<nat>)
    ensures r == Dedup(xs)
  {
    var seen: set<nat> := {};
    r := [];
    var i := 0;
    while i < |xs|
      invariant 0 <= i <= |xs|
      invariant r == Dedup(xs[..i])
      invariant forall x :: x in seen <==> x in xs[..i]
    {
      DedupMembers(xs[..i]);
      assert xs[..i + 1][..i] == xs[..i];
      if xs[i] !in seen {
        seen := seen + {xs[i]};
        r := r + [xs[i]];
      }
      i := i + 1;
    }
    assert xs[..i] == xs;
  }

  /** The locals of `process_csv` that the op loop updates in place. */
  class Processor {
    var colNames: seq<string>
    var rows: seq<seq<string>>
    var lastUseAll: bool
    var lastUseRange: Option<(nat, nat)>
    var lastUseSingle: seq<nat>

    function Snapshot(): Table
      reads this
    {
      Table(colNames, rows, Selection(lastUseAll, lastUseRange, lastUseSingle))
    }

    constructor (header: seq<string>, data: seq<seq<string>>)
      ensures Snapshot() == Table(header, data, NoUse)
    {
      colNames := header;
      rows := data;
      lastUseAll := false;
      lastUseRange := None;
      lastUseSingle := [];
    }

    /** `for row in rows:` with one edit each, stopping at the first row too short for it. */
    method EditEachRow(e: RowEdit) returns (ok: bool)
      modifies this
      ensures ok == AllFit(old(rows), e)
      ensures ok ==> Snapshot() == old(Snapshot()).(rows := EditRows(old(rows), e))
    {
      var k := 0;
      while k < |rows|
        invariant 0 <= k <= |rows| == |old(rows)|
        invariant forall j | 0 <= j < k :: FitsRow(e, old(rows)[j]) && rows[j] == Edit(e, old(rows)[j])
        invariant forall j | k <= j < |rows| :: rows[j] == old(rows)[j]
        invariant colNames == old(colNames) && lastUseAll == old(lastUseAll)
        invariant lastUseRange == old(lastUseRange) && lastUseSingle == old(lastUseSingle)
      {
        if !FitsRow(e, rows[k]) {
          return false;
        }
        var row := EditRow(e, rows[k]);
        rows := rows[k := row];
        k := k + 1;
      }
      assert rows == EditRows(old(rows), e);
      return true;
    }

    method ExecUse(args: seq<string>, copy: Copy) returns (ok: bool)
      modifies this
      ensures ok == Use(old(Snapshot()), args, copy).Some?
      ensures ok ==> Snapshot() == Use(old(Snapshot()), args, copy).value
    {
      if |args| == 1 && args[0] == "all" {
        lastUseAll, lastUseRange, lastUseSingle := true, None, [];
        return true;
      }
      if |args| == 1 && RangeGuard(args[0], copy) {
        var m := RangeRef(args[0]);
        if m.None? {
          return false;
        }
        lastUseAll, lastUseRange, lastUseSingle := false, m, [];
        return true;
      }
      if |args| == 0 {
        return false;
      }
      var idx := ParseCol(args[0], colNames);
      if idx.None? {
        return true;
      }
      lastUseAll, lastUseRange := false, None;
      lastUseSingle := lastUseSingle + [idx.value];
      return true;
    }

    method ExecRename(args: seq<string>) returns (ok: bool)
      modifies this
      ensures ok == Rename(old(Snapshot()), args).Some?
      ensures ok ==> Snapshot() == Rename(old(Snapshot()), args).value
    {
      if |args| == 0 {
        return false;
      }
      var idx := ParseCol(args[0], colNames);
      if idx.None? {
        return true;
      }
      if |args| < 2 {
        return false;
      }
      colNames := colNames[idx.value := StripQuotes(args[1])];
      return true;
    }

    method ExecAdd(args: seq<string>) returns (ok: bool)
      modifies this
      ensures ok == Add(old(Snapshot()), args).Some?
      ensures ok ==> Snapshot() == Add(old(Snapshot()), args).value
    {
      if |args| == 0 {
        return false;
      }
      var idx := ParseCol(args[0], colNames);
      if idx.None? {
        return true;
      }
      if |args| < 2 {
        return false;
      }
      colNames := Inserted(colNames, idx.value, StripQuotes(args[1]));
      ok := EditEachRow(Blank(idx.value));
    }

    method ExecSet(args: seq<string>) returns (ok: bool)
      modifies this
      ensures ok == Set(old(Snapshot()), args).Some?
      ensures ok ==> Snapshot() == Set(old(Snapshot()), args).value
    {
      if |args| == 0 {
        return false;
      }
      var idx := ParseCol(args[0], colNames);
      if idx.None? {
        return true;
      }
      if |args| < 2 {
        return false;
      }
      ok := EditEachRow(Fill(idx.value, StripQuotes(args[1])));
    }

    method ExecReplaceText(args: seq<string>, inHeader: bool, inCells: bool) returns (ok: bool)
      modifies this
      ensures ok == ReplaceText(old(Snapshot()), args, inHeader, inCells).Some?
      ensures ok ==> Snapshot() == ReplaceText(old(Snapshot()), args, inHeader, inCells).value
    {
      if |args| < 2 {
        return false;
      }
      var find, repl := StripQuotes(args[0]), StripQuotes(args[1]);
      if inHeader {
        colNames := ReplaceEach(colNames, find, repl);
      }
      ok := true;
      if inCells {
        ok := EditEachRow(SubstituteAll(find, repl));
      }
    }

    method ExecReplaceColumn(args: seq<string>) returns (ok: bool)
      modifies this
      ensures ok == ReplaceColumn(old(Snapshot()), args).Some?
      ensures ok ==> Snapshot() == ReplaceColumn(old(Snapshot()), args).value
    {
      if |args| == 0 {
        return false;
      }
      var idx := ParseCol(args[0], colNames);
      if idx.None? {
        return true;
      }
      if |args| < 3 {
        return false;
      }
      ok := EditEachRow(Substitute(idx.value, StripQuotes(args[1]), StripQuotes(args[2])));
    }

    method ExecMove(args: seq<string>) returns (ok: bool)
      modifies this
      ensures ok == Move(old(Snapshot()), args).Some?
      ensures ok ==> Snapshot() == Move(old(Snapshot()), args).value
    {
      if |args| < 2 {
        return false;
      }
      var a, b := ParseCol(args[0], colNames), ParseCol(args[1], colNames);
      if a.None? || b.None? {
        return true;
      }
      colNames := Moved(colNames, a.value, b.value);
      ok := EditEachRow(Relocate(a.value, b.value));
    }

    method ExecSwap(args: seq<string>) returns (ok: bool)
      modifies this
      ensures ok == Swap(old(Snapshot()), args).Some?
      ensures ok ==> Snapshot() == Swap(old(Snapshot()), args).value
    {
      if |args| < 2 {
        return false;
      }
      var a, b := ParseCol(args[0], colNames), ParseCol(args[1], colNames);
      if a.None? || b.None? {
        return true;
      }
      colNames := Swapped(colNames, a.value, b.value);
      ok := EditEachRow(Exchange(a.value, b.value));
    }

    /** The body of the op loop for one tokenized line. */
    method Execute(cmd: string, args: seq<string>, copy: Copy) returns (ok: bool)
      modifies this
      ensures ok == Step(old(Snapshot()), cmd, args, copy).Some?
      ensures ok ==> Snapshot() == Step(old(Snapshot()), cmd, args, copy).value
    {
      if cmd == "use" {
        ok := ExecUse(args, copy);
      } else if cmd == "rn" {
        ok := ExecRename(args);
      } else if cmd == "add" {
        ok := ExecAdd(args);
      } else if cmd == "set" {
        ok := ExecSet(args);
      } else if cmd == "replace_all" {
        ok := ExecReplaceText(args, true, true);
      } else if cmd == "replace_head" {
        ok := ExecReplaceText(args, true, false);
      } else if cmd == "replace_cell" {
        ok := ExecReplaceText(args, false, true);
      } else if cmd == "replace" {
        ok := ExecReplaceColumn(args);
      } else if cmd == "move" {
        ok := ExecMove(args);
      } else if cmd == "swap" {
        ok := ExecSwap(args);
      } else if cmd == "in" {
        ok := InCol(Snapshot(), args).Some?;
      } else {
        ok := true;
      }
    }

    /** One pass of the op loop: tokenize the line and run its command. */
    method RunOne(line: string, copy: Copy) returns (ok: bool)
      modifies this
      ensures ok == RunLine(old(Snapshot()), line, copy).Some?
      ensures ok ==> Snapshot() == RunLine(old(Snapshot()), line, copy).value
    {
      var tokens := Tokenize(line);
      if tokens == [] {
        return false;
      }
      ok := Execute(tokens[0], tokens[1..], copy);
    }

    /** `for op in ops:` over the op lines, stopping at the first exception. */
    method Run(lines: seq<string>, copy: Copy) returns (ok: bool)
      modifies this
      ensures ok == Exec(old(Snapshot()), lines, copy).Some?
      ensures ok ==> Snapshot() == Exec(old(Snapshot()), lines, copy).value
    {
      var i := 0;
      while i < |lines|
        invariant 0 <= i <= |lines|
        invariant Exec(old(Snapshot()), lines, copy) == Exec(Snapshot(), lines[i..], copy)
      {
        ghost var before := Snapshot();
        ExecFrom(before, lines, i, copy);
        ok := RunOne(lines[i], copy);
        if !ok {
          return false;
        }
        i := i + 1;
      }
      return true;
    }

    /** The output positions, cols.py:305-316. */
    method OutColumns() returns (cols: seq<nat>)
      ensures cols == OutputColumns(Snapshot().sel, |colNames|)
    {
      if lastUseAll {
        cols := AllColumns(|colNames|);
      } else if lastUseRange.Some? {
        cols := RangeColumns(lastUseRange.value.0, lastUseRange.value.1, |colNames|);
      } else if lastUseSingle != [] {
        cols := DedupFirst(lastUseSingle);
      } else {
        cols := AllColumns(|colNames|);
      }
    }

    /** The output header and, row by row, each row that every output position reaches. */
    method Emit() returns (out: Output)
      requires Fits(Snapshot())
      ensures out == Project(Snapshot())
    {
      var cols := OutColumns();
      var outRows: seq<seq<string>> := [];
      var n := 0;
      while n < |rows|
        invariant 0 <= n <= |rows|
        invariant outRows == ProjectRows(rows[..n], cols)
      {
        assert rows[..n + 1][..n] == rows[..n];
        if Covers(rows[n], cols) {
          outRows := outRows + [Pick(rows[n], cols)];
        }
        n := n + 1;
      }
      assert rows[..n] == rows;
      out := Output(Pick(colNames, cols), outRows);
    }
  }

  /** `process_csv` for one input file, after the reader has delivered its header and rows. */
  method ProcessCsv(header: seq<string>, data: seq<seq<string>>, specs: Specs, lines: seq<string>, copy: Copy)
    returns (r: Option<Output>)
    ensures r == ProcessFile(header, data, specs, lines, copy)
  {
    var w := ApplyWindow(data, specs);
    if w.None? {
      return None;
    }
    var p := new Processor(header, w.value);
    var ok := p.Run(lines, copy);
    if !ok {
      return None;
    }
    assert Fits(Table(header, w.value, NoUse));
    var out := p.Emit();
    return Some(out);
  }
}
