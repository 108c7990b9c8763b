/**
 * What the op loop promises about the table: a reference that does not resolve changes
 * nothing, every column edit keeps the rows in step with the header, swap and move undo
 * themselves, and each replace touches exactly its scope.
 */
module EngineFacts {
  import opened Wrappers
  import opened Text
  import opened Lists
  import opened ColRef
  import opened Tokens
  import opened Engine

  /** The reference is a plain column reference: not `all` and not a range. */
  predicate PlainRef(ref: string) {
    ref != "all" && !LooseRange(ref) && RangeRef(ref).None?
  }

  /** `@N` is a plain reference. */
  lemma PosRefPlain(i: nat)
    ensures PlainRef(PosRef(i))
  {
    var r := PosRef(i);
    var digits := NatToString(i);
    assert r[1..] == digits;
    RunIs(r[1..], IsDigit, |digits|);
    assert r[0] == '@';
  }

  /** `@"Name"` is a plain reference. */
  lemma NameRefPlain(name: string)
    ensures PlainRef(NameRef(name))
  {
    var r := NameRef(name);
    assert r[1] == '"';
    assert r[1..][0] == '"';
  }

  /** A `use` whose reference does not resolve leaves the selection, and everything else, as it was. */
  lemma UnresolvedUseSkipped(t: Table, args: seq<string>, copy: Copy)
    requires |args| >= 1 && PlainRef(args[0]) && ParseCol(args[0], t.header).None?
    ensures Step(t, "use", args, copy) == Some(t)
  {
  }

  /** A `rn`, `add`, `set` or `replace` whose reference does not resolve changes nothing. */
  lemma UnresolvedEditSkipped(t: Table, cmd: string, args: seq<string>, copy: Copy)
    requires cmd == "rn" || cmd == "add" || cmd == "set" || cmd == "replace"
    requires |args| >= 1 && ParseCol(args[0], t.header).None?
    ensures Step(t, cmd, args, copy) == Some(t)
  {
  }

  /**
   * The `in col N str X` branch never changes the table: it raises or passes it on, and it
   * passes it on whenever its guard reads four arguments and `int()` accepts N.
   */
  lemma InColKeeps(t: Table, args: seq<string>, copy: Copy)
    ensures Step(t, "in", args, copy) == None || Step(t, "in", args, copy) == Some(t)
    ensures |args| >= 4 && ParseInt(args[1]).Some? ==> Step(t, "in", args, copy) == Some(t)
    ensures args == [] ==> Step(t, "in", args, copy) == None
  {
  }

  /** A `move` or `swap` one of whose two references does not resolve changes nothing. */
  lemma UnresolvedPairSkipped(t: Table, cmd: string, args: seq<string>, copy: Copy)
    requires cmd == "move" || cmd == "swap"
    requires |args| >= 2 && (ParseCol(args[0], t.header).None? || ParseCol(args[1], t.header).None?)
    ensures Step(t, cmd, args, copy) == Some(t)
  {
  }

  /** The length of a row after an edit: one more after `add`, the same otherwise. */
  lemma EditLength(e: RowEdit, row: seq<string>)
    requires FitsRow(e, row)
    ensures |Edit(e, row)| == |row| + (if e.Blank? then 1 else 0)
  {
  }

  /** Every row of a rectangular table is long enough for an edit whose columns are header positions. */
  lemma RectangularFits(t: Table, e: RowEdit)
    requires Rectangular(t)
    requires e.Fill? || e.Substitute? ==> e.col < |t.header|
    requires e.Relocate? ==> e.from < |t.header|
    requires e.Exchange? ==> e.a < |t.header| && e.b < |t.header|
    ensures AllFit(t.rows, e)
  {
  }

  /** The edit keeps a rectangular table rectangular, given the header it leaves behind. */
  lemma EditAllRectangular(t: Table, header: seq<string>, e: RowEdit)
    requires Rectangular(t) && AllFit(t.rows, e)
    requires |header| == |t.header| + (if e.Blank? then 1 else 0)
    ensures Rectangular(Table(header, EditRows(t.rows, e), t.sel))
  {
    forall k | 0 <= k < |t.rows| ensures |EditRows(t.rows, e)[k]| == |header| {
      EditLength(e, t.rows[k]);
    }
  }

  /**
   * Every op keeps `len(row) == len(header)` for all rows, and on such a table an op with
   * enough arguments never raises.
   */
  lemma StepRectangular(t: Table, cmd: string, args: seq<string>, copy: Copy)
    requires Rectangular(t)
    ensures Step(t, cmd, args, copy).Some? ==> Rectangular(Step(t, cmd, args, copy).value)
    ensures |args| >= 3 && cmd != "in" ==> Step(t, cmd, args, copy).Some?
  {
    if cmd == "add" {
      AddRectangular(t, args);
    } else if cmd == "set" {
      SetRectangular(t, args);
    } else if cmd == "replace" {
      ReplaceColumnRectangular(t, args);
    } else if cmd == "replace_all" {
      ReplaceTextRectangular(t, args, true, true);
    } else if cmd == "replace_head" {
      ReplaceTextRectangular(t, args, true, false);
    } else if cmd == "replace_cell" {
      ReplaceTextRectangular(t, args, false, true);
    } else if cmd == "move" {
      MoveRectangular(t, args);
    } else if cmd == "swap" {
      SwapRectangular(t, args);
    }
  }

  lemma AddRectangular(t: Table, args: seq<string>)
    requires Rectangular(t)
    ensures Add(t, args).Some? ==> Rectangular(Add(t, args).value)
    ensures |args| >= 2 ==> Add(t, args).Some?
  {
    if |args| >= 2 && ParseCol(args[0], t.header).Some? {
      var i := ParseCol(args[0], t.header).value;
      var h := Inserted(t.header, i, StripQuotes(args[1]));
      EditAllRectangular(t, h, Blank(i));
    }
  }

  lemma SetRectangular(t: Table, args: seq<string>)
    requires Rectangular(t)
    ensures Set(t, args).Some? ==> Rectangular(Set(t, args).value)
    ensures |args| >= 2 ==> Set(t, args).Some?
  {
    if |args| >= 2 && ParseCol(args[0], t.header).Some? {
      var e := Fill(ParseCol(args[0], t.header).value, StripQuotes(args[1]));
      RectangularFits(t, e);
      EditAllRectangular(t, t.header, e);
    }
  }

  lemma ReplaceColumnRectangular(t: Table, args: seq<string>)
    requires Rectangular(t)
    ensures ReplaceColumn(t, args).Some? ==> Rectangular(ReplaceColumn(t, args).value)
    ensures |args| >= 3 ==> ReplaceColumn(t, args).Some?
  {
    if |args| >= 3 && ParseCol(args[0], t.header).Some? {
      var e := Substitute(ParseCol(args[0], t.header).value, StripQuotes(args[1]), StripQuotes(args[2]));
      RectangularFits(t, e);
      EditAllRectangular(t, t.header, e);
    }
  }

  lemma ReplaceTextRectangular(t: Table, args: seq<string>, inHeader: bool, inCells: bool)
    requires Rectangular(t)
    ensures ReplaceText(t, args, inHeader, inCells).Some? ==> Rectangular(ReplaceText(t, args, inHeader, inCells).value)
    ensures |args| >= 2 ==> ReplaceText(t, args, inHeader, inCells).Some?
  {
    if |args| >= 2 {
      var e := SubstituteAll(StripQuotes(args[0]), StripQuotes(args[1]));
      var h := if inHeader then ReplaceEach(t.header, e.find, e.repl) else t.header;
      if inCells {
        EditAllRectangular(t, h, e);
      }
    }
  }

  lemma MoveRectangular(t: Table, args: seq<string>)
    requires Rectangular(t)
    ensures Move(t, args).Some? ==> Rectangular(Move(t, args).value)
    ensures |args| >= 2 ==> Move(t, args).Some?
  {
    if |args| >= 2 && ParseCol(args[0], t.header).Some? && ParseCol(args[1], t.header).Some? {
      var a, b := ParseCol(args[0], t.header).value, ParseCol(args[1], t.header).value;
      RectangularFits(t, Relocate(a, b));
      EditAllRectangular(t, Moved(t.header, a, b), Relocate(a, b));
    }
  }

  lemma SwapRectangular(t: Table, args: seq<string>)
    requires Rectangular(t)
    ensures Swap(t, args).Some? ==> Rectangular(Swap(t, args).value)
    ensures |args| >= 2 ==> Swap(t, args).Some?
  {
    if |args| >= 2 && ParseCol(args[0], t.header).Some? && ParseCol(args[1], t.header).Some? {
      var a, b := ParseCol(args[0], t.header).value, ParseCol(args[1], t.header).value;
      RectangularFits(t, Exchange(a, b));
      EditAllRectangular(t, Swapped(t.header, a, b), Exchange(a, b));
    }
  }

  /** The whole op loop keeps every row as long as the header. */
  lemma {:induction false} ExecRectangular(t: Table, lines: seq<string>, copy: Copy)
    requires Rectangular(t)
    ensures Exec(t, lines, copy).Some? ==> Rectangular(Exec(t, lines, copy).value)
    decreases |lines|
  {
    if lines != [] {
      var ts := Tokenize(lines[0]);
      if ts != [] {
        StepRectangular(t, ts[0], ts[1..], copy);
        var r := Step(t, ts[0], ts[1..], copy);
        if r.Some? {
          ExecRectangular(r.value, lines[1..], copy);
        }
      }
    }
  }

  /** `Step` on `rn` is the rename. */
  lemma StepRenameIs(t: Table, args: seq<string>, copy: Copy)
    ensures Step(t, "rn", args, copy) == Rename(t, args)
  {
  }

  /** A resolved `rn` overwrites that one header entry with the unquoted name. */
  lemma RenameIs(t: Table, args: seq<string>, i: nat)
    requires |args| >= 2 && ParseCol(args[0], t.header) == Some(i)
    ensures Rename(t, args) == Some(t.(header := t.header[i := StripQuotes(args[1])]))
  {
  }

  /** `Step` on `add` is the insertion. */
  lemma StepAddIs(t: Table, args: seq<string>, copy: Copy)
    ensures Step(t, "add", args, copy) == Add(t, args)
  {
  }

  /** `Step` on `use` is the selection update. */
  lemma StepUseIs(t: Table, args: seq<string>, copy: Copy)
    ensures Step(t, "use", args, copy) == Use(t, args, copy)
  {
  }

  /** What `Step` does for a `move` whose two references resolve. */
  lemma StepMoveIs(t: Table, args: seq<string>, copy: Copy, a: nat, b: nat)
    requires |args| >= 2 && ParseCol(args[0], t.header) == Some(a) && ParseCol(args[1], t.header) == Some(b)
    ensures Step(t, "move", args, copy) == EditAll(t.(header := Moved(t.header, a, b)), Relocate(a, b))
  {
    assert Step(t, "move", args, copy) == Move(t, args);
  }

  /** What `Step` does for a `swap` whose two references resolve. */
  lemma StepSwapIs(t: Table, args: seq<string>, copy: Copy, a: nat, b: nat)
    requires |args| >= 2 && ParseCol(args[0], t.header) == Some(a) && ParseCol(args[1], t.header) == Some(b)
    ensures Step(t, "swap", args, copy) == EditAll(t.(header := Swapped(t.header, a, b)), Exchange(a, b))
  {
    assert Step(t, "swap", args, copy) == Swap(t, args);
  }

  /** Positional references `@a`, `@b` resolve to `a` and `b` in any header that long. */
  lemma PairResolves(header: seq<string>, a: nat, b: nat)
    requires a < |header| && b < |header|
    ensures var args := [PosRef(a), PosRef(b)];
            |args| == 2 && ParseCol(args[0], header) == Some(a) && ParseCol(args[1], header) == Some(b)
  {
    ParseColByPosition(a, header);
    ParseColByPosition(b, header);
  }

  /** Exchanging the same two cells of every row twice gives back the rows. */
  lemma ExchangeTwice(rows: seq<seq<string>>, a: nat, b: nat)
    requires AllFit(rows, Exchange(a, b))
    ensures AllFit(EditRows(rows, Exchange(a, b)), Exchange(a, b))
    ensures EditRows(EditRows(rows, Exchange(a, b)), Exchange(a, b)) == rows
  {
    var e := Exchange(a, b);
    var rows1 := EditRows(rows, e);
    forall k | 0 <= k < |rows1| ensures FitsRow(e, rows1[k]) && Edit(e, rows1[k]) == rows[k] {
      assert rows1[k] == Swapped(rows[k], a, b);
      SwapTwice(rows[k], a, b);
    }
  }

  /** `swap @a @b` done twice gives back the table it started from. */
  lemma SwapTwiceRestores(t: Table, a: nat, b: nat, copy: Copy)
    requires a < |t.header| && b < |t.header|
    requires Step(t, "swap", [PosRef(a), PosRef(b)], copy).Some?
    ensures Step(Step(t, "swap", [PosRef(a), PosRef(b)], copy).value, "swap", [PosRef(a), PosRef(b)], copy)
            == Some(t)
  {
    var args := [PosRef(a), PosRef(b)];
    var e := Exchange(a, b);
    PairResolves(t.header, a, b);
    StepSwapIs(t, args, copy, a, b);
    var t1 := Step(t, "swap", args, copy).value;
    assert AllFit(t.rows, e);
    assert t1 == t.(header := Swapped(t.header, a, b), rows := EditRows(t.rows, e));
    PairResolves(t1.header, a, b);
    StepSwapIs(t1, args, copy, a, b);
    SwapTwice(t.header, a, b);
    ExchangeTwice(t.rows, a, b);
  }

  /** Moving a cell of every rectangular row from `a` to `b` and back gives back the rows. */
  lemma RelocateBack(rows: seq<seq<string>>, n: nat, a: nat, b: nat)
    requires a < n && b < n && forall k | 0 <= k < |rows| :: |rows[k]| == n
    ensures AllFit(rows, Relocate(a, b))
    ensures AllFit(EditRows(rows, Relocate(a, b)), Relocate(b, a))
    ensures EditRows(EditRows(rows, Relocate(a, b)), Relocate(b, a)) == rows
  {
    var rows1 := EditRows(rows, Relocate(a, b));
    forall k | 0 <= k < |rows1|
      ensures FitsRow(Relocate(b, a), rows1[k]) && Edit(Relocate(b, a), rows1[k]) == rows[k]
    {
      assert rows1[k] == Moved(rows[k], a, b);
      MovedAt(rows[k], a, b);
      MoveBack(rows[k], a, b);
    }
  }

  /** `move @a @b` followed by `move @b @a` gives back a rectangular table. */
  lemma MoveBackRestores(t: Table, a: nat, b: nat, copy: Copy)
    requires Rectangular(t) && a < |t.header| && b < |t.header|
    ensures Step(t, "move", [PosRef(a), PosRef(b)], copy).Some?
    ensures Step(Step(t, "move", [PosRef(a), PosRef(b)], copy).value, "move", [PosRef(b), PosRef(a)], copy)
            == Some(t)
  {
    var args, back := [PosRef(a), PosRef(b)], [PosRef(b), PosRef(a)];
    PairResolves(t.header, a, b);
    StepMoveIs(t, args, copy, a, b);
    RelocateBack(t.rows, |t.header|, a, b);
    var t1 := t.(header := Moved(t.header, a, b), rows := EditRows(t.rows, Relocate(a, b)));
    assert Step(t, "move", args, copy) == Some(t1);
    MovedAt(t.header, a, b);
    PairResolves(t1.header, b, a);
    StepMoveIs(t1, back, copy, b, a);
    MoveBack(t.header, a, b);
  }

  /**
   * A `move` that succeeds leaves the moved header entry at its target, keeps the header's
   * entries, and does the same to every row as long as the header.
   */
  lemma MoveShape(t: Table, args: seq<string>, copy: Copy)
    requires |args| >= 2 && ParseCol(args[0], t.header).Some? && ParseCol(args[1], t.header).Some?
    requires Step(t, "move", args, copy).Some?
    ensures var a, b := ParseCol(args[0], t.header).value, ParseCol(args[1], t.header).value;
            var t' := Step(t, "move", args, copy).value;
            && t'.sel == t.sel && |t'.rows| == |t.rows|
            && |t'.header| == |t.header| && t'.header[b] == t.header[a]
            && multiset(t'.header) == multiset(t.header)
            && forall k | 0 <= k < |t.rows| && |t.rows[k]| == |t.header| ::
                 |t'.rows[k]| == |t.rows[k]| && t'.rows[k][b] == t.rows[k][a]
                 && multiset(t'.rows[k]) == multiset(t.rows[k])
  {
    var a, b := ParseCol(args[0], t.header).value, ParseCol(args[1], t.header).value;
    StepMoveIs(t, args, copy, a, b);
    var rows' := EditRows(t.rows, Relocate(a, b));
    assert Step(t, "move", args, copy).value == t.(header := Moved(t.header, a, b), rows := rows');
    MovedAt(t.header, a, b);
    forall k | 0 <= k < |t.rows| && |t.rows[k]| == |t.header|
      ensures |rows'[k]| == |t.rows[k]| && rows'[k][b] == t.rows[k][a]
      ensures multiset(rows'[k]) == multiset(t.rows[k])
    {
      assert rows'[k] == Moved(t.rows[k], a, b);
      MovedAt(t.rows[k], a, b);
    }
  }

  /** Exchanging cells `a` and `b` of every row touches those two cells and no other. */
  lemma ExchangeShape(rows: seq<seq<string>>, a: nat, b: nat)
    requires AllFit(rows, Exchange(a, b))
    ensures var rows' := EditRows(rows, Exchange(a, b));
            |rows'| == |rows|
            && forall k | 0 <= k < |rows| ::
                 && |rows'[k]| == |rows[k]|
                 && rows'[k][a] == rows[k][b] && rows'[k][b] == rows[k][a]
                 && forall j | 0 <= j < |rows[k]| && j != a && j != b :: rows'[k][j] == rows[k][j]
  {
    var rows' := EditRows(rows, Exchange(a, b));
    forall k | 0 <= k < |rows|
      ensures |rows'[k]| == |rows[k]|
      ensures rows'[k][a] == rows[k][b] && rows'[k][b] == rows[k][a]
      ensures forall j | 0 <= j < |rows[k]| && j != a && j != b :: rows'[k][j] == rows[k][j]
    {
      assert rows'[k] == Swapped(rows[k], a, b);
      SwappedAt(rows[k], a, b);
    }
  }

  /** A `swap` that succeeds exchanges the two header entries and the two cells of every row, and nothing else. */
  lemma SwapShape(t: Table, args: seq<string>, copy: Copy)
    requires |args| >= 2 && ParseCol(args[0], t.header).Some? && ParseCol(args[1], t.header).Some?
    requires Step(t, "swap", args, copy).Some?
    ensures var a, b := ParseCol(args[0], t.header).value, ParseCol(args[1], t.header).value;
            var t' := Step(t, "swap", args, copy).value;
            && t'.sel == t.sel && |t'.rows| == |t.rows|
            && |t'.header| == |t.header| && t'.header[a] == t.header[b] && t'.header[b] == t.header[a]
            && (forall j | 0 <= j < |t.header| && j != a && j != b :: t'.header[j] == t.header[j])
            && forall k | 0 <= k < |t.rows| ::
                 && a < |t.rows[k]| && b < |t.rows[k]| && |t'.rows[k]| == |t.rows[k]|
                 && t'.rows[k][a] == t.rows[k][b] && t'.rows[k][b] == t.rows[k][a]
                 && forall j | 0 <= j < |t.rows[k]| && j != a && j != b :: t'.rows[k][j] == t.rows[k][j]
  {
    var a, b := ParseCol(args[0], t.header).value, ParseCol(args[1], t.header).value;
    StepSwapIs(t, args, copy, a, b);
    assert AllFit(t.rows, Exchange(a, b));
    var rows' := EditRows(t.rows, Exchange(a, b));
    assert Step(t, "swap", args, copy).value == t.(header := Swapped(t.header, a, b), rows := rows');
    SwappedAt(t.header, a, b);
    ExchangeShape(t.rows, a, b);
  }

  /**
   * `add` on a rectangular table puts the new name into the header at the resolved position
   * and an empty cell into every row at the same position, shifting the rest one to the right.
   */
  lemma AddShape(t: Table, args: seq<string>, copy: Copy)
    requires Rectangular(t) && |args| >= 2 && ParseCol(args[0], t.header).Some?
    ensures Step(t, "add", args, copy).Some?
    ensures var i := ParseCol(args[0], t.header).value;
            var t' := Step(t, "add", args, copy).value;
            && Rectangular(t') && t'.sel == t.sel && |t'.rows| == |t.rows|
            && |t'.header| == |t.header| + 1 && t'.header[i] == StripQuotes(args[1])
            && t'.header[..i] == t.header[..i] && t'.header[i + 1..] == t.header[i..]
            && forall k | 0 <= k < |t.rows| ::
                 t'.rows[k][i] == "" && t'.rows[k][..i] == t.rows[k][..i] && t'.rows[k][i + 1..] == t.rows[k][i..]
  {
    var i := ParseCol(args[0], t.header).value;
    StepRectangular(t, "add", args, copy);
    var t' := Step(t, "add", args, copy).value;
    assert t'.header == t.header[..i] + [StripQuotes(args[1])] + t.header[i..];
    forall k | 0 <= k < |t.rows|
      ensures t'.rows[k][i] == "" && t'.rows[k][..i] == t.rows[k][..i] && t'.rows[k][i + 1..] == t.rows[k][i..]
    {
      assert t'.rows[k] == t.rows[k][..i] + [""] + t.rows[k][i..];
    }
  }

  /** `rn` changes the header entry at the resolved position and nothing else. */
  lemma RenameShape(t: Table, args: seq<string>, copy: Copy)
    requires |args| >= 2 && ParseCol(args[0], t.header).Some?
    ensures Step(t, "rn", args, copy).Some?
    ensures var i := ParseCol(args[0], t.header).value;
            var t' := Step(t, "rn", args, copy).value;
            && t'.rows == t.rows && t'.sel == t.sel
            && |t'.header| == |t.header| && t'.header[i] == StripQuotes(args[1])
            && forall j | 0 <= j < |t.header| && j != i :: t'.header[j] == t.header[j]
  {
  }

  /** `set` on a rectangular table overwrites the resolved column of every row and nothing else. */
  lemma SetShape(t: Table, args: seq<string>, copy: Copy)
    requires Rectangular(t) && |args| >= 2 && ParseCol(args[0], t.header).Some?
    ensures Step(t, "set", args, copy).Some?
    ensures var i := ParseCol(args[0], t.header).value;
            var t' := Step(t, "set", args, copy).value;
            && t'.header == t.header && t'.sel == t.sel && |t'.rows| == |t.rows|
            && forall k | 0 <= k < |t.rows| ::
                 |t'.rows[k]| == |t.rows[k]|
                 && forall j | 0 <= j < |t.rows[k]| ::
                      t'.rows[k][j] == if j == i then StripQuotes(args[1]) else t.rows[k][j]
  {
    StepRectangular(t, "set", args, copy);
  }

  /** `replace_head` rewrites every header entry and no cell. */
  lemma ReplaceHeadScope(t: Table, args: seq<string>, copy: Copy)
    requires |args| >= 2
    ensures Step(t, "replace_head", args, copy).Some?
    ensures var t' := Step(t, "replace_head", args, copy).value;
            && t'.rows == t.rows && t'.sel == t.sel && |t'.header| == |t.header|
            && forall j | 0 <= j < |t.header| ::
                 t'.header[j] == Replace(t.header[j], StripQuotes(args[0]), StripQuotes(args[1]))
  {
  }

  /** `replace_cell` rewrites every cell of every row and no header entry. */
  lemma ReplaceCellScope(t: Table, args: seq<string>, copy: Copy)
    requires |args| >= 2
    ensures Step(t, "replace_cell", args, copy).Some?
    ensures var t' := Step(t, "replace_cell", args, copy).value;
            && t'.header == t.header && t'.sel == t.sel && |t'.rows| == |t.rows|
            && forall k | 0 <= k < |t.rows| ::
                 |t'.rows[k]| == |t.rows[k]|
                 && forall j | 0 <= j < |t.rows[k]| ::
                      t'.rows[k][j] == Replace(t.rows[k][j], StripQuotes(args[0]), StripQuotes(args[1]))
  {
  }

  /** `replace_all` rewrites every header entry and every cell. */
  lemma ReplaceAllScope(t: Table, args: seq<string>, copy: Copy)
    requires |args| >= 2
    ensures Step(t, "replace_all", args, copy).Some?
    ensures var t' := Step(t, "replace_all", args, copy).value;
            var f, r := StripQuotes(args[0]), StripQuotes(args[1]);
            && t'.sel == t.sel && |t'.header| == |t.header| && |t'.rows| == |t.rows|
            && (forall j | 0 <= j < |t.header| :: t'.header[j] == Replace(t.header[j], f, r))
            && forall k | 0 <= k < |t.rows| ::
                 |t'.rows[k]| == |t.rows[k]|
                 && forall j | 0 <= j < |t.rows[k]| :: t'.rows[k][j] == Replace(t.rows[k][j], f, r)
  {
  }

  /**
   * `replace @c` on a rectangular table rewrites column c of every row, and neither the other
   * columns nor the header.
   */
  lemma ReplaceColumnScope(t: Table, args: seq<string>, copy: Copy)
    requires Rectangular(t) && |args| >= 3 && ParseCol(args[0], t.header).Some?
    ensures Step(t, "replace", args, copy).Some?
    ensures var c := ParseCol(args[0], t.header).value;
            var f, r := StripQuotes(args[1]), StripQuotes(args[2]);
            var t' := Step(t, "replace", args, copy).value;
            && t'.header == t.header && t'.sel == t.sel && |t'.rows| == |t.rows|
            && forall k | 0 <= k < |t.rows| ::
                 |t'.rows[k]| == |t.rows[k]|
                 && forall j | 0 <= j < |t.rows[k]| ::
                      t'.rows[k][j] == if j == c then Replace(t.rows[k][j], f, r) else t.rows[k][j]
  {
    StepRectangular(t, "replace", args, copy);
  }
}
