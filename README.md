# coLS column engine, modelled in Dafny

coLS reshapes CSV data with a small configuration language. A configuration file holds
*spec lines* (`in skip 2`, `in head 5`, `in tail 3`, `in trunc 1`, `in max 10`) that cut
a window out of the data rows. It also holds *op lines* (`use`, `rn`, `add`, `set`,
`replace_all`, `replace_head`, `replace_cell`, `replace`, `move`, `swap`) that run in order
over the header and the rows. At the end, the columns chosen by `use` are printed, for
the header and for every row.

This project models the engine's core in three copies of the program:

- **cols.py**, the main tool. Its core is:
  - the column-reference resolver `parse_col` (`@N`, `@"Name"`);
  - the helpers `do_replace`, `do_swap`, `do_move`, `streaming_tail` and `streaming_trunc`;
  - the configuration reader `parse_config`;
  - inside `process_csv`: the row window, the op loop with its tokenizer, and the output
    projection.
- **pycsv.py**, a near-copy of the same engine. It is modelled by the same definitions,
  with a `Copy` parameter. The parameter selects the two places where pycsv.py differs:
  - its `use @N-@M` guard is the strict pattern;
  - it prints a header line for every input file, not only the first.

  Lemmas prove that the two copies compute the same table for every file, for
  configurations whose column positions are written in ASCII digits (see "Left out").
- **csv.py**, the earlier draft. Its `parse_col` raises instead of skipping and has no
  bounds check. `keep_cols` starts as every column and `use` only adds to it. `rn` is
  recorded in a dict and applied after the loop, so later ops look names up in the
  original header.

Module layout:

| module | what it holds |
|---|---|
| `Wrappers` | `Option` and `Result` |
| `Text` | `str.strip`, `str.split`, `str.replace`, `int()` |
| `Lists` | `list.index`, `insert`, `pop`, `do_swap`, `do_move`, the order-preserving de-duplication |
| `ColRef` | `parse_col` |
| `Tokens` | the op-line tokenizer and the range patterns |
| `RowWindow` | the row-spec block and the streaming helpers |
| `Config` | `parse_config` |
| `Engine` | the op loop as functions, plus the class `Processor`, which holds `process_csv`'s locals and updates them in place as the source does |
| `EngineFacts` | per-command lemmas |
| `OutputFacts` | lemmas on the selection, the projection and the two copies |
| `Scenarios` | whole configurations run end to end, including the documented examples |
| `Draft` | csv.py |

How exceptions and inputs are modelled:

- A Python exception that ends a run is `None` in the engine and `Err` in the draft.
  Examples are an `IndexError` for a missing argument or a short row, and a `ValueError`
  from `int()`.
- A reference that does not resolve is not an error: the op is skipped.
- The CSV reader, `print` and the file system are left out. The model takes the header
  and rows the reader would deliver, and returns the lines as field lists.

Where the code and the usual description of the tool disagree, the model follows the code:

- **The last `use` decides.** A `use @N` after `use all` clears `last_use_all`, so `use all`
  does not override later `use` lines (`OutputFacts.LastUseWins`).
- **`use @N-@M` never selects a range when written in ASCII digits.** The tokenizer's
  `@[0-9]+` alternative always splits `@2-@4` into `@2` and `-@4`, so for ASCII digits the
  range branch is unreachable and the line acts as `use @2` (`Tokens.TokensNeverRange`,
  `Tokens.RangeLineTokens`). Python's `\d` also matches other Unicode decimal digits, which
  the tokenizer's `[0-9]` does not; see "Left out".
- **Window amounts may be negative.** `int()` accepts `-3` (`Text.ParseIntSigned`), and the
  slices then count from the end (`RowWindow.Bound`). Only `tail` rejects a negative amount, because `deque`
  refuses it.
- **Short rows.** An op that indexes a row shorter than the header raises and ends the run.
  In the projection, a row too short for an output column is skipped silently, because the
  source catches the exception (`Engine.ProjectRows`).
- **`in` with a tab.** A line starting `in` followed by a tab is not a spec line: after
  stripping it does not start with `in `. It reaches the op loop and its `in col … str`
  branch (`Config.InWithTabIsOp`, `Engine.InCol`).

## Model

| member | source | states |
|---|---|---|
| Text.ParseInt | cols.py:123-124 | on an unsigned string, `int()` is the value of its stripped digits |
| Text.ParseIntAccepts | cols.py:123-124 | `int()` succeeds exactly when the stripped text is an optional `+` or `-` followed by one or more digits, and raises `ValueError` otherwise |
| Text.ParseIntSigned | cols.py:175 | `int("-" + str(n)) == -n` and `int("+" + str(n)) == n`, so window amounts can be negative |
| Text.ParseIntOfString | cols.py:124 | `int(str(n)) == n` for every natural n, so `@N` written by a script resolves to N |
| Text.StripBy | cols.py:100 | `strip` removes only a leading and a trailing run of stripped characters: the result is a slice of the input, and it neither starts nor ends with a stripped character |
| Text.StripKeeps | cols.py:100 | a string with no stripped character at either end is left unchanged |
| Text.StripQuotesOfQuoted | cols.py:229 | `"name".strip('"')` gives back name, when name neither starts nor ends with a quote |
| Text.Words | cols.py:104 | `split()` yields only non-empty words without whitespace |
| Text.WordsNone | cols.py:104 | `split()` yields no words exactly when the text is all whitespace |
| Text.WordsCons | cols.py:104 | whitespace, then a word ending at whitespace or the end: `split()` yields that word first and then the words of the rest. With `Text.WordsNone` this fixes `split()` on every string |
| Text.WordsTwo | cols.py:104 | two words separated by whitespace split into exactly those two words |
| Text.ReplaceAbsent | cols.py:132-133 | replacing a non-empty string that does not occur leaves the text unchanged |
| Text.ReplaceSelf | cols.py:132-133 | replacing a string by itself leaves the text unchanged, including with an empty find string |
| Text.ReplaceKeepsLength | cols.py:132-133 | a replacement as long as what it replaces keeps the text's length |
| Lists.IndexOf | cols.py:119-120 | `header.index(name)` guarded by `name in header`: None exactly when absent, otherwise the first position holding name |
| Lists.InsertedAt | cols.py:237-239 | `insert` adds one element at the position and shifts the rest up by one |
| Lists.SwappedAt | cols.py:135-136 | `do_swap` exchanges exactly the two positions and keeps the length |
| Lists.SwapPermutes | cols.py:135-136 | `do_swap` keeps the same elements, each as often (multiset equality) |
| Lists.SwapTwice | cols.py:135-136 | swapping twice restores the list |
| Lists.MovedAt | cols.py:138-140 | `do_move` keeps length and multiset and leaves the moved element at the target |
| Lists.MovedPastEnd | cols.py:138-140 | a target past the end moves the element to the end, as `insert` does |
| Lists.MoveBack | cols.py:138-140 | moving from a to b and then from b to a restores the list |
| Lists.DedupSpec | cols.py:311-314 | the de-duplicated selection holds each selected column once, exactly the selected ones, in order of first use |
| Lists.DedupMembers | cols.py:311-314 | the de-duplicated list has the same members as the input |
| Lists.DedupDistinct | cols.py:311-314 | the de-duplicated list has no repeats |
| Lists.DedupOrder | cols.py:311-314 | elements appear in the order of their first occurrence |
| Lists.DedupRepeat | cols.py:311-314 | using an already-used column again changes nothing in the output |
| ColRef.ParseCol | cols.py:113-130 | a resolved reference is always a position of the header |
| ColRef.ParseColNeedsMarker | cols.py:114-115 | a reference without `@` never resolves |
| ColRef.ParseColByName | cols.py:117-122 | `@"Name"` resolves iff Name is in the header, and then to its first position |
| ColRef.ParseColByPosition | cols.py:123-128 | `@N` resolves to N iff N < len(header) |
| ColRef.ParseColNumeric | cols.py:123-130 | any other body resolves iff `int()` accepts it and the value is within the header, and then to that value |
| Tokens.MatchLength | cols.py:190 | the token at a position is empty exactly at whitespace |
| Tokens.Tokenize | cols.py:190 | every token is non-empty and starts with a non-space character |
| Tokens.RangeRef | cols.py:206-208 | the strict range pattern implies cols.py's loose guard |
| Tokens.TokensNeverRange | cols.py:190-213 | with ASCII digits, no token matches either range pattern, so the `use @N-@M` branch is never taken |
| Tokens.TokenNotRange | cols.py:190 | a single matched token never has the range shape |
| Tokens.RangeLineTokens | cols.py:78 | `use @2-@4` tokenizes to `use`, `@2`, `-@4` |
| Tokens.QuotedNameTokens | cols.py:73 | `rn @"First Name" "Name"` tokenizes to three tokens, the quoted name keeping its space |
| RowWindow.Bound | cols.py:175-187 | Python slice-bound clamping: within `[0, len]`, negative bounds counted from the end |
| RowWindow.StreamingTail | cols.py:142-147 | the bounded deque leaves exactly the last min(n, len) rows, in order |
| RowWindow.StreamingTrunc | cols.py:149-153 | `buf[:-n]` drops the last n rows for n > 0, and keeps all for n <= 0 |
| RowWindow.ApplyKey | cols.py:173-187 | one `if key in specs` block aborts iff the value does not convert (or `tail` is negative), otherwise cuts as specified |
| RowWindow.ApplyWindow | cols.py:172-187 | the row-spec block equals the window function and aborts iff some present value is malformed |
| RowWindow.WindowIsSlice | cols.py:172-187 | the window is always one contiguous run of the input rows, in their original order |
| RowWindow.StageIsSlice | cols.py:172-187 | each window step keeps a contiguous run of a contiguous run |
| RowWindow.CutIsSlice | cols.py:175-187 | each cut (skip, head, tail, trunc, max) is a sub-slice |
| RowWindow.NoWindowKeepsAll | cols.py:172-187 | without window keys every row is kept |
| RowWindow.SkipThenHead | cols.py:173-178 | skip s then head h keeps rows s .. s+h-1, whatever order the lines were written in |
| RowWindow.TenRowsExample | cols.py:173-187 | of 10 rows, skip 2, head 5 and max 3 leave `rows[2..5]`, the rows numbered 2, 3 and 4 |
| RowWindow.SkipThenHeadThenMax | cols.py:173-187 | `max` caps what skip and head left |
| RowWindow.HeadOfSkip | cols.py:175-187 | composing the slices gives one slice with the stated bounds |
| RowWindow.WordAmount | cols.py:175 | a present key whose value is the decimal n has amount n |
| RowWindow.BareDirectiveIsOne | cols.py:106 | a spec line without a value stores `True`, which `int()` reads as 1: `in tail` keeps only the last row |
| Config.Classify | cols.py:100-109 | an op line is the stripped raw line, non-empty, not a comment, not starting with `in ` |
| Config.ReadConfig | cols.py:94-111 | the reading loop computes exactly the parsed specs and ops |
| Config.TokenizeStarts | cols.py:190-191 | a non-empty line starting with a non-space character has a first token |
| Config.OpsFromEntries | cols.py:109 | every collected op is the text of some op line |
| Config.OpEntry | cols.py:100-109 | an op entry is a stripped file line, not a comment or a spec, and has a command token |
| Config.OpsHaveCommands | cols.py:100-109 | every op is a stripped line of the file and `tokens[0]` never raises on it |
| Config.OtherEntryKeepsSpec | cols.py:103-106 | a line that does not name a key leaves that key's spec unchanged |
| Config.SpecPresent | cols.py:103-106 | a key is in the specs iff some `in` line names it |
| Config.SpecFromLast | cols.py:103-106 | a key's value is the one stored by the last line naming it |
| Config.SpecFromLastLine | cols.py:94-111 | over the file's lines: presence iff some `in` line names the key, and the last one decides the value |
| Config.SpecLineWords | cols.py:100-106 | `in key value`, for words key and value, is a spec line storing value under key |
| Config.SpecLineBare | cols.py:100-106 | a bare `in key` is a spec line with the single word key, which stores `True` |
| Config.InWithTabIsOp | cols.py:103 | any line `in`, tab, text (ending in a non-space) is kept whole as an op line whose command token is `in` |
| Engine.StepGrows | cols.py:196-303 | every op keeps the row count, never shrinks the header, and keeps selected positions inside the header |
| Engine.RunLine | cols.py:189-192 | the same for one tokenized op line |
| Engine.Exec | cols.py:189-303 | the same for the whole op loop |
| Engine.OutputColumns | cols.py:305-316 | when every selected single is a header position, every output column is a header position |
| Engine.EditRow | cols.py:247-294 | the per-row statement of each command, including the cell loop of `replace_all`/`replace_cell`, computes the row edit |
| Engine.DedupFirst | cols.py:313-314 | the `seen`-set loop computes the order-preserving de-duplication |
| Engine.Processor.constructor | cols.py:157-168 | the locals start with the read header and rows and no `use` state |
| Engine.Processor.EditEachRow | cols.py:238-294 | the `for row in rows` loop succeeds iff every row is long enough, and then edits every row and nothing else |
| Engine.Processor.ExecUse | cols.py:196-222 | the `use` branch updates the three selection locals as the `use` function says, and fails exactly when it does |
| Engine.Processor.ExecRename | cols.py:224-231 | the `rn` branch, as `Rename` |
| Engine.Processor.ExecAdd | cols.py:232-239 | the `add` branch, as `Add` |
| Engine.Processor.ExecSet | cols.py:240-248 | the `set` branch, as `Set` |
| Engine.Processor.ExecReplaceText | cols.py:249-265 | the `replace_all`, `replace_head` and `replace_cell` branches, as `ReplaceText` |
| Engine.Processor.ExecReplaceColumn | cols.py:266-274 | the `replace` branch, as `ReplaceColumn` |
| Engine.Processor.ExecMove | cols.py:275-284 | the `move` branch, as `Move` |
| Engine.Processor.ExecSwap | cols.py:285-294 | the `swap` branch, as `Swap` |
| Engine.Processor.Execute | cols.py:196-303 | the dispatch on the command token, as `Step` |
| Engine.Processor.RunOne | cols.py:190-303 | one pass of the op loop: tokenize the line and run its command, as `RunLine` |
| Engine.Processor.Run | cols.py:189-303 | the op loop, as `Exec`, stopping at the first exception |
| Engine.Processor.OutColumns | cols.py:305-316 | the output positions by the precedence all, range, singles, everything |
| Engine.Processor.Emit | cols.py:318-329 | the output header and every row that all output positions reach, in order |
| Engine.ProcessCsv | cols.py:155-329 | one input file: window, op loop and projection, as `ProcessFile` |
| EngineFacts.UnresolvedUseSkipped | cols.py:215-218 | a `use` of a reference that does not resolve changes nothing |
| EngineFacts.UnresolvedEditSkipped | cols.py:225-270 | an `rn`, `add`, `set` or `replace` of an unresolved reference changes nothing |
| EngineFacts.InColKeeps | cols.py:295-300 | the `in col N str X` branch never changes the table: it raises or passes the table on, and it passes it on when there are four arguments and `int()` accepts N |
| EngineFacts.UnresolvedPairSkipped | cols.py:276-290 | a `move` or `swap` with an unresolved reference changes nothing |
| EngineFacts.EditLength | cols.py:238-294 | a row edit adds one field for `add` and keeps the length otherwise |
| EngineFacts.RectangularFits | cols.py:238-294 | on a table whose rows are as long as its header, no row edit at a header position raises |
| EngineFacts.EditAllRectangular | cols.py:238-294 | row edits keep every row as long as the new header |
| EngineFacts.StepRectangular | cols.py:189-303 | every op keeps `len(row) == len(header)`, and with enough arguments never raises on such a table |
| EngineFacts.AddRectangular | cols.py:232-239 | `add` keeps the table rectangular and succeeds with two arguments |
| EngineFacts.SetRectangular | cols.py:240-248 | `set` keeps the table rectangular and succeeds with two arguments |
| EngineFacts.ReplaceColumnRectangular | cols.py:266-274 | `replace` keeps the table rectangular and succeeds with three arguments |
| EngineFacts.ReplaceTextRectangular | cols.py:249-265 | the text replacements keep the table rectangular and succeed with two arguments |
| EngineFacts.MoveRectangular | cols.py:275-284 | `move` keeps the table rectangular and succeeds with two arguments |
| EngineFacts.SwapRectangular | cols.py:285-294 | `swap` keeps the table rectangular and succeeds with two arguments |
| EngineFacts.ExecRectangular | cols.py:189-303 | the whole op loop keeps the table rectangular |
| EngineFacts.SwapTwiceRestores | cols.py:285-294 | `swap @a @b` twice restores the table |
| EngineFacts.MoveBackRestores | cols.py:275-284 | `move @a @b` then `move @b @a` restores a rectangular table |
| EngineFacts.MoveShape | cols.py:275-284 | a successful `move` moves the header entry and the matching cell of every row to the target, keeping all entries |
| EngineFacts.SwapShape | cols.py:285-294 | a successful `swap` exchanges the two header entries and the two cells of every row, and nothing else |
| EngineFacts.AddShape | cols.py:232-239 | `add` inserts the name into the header and an empty cell into every row at the same position |
| EngineFacts.RenameShape | cols.py:224-231 | `rn` changes only the header entry at the resolved position |
| EngineFacts.SetShape | cols.py:240-248 | `set` overwrites the resolved column of every row and nothing else |
| EngineFacts.ReplaceHeadScope | cols.py:256-259 | `replace_head` rewrites every header entry and no cell |
| EngineFacts.ReplaceCellScope | cols.py:260-265 | `replace_cell` rewrites every cell and no header entry |
| EngineFacts.ReplaceAllScope | cols.py:249-255 | `replace_all` rewrites every header entry and every cell |
| EngineFacts.ReplaceColumnScope | cols.py:266-274 | `replace @c` rewrites column c of every row, and neither the other columns nor the header |
| OutputFacts.UseAppends | cols.py:215-222 | `use @N` for a header position appends N to the singles and clears `use all` and the range |
| OutputFacts.UseAllSelectsEverything | cols.py:198-203 | `use all` prints every column of the header, whatever came before |
| OutputFacts.LastUseWins | cols.py:196-222 | a `use @N` after `use all` prints only column N |
| OutputFacts.UseAgainCollapses | cols.py:311-314 | using an already-selected column does not print it twice |
| OutputFacts.UseTwiceOneColumn | cols.py:311-314 | `use @N` twice prints the single column N |
| OutputFacts.MissingNameSkipped | cols.py:215-218 | `use @"Name"` for an absent name changes nothing |
| OutputFacts.ProjectRowsWidth | cols.py:323-329 | at most one printed line per row, each with one field per output column |
| OutputFacts.OutputWidth | cols.py:318-329 | every printed row is as wide as the printed header |
| OutputFacts.ProjectRowsCovered | cols.py:323-329 | when every row reaches every output column, no row is dropped and each is projected in place |
| OutputFacts.ProjectRectangular | cols.py:318-329 | on a rectangular table every row is printed as its selected fields |
| OutputFacts.PickAll | cols.py:316-318 | picking every position of a row gives back the row |
| OutputFacts.ProjectWithoutUse | cols.py:315-318 | without `use` a rectangular table is printed whole |
| OutputFacts.ProcessFileKeepsRows | cols.py:155-329 | a file whose rows are as long as its header prints one line per window row, each as wide as the header line |
| OutputFacts.StepAgrees | pycsv.py:123 | the two copies' range guards differ only on range-shaped tokens |
| OutputFacts.RunLineAgrees | pycsv.py:107-130 | with ASCII digits, cols.py and pycsv.py do the same for every op line |
| OutputFacts.ExecAgrees | pycsv.py:107-220 | with ASCII digits, the two op loops agree on every configuration |
| OutputFacts.ProcessFileAgrees | pycsv.py:73-245 | with ASCII digits, the two copies compute the same output for every file |
| OutputFacts.ResultsAgree | pycsv.py:73-245 | with ASCII digits, cols.py and pycsv.py give the same result for every input file |
| OutputFacts.PycsvHeaderPerFile | pycsv.py:238-245 | for any per-file results, pycsv.py prints a header line before the rows of every file, up to the first failure |
| OutputFacts.ColsRowsAfterFirst | cols.py:321-322 | for any per-file results, cols.py prints no header line for files after the first |
| OutputFacts.ColsHeaderOnce | cols.py:321-326 | for any per-file results, cols.py prints the first file's header once, then the rows of every file up to the first failure |
| Scenarios.CommandToken | cols.py:190 | a command word followed by a space is one token |
| Scenarios.NameRefToken | cols.py:190 | `@"name"` is one token |
| Scenarios.PosRefToken | cols.py:190 | `@N` followed by a space or the end is one token |
| Scenarios.LiteralTokenOf | cols.py:190 | `"v"` is one token |
| Scenarios.RenameLineTokens | cols.py:190 | `rn @"c" "n"` tokenizes to its three parts |
| Scenarios.UseLineTokens | cols.py:190 | `use @"a"` tokenizes to its two parts |
| Scenarios.AddLineTokens | cols.py:190 | `add @i "name"` tokenizes to its three parts |
| Scenarios.PlainQuoted | cols.py:229 | stripping the quotes of `"v"` gives v |
| Scenarios.RunLineOf | cols.py:190-192 | a line runs as the step on its tokens |
| Scenarios.RenameStep | cols.py:224-231 | `rn @"c" "n"` renames the column holding c |
| Scenarios.UseStep | cols.py:215-222 | `use @"name"` appends the first position of name |
| Scenarios.RenameThenUseTable | cols.py:189-303 | after `rn` of c to n, `use @"a"` and `use @"n"` select columns 0 and 2: later ops see the new name |
| Scenarios.TwoUses | cols.py:215-222 | two `use` lines select their two columns in order |
| Scenarios.LastUse | cols.py:215-222 | a second `use` appends to the singles |
| Scenarios.ExecFirst | cols.py:189 | the loop runs the first line, then the rest |
| Scenarios.ProjectFirstAndLast | cols.py:318-326 | printing columns 0 and 2 of a three-column table |
| Scenarios.RenameThenUse | cols.py:155-329 | rename then use by the new name prints the two names and those two fields of every row |
| Scenarios.RenameThenUseExample | cols.py:155-329 | the example `id,name,amount` with amount renamed to Total and `use` of id and Total prints `id,Total`, `1,10`, `2,20` |
| Scenarios.AddStep | cols.py:232-239 | the table after `add @i "name"` |
| Scenarios.AddWithoutUse | cols.py:232-239 | with no `use`, `add` prints the whole table with the new empty column |
| Scenarios.AddNotesExample | cols.py:232-239 | `add @1 "Notes"` on the example prints `id,Notes,name,amount` with empty Notes fields |
| Draft.ParseCol | csv.py:24-36 | a reference that resolves starts with `@` |
| Draft.ParseColByName | csv.py:28-33 | `@"Name"` gives Name's first position, and raises `NameNotFound` when the header lacks it |
| Draft.ParseColNoBound | csv.py:34-35 | `@N` gives N whatever the header's length: there is no bounds check |
| Draft.ParseColNeedsMarker | csv.py:26-36 | a reference without `@` raises `Bad column spec` |
| Draft.ParseColAgrees | csv.py:24-36 | the final resolver gives i iff the draft gives i and i is a header position |
| Draft.PyIndex | csv.py:59 | Python list indexing: a valid index lands inside the list, at i or i+len; `IndexError` iff i >= len or i < -len |
| Draft.SplitOpcodeOf | csv.py:17-19 | `re.split(r'\s+', line, maxsplit=1)`: a whitespace-free opcode, then whitespace and the rest, which rejoin to the line |
| Draft.SplitOpcodeRejoins | csv.py:13-20 | the same for every stripped non-blank configuration line |
| Draft.ReadDraftConfig | csv.py:9-21 | the reading loop computes the op list |
| Draft.DraftConfigOpcodes | csv.py:13-20 | every op has a non-empty, whitespace-free opcode |
| Draft.RnTokens | csv.py:52 | every `rn` token starts with `@` or a quote and has at least two characters |
| Draft.PutLookup | csv.py:55 | after `renames[idx] = name`, `renames[idx]` is name and every other key keeps its value |
| Draft.PutKeys | csv.py:55 | the dict keeps each key once, and gains at most the new key |
| Draft.PutOverwrites | csv.py:55 | two assignments to the same key leave only the later value |
| Draft.Keep | csv.py:49 | `use` keeps idx, loses and moves nothing already kept, and keeps nothing twice |
| Draft.KeepStartsAll | csv.py:40-49 | `use` never narrows the output: every header column stays kept, in order, ahead of anything `use` adds |
| Draft.NoUseKeepsAll | csv.py:40-56 | without `use` exactly all columns are kept |
| Draft.RunOpsDistinct | csv.py:44-56 | the op loop keeps each dict key once |
| Draft.RunOpsStops | csv.py:44-56 | once an op raises, the loop's result is that exception |
| Draft.RunOpsLoop | csv.py:44-56 | the op loop computes the op-loop function |
| Draft.RenameNotVisible | csv.py:48-55 | after `rn` to a new name the header lacks, `use` of that new name raises: lookups see the original header |
| Draft.SecondRenameReplaces | csv.py:55 | a second `rn` of the same column replaces the first |
| Draft.ApplyRenames | csv.py:58-59 | applying the renames keeps the header's length |
| Draft.ApplyRenamesAt | csv.py:58-59 | a renamed position carries its dict value and any other position its old name, barring a negative key for the same position |
| Draft.RenameLoop | csv.py:58-59 | the rename loop computes `ApplyRenames` |
| Draft.Select | csv.py:61 | a selection that succeeds has one entry per kept index |
| Draft.SelectSpec | csv.py:61 | the selection succeeds iff every kept index is in range, Python-style, and then holds `xs[i]` for each kept i in order; otherwise it raises for an out-of-range index |
| Draft.SelectLoop | csv.py:61 | the comprehension, one index at a time, computes `Select` |
| Draft.ApplyOpsLoop | csv.py:38-66 | `apply_ops` computes the output header and kept positions as specified |
| Draft.WriteRowsStops | csv.py:63-77 | rows are written in order as their selections until the first row lacking a kept position, whose `IndexError` ends the run |
| Draft.WriteLoop | csv.py:76-77 | the writing loop computes `WriteRows` |
| Draft.ProcessCsv | csv.py:69-77 | `process_csv` writes the header line and then the rows, as `Process` |
| Draft.ProcessWidths | csv.py:61-77 | the header line and every row line have one field per kept position |

## Left out

- Reading files and writing output (`open`, `csv.reader`, `csv.writer`, `print`, the comma join): the model takes the rows the reader delivers and returns the printed lines as field lists. Quoting, delimiters and the `delim`/`str` spec values are therefore not modelled.
- `debug`, stderr warnings, `print_conf_help`, `print_sample_conf` and the command line (`argparse`, `sys.exit`): these do not affect the data.
- The empty input file (`next(reader)` raising `StopIteration`): the model always receives a header.
- ColRef.ParseCol: a negative position `@-N` is treated as unresolved. The source lets `int()` accept it and then uses Python's from-the-end indexing in every command. Modelling that would need negative indices in every list operation.
- Text.ParseInt: `int()` also accepts underscores between digits and non-ASCII decimal digits. The model accepts only ASCII digits with an optional sign and surrounding whitespace.
- Tokens.Tokenize: `\S` and `\d` follow Python's Unicode classes. The model's whitespace set is the one `str.isspace` uses for the characters listed in `Text.IsSpace`, and its digits are ASCII only.
- The `use @N-@M` range branch is modelled (`Engine.Use`, `Engine.RangeColumns`), but the model's tokenizer never produces a range token, so no configuration written in ASCII digits reaches it.
- Tokens.TokensNeverRange: holds only for ASCII digits. With other Unicode decimal digits, for example `use @٢-@٤` (U+0662, U+0664), the source's `\S+` alternative keeps `@٢-@٤` as one token, both range patterns match it and `int()` reads it, so cols.py:206-212 takes the range branch. The model's digit class is ASCII, so it cannot express this input.
- OutputFacts.RunLineAgrees: holds only for ASCII digits. `use @٢-٤` matches the loose guard at cols.py:206 but not the strict pattern, so cols.py raises `AttributeError` at cols.py:208, while pycsv.py:123 falls through to `parse_col` and skips the op.
- OutputFacts.ExecAgrees: holds only for ASCII digits, for the same `use @٢-٤` input as `OutputFacts.RunLineAgrees`.
- OutputFacts.ProcessFileAgrees: holds only for ASCII digits, for the same `use @٢-٤` input as `OutputFacts.RunLineAgrees`.
- OutputFacts.ResultsAgree: holds only for ASCII digits, for the same `use @٢-٤` input as `OutputFacts.RunLineAgrees`.
- `operated_cols` is never used by the source and is not modelled.
- Draft.RnTokens: only its shape is stated; the exact match positions of the `rn` pattern are not characterised by a lemma.
- Draft: a crash after some rows of one file leaves the earlier lines printed. The model returns those lines together with the failure, and does not model the traceback.
