/**
 * The row-window filter of `process_csv` (cols.py and pycsv.py): the `in skip|head|tail|trunc|max N`
 * directives narrow the data rows before any operation runs, always in that order, each only
 * when its key is present in the directive map.
 */
module RowWindow {
  import opened Wrappers
  import opened Text

  /** A directive value as the config parser stores it: the word after the key, or `True` when none was given. */
  datatype SpecValue = Word(text: string) | Flag

  type Specs = map<string, SpecValue>

  /** `int(value)`: `int(True)` is 1; a word must be an integer, otherwise the run aborts. */
  function SpecInt(v: SpecValue): Option<int> {
    match v
    case Flag => Some(1)
    case Word(s) => ParseInt(s)
  }

  function Min(a: nat, b: nat): nat {
    if a <= b then a else b
  }

  /**
   * Where a slice bound `n` lands in a list of length `len`: past the end it stops at the end,
   * and a negative bound counts back from the end, stopping at the start.
   */
  function Bound(n: int, len: nat): (b: nat)
    ensures b <= len
    ensures n >= 0 ==> b == Min(n, len)
    ensures n < 0 ==> b == if len + n >= 0 then len + n else 0
  {
    if n >= 0 then Min(n, len) else if len + n >= 0 then len + n else 0
  }

  /** `rows[n:]`. */
  function Skip<T>(rows: seq<T>, n: int): seq<T> {
    rows[Bound(n, |rows|)..]
  }

  /** `rows[:n]`, used by both `head` and `max`. */
  function Head<T>(rows: seq<T>, n: int): seq<T> {
    rows[..Bound(n, |rows|)]
  }

  /**
   * `streaming_tail`: every row goes through a deque bounded to `n` entries, which drops its
   * oldest entry when full. What is left are the last min(n, len) rows, in order.
   */
  method StreamingTail<T>(src: seq<T>, n: nat) returns (r: seq<T>)
    ensures |r| == Min(n, |src|)
    ensures r == src[|src| - Min(n, |src|)..]
  {
    var dq: seq<T> := [];
    var i := 0;
    while i < |src|
      invariant 0 <= i <= |src|
      invariant dq == src[i - Min(n, i)..i]
    {
      dq := dq + [src[i]];
      if |dq| > n {
        dq := dq[1..];
      }
      i := i + 1;
    }
    r := dq;
  }

  /**
   * `streaming_trunc`: buffer every row, then drop the last `n` (`buf[:-n]`), keeping all of
   * them when `n` is 0 and none when `n` is at least the number of rows.
   */
  method StreamingTrunc<T>(src: seq<T>, n: int) returns (r: seq<T>)
    ensures n > 0 ==> r == src[..|src| - Min(n, |src|)]
    ensures n <= 0 ==> r == src
  {
    var buf: seq<T> := [];
    var i := 0;
    while i < |src|
      invariant 0 <= i <= |src|
      invariant buf == src[..i]
    {
      buf := buf + [src[i]];
      i := i + 1;
    }
    assert buf == src;
    if n > 0 {
      r := if n < |buf| then buf[..|buf| - n] else [];
    } else {
      r := buf;
    }
  }

  /** The five row-window keys, declared in the order they are applied. */
  datatype Key = SkipKey | HeadKey | TailKey | TruncKey | MaxKey

  function KeyName(k: Key): string {
    match k
    case SkipKey => "skip"
    case HeadKey => "head"
    case TailKey => "tail"
    case TruncKey => "trunc"
    case MaxKey => "max"
  }

  /**
   * The key is absent, or its value is one `int()` accepts; for `tail` it must not be
   * negative either, since a deque refuses a negative bound.
   */
  predicate KeyOk(specs: Specs, k: Key) {
    KeyName(k) in specs ==>
      SpecInt(specs[KeyName(k)]).Some? && (k == TailKey ==> SpecInt(specs[KeyName(k)]).value >= 0)
  }

  /** Every window key that is present has a value the run accepts. */
  predicate WellFormed(specs: Specs) {
    forall k :: KeyOk(specs, k)
  }

  /** The amount for a present key. */
  function Amount(specs: Specs, k: Key): int
    requires KeyName(k) in specs && KeyOk(specs, k)
  {
    SpecInt(specs[KeyName(k)]).value
  }

  /**
   * What one key does with its amount: `rows[n:]`, `rows[:n]`, the last n, all but the last n
   * (all of them for n <= 0), `rows[:n]`.
   */
  function Cut<T>(rows: seq<T>, k: Key, n: int): seq<T> {
    match k
    case SkipKey => Skip(rows, n)
    case HeadKey => Head(rows, n)
    case TailKey => if n >= 0 then rows[|rows| - Min(n, |rows|)..] else rows
    case TruncKey => if n > 0 then rows[..|rows| - Min(n, |rows|)] else rows
    case MaxKey => Head(rows, n)
  }

  /** One window step: the key's cut when the key is present, nothing otherwise. */
  function Stage<T>(rows: seq<T>, specs: Specs, k: Key): seq<T>
    requires KeyOk(specs, k)
  {
    if KeyName(k) in specs then Cut(rows, k, Amount(specs, k)) else rows
  }

  /**
   * The rows that reach the operations: skip, head, tail, trunc, max, each applied only when
   * its key is present. A value that does not parse aborts the run (None).
   */
  function Window<T>(rows: seq<T>, specs: Specs): Option<seq<T>> {
    if !WellFormed(specs) then None
    else
      var r1 := Stage(rows, specs, SkipKey);
      var r2 := Stage(r1, specs, HeadKey);
      var r3 := Stage(r2, specs, TailKey);
      var r4 := Stage(r3, specs, TruncKey);
      Some(Stage(r4, specs, MaxKey))
  }

  /**
   * One `if key in specs:` block of `process_csv`: convert the value, aborting when it does
   * not convert, and cut the rows; `tail` and `trunc` go through the streaming helpers.
   */
  method ApplyKey<T>(rows: seq<T>, specs: Specs, k: Key) returns (r: Option<seq<T>>)
    ensures r.None? <==> !KeyOk(specs, k)
    ensures r.Some? ==> r.value == Stage(rows, specs, k)
  {
    if KeyName(k) !in specs {
      return Some(rows);
    }
    var v := SpecInt(specs[KeyName(k)]);
    if v.None? {
      return None;
    }
    var n := v.value;
    match k {
      case SkipKey => r := Some(rows[Bound(n, |rows|)..]);
      case HeadKey => r := Some(rows[..Bound(n, |rows|)]);
      case TailKey =>
        if n < 0 {
          return None;
        }
        var t := StreamingTail(rows, n);
        r := Some(t);
      case TruncKey =>
        var t := StreamingTrunc(rows, n);
        r := Some(t);
      case MaxKey => r := Some(rows[..Bound(n, |rows|)]);
    }
  }

  /** The row-spec block of `process_csv`, over the buffered rows. */
  method ApplyWindow<T>(rows: seq<T>, specs: Specs) returns (r: Option<seq<T>>)
    ensures r == Window(rows, specs)
    ensures r.None? <==> !WellFormed(specs)
  {
    var r1 := ApplyKey(rows, specs, SkipKey);
    if r1.None? { return None; }
    var r2 := ApplyKey(r1.value, specs, HeadKey);
    if r2.None? { return None; }
    var r3 := ApplyKey(r2.value, specs, TailKey);
    if r3.None? { return None; }
    var r4 := ApplyKey(r3.value, specs, TruncKey);
    if r4.None? { return None; }
    r := ApplyKey(r4.value, specs, MaxKey);
    if r.Some? {
      assert forall k :: KeyOk(specs, k) by {
        forall k ensures KeyOk(specs, k) {
          match k
          case SkipKey =>
          case HeadKey =>
          case TailKey =>
          case TruncKey =>
          case MaxKey =>
        }
      }
    }
  }

  /** The window is always one contiguous run of the input rows, kept in their original order. */
  lemma WindowIsSlice<T>(rows: seq<T>, specs: Specs)
    requires WellFormed(specs)
    ensures exists lo, hi :: 0 <= lo <= hi <= |rows| && Window(rows, specs) == Some(rows[lo..hi])
  {
    assert rows == rows[0..|rows|];
    var lo1, hi1 := StageIsSlice(rows, 0, |rows|, specs, SkipKey);
    var lo2, hi2 := StageIsSlice(rows, lo1, hi1, specs, HeadKey);
    var lo3, hi3 := StageIsSlice(rows, lo2, hi2, specs, TailKey);
    var lo4, hi4 := StageIsSlice(rows, lo3, hi3, specs, TruncKey);
    var lo5, hi5 := StageIsSlice(rows, lo4, hi4, specs, MaxKey);
    assert Window(rows, specs) == Some(rows[lo5..hi5]);
  }

  /** Each step keeps a contiguous run of a contiguous run. */
  lemma StageIsSlice<T>(rows: seq<T>, lo: nat, hi: nat, specs: Specs, k: Key) returns (lo': nat, hi': nat)
    requires lo <= hi <= |rows| && KeyOk(specs, k)
    ensures lo <= lo' <= hi' <= hi
    ensures Stage(rows[lo..hi], specs, k) == rows[lo'..hi']
  {
    lo', hi' := lo, hi;
    if KeyName(k) in specs {
      lo', hi' := CutIsSlice(rows, lo, hi, k, Amount(specs, k));
    }
  }

  lemma CutIsSlice<T>(rows: seq<T>, lo: nat, hi: nat, k: Key, n: int) returns (lo': nat, hi': nat)
    requires lo <= hi <= |rows|
    ensures lo <= lo' <= hi' <= hi
    ensures Cut(rows[lo..hi], k, n) == rows[lo'..hi']
  {
    lo', hi' := lo, hi;
    match k
    case SkipKey =>
      lo' := SkipIsSlice(rows, lo, hi, n);
    case HeadKey =>
      hi' := HeadIsSlice(rows, lo, hi, n);
    case TailKey =>
      if n >= 0 {
        lo' := TailIsSlice(rows, lo, hi, n);
      }
    case TruncKey =>
      if n > 0 {
        hi' := TruncIsSlice(rows, lo, hi, n);
      }
    case MaxKey =>
      hi' := HeadIsSlice(rows, lo, hi, n);
  }

  lemma SkipIsSlice<T>(rows: seq<T>, lo: nat, hi: nat, n: int) returns (lo': nat)
    requires lo <= hi <= |rows|
    ensures lo <= lo' <= hi && Skip(rows[lo..hi], n) == rows[lo'..hi]
  {
    var b := Bound(n, hi - lo);
    lo' := lo + b;
    SuffixOfSlice(rows, lo, hi, b);
  }

  lemma HeadIsSlice<T>(rows: seq<T>, lo: nat, hi: nat, n: int) returns (hi': nat)
    requires lo <= hi <= |rows|
    ensures lo <= hi' <= hi && Head(rows[lo..hi], n) == rows[lo..hi']
  {
    var b := Bound(n, hi - lo);
    hi' := lo + b;
    PrefixOfSlice(rows, lo, hi, b);
  }

  lemma TailIsSlice<T>(rows: seq<T>, lo: nat, hi: nat, n: nat) returns (lo': nat)
    requires lo <= hi <= |rows|
    ensures lo <= lo' <= hi
    ensures rows[lo..hi][|rows[lo..hi]| - Min(n, |rows[lo..hi]|)..] == rows[lo'..hi]
  {
    var m := Min(n, hi - lo);
    lo' := hi - m;
    SuffixOfSlice(rows, lo, hi, hi - lo - m);
  }

  lemma TruncIsSlice<T>(rows: seq<T>, lo: nat, hi: nat, n: nat) returns (hi': nat)
    requires lo <= hi <= |rows|
    ensures lo <= hi' <= hi
    ensures rows[lo..hi][..|rows[lo..hi]| - Min(n, |rows[lo..hi]|)] == rows[lo..hi']
  {
    var m := Min(n, hi - lo);
    hi' := hi - m;
    PrefixOfSlice(rows, lo, hi, hi - lo - m);
  }

  lemma PrefixOfSlice<T>(rows: seq<T>, lo: nat, hi: nat, b: nat)
    requires lo <= hi <= |rows| && b <= hi - lo
    ensures rows[lo..hi][..b] == rows[lo..lo + b]
  {
  }

  lemma SuffixOfSlice<T>(rows: seq<T>, lo: nat, hi: nat, b: nat)
    requires lo <= hi <= |rows| && b <= hi - lo
    ensures rows[lo..hi][b..] == rows[lo + b..hi]
  {
  }

  /** Without window keys every row goes through. */
  lemma NoWindowKeepsAll<T>(rows: seq<T>, specs: Specs)
    requires forall k :: KeyName(k) !in specs
    ensures Window(rows, specs) == Some(rows)
  {
    assert WellFormed(specs);
  }

  /**
   * `head` counts from where `skip` left off: skip s then head h keeps rows s .. s+h-1,
   * whatever order the directives were written in.
   */
  lemma SkipThenHead<T>(rows: seq<T>, s: nat, h: nat)
    ensures Window(rows, map["head" := Word(NatToString(h)), "skip" := Word(NatToString(s))])
            == Some(rows[Min(s, |rows|)..Min(s + h, |rows|)])
  {
    var specs := map["head" := Word(NatToString(h)), "skip" := Word(NatToString(s))];
    WordAmount(specs, SkipKey, s);
    WordAmount(specs, HeadKey, h);
    assert "tail" !in specs && "trunc" !in specs && "max" !in specs;
    assert WellFormed(specs) by {
      forall k ensures KeyOk(specs, k) {
        assert KeyName(k) in specs ==> k == SkipKey || k == HeadKey;
      }
    }
    var r1 := Stage(rows, specs, SkipKey);
    var r2 := Stage(r1, specs, HeadKey);
    assert r1 == Skip(rows, s);
    assert r2 == Head(r1, h);
    HeadAfterSkip(rows, s, h);
    assert Stage(r2, specs, TailKey) == r2;
    assert Stage(r2, specs, TruncKey) == r2;
    assert Stage(r2, specs, MaxKey) == r2;
  }

  /** The worked example: of 10 rows, skip 2, head 5 and max 3 leave rows 2, 3 and 4. */
  lemma TenRowsExample<T>(rows: seq<T>, specs: Specs)
    requires |rows| == 10
    requires specs == map["skip" := Word("2"), "head" := Word("5"), "max" := Word("3")]
    ensures Window(rows, specs) == Some(rows[2..5])
  {
    TenRowsSpecs(specs);
    SkipThenHeadThenMax(rows, specs, 2, 5, 3);
  }

  lemma TenRowsSpecs(specs: Specs)
    requires specs == map["skip" := Word("2"), "head" := Word("5"), "max" := Word("3")]
    ensures specs == map["skip" := Word(NatToString(2)), "head" := Word(NatToString(5)), "max" := Word(NatToString(3))]
  {
    assert NatToString(2) == "2";
    assert NatToString(5) == "5";
    assert NatToString(3) == "3";
  }

  /** `max` caps what skip and head left, counted from the first of those rows. */
  lemma SkipThenHeadThenMax<T>(rows: seq<T>, specs: Specs, s: nat, h: nat, m: nat)
    requires specs == map["skip" := Word(NatToString(s)), "head" := Word(NatToString(h)), "max" := Word(NatToString(m))]
    ensures Window(rows, specs) == Some(rows[Min(s, |rows|)..Min(s + Min(h, m), |rows|)])
  {
    WordAmount(specs, SkipKey, s);
    WordAmount(specs, HeadKey, h);
    WordAmount(specs, MaxKey, m);
    assert "tail" !in specs && "trunc" !in specs;
    SkipHeadMaxWindow(rows, specs);
    HeadOfSkip(rows, s, h, m);
  }

  /** With only skip, head and max present, the window is those three cuts in that order. */
  lemma SkipHeadMaxWindow<T>(rows: seq<T>, specs: Specs)
    requires "tail" !in specs && "trunc" !in specs
    requires "skip" in specs && "head" in specs && "max" in specs
    requires KeyOk(specs, SkipKey) && KeyOk(specs, HeadKey) && KeyOk(specs, MaxKey)
    ensures Window(rows, specs)
            == Some(Head(Head(Skip(rows, Amount(specs, SkipKey)), Amount(specs, HeadKey)), Amount(specs, MaxKey)))
  {
    assert WellFormed(specs) by {
      forall k ensures KeyOk(specs, k) {
        match k
        case SkipKey =>
        case HeadKey =>
        case TailKey =>
        case TruncKey =>
        case MaxKey =>
      }
    }
    var r2 := Stage(Stage(rows, specs, SkipKey), specs, HeadKey);
    assert Stage(r2, specs, TailKey) == r2;
    assert Stage(r2, specs, TruncKey) == r2;
  }

  lemma HeadOfSkip<T>(rows: seq<T>, s: nat, h: nat, m: nat)
    ensures Head(Head(Skip(rows, s), h), m) == rows[Min(s, |rows|)..Min(s + Min(h, m), |rows|)]
  {
    var r2 := Head(Skip(rows, s), h);
    HeadAfterSkip(rows, s, h);
    assert Min(s, |rows|) + Min(m, |r2|) == Min(s + Min(h, m), |rows|);
  }

  lemma HeadAfterSkip<T>(rows: seq<T>, s: nat, h: nat)
    ensures Head(Skip(rows, s), h) == rows[Min(s, |rows|)..Min(s + h, |rows|)]
  {
  }

  lemma WordAmount(specs: Specs, k: Key, n: nat)
    requires KeyName(k) in specs && specs[KeyName(k)] == Word(NatToString(n))
    ensures KeyOk(specs, k) && Amount(specs, k) == n
  {
    ParseIntOfString(n);
  }

  /** A directive given without a value counts as 1: `in tail` keeps only the last row. */
  lemma BareDirectiveIsOne<T>(rows: seq<T>)
    requires |rows| > 0
    ensures Window(rows, map["tail" := Flag]) == Some([rows[|rows| - 1]])
  {
    var specs := map["tail" := Flag];
    assert WellFormed(specs) by {
      forall k ensures KeyOk(specs, k) {
        assert KeyName(k) in specs ==> k == TailKey;
      }
    }
    assert Stage(rows, specs, SkipKey) == rows;
    assert Stage(rows, specs, HeadKey) == rows;
    assert Stage(rows, specs, TailKey) == [rows[|rows| - 1]];
  }
}
