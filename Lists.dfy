/**
 * The list primitives of the engine: `list.index`, `list.insert`, `do_swap`, `do_move`, and
 * the order-preserving de-duplication used for the output columns. A list the source mutates
 * in place is given here as the value it holds afterwards.
 */
module Lists {
  import opened Wrappers

  /** `xs.index(x)` guarded by `x in xs`: the first position holding `x`, or None. */
  function IndexOf<T(==)>(xs: seq<T>, x: T): (r: Option<nat>)
    ensures r.None? <==> x !in xs
    ensures r.Some? ==> r.value < |xs| && xs[r.value] == x
    ensures r.Some? ==> forall j | 0 <= j < r.value :: xs[j] != x
    decreases |xs|
  {
    if xs == [] then None
    else if xs[0] == x then Some(0)
    else match IndexOf(xs[1..], x)
      case None => None
      case Some(i) => Some(i + 1)
  }

  /** `xs.insert(i, x)` for a position inside the list or just past its end. */
  function Inserted<T>(xs: seq<T>, i: nat, x: T): seq<T>
    requires i <= |xs|
  {
    xs[..i] + [x] + xs[i..]
  }

  /** `xs.pop(i)`, as the list it leaves behind. */
  function Removed<T>(xs: seq<T>, i: nat): seq<T>
    requires i < |xs|
  {
    xs[..i] + xs[i + 1..]
  }

  /** `do_swap`: `lst[a], lst[b] = lst[b], lst[a]`. */
  function Swapped<T>(xs: seq<T>, a: nat, b: nat): seq<T>
    requires a < |xs| && b < |xs|
  {
    xs[a := xs[b]][b := xs[a]]
  }

  /**
   * `do_move`: pop the element at `a`, then insert it at `b` in what is left; `insert` past
   * the end of a list appends.
   */
  function Moved<T>(xs: seq<T>, a: nat, b: nat): seq<T>
    requires a < |xs|
  {
    Inserted(Removed(xs, a), if b < |xs| then b else |xs| - 1, xs[a])
  }

  /** `insert` adds exactly one element, at the given position, and shifts the rest up by one. */
  lemma InsertedAt<T>(xs: seq<T>, i: nat, x: T)
    requires i <= |xs|
    ensures |Inserted(xs, i, x)| == |xs| + 1 && Inserted(xs, i, x)[i] == x
    ensures forall j | 0 <= j < i :: Inserted(xs, i, x)[j] == xs[j]
    ensures forall j | i < j <= |xs| :: Inserted(xs, i, x)[j] == xs[j - 1]
  {
  }

  /** A swap exchanges exactly the two positions and leaves every other one alone. */
  lemma SwappedAt<T>(xs: seq<T>, a: nat, b: nat)
    requires a < |xs| && b < |xs|
    ensures |Swapped(xs, a, b)| == |xs|
    ensures Swapped(xs, a, b)[a] == xs[b] && Swapped(xs, a, b)[b] == xs[a]
    ensures forall j | 0 <= j < |xs| && j != a && j != b :: Swapped(xs, a, b)[j] == xs[j]
  {
  }

  /** A swap only reorders: the list keeps the same elements, each as often. */
  lemma SwapPermutes<T>(xs: seq<T>, a: nat, b: nat)
    requires a < |xs| && b < |xs|
    ensures multiset(Swapped(xs, a, b)) == multiset(xs)
  {
  }

  /** Swapping the same two positions twice gives back the original list. */
  lemma SwapTwice<T>(xs: seq<T>, a: nat, b: nat)
    requires a < |xs| && b < |xs|
    ensures Swapped(Swapped(xs, a, b), a, b) == xs
  {
  }

  /** A move keeps the length and the elements, and leaves the moved element at `b`. */
  lemma {:induction false} MovedAt<T>(xs: seq<T>, a: nat, b: nat)
    requires a < |xs| && b < |xs|
    ensures |Moved(xs, a, b)| == |xs| && Moved(xs, a, b)[b] == xs[a]
    ensures multiset(Moved(xs, a, b)) == multiset(xs)
  {
    var rest := Removed(xs, a);
    assert xs == xs[..a] + [xs[a]] + xs[a + 1..];
    assert rest == rest[..b] + rest[b..];
    calc {
      multiset(Moved(xs, a, b));
      multiset(rest[..b]) + multiset{xs[a]} + multiset(rest[b..]);
      multiset(rest) + multiset{xs[a]};
      multiset(xs[..a]) + multiset(xs[a + 1..]) + multiset{xs[a]};
      multiset(xs);
    }
  }

  /** A target past the end of the list moves the element to the end. */
  lemma MovedPastEnd<T>(xs: seq<T>, a: nat, b: nat)
    requires a < |xs| <= b + 1
    ensures Moved(xs, a, b) == Removed(xs, a) + [xs[a]]
  {
  }

  /** Moving from `a` to `b` and then from `b` back to `a` gives back the original list. */
  lemma {:induction false} MoveBack<T>(xs: seq<T>, a: nat, b: nat)
    requires a < |xs| && b < |xs|
    ensures Moved(Moved(xs, a, b), b, a) == xs
  {
    var rest := Removed(xs, a);
    var ys := Moved(xs, a, b);
    assert ys == rest[..b] + [xs[a]] + rest[b..];
    assert Removed(ys, b) == rest by {
      assert ys[..b] == rest[..b];
      assert ys[b + 1..] == rest[b..];
    }
    assert ys[b] == xs[a];
    assert xs == xs[..a] + [xs[a]] + xs[a + 1..];
    assert rest[..a] == xs[..a];
    assert rest[a..] == xs[a + 1..];
  }

  /**
   * `[x for x in xs if not (x in seen or seen.add(x))]`: the elements of `xs` in the order of
   * their first occurrence, each once. Written as the source's loop builds it, one element at a time.
   */
  function Dedup<T(==)>(xs: seq<T>): seq<T>
    decreases |xs|
  {
    if xs == [] then []
    else
      var d := Dedup(xs[..|xs| - 1]);
      if xs[|xs| - 1] in d then d else d + [xs[|xs| - 1]]
  }

  predicate Distinct<T(==)>(xs: seq<T>) {
    forall i, j | 0 <= i < j < |xs| :: xs[i] != xs[j]
  }

  /**
   * The de-duplicated list holds each element of `xs` exactly once, and orders the elements
   * by the position of their first occurrence in `xs`.
   */
  lemma DedupSpec<T>(xs: seq<T>)
    ensures Distinct(Dedup(xs))
    ensures forall x :: x in Dedup(xs) <==> x in xs
    ensures forall i, j | 0 <= i < j < |Dedup(xs)| ::
              IndexOf(xs, Dedup(xs)[i]).value < IndexOf(xs, Dedup(xs)[j]).value
  {
    DedupMembers(xs);
    DedupDistinct(xs);
    DedupOrder(xs);
  }

  lemma {:induction false} DedupMembers<T>(xs: seq<T>)
    ensures forall x :: x in Dedup(xs) <==> x in xs
    decreases |xs|
  {
    if xs != [] {
      DedupMembers(xs[..|xs| - 1]);
      assert xs == xs[..|xs| - 1] + [xs[|xs| - 1]];
    }
  }

  lemma {:induction false} DedupDistinct<T>(xs: seq<T>)
    ensures Distinct(Dedup(xs))
    decreases |xs|
  {
    if xs != [] {
      DedupDistinct(xs[..|xs| - 1]);
    }
  }

  lemma {:induction false} DedupOrder<T>(xs: seq<T>)
    ensures forall x :: x in Dedup(xs) <==> x in xs
    ensures forall i, j | 0 <= i < j < |Dedup(xs)| ::
              IndexOf(xs, Dedup(xs)[i]).value < IndexOf(xs, Dedup(xs)[j]).value
    decreases |xs|
  {
    if xs != [] {
      var init := xs[..|xs| - 1];
      var last := xs[|xs| - 1];
      var d := Dedup(init);
      DedupMembers(xs);
      DedupOrder(init);
      assert xs == init + [last];
      forall i | 0 <= i < |d|
        ensures IndexOf(xs, d[i]) == IndexOf(init, d[i])
        ensures IndexOf(xs, d[i]).value < |init|
      {
        DedupElement(init, i);
        IndexOfPrefix(init, last, d[i]);
      }
      if last !in d {
        assert last !in init;
        assert IndexOf(xs, last) == Some(|init|);
        assert Dedup(xs) == d + [last];
      }
    }
  }

  lemma DedupElement<T>(xs: seq<T>, k: nat)
    requires k < |Dedup(xs)|
    ensures Dedup(xs)[k] in xs
  {
    DedupMembers(xs);
    assert Dedup(xs)[k] in Dedup(xs);
  }

  lemma {:induction false} IndexOfPrefix<T>(xs: seq<T>, y: T, x: T)
    requires x in xs
    ensures IndexOf(xs + [y], x) == IndexOf(xs, x)
    decreases |xs|
  {
    if xs[0] != x {
      assert (xs + [y])[1..] == xs[1..] + [y];
      IndexOfPrefix(xs[1..], y, x);
    }
  }

  /** Using the same element twice keeps a single copy of it. */
  lemma DedupRepeat<T>(xs: seq<T>, x: T)
    requires x in xs
    ensures Dedup(xs + [x]) == Dedup(xs)
  {
    assert (xs + [x])[..|xs|] == xs;
    DedupSpec(xs);
  }
}
