/**
 * Generic sequence helpers used to model table scans: filtering rows,
 * splitting a batch by per-item flags, and primary keys that grow with
 * every insert.
 */
module Seqs {

  /** The rows of `xs` that satisfy `p`, in table order. */
  function Filter<T(!new)>(xs: seq<T>, p: T -> bool): (r: seq<T>)
    ensures |r| <= |xs|
    decreases |xs|
  {
    if xs == [] then []
    else (if p(xs[0]) then [xs[0]] else []) + Filter(xs[1..], p)
  }

  /** The filter keeps exactly the rows that satisfy `p`. */
  lemma {:induction false} FilterMembers<T(!new)>(xs: seq<T>, p: T -> bool)
    ensures forall x :: x in Filter(xs, p) <==> x in xs && p(x)
    decreases |xs|
  {
    if xs != [] {
      FilterMembers(xs[1..], p);
      assert xs == [xs[0]] + xs[1..];
    }
  }

  /** Filtering with a predicate every row satisfies keeps the whole table. */
  lemma {:induction false} FilterAll<T(!new)>(xs: seq<T>, p: T -> bool)
    requires forall x :: x in xs ==> p(x)
    ensures Filter(xs, p) == xs
    decreases |xs|
  {
    if xs != [] {
      FilterAll(xs[1..], p);
    }
  }

  /** Filtering distributes over concatenation: the filter keeps table order. */
  lemma {:induction false} FilterAppend<T(!new)>(xs: seq<T>, ys: seq<T>, p: T -> bool)
    ensures Filter(xs + ys, p) == Filter(xs, p) + Filter(ys, p)
    decreases |xs|
  {
    if xs == [] {
      assert xs + ys == ys;
    } else {
      var head := if p(xs[0]) then [xs[0]] else [];
      FilterAppend(xs[1..], ys, p);
      assert Filter(xs + ys, p) == head + Filter(xs[1..] + ys, p) by {
        assert (xs + ys)[1..] == xs[1..] + ys;
        assert (xs + ys)[0] == xs[0];
      }
      assert Filter(xs, p) == head + Filter(xs[1..], p);
    }
  }

  /** Appending a row adds it to the filter exactly when it passes. */
  lemma FilterSnoc<T(!new)>(xs: seq<T>, y: T, p: T -> bool)
    ensures Filter(xs + [y], p) == Filter(xs, p) + (if p(y) then [y] else [])
  {
    FilterAppend(xs, [y], p);
    assert [y][1..] == [];
  }

  /** Replacing the row at `i` changes the number of rows that pass by the
      difference between the new row and the old one. */
  lemma {:induction false} FilterUpdate<T(!new)>(xs: seq<T>, i: nat, y: T, p: T -> bool)
    requires i < |xs|
    ensures |Filter(xs[i := y], p)| + (if p(xs[i]) then 1 else 0) == |Filter(xs, p)| + (if p(y) then 1 else 0)
    decreases i
  {
    var ys := xs[i := y];
    if i == 0 {
      assert ys[1..] == xs[1..];
    } else {
      assert ys[1..] == xs[1..][i - 1 := y];
      FilterUpdate(xs[1..], i - 1, y, p);
    }
  }

  /** Filtering first can only lower the number of rows a second filter keeps. */
  lemma {:induction false} FilterFilterLe<T(!new)>(xs: seq<T>, p: T -> bool, q: T -> bool)
    ensures |Filter(Filter(xs, p), q)| <= |Filter(xs, q)|
    decreases |xs|
  {
    if xs != [] {
      var head := if p(xs[0]) then [xs[0]] else [];
      FilterFilterLe(xs[1..], p, q);
      FilterAppend(head, Filter(xs[1..], p), q);
      if p(xs[0]) {
        assert head[1..] == [];
      }
    }
  }

  /** Filtering first with `p` changes nothing for a second filter `q` when
      every row that passes `q` passes `p`. */
  lemma {:induction false} FilterFilterSame<T(!new)>(xs: seq<T>, p: T -> bool, q: T -> bool)
    requires forall x :: x in xs && q(x) ==> p(x)
    ensures Filter(Filter(xs, p), q) == Filter(xs, q)
    decreases |xs|
  {
    if xs != [] {
      var head := if p(xs[0]) then [xs[0]] else [];
      assert forall x :: x in xs[1..] ==> x in xs;
      FilterFilterSame(xs[1..], p, q);
      FilterAppend(head, Filter(xs[1..], p), q);
      if p(xs[0]) {
        assert head[1..] == [];
      }
    }
  }

  /** No row passes: the filter is empty. */
  lemma FilterNone<T(!new)>(xs: seq<T>, p: T -> bool)
    requires forall x :: x in xs ==> !p(x)
    ensures Filter(xs, p) == []
  {
  }

  /** A filter that rejects exactly the row at position `i` removes that row
      and keeps the others in order. */
  lemma FilterOutOne<T(!new)>(xs: seq<T>, i: nat, p: T -> bool)
    requires i < |xs| && !p(xs[i])
    requires forall j :: 0 <= j < |xs| && j != i ==> p(xs[j])
    ensures Filter(xs, p) == xs[..i] + xs[i + 1..]
  {
    var before, after := xs[..i], xs[i + 1..];
    assert xs == before + ([xs[i]] + after);
    assert Filter([xs[i]] + after, p) == after by {
      OthersPass(xs, i, p);
      FilterSkipHead(xs[i], after, p);
      FilterAll(after, p);
    }
    assert Filter(before + ([xs[i]] + after), p) == before + Filter([xs[i]] + after, p) by {
      OthersPass(xs, i, p);
      FilterPassingPrefix(before, [xs[i]] + after, p);
    }
  }

  lemma OthersPass<T(!new)>(xs: seq<T>, i: nat, p: T -> bool)
    requires i < |xs|
    requires forall j :: 0 <= j < |xs| && j != i ==> p(xs[j])
    ensures forall x :: x in xs[..i] ==> p(x)
    ensures forall x :: x in xs[i + 1..] ==> p(x)
  {
    forall x | x in xs[..i] ensures p(x) {
      var j :| 0 <= j < i && xs[..i][j] == x;
      assert xs[j] == x;
    }
    forall x | x in xs[i + 1..] ensures p(x) {
      var j :| 0 <= j < |xs| - i - 1 && xs[i + 1..][j] == x;
      assert xs[i + 1 + j] == x;
    }
  }

  /** A prefix whose rows all pass survives the filter whole. */
  lemma FilterPassingPrefix<T(!new)>(before: seq<T>, rest: seq<T>, p: T -> bool)
    requires forall x :: x in before ==> p(x)
    ensures Filter(before + rest, p) == before + Filter(rest, p)
  {
    FilterAppend(before, rest, p);
    FilterAll(before, p);
  }

  /** A first row that fails the filter is dropped. */
  lemma FilterSkipHead<T(!new)>(y: T, rest: seq<T>, p: T -> bool)
    requires !p(y)
    ensures Filter([y] + rest, p) == Filter(rest, p)
  {
    assert ([y] + rest)[1..] == rest;
  }

  /** The items of `xs` whose flag equals `b`, in input order. */
  function Pick<T>(xs: seq<T>, flags: seq<bool>, b: bool): seq<T>
    requires |flags| == |xs|
    decreases |xs|
  {
    if xs == [] then []
    else
      var n := |xs| - 1;
      Pick(xs[..n], flags[..n], b) + (if flags[n] == b then [xs[n]] else [])
  }

  /** Picking by a flag and by its negation splits the input: every item
      lands in exactly one of the two parts. */
  lemma PickPartition<T>(xs: seq<T>, flags: seq<bool>)
    requires |flags| == |xs|
    ensures |Pick(xs, flags, true)| + |Pick(xs, flags, false)| == |xs|
    ensures multiset(Pick(xs, flags, true)) + multiset(Pick(xs, flags, false)) == multiset(xs)
  {
    PickMultiset(xs, flags);
    var t, f := Pick(xs, flags, true), Pick(xs, flags, false);
    assert |multiset(t) + multiset(f)| == |multiset(xs)|;
  }

  lemma {:induction false} PickMultiset<T>(xs: seq<T>, flags: seq<bool>)
    requires |flags| == |xs|
    ensures multiset(Pick(xs, flags, true)) + multiset(Pick(xs, flags, false)) == multiset(xs)
    decreases |xs|
  {
    if xs != [] {
      var n := |xs| - 1;
      var x := xs[n];
      var t, f := Pick(xs[..n], flags[..n], true), Pick(xs[..n], flags[..n], false);
      PickMultiset(xs[..n], flags[..n]);
      assert multiset(xs) == multiset(xs[..n]) + multiset{x} by {
        assert xs == xs[..n] + [x];
      }
      if flags[n] {
        assert Pick(xs, flags, true) == t + [x] && Pick(xs, flags, false) == f by {
          PickLast(xs, flags, true);
          PickLast(xs, flags, false);
        }
        assert multiset(t + [x]) == multiset(t) + multiset{x};
      } else {
        assert Pick(xs, flags, true) == t && Pick(xs, flags, false) == f + [x] by {
          PickLast(xs, flags, true);
          PickLast(xs, flags, false);
        }
        assert multiset(f + [x]) == multiset(f) + multiset{x};
      }
    }
  }

  /** One unfolding of `Pick`: the last item goes to the side its flag names. */
  lemma PickLast<T>(xs: seq<T>, flags: seq<bool>, b: bool)
    requires |flags| == |xs| && xs != []
    ensures var n := |xs| - 1;
      Pick(xs, flags, b) == Pick(xs[..n], flags[..n], b) + (if flags[n] == b then [xs[n]] else [])
  {
  }

  /** Picking from a prefix is the prefix of picking, extended by the last item. */
  lemma PickSnoc<T>(xs: seq<T>, flags: seq<bool>, x: T, f: bool, b: bool)
    requires |flags| == |xs|
    ensures Pick(xs + [x], flags + [f], b) == Pick(xs, flags, b) + (if f == b then [x] else [])
  {
    assert (xs + [x])[..|xs|] == xs;
    assert (flags + [f])[..|xs|] == flags;
  }

  /** Row `k` of a pick sits at some position of the picked output: the number
      of picked rows before `k`. */
  function PickIndex(flags: seq<bool>, k: nat, b: bool): (j: nat)
    requires k <= |flags|
    ensures j <= k
    decreases k
  {
    if k == 0 then 0
    else PickIndex(flags, k - 1, b) + (if flags[k - 1] == b then 1 else 0)
  }

  /** Every row whose flag is `b` appears in the pick, at position `PickIndex`. */
  lemma {:induction false} PickAt<T>(xs: seq<T>, flags: seq<bool>, b: bool, k: nat)
    requires |flags| == |xs| && k < |xs| && flags[k] == b
    ensures PickIndex(flags, k, b) < |Pick(xs, flags, b)|
    ensures Pick(xs, flags, b)[PickIndex(flags, k, b)] == xs[k]
    decreases |xs|
  {
    var n := |xs| - 1;
    PickLength(xs[..n], flags[..n], b);
    PickIndexPrefix(flags, n, k, b);
    if k < n {
      PickAt(xs[..n], flags[..n], b, k);
    }
  }

  /** Rows picked by the same flag keep their input order in the pick. */
  lemma {:induction false} PickIndexIncreasing(flags: seq<bool>, j: nat, k: nat, b: bool)
    requires j < k <= |flags| && flags[j] == b
    ensures PickIndex(flags, j, b) < PickIndex(flags, k, b)
    decreases k
  {
    if k > j + 1 {
      PickIndexIncreasing(flags, j, k - 1, b);
    }
  }

  lemma {:induction false} PickLength<T>(xs: seq<T>, flags: seq<bool>, b: bool)
    requires |flags| == |xs|
    ensures |Pick(xs, flags, b)| == PickIndex(flags, |xs|, b)
    decreases |xs|
  {
    if xs != [] {
      var n := |xs| - 1;
      PickLength(xs[..n], flags[..n], b);
      PickIndexPrefix(flags, n, n, b);
    }
  }

  lemma {:induction false} PickIndexPrefix(flags: seq<bool>, n: nat, k: nat, b: bool)
    requires k <= n <= |flags|
    ensures PickIndex(flags[..n], k, b) == PickIndex(flags, k, b)
    decreases k
  {
    if k > 0 {
      PickIndexPrefix(flags, n, k - 1, b);
    }
  }

  /** Primary keys in table order are strictly increasing (SQLite rowids). */
  ghost predicate KeysIncreasing<T>(xs: seq<T>, key: T -> int)
  {
    forall i, j :: 0 <= i < j < |xs| ==> key(xs[i]) < key(xs[j])
  }

  /** The key SQLite assigns to the next insert: one more than the largest
      key in the table, or 1 for an empty table. */
  function NextKey<T(!new)>(xs: seq<T>, key: T -> int): (k: int)
    requires KeysIncreasing(xs, key)
    ensures forall x :: x in xs ==> key(x) < k
  {
    if xs == [] then 1 else key(xs[|xs| - 1]) + 1
  }

  /** Appending a row under the next key keeps the keys increasing. */
  lemma AppendNextKey<T(!new)>(xs: seq<T>, key: T -> int, x: T)
    requires KeysIncreasing(xs, key) && key(x) == NextKey(xs, key)
    ensures KeysIncreasing(xs + [x], key)
  {
    forall i, j | 0 <= i < j < |xs| + 1
      ensures key((xs + [x])[i]) < key((xs + [x])[j])
    {
      if j == |xs| {
        assert (xs + [x])[i] in xs;
      }
    }
  }

  /** Deleting rows keeps the remaining keys increasing. */
  lemma {:induction false} FilterKeysIncreasing<T(!new)>(xs: seq<T>, p: T -> bool, key: T -> int)
    ensures KeysIncreasing(xs, key) ==> KeysIncreasing(Filter(xs, p), key)
    decreases |xs|
  {
    if xs != [] && KeysIncreasing(xs, key) {
      FilterKeysIncreasing(xs[1..], p, key);
      var rest := Filter(xs[1..], p);
      FilterMembers(xs[1..], p);
      forall y | y in rest ensures key(xs[0]) < key(y) {
        var j :| 0 <= j < |xs[1..]| && xs[1..][j] == y;
        assert xs[j + 1] == y;
      }
    }
  }
}
