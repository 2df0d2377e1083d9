/** Sequence combinators shared by the folds of the model. */
module Seqs {

  /** The concatenation of `f(x)` over `xs`, in order: a loop that appends each item's output. */
  function FlatMap<T, U>(xs: seq<T>, f: T -> seq<U>): seq<U>
  {
    if |xs| == 0 then [] else FlatMap(xs[..|xs| - 1], f) + f(xs[|xs| - 1])
  }

  lemma AppendAssociative<T>(a: seq<T>, b: seq<T>, c: seq<T>)
    ensures a + b + c == a + (b + c)
  {
  }

  lemma FlatMapSnoc<T, U>(xs: seq<T>, x: T, f: T -> seq<U>)
    ensures FlatMap(xs + [x], f) == FlatMap(xs, f) + f(x)
  {
    assert (xs + [x])[..|xs|] == xs;
  }

  /** When every item contributes at most `k` outputs, the whole sequence contributes at most `k` per item. */
  lemma {:induction false} FlatMapBound<T, U>(xs: seq<T>, f: T -> seq<U>, k: nat)
    requires forall x :: |f(x)| <= k
    ensures |FlatMap(xs, f)| <= k * |xs|
  {
    if |xs| > 0 {
      FlatMapBound(xs[..|xs| - 1], f, k);
    }
  }

  /** One step of a loop that appends each item's output after a fixed header. */
  lemma FlatMapStep<T, U>(header: seq<U>, xs: seq<T>, i: nat, f: T -> seq<U>)
    requires i < |xs|
    ensures header + FlatMap(xs[..i], f) + f(xs[i]) == header + FlatMap(xs[..i + 1], f)
  {
    assert xs[..i + 1] == xs[..i] + [xs[i]];
    FlatMapSnoc(xs[..i], xs[i], f);
    AppendAssociative(header, FlatMap(xs[..i], f), f(xs[i]));
  }

  /** One step of a loop that accumulates the outputs of a prefix. */
  lemma FlatMapAccumulate<T, U>(xs: seq<T>, i: nat, f: T -> seq<U>, acc: seq<U>, out: seq<U>)
    requires i < |xs| && acc == FlatMap(xs[..i], f) && out == f(xs[i])
    ensures acc + out == FlatMap(xs[..i + 1], f)
  {
    assert xs[..i + 1] == xs[..i] + [xs[i]];
    FlatMapSnoc(xs[..i], xs[i], f);
  }

  /** The output for a sequence in two parts is the two parts' outputs, one after the other. */
  lemma {:induction false} FlatMapAppend<T, U>(xs: seq<T>, ys: seq<T>, f: T -> seq<U>)
    ensures FlatMap(xs + ys, f) == FlatMap(xs, f) + FlatMap(ys, f)
    decreases |ys|
  {
    if |ys| == 0 {
      assert xs + ys == xs;
    } else {
      var init, last := ys[..|ys| - 1], ys[|ys| - 1];
      assert ys == init + [last];
      assert xs + ys == (xs + init) + [last];
      FlatMapSnoc(xs + init, last, f);
      FlatMapSnoc(init, last, f);
      FlatMapAppend(xs, init, f);
    }
  }

  /** Each output item comes from some input item. */
  lemma {:induction false} FlatMapSource<T, U>(xs: seq<T>, f: T -> seq<U>, u: U)
    requires u in FlatMap(xs, f)
    ensures exists i :: 0 <= i < |xs| && u in f(xs[i])
  {
    var init := xs[..|xs| - 1];
    if u in FlatMap(init, f) {
      FlatMapSource(init, f, u);
      var i :| 0 <= i < |init| && u in f(init[i]);
      assert init[i] == xs[i];
    } else {
      assert u in f(xs[|xs| - 1]);
    }
  }

  /** Every item's output appears in the whole output. */
  lemma {:induction false} FlatMapIncludes<T, U>(xs: seq<T>, f: T -> seq<U>, i: nat, u: U)
    requires i < |xs| && u in f(xs[i])
    ensures u in FlatMap(xs, f)
  {
    var init := xs[..|xs| - 1];
    if i < |init| {
      assert init[i] == xs[i];
      FlatMapIncludes(init, f, i, u);
    }
  }

  /** The output is empty exactly when every item's output is empty. */
  lemma {:induction false} FlatMapEmpty<T, U>(xs: seq<T>, f: T -> seq<U>)
    ensures FlatMap(xs, f) == [] <==> forall i :: 0 <= i < |xs| ==> f(xs[i]) == []
  {
    if |xs| > 0 {
      var init := xs[..|xs| - 1];
      FlatMapEmpty(init, f);
      assert forall i :: 0 <= i < |init| ==> init[i] == xs[i];
    }
  }

  /** The items `keep` accepts, in their order: a loop that appends each accepted item. */
  function Filter<T>(xs: seq<T>, keep: T -> bool): (kept: seq<T>)
    ensures |kept| <= |xs|
  {
    if |xs| == 0 then [] else Filter(xs[..|xs| - 1], keep) + (if keep(xs[|xs| - 1]) then [xs[|xs| - 1]] else [])
  }

  lemma FilterSnoc<T>(xs: seq<T>, x: T, keep: T -> bool)
    ensures Filter(xs + [x], keep) == Filter(xs, keep) + (if keep(x) then [x] else [])
  {
    assert (xs + [x])[..|xs|] == xs;
  }

  lemma FilterSingle<T>(x: T, keep: T -> bool)
    ensures Filter([x], keep) == if keep(x) then [x] else []
  {
    FilterSnoc([], x, keep);
    assert [] + [x] == [x];
  }

  /** An item is kept exactly when it is there and accepted. */
  lemma {:induction false} FilterMembers<T>(xs: seq<T>, keep: T -> bool)
    ensures forall x :: x in Filter(xs, keep) <==> x in xs && keep(x)
  {
    if |xs| > 0 {
      var init := xs[..|xs| - 1];
      FilterMembers(init, keep);
      assert xs == init + [xs[|xs| - 1]];
    }
  }

  /** Each kept item sits at some index of the input. */
  lemma FilterSource<T>(xs: seq<T>, keep: T -> bool, x: T)
    requires x in Filter(xs, keep)
    ensures keep(x) && exists k :: 0 <= k < |xs| && xs[k] == x
  {
    FilterMembers(xs, keep);
  }

  /** When every item is accepted, nothing is dropped. */
  lemma {:induction false} FilterAll<T>(xs: seq<T>, keep: T -> bool)
    requires forall x :: x in xs ==> keep(x)
    ensures Filter(xs, keep) == xs
  {
    if |xs| > 0 {
      var init := xs[..|xs| - 1];
      FilterAll(init, keep);
      assert xs == init + [xs[|xs| - 1]];
    }
  }

  /** Filtering a sequence in two parts filters each part. */
  lemma {:induction false} FilterAppend<T>(xs: seq<T>, ys: seq<T>, keep: T -> bool)
    ensures Filter(xs + ys, keep) == Filter(xs, keep) + Filter(ys, keep)
    decreases |ys|
  {
    if |ys| == 0 {
      assert xs + ys == xs;
    } else {
      var init, last := ys[..|ys| - 1], ys[|ys| - 1];
      assert ys == init + [last];
      assert xs + ys == (xs + init) + [last];
      FilterSnoc(xs + init, last, keep);
      FilterSnoc(init, last, keep);
      FilterAppend(xs, init, keep);
    }
  }

  /** Items with distinct keys stay distinct once filtered: the kept items are a subsequence. */
  lemma {:induction false} FilterKeepsDistinct<T, K>(xs: seq<T>, keep: T -> bool, key: T -> K)
    requires forall i, j :: 0 <= i < j < |xs| ==> key(xs[i]) != key(xs[j])
    ensures forall i, j :: 0 <= i < j < |Filter(xs, keep)| ==> key(Filter(xs, keep)[i]) != key(Filter(xs, keep)[j])
  {
    if |xs| > 0 {
      var init, last := xs[..|xs| - 1], xs[|xs| - 1];
      FilterKeepsDistinct(init, keep, key);
      var front := Filter(init, keep);
      var whole := Filter(xs, keep);
      forall i, j | 0 <= i < j < |whole| ensures key(whole[i]) != key(whole[j]) {
        if j == |front| {
          assert whole[i] == front[i] && front[i] in front;
          FilterSource(init, keep, whole[i]);
          var k :| 0 <= k < |init| && init[k] == whole[i];
          assert xs[k] == init[k];
        } else {
          assert whole[i] == front[i] && whole[j] == front[j];
        }
      }
    }
  }
}
