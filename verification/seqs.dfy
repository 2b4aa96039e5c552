/** Filtering and mapping sequences. */
module Seqs {

  function Filter<T>(p: T -> bool, xs: seq<T>): seq<T> {
    if xs == [] then []
    else (if p(xs[0]) then [xs[0]] else []) + Filter(p, xs[1..])
  }

  lemma {:induction false} Assoc<T>(xs: seq<T>, ys: seq<T>, zs: seq<T>)
    ensures (xs + ys) + zs == xs + (ys + zs)
  {
  }

  lemma {:induction false} FilterMembers<T>(p: T -> bool, xs: seq<T>)
    ensures forall y :: y in Filter(p, xs) <==> y in xs && p(y)
  {
    if xs != [] {
      FilterMembers(p, xs[1..]);
    }
  }

  lemma {:induction false} FilterConcat<T>(p: T -> bool, xs: seq<T>, ys: seq<T>)
    ensures Filter(p, xs + ys) == Filter(p, xs) + Filter(p, ys)
  {
    if xs == [] {
      assert xs + ys == ys;
    } else {
      var head, whole := if p(xs[0]) then [xs[0]] else [], xs + ys;
      assert whole[0] == xs[0] && whole[1..] == xs[1..] + ys;
      FilterConcat(p, xs[1..], ys);
      Assoc(head, Filter(p, xs[1..]), Filter(p, ys));
    }
  }

  lemma {:induction false} FilterAppend<T>(p: T -> bool, xs: seq<T>, x: T)
    ensures Filter(p, xs + [x]) == Filter(p, xs) + (if p(x) then [x] else [])
  {
    FilterConcat(p, xs, [x]);
    assert [x][1..] == [];
    assert Filter(p, [x][1..]) == [];
  }

  lemma {:induction false} FilterAll<T>(p: T -> bool, xs: seq<T>)
    requires forall x :: x in xs ==> p(x)
    ensures Filter(p, xs) == xs
  {
    if xs != [] {
      FilterAll(p, xs[1..]);
    }
  }

  lemma {:induction false} FilterNone<T>(p: T -> bool, xs: seq<T>)
    requires forall x :: x in xs ==> !p(x)
    ensures Filter(p, xs) == []
  {
    if xs != [] {
      FilterNone(p, xs[1..]);
    }
  }

  /** Filtering twice is filtering by the conjunction. */
  lemma {:induction false} FilterTwice<T>(p: T -> bool, q: T -> bool, both: T -> bool, xs: seq<T>)
    requires forall x :: x in xs ==> (both(x) <==> p(x) && q(x))
    ensures Filter(q, Filter(p, xs)) == Filter(both, xs)
  {
    if xs != [] {
      FilterTwice(p, q, both, xs[1..]);
      var head := if p(xs[0]) then [xs[0]] else [];
      FilterConcat(q, head, Filter(p, xs[1..]));
      assert xs[0] in xs;
      if p(xs[0]) {
        assert head[1..] == [];
        assert Filter(q, head) == if q(xs[0]) then [xs[0]] else [];
      }
    }
  }

  /** Only the middle of a sequence can pass the filter. */
  lemma {:induction false} FilterMiddle<T>(p: T -> bool, xs: seq<T>, ys: seq<T>, zs: seq<T>)
    requires forall x :: x in xs || x in zs ==> !p(x)
    ensures Filter(p, xs + ys + zs) == Filter(p, ys)
  {
    FilterConcat(p, xs + ys, zs);
    FilterConcat(p, xs, ys);
    FilterNone(p, xs);
    FilterNone(p, zs);
  }

  function Map<T, U>(f: T -> U, xs: seq<T>): (ys: seq<U>)
    ensures |ys| == |xs|
  {
    if xs == [] then [] else [f(xs[0])] + Map(f, xs[1..])
  }

  lemma {:induction false} MapAt<T, U>(f: T -> U, xs: seq<T>, i: nat)
    requires i < |xs|
    ensures Map(f, xs)[i] == f(xs[i])
  {
    if i > 0 {
      MapAt(f, xs[1..], i - 1);
    }
  }

  lemma {:induction false} MapConcat<T, U>(f: T -> U, xs: seq<T>, ys: seq<T>)
    ensures Map(f, xs + ys) == Map(f, xs) + Map(f, ys)
  {
    if xs == [] {
      assert xs + ys == ys;
    } else {
      assert (xs + ys)[1..] == xs[1..] + ys;
      MapConcat(f, xs[1..], ys);
    }
  }

  /** The elements of xs occur in ys, in this order. */
  ghost predicate Sublist<T>(xs: seq<T>, ys: seq<T>)
    decreases |ys|
  {
    xs == [] ||
    (ys != [] &&
     var xs', ys' := xs[..|xs| - 1], ys[..|ys| - 1];
     ((xs[|xs| - 1] == ys[|ys| - 1] && Sublist(xs', ys')) || Sublist(xs, ys')))
  }

  lemma {:induction false} SublistSkips<T>(xs: seq<T>, ys: seq<T>, y: T)
    requires Sublist(xs, ys)
    ensures Sublist(xs, ys + [y])
  {
    assert (ys + [y])[..|ys|] == ys;
  }

  lemma {:induction false} SublistExtends<T>(xs: seq<T>, ys: seq<T>, x: T)
    requires Sublist(xs, ys)
    ensures Sublist(xs + [x], ys + [x])
  {
    assert (xs + [x])[..|xs|] == xs && (ys + [x])[..|ys|] == ys;
  }

  lemma {:induction false} SublistMembers<T>(xs: seq<T>, ys: seq<T>)
    requires Sublist(xs, ys)
    ensures forall x :: x in xs ==> x in ys
    decreases |ys|
  {
    if xs != [] {
      var xs', ys' := xs[..|xs| - 1], ys[..|ys| - 1];
      assert xs == xs' + [xs[|xs| - 1]] && ys == ys' + [ys[|ys| - 1]];
      if xs[|xs| - 1] == ys[|ys| - 1] && Sublist(xs', ys') {
        SublistMembers(xs', ys');
      } else {
        SublistMembers(xs, ys');
      }
    }
  }
}
