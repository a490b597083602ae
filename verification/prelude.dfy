/** Small shared vocabulary: optional values, flattening and filtering of sequences. */
module Prelude {

  datatype Option<+T> = None | Some(value: T)

  datatype Result<+T, +E> = Ok(value: T) | Err(error: E)

  lemma Assoc<T>(a: seq<T>, b: seq<T>, c: seq<T>)
    ensures a + (b + c) == a + b + c
  {
  }

  lemma SplitAt<T>(xs: seq<T>, i: nat)
    requires i <= |xs|
    ensures xs == xs[..i] + xs[i..]
  {
  }

  lemma TakeSlices<T>(xs: seq<T>, n: nat, k: nat)
    requires n <= k <= |xs|
    ensures xs[..k][..n] == xs[..n] && xs[..k][n..] == xs[n..][..k - n]
  {
  }

  lemma TakeAppend<T>(xs: seq<T>, ys: seq<T>)
    ensures (xs + ys)[..|xs|] == xs
  {
  }

  lemma Snoc<T>(xs: seq<T>, i: nat)
    requires i < |xs|
    ensures xs[..i + 1] == xs[..i] + [xs[i]]
  {
  }

  lemma Cons<T>(x: T, xs: seq<T>, ys: seq<T>)
    requires xs != [] && x == xs[0]
    ensures (xs + ys)[0] == x && (xs + ys)[1..] == xs[1..] + ys
  {
  }

  /** All the elements of a list of lists, in order. */
  function Flatten<T>(xss: seq<seq<T>>): seq<T> {
    if xss == [] then [] else xss[0] + Flatten(xss[1..])
  }

  lemma {:induction false} FlattenAppend<T>(xss: seq<seq<T>>, yss: seq<seq<T>>)
    ensures Flatten(xss + yss) == Flatten(xss) + Flatten(yss)
  {
    if xss == [] {
      assert xss + yss == yss;
    } else {
      FlattenAppend(xss[1..], yss);
      Cons(xss[0], xss, yss);
      Assoc(xss[0], Flatten(xss[1..]), Flatten(yss));
    }
  }

  lemma FlattenSnoc<T>(xss: seq<seq<T>>, ys: seq<T>)
    ensures Flatten(xss + [ys]) == Flatten(xss) + ys
  {
    FlattenAppend(xss, [ys]);
    assert [ys][1..] == [];
  }

  lemma FlattenAt<T>(xss: seq<seq<T>>, i: nat)
    requires i < |xss|
    ensures Flatten(xss) == Flatten(xss[..i]) + (xss[i] + Flatten(xss[i + 1..]))
  {
    assert xss == xss[..i] + xss[i..];
    assert xss[i..][1..] == xss[i + 1..];
    FlattenAppend(xss[..i], xss[i..]);
  }

  /** The elements satisfying p, in order. */
  function Filter<T>(p: T -> bool, xs: seq<T>): seq<T> {
    if xs == [] then [] else (if p(xs[0]) then [xs[0]] else []) + Filter(p, xs[1..])
  }

  lemma {:induction false} FilterAppend<T>(p: T -> bool, xs: seq<T>, ys: seq<T>)
    ensures Filter(p, xs + ys) == Filter(p, xs) + Filter(p, ys)
  {
    if xs == [] {
      assert xs + ys == ys;
    } else {
      FilterAppend(p, xs[1..], ys);
      Cons(xs[0], xs, ys);
      Assoc(if p(xs[0]) then [xs[0]] else [], Filter(p, xs[1..]), Filter(p, ys));
    }
  }
}
