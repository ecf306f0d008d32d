// The higher-order combinators of minitorch's operator library (map, zipWith,
// reduce) and the list utilities built from them (negList, addLists, sum,
// prod). The curried Python form `map(fn)(ls)` is written `Map(fn, ls)`.
module Combinators {
  import opened Operators

  // ---------------------------------------------------------------------
  // map
  // ---------------------------------------------------------------------

  /** map: apply fn to every element, keeping length and order. */
  function Map<T, U>(fn: T -> U, ls: seq<T>): (r: seq<U>)
    ensures |r| == |ls|
    ensures forall i :: 0 <= i < |ls| ==> r[i] == fn(ls[i])
  {
    if ls == [] then [] else [fn(ls[0])] + Map(fn, ls[1..])
  }

  /** map distributes over concatenation: the image of a + b is the image of a, then that of b. */
  lemma MapAppend<T, U>(fn: T -> U, a: seq<T>, b: seq<T>)
    ensures Map(fn, a + b) == Map(fn, a) + Map(fn, b)
  {
  }

  /** Mapping id leaves a list unchanged. */
  lemma MapId(ls: seq<real>)
    ensures Map(Id, ls) == ls
  {
  }

  /** Mapping g and then f is mapping their composition. */
  lemma MapCompose<T, U, V>(f: U -> V, g: T -> U, ls: seq<T>)
    ensures Map(f, Map(g, ls)) == Map(x => f(g(x)), ls)
  {
  }

  // ---------------------------------------------------------------------
  // zipWith
  // ---------------------------------------------------------------------

  function Min(a: nat, b: nat): nat
  {
    if a < b then a else b
  }

  /** zipWith: combine the two lists pairwise, as Python's zip does, stopping at the end
      of the shorter one. */
  function ZipWith<A, B, C>(fn: (A, B) -> C, ls1: seq<A>, ls2: seq<B>): (r: seq<C>)
    ensures |r| == Min(|ls1|, |ls2|)
    ensures forall i :: 0 <= i < |r| ==> r[i] == fn(ls1[i], ls2[i])
  {
    if ls1 == [] || ls2 == [] then []
    else [fn(ls1[0], ls2[0])] + ZipWith(fn, ls1[1..], ls2[1..])
  }

  /** The elements of the longer list past the length of the shorter one play no part. */
  lemma ZipWithTruncates<A, B, C>(fn: (A, B) -> C, ls1: seq<A>, ls2: seq<B>, extra1: seq<A>, extra2: seq<B>)
    requires |ls1| == |ls2|
    ensures ZipWith(fn, ls1 + extra1, ls2) == ZipWith(fn, ls1, ls2)
    ensures ZipWith(fn, ls1, ls2 + extra2) == ZipWith(fn, ls1, ls2)
  {
  }

  /** zipWith of lists of equal length extends pair by pair, in order. */
  lemma ZipWithAppend<A, B, C>(fn: (A, B) -> C, ls1: seq<A>, ls2: seq<B>, x: A, y: B)
    requires |ls1| == |ls2|
    ensures ZipWith(fn, ls1 + [x], ls2 + [y]) == ZipWith(fn, ls1, ls2) + [fn(x, y)]
  {
  }

  // ---------------------------------------------------------------------
  // reduce
  // ---------------------------------------------------------------------

  /** The textbook left fold: combine acc with each element of s, front to back. */
  function FoldLeft(fn: (real, real) -> real, acc: real, s: seq<real>): (r: real)
    decreases |s|
  {
    if s == [] then acc else FoldLeft(fn, fn(acc, s[0]), s[1..])
  }

  /** Folding one more element at the back applies fn once more to the fold so far. */
  lemma {:induction false} FoldLeftAppend(fn: (real, real) -> real, acc: real, s: seq<real>, x: real)
    ensures FoldLeft(fn, acc, s + [x]) == fn(FoldLeft(fn, acc, s), x)
    decreases |s|
  {
    if s != [] {
      assert (s + [x])[1..] == s[1..] + [x];
      FoldLeftAppend(fn, fn(acc, s[0]), s[1..], x);
    }
  }

  /** What reduce(fn) computes: 0 for the empty list, otherwise the left fold
      seeded with the first element over the remaining ones. */
  function ReduceSpec(fn: (real, real) -> real, ls: seq<real>): (r: real)
  {
    if ls == [] then 0.0 else FoldLeft(fn, ls[0], ls[1..])
  }

  /** reduce(fn)(ls + [x]) == fn(reduce(fn)(ls), x) for every non-empty ls. */
  lemma {:induction false} ReduceAppend(fn: (real, real) -> real, ls: seq<real>, x: real)
    requires ls != []
    ensures ReduceSpec(fn, ls + [x]) == fn(ReduceSpec(fn, ls), x)
  {
    assert (ls + [x])[1..] == ls[1..] + [x];
    FoldLeftAppend(fn, ls[0], ls[1..], x);
  }

  /** reduce: copy the list, start from 0, take the first element if there is one,
      then fold the rest into it from left to right. */
  method Reduce(fn: (real, real) -> real, ls: seq<real>) returns (result: real)
    ensures result == ReduceSpec(fn, ls)
    ensures ls == [] ==> result == 0.0
    ensures |ls| == 1 ==> result == ls[0]
  {
    result := 0.0;
    if |ls| > 0 {
      result := ls[0];
    }
    if |ls| > 1 {
      for i := 1 to |ls|
        invariant result == FoldLeft(fn, ls[0], ls[1..i])
      {
        assert ls[1..i + 1] == ls[1..i] + [ls[i]];
        FoldLeftAppend(fn, ls[0], ls[1..i], ls[i]);
        result := fn(result, ls[i]);
      }
      assert ls[1..|ls|] == ls[1..];
    }
  }

  // ---------------------------------------------------------------------
  // The derived list utilities
  // ---------------------------------------------------------------------

  /** negList: map(neg). */
  function NegList(ls: seq<real>): (r: seq<real>)
    ensures |r| == |ls|
    ensures forall i :: 0 <= i < |ls| ==> r[i] == -ls[i]
  {
    Map(Neg, ls)
  }

  /** Negating a list twice gives the list back. */
  lemma NegListInvolutive(ls: seq<real>)
    ensures NegList(NegList(ls)) == ls
  {
  }

  /** addLists: zipWith(add), element-wise sums truncated to the shorter list. */
  function AddLists(ls1: seq<real>, ls2: seq<real>): (r: seq<real>)
    ensures |r| == Min(|ls1|, |ls2|)
    ensures forall i :: 0 <= i < |r| ==> r[i] == ls1[i] + ls2[i]
  {
    ZipWith(Add, ls1, ls2)
  }

  /** addLists is commutative, and adding the negated list gives zeros. */
  lemma AddListsCommutes(ls1: seq<real>, ls2: seq<real>)
    ensures AddLists(ls1, ls2) == AddLists(ls2, ls1)
    ensures forall i :: 0 <= i < |ls1| ==> AddLists(ls1, NegList(ls1))[i] == 0.0
  {
  }

  /** The mathematical sum of a list; 0 for the empty list. */
  function SeqSum(s: seq<real>): (r: real)
  {
    if s == [] then 0.0 else s[0] + SeqSum(s[1..])
  }

  /** The mathematical product of a list; 1 for the empty list. */
  function SeqProd(s: seq<real>): (r: real)
  {
    if s == [] then 1.0 else s[0] * SeqProd(s[1..])
  }

  lemma {:induction false} FoldAddIsSum(acc: real, s: seq<real>)
    ensures FoldLeft(Add, acc, s) == acc + SeqSum(s)
    decreases |s|
  {
    if s != [] {
      FoldAddIsSum(acc + s[0], s[1..]);
    }
  }

  lemma {:induction false} FoldMulIsProd(acc: real, s: seq<real>)
    ensures FoldLeft(Mul, acc, s) == acc * SeqProd(s)
    decreases |s|
  {
    if s != [] {
      FoldMulIsProd(acc * s[0], s[1..]);
      assert (acc * s[0]) * SeqProd(s[1..]) == acc * (s[0] * SeqProd(s[1..]));
    }
  }

  /** sum: reduce(add). Its result is the mathematical sum, 0 for the empty list. */
  method Sum(ls: seq<real>) returns (r: real)
    ensures r == SeqSum(ls)
  {
    r := Reduce(Add, ls);
    if ls != [] {
      FoldAddIsSum(ls[0], ls[1..]);
    }
  }

  /** prod: reduce(mul). Its result is the mathematical product for a non-empty list,
      but 0 (not the empty product 1) for the empty list. */
  method Prod(ls: seq<real>) returns (r: real)
    ensures ls != [] ==> r == SeqProd(ls)
    ensures ls == [] ==> r == 0.0 && r != SeqProd(ls)
  {
    r := Reduce(Mul, ls);
    if ls == [] {
      assert SeqProd(ls) == 1.0;
    } else {
      assert r == FoldLeft(Mul, ls[0], ls[1..]);
      FoldMulIsProd(ls[0], ls[1..]);
      assert SeqProd(ls) == ls[0] * SeqProd(ls[1..]);
    }
  }

  /** The worked examples: sum [1,2,3] = 6, prod [2,3,4] = 24, both 0 on [],
      addLists [1,2,3] [4,5] = [5,7], negList [1,-2,3] = [-1,2,-3]. */
  lemma Examples()
    ensures ReduceSpec(Add, [1.0, 2.0, 3.0]) == 6.0
    ensures ReduceSpec(Mul, [2.0, 3.0, 4.0]) == 24.0
    ensures ReduceSpec(Add, []) == 0.0 && ReduceSpec(Mul, []) == 0.0
    ensures AddLists([1.0, 2.0, 3.0], [4.0, 5.0]) == [5.0, 7.0]
    ensures NegList([1.0, -2.0, 3.0]) == [-1.0, 2.0, -3.0]
  {
  }
}
