/** How often a value occurs in a sequence. */
module Counting {

  function Occurs<T(==)>(xs: seq<T>, x: T): nat {
    if xs == [] then 0 else Occurs(xs[..|xs| - 1], x) + if xs[|xs| - 1] == x then 1 else 0
  }

  lemma OccursSnoc<T>(xs: seq<T>, y: T, x: T)
    ensures Occurs(xs + [y], x) == Occurs(xs, x) + if y == x then 1 else 0
  {
    assert (xs + [y])[..|xs|] == xs;
  }

  lemma {:induction false} OccursConcat<T>(xs: seq<T>, ys: seq<T>, x: T)
    ensures Occurs(xs + ys, x) == Occurs(xs, x) + Occurs(ys, x)
  {
    if ys == [] {
      assert xs + ys == xs;
    } else {
      OccursConcat(xs, ys[..|ys| - 1], x);
      assert xs + ys == (xs + ys[..|ys| - 1]) + [ys[|ys| - 1]];
      OccursSnoc(xs + ys[..|ys| - 1], ys[|ys| - 1], x);
    }
  }

  lemma {:induction false} MemberOccurs<T>(xs: seq<T>, x: T)
    ensures x in xs <==> Occurs(xs, x) > 0
  {
    if xs == [] {
    } else {
      MemberOccurs(xs[..|xs| - 1], x);
      assert xs == xs[..|xs| - 1] + [xs[|xs| - 1]];
    }
  }
}
