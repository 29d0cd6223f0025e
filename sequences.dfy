/** Sequences used as ordered collections without repeated elements, such as directory listings and registry orders. */
module Sequences {

  /** No element occurs twice. */
  predicate Distinct<T(==)>(xs: seq<T>) {
    forall i, j :: 0 <= i < j < |xs| ==> xs[i] != xs[j]
  }

  /** The sequence without the element x, in the same order. */
  function Without(xs: seq<string>, x: string): (r: seq<string>)
    ensures forall y :: y in r <==> y in xs && y != x
    ensures Distinct(xs) ==> Distinct(r)
  {
    if |xs| == 0 then []
    else if xs[|xs| - 1] == x then Without(xs[..|xs| - 1], x)
    else
      var init, last := xs[..|xs| - 1], xs[|xs| - 1];
      assert Distinct(xs) ==> Distinct(init) && last !in init;
      Without(init, x) + [last]
  }
}
