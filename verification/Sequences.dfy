/** Parts of sequences, and the smaller and the larger of two numbers. */
module Sequences {
  /** `part` lies in the whole, from index i on. */
  predicate At<T(==)>(whole: seq<T>, i: nat, part: seq<T>) {
    i + |part| <= |whole| && whole[i..i + |part|] == part
  }

  /** Where a longer part lies, its two halves lie. */
  lemma AtParts<T>(whole: seq<T>, i: nat, a: seq<T>, b: seq<T>)
    requires At(whole, i, a + b)
    ensures At(whole, i, a) && At(whole, i + |a|, b)
  {
    var both := whole[i..i + |a + b|];
    assert whole[i..i + |a|] == both[..|a|] == a;
    assert whole[i + |a|..i + |a| + |b|] == both[|a|..] == b;
  }

  lemma AtPoint<T>(whole: seq<T>, i: nat, part: seq<T>, k: nat)
    requires At(whole, i, part) && k < |part|
    ensures whole[i + k] == part[k]
  {
    assert whole[i + k] == whole[i..i + |part|][k];
  }

  lemma StartsAt<T>(whole: seq<T>, part: seq<T>)
    requires part <= whole
    ensures At(whole, 0, part)
  {}

  lemma AtStart<T>(whole: seq<T>, part: seq<T>)
    requires At(whole, 0, part)
    ensures part <= whole
  {
    assert whole[0..|part|] == whole[..|part|];
  }

  function Least(a: int, b: int): int {
    if a < b then a else b
  }

  function Greatest(a: int, b: int): int {
    if a > b then a else b
  }
}
