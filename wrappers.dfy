/** Optional values: `None` stands for JavaScript's `undefined` (or any other falsy
    value where the source tests a field with `||`). */
module Wrappers {

  datatype Option<+T> = None | Some(value: T) {

    /** The value, or `default` when undefined. */
    function GetOr(default: T): T {
      match this
      case Some(v) => v
      case None => default
    }
  }

  /** JavaScript's `a || b` on values that are either an object or undefined. */
  function Or<T>(a: Option<T>, b: Option<T>): Option<T> {
    if a.Some? then a else b
  }

  /** The first defined value of `xs`, read left to right. */
  function FirstDefined<T>(xs: seq<Option<T>>): (r: Option<T>)
    ensures r.None? <==> forall i :: 0 <= i < |xs| ==> xs[i].None?
    ensures r.Some? ==> exists i :: 0 <= i < |xs| && xs[i] == r && forall j :: 0 <= j < i ==> xs[j].None?
  {
    if xs == [] then None
    else if xs[0].Some? then xs[0]
    else
      var r := FirstDefined(xs[1..]);
      assert forall i :: 1 <= i < |xs| ==> xs[i] == xs[1..][i - 1];
      r
  }

  /** A chain of two `||` picks the first defined value. */
  lemma FirstOfTwo<T>(a: Option<T>, b: Option<T>)
    ensures FirstDefined([a, b]) == Or(a, b)
  {
    assert [a, b][1..] == [b] && [b][1..] == [];
  }

  /** A chain of three `||` picks the first defined value. */
  lemma FirstOfThree<T>(a: Option<T>, b: Option<T>, c: Option<T>)
    ensures FirstDefined([a, b, c]) == Or(Or(a, b), c)
  {
    assert [a, b, c][1..] == [b, c];
    FirstOfTwo(b, c);
  }

  /** A chain of four `||`, grouped as the source groups it, picks the first defined value. */
  lemma FirstOfFour<T>(a: Option<T>, b: Option<T>, c: Option<T>, d: Option<T>)
    ensures FirstDefined([a, b, c, d]) == Or(Or(a, b), Or(c, d))
  {
    assert [a, b, c, d][1..] == [b, c, d] && [b, c, d][1..] == [c, d];
    FirstOfTwo(c, d);
  }
}
