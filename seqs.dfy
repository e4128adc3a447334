/** Small facts about sequences, stated once for any element type. */
module Seqs {
  import opened Wrappers

  lemma AppendAssoc<T>(a: seq<T>, b: seq<T>, c: seq<T>)
    ensures a + b + c == a + (b + c)
  {
  }

  lemma AppendEmpty<T>(a: seq<T>)
    ensures a + [] == a && [] + a == a
  {
  }

  /** A non-empty sequence is its front followed by its last element. */
  lemma FrontLast<T>(s: seq<T>)
    requires s != []
    ensures s == s[..|s| - 1] + [s[|s| - 1]]
  {
  }

  lemma TakeSnoc<T>(s: seq<T>, i: int)
    requires 0 <= i < |s|
    ensures s[..i + 1] == s[..i] + [s[i]]
  {
  }

  /** The results of `f` on each element, concatenated in order. */
  function FlatMap<A, B>(f: A -> seq<B>, xs: seq<A>): seq<B> {
    if xs == [] then [] else FlatMap(f, xs[..|xs| - 1]) + f(xs[|xs| - 1])
  }

  lemma FlatMapSnoc<A, B>(f: A -> seq<B>, xs: seq<A>, x: A)
    ensures FlatMap(f, xs + [x]) == FlatMap(f, xs) + f(x)
  {
    assert (xs + [x])[..|xs|] == xs;
  }

  /** `[g for x in xs if (g := f(x)) is not None]`: the present results of `f`, in order. */
  function FilterMap<A(!new), B(!new)>(f: A -> Option<B>, xs: seq<A>): (r: seq<B>)
    ensures forall y :: y in r <==> exists x :: x in xs && f(x) == Some(y)
    ensures |r| <= |xs|
  {
    if xs == [] then []
    else
      var front := xs[..|xs| - 1];
      var rest := FilterMap(f, front);
      assert forall x :: x in front ==> x in xs;
      assert forall x :: x in xs ==> x == xs[|xs| - 1] || x in front;
      match f(xs[|xs| - 1])
      case Some(y) => rest + [y]
      case None => rest
  }

  lemma FilterMapSnoc<A(!new), B(!new)>(f: A -> Option<B>, xs: seq<A>, x: A)
    ensures FilterMap(f, xs + [x]) == FilterMap(f, xs) + (if f(x).Some? then [f(x).value] else [])
  {
    assert (xs + [x])[..|xs|] == xs;
  }

  /** `set(xs)`: the distinct elements of `xs`. */
  function Elements<T(!new)>(xs: seq<T>): (r: set<T>)
    ensures forall x :: x in r <==> x in xs
  {
    set x | x in xs
  }
}
