/** The list idioms of the ingestion loop: an optional value, mapping a
    function over a list, and keeping the present values of a list of
    options. */
module Lists {

  datatype Option<T> = None | Some(value: T)

  /** The values of the `Some`s, in order. */
  function Somes<T>(xs: seq<Option<T>>): seq<T>
    decreases |xs|
  {
    if xs == [] then []
    else
      var n := |xs| - 1;
      Somes(xs[..n]) + (if xs[n].Some? then [xs[n].value] else [])
  }

  /** At most one value per element. */
  lemma {:induction false} SomesBound<T>(xs: seq<Option<T>>)
    ensures |Somes(xs)| <= |xs|
    decreases |xs|
  {
    if xs != [] {
      SomesBound(xs[..|xs| - 1]);
    }
  }

  lemma {:induction false} SomesAppend<T>(a: seq<Option<T>>, b: seq<Option<T>>)
    ensures Somes(a + b) == Somes(a) + Somes(b)
    decreases |b|
  {
    if b == [] {
      assert a + b == a;
    } else {
      var n := |b| - 1;
      var ab := a + b;
      assert ab[..|ab| - 1] == a + b[..n];
      assert ab[|ab| - 1] == b[n];
      SomesAppend(a, b[..n]);
    }
  }

  /** Every value comes from an element, and every element's value is kept,
      in order: `xs[i]` contributes its value between those before it and
      those after it. */
  lemma {:induction false} SomesAround<T>(xs: seq<Option<T>>, i: nat)
    requires i < |xs|
    ensures Somes(xs) == Somes(xs[..i]) + (if xs[i].Some? then [xs[i].value] else []) + Somes(xs[i + 1..])
    decreases |xs|
  {
    var n := |xs| - 1;
    var last := if xs[n].Some? then [xs[n].value] else [];
    assert Somes(xs) == Somes(xs[..n]) + last;
    if i == n {
      assert xs[..n] == xs[..i];
      assert xs[i + 1..] == [];
    } else {
      var init := xs[..n];
      SomesAround(init, i);
      assert init[..i] == xs[..i];
      assert init[i] == xs[i];
      var tail := xs[i + 1..];
      assert tail[..|tail| - 1] == init[i + 1..];
      assert tail[|tail| - 1] == xs[n];
      assert Somes(tail) == Somes(init[i + 1..]) + last;
    }
  }

  /** `f` applied to each element. */
  function Map<A, B>(f: A -> B, xs: seq<A>): (r: seq<B>)
    ensures |r| == |xs|
    ensures forall i :: 0 <= i < |xs| ==> r[i] == f(xs[i])
  {
    seq(|xs|, i requires 0 <= i < |xs| => f(xs[i]))
  }

  lemma MapAppend<A, B>(f: A -> B, a: seq<A>, b: seq<A>)
    ensures Map(f, a + b) == Map(f, a) + Map(f, b)
  {
    assert forall i :: 0 <= i < |a| ==> (a + b)[i] == a[i];
    assert forall i :: |a| <= i < |a + b| ==> (a + b)[i] == b[i - |a|];
  }

  lemma MapSlice<A, B>(f: A -> B, xs: seq<A>, i: nat, j: nat)
    requires i <= j <= |xs|
    ensures Map(f, xs[i..j]) == Map(f, xs)[i..j]
  {
  }

  /** Mapping one more element adds its value, if any, at the end. */
  lemma SomesMapSnoc<A, B>(f: A -> Option<B>, xs: seq<A>, i: nat)
    requires i < |xs|
    ensures Somes(Map(f, xs[..i + 1])) == Somes(Map(f, xs[..i])) + (if f(xs[i]).Some? then [f(xs[i]).value] else [])
  {
    var ys := Map(f, xs[..i + 1]);
    assert ys[..i] == Map(f, xs[..i]);
    assert ys[i] == f(xs[i]);
  }
}
