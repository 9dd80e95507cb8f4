/** Generic sequence helpers: concatenating a list of pieces and dropping empty pieces. */
module Seqs {

  /** Concatenation of all pieces in order (`Blob` parts, `''.join`, flattening of groups). */
  function Flatten<T>(xss: seq<seq<T>>): seq<T>
    decreases |xss|
  {
    if xss == [] then [] else Flatten(xss[..|xss| - 1]) + xss[|xss| - 1]
  }

  /** The pieces that are not empty, in their original order. */
  function NonEmpty<T>(xss: seq<seq<T>>): (r: seq<seq<T>>)
    ensures forall i :: 0 <= i < |r| ==> |r[i]| > 0
    ensures |r| <= |xss|
    decreases |xss|
  {
    if xss == [] then []
    else if |xss[|xss| - 1]| == 0 then NonEmpty(xss[..|xss| - 1])
    else NonEmpty(xss[..|xss| - 1]) + [xss[|xss| - 1]]
  }

  /** Flattening distributes over concatenation of the lists of pieces. */
  lemma {:induction false} FlattenAppend<T>(a: seq<seq<T>>, b: seq<seq<T>>)
    ensures Flatten(a + b) == Flatten(a) + Flatten(b)
    decreases |b|
  {
    if b == [] {
      assert a + b == a;
    } else {
      var b' := b[..|b| - 1];
      assert (a + b)[..|a + b| - 1] == a + b';
      assert (a + b)[|a + b| - 1] == b[|b| - 1];
      FlattenAppend(a, b');
      assert b == b' + [b[|b| - 1]];
    }
  }

  lemma FlattenSingleton<T>(x: seq<T>)
    ensures Flatten([x]) == x
  {
    assert [x][..0] == [];
  }

  /** Flattening peels off the first piece. */
  lemma FlattenCons<T>(x: seq<T>, xs: seq<seq<T>>)
    ensures Flatten([x] + xs) == x + Flatten(xs)
  {
    FlattenAppend([x], xs);
    FlattenSingleton(x);
  }

  /** Dropping empty pieces never changes what the pieces concatenate to. */
  lemma {:induction false} NonEmptyFlatten<T>(xss: seq<seq<T>>)
    ensures Flatten(NonEmpty(xss)) == Flatten(xss)
    decreases |xss|
  {
    if xss != [] {
      var init := xss[..|xss| - 1];
      var last := xss[|xss| - 1];
      NonEmptyFlatten(init);
      if |last| > 0 {
        FlattenAppend(NonEmpty(init), [last]);
        FlattenSingleton(last);
      }
    }
  }

  /** Dropping empty pieces keeps every non-empty piece. */
  lemma {:induction false} NonEmptyAppend<T>(a: seq<seq<T>>, x: seq<T>)
    ensures NonEmpty(a + [x]) == if |x| == 0 then NonEmpty(a) else NonEmpty(a) + [x]
  {
    assert (a + [x])[..|a + [x]| - 1] == a;
  }
}
