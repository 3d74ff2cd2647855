/** Chapter 5 (Higher-Order Functions): three ways to flatten an array of arrays. */
module Flattening {

  /** `[].concat(...array)`: every inner array concatenated in one call,
      taken here as the reference meaning of flattening. */
  function Flatten3<T>(xss: seq<seq<T>>): seq<T>
  {
    if xss == [] then [] else xss[0] + Flatten3(xss[1..])
  }

  /** The sum of the inner arrays' lengths. */
  function TotalLength<T>(xss: seq<seq<T>>): nat
  {
    if xss == [] then 0 else |xss[0]| + TotalLength(xss[1..])
  }

  /** Flattening keeps every element and nothing else. */
  lemma {:induction false} FlattenLength<T>(xss: seq<seq<T>>)
    ensures |Flatten3(xss)| == TotalLength(xss)
  {
    if xss != [] {
      FlattenLength(xss[1..]);
    }
  }

  lemma {:induction false} FlattenMembership<T>(xss: seq<seq<T>>, x: T)
    ensures x in Flatten3(xss) <==> exists i :: 0 <= i < |xss| && x in xss[i]
  {
    if xss != [] {
      FlattenMembership(xss[1..], x);
      if x in Flatten3(xss[1..]) {
        var i :| 0 <= i < |xss[1..]| && x in xss[1..][i];
        assert x in xss[i + 1];
      }
      if exists i :: 0 <= i < |xss| && x in xss[i] {
        var i :| 0 <= i < |xss| && x in xss[i];
        if i > 0 {
          assert x in xss[1..][i - 1];
        }
      }
    }
  }

  /** Appending one more inner array at the end of the input appends it to
      the flattened result. */
  lemma {:induction false} FlattenSnoc<T>(xss: seq<seq<T>>, xs: seq<T>)
    ensures Flatten3(xss + [xs]) == Flatten3(xss) + xs
  {
    if xss == [] {
      assert [] + [xs] == [xs];
      assert [xs][1..] == [];
    } else {
      assert (xss + [xs])[1..] == xss[1..] + [xs];
      FlattenSnoc(xss[1..], xs);
    }
  }

  /** `flatten(array)`: `forEach` reassigns `result = result.concat(innerArray)`. */
  method Flatten<T>(xss: seq<seq<T>>) returns (result: seq<T>)
    ensures result == Flatten3(xss)
  {
    result := [];
    for i := 0 to |xss|
      invariant result == Flatten3(xss[..i])
    {
      FlattenSnoc(xss[..i], xss[i]);
      assert xss[..i + 1] == xss[..i] + [xss[i]];
      result := result + xss[i];
    }
    assert xss[..|xss|] == xss;
  }

  /** `array.reduce((accumulator, value) => accumulator.concat(value), [])`. */
  function Reduce<T>(accumulator: seq<T>, xss: seq<seq<T>>): (r: seq<T>)
    ensures accumulator <= r
    ensures |r| == |accumulator| + TotalLength(xss)
    decreases xss
  {
    if xss == [] then accumulator else Reduce(accumulator + xss[0], xss[1..])
  }

  /** `flatten2(array)`: the fold from an empty accumulator. */
  function Flatten2<T>(xss: seq<seq<T>>): (r: seq<T>)
    ensures |r| == TotalLength(xss)
  {
    Reduce([], xss)
  }

  /** The left fold with concat agrees with the one-call concat. */
  lemma {:induction false} ReduceIsConcat<T>(accumulator: seq<T>, xss: seq<seq<T>>)
    ensures Reduce(accumulator, xss) == accumulator + Flatten3(xss)
    decreases xss
  {
    if xss != [] {
      ReduceIsConcat(accumulator + xss[0], xss[1..]);
    }
  }

  lemma Flatten2IsFlatten3<T>(xss: seq<seq<T>>)
    ensures Flatten2(xss) == Flatten3(xss)
  {
    ReduceIsConcat([], xss);
  }

  /** The chapter's example `[[1, 2, 3], [4, 5], [6]]`. */
  lemma FlattenExample()
    ensures Flatten3([[1, 2, 3], [4, 5], [6]]) == [1, 2, 3, 4, 5, 6]
  {
    var xss := [[1, 2, 3], [4, 5], [6]];
    assert xss[1..] == [[4, 5], [6]] && xss[1..][1..] == [[6]];
  }
}
