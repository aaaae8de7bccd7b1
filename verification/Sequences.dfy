/** Sequences of sequences. */
module Sequences {
  function Concat<T>(parts: seq<seq<T>>): seq<T> {
    if parts == [] then [] else parts[0] + Concat(parts[1..])
  }

  lemma ConcatThree<T>(a: seq<T>, b: seq<T>, c: seq<T>)
    ensures Concat([a, b, c]) == a + b + c
  {
    assert [a, b, c][1..] == [b, c] && [b, c][1..] == [c] && [c][1..] == [];
    assert Concat([c]) == c;
    assert Concat([b, c]) == b + c;
  }

  lemma {:induction false} ConcatOneMore<T>(parts: seq<seq<T>>, last: seq<T>)
    ensures Concat(parts + [last]) == Concat(parts) + last
  {
    if parts == [] {
      assert [last][1..] == [] && [] + [last] == [last];
    } else {
      assert (parts + [last])[1..] == parts[1..] + [last];
      ConcatOneMore(parts[1..], last);
    }
  }
}
