/** How strings joined by a separator come apart again. */
module Text {
  /** A text before the separator that does not hold it is determined by the whole. */
  lemma CutAtFirst(a: string, b: string, a': string, b': string, sep: char)
    requires a + [sep] + b == a' + [sep] + b'
    requires sep !in a && sep !in a'
    ensures a == a' && b == b'
  {
    var whole := a + [sep] + b;
    assert whole[|a|] == sep && whole[|a'|] == sep;
    assert forall i :: 0 <= i < |a| ==> whole[i] == a[i] && whole[i] != sep;
    assert forall i :: 0 <= i < |a'| ==> whole[i] == a'[i] && whole[i] != sep;
    assert |a| == |a'|;
    assert a == whole[..|a|] && a' == whole[..|a'|];
    assert b == whole[|a| + 1..] && b' == whole[|a'| + 1..];
  }

  /** A text after the separator that does not hold it is determined by the whole. */
  lemma CutAtLast(a: string, b: string, a': string, b': string, sep: char)
    requires a + [sep] + b == a' + [sep] + b'
    requires sep !in b && sep !in b'
    ensures a == a' && b == b'
  {
    var whole := a + [sep] + b;
    assert whole[|a|] == sep && whole[|a'|] == sep;
    assert forall i :: |a| < i < |whole| ==> whole[i] == b[i - |a| - 1] && whole[i] != sep;
    assert forall i :: |a'| < i < |whole| ==> whole[i] == b'[i - |a'| - 1] && whole[i] != sep;
    assert |a| == |a'|;
    assert a == whole[..|a|] && a' == whole[..|a'|];
    assert b == whole[|a| + 1..] && b' == whole[|a'| + 1..];
  }
}
