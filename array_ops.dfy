/**
 The two JavaScript array primitives the registry relies on, over sequences:
 `indexOf`, which finds the first element identical (`===`) to a value, and
 `splice(i, 1)`, which removes the one element at index `i` and closes the gap.
 */
module ArrayOps {

  /** `s.indexOf(x)`: the first index holding `x`, or -1 when there is none. */
  function IndexOf<T(==)>(s: seq<T>, x: T): (r: int)
    ensures -1 <= r < |s|
    ensures r == -1 <==> x !in s
    ensures 0 <= r ==> s[r] == x && x !in s[..r]
  {
    if s == [] then -1
    else if s[0] == x then 0
    else
      var k := IndexOf(s[1..], x);
      if k == -1 then -1
      else
        assert s[..k + 1] == [s[0]] + s[1..][..k];
        k + 1
  }

  /** `s.splice(i, 1)` seen through the array it leaves behind. */
  function Splice<T>(s: seq<T>, i: int): (r: seq<T>)
    requires 0 <= i < |s|
    ensures |r| == |s| - 1
    ensures forall j :: 0 <= j < i ==> r[j] == s[j]
    ensures forall j :: i <= j < |r| ==> r[j] == s[j + 1]
  {
    s[..i] + s[i + 1..]
  }

  /** Splicing out index `i` removes one copy of `s[i]` and keeps every other element. */
  lemma SpliceMultiset<T>(s: seq<T>, i: int)
    requires 0 <= i < |s|
    ensures multiset(Splice(s, i)) == multiset(s) - multiset{s[i]}
  {
    assert s == s[..i] + [s[i]] + s[i + 1..];
  }

  /** Once the element at `i` is spliced out, putting it back at `i` gives the original. */
  lemma SpliceInverse<T>(s: seq<T>, i: int)
    requires 0 <= i < |s|
    ensures Splice(s, i)[..i] + [s[i]] + Splice(s, i)[i..] == s
  {
  }

  /** The first occurrence is found at the end exactly when nothing before it matches. */
  lemma {:induction false} IndexOfAppended<T>(s: seq<T>, x: T)
    ensures x !in s ==> IndexOf(s + [x], x) == |s|
    ensures x in s ==> IndexOf(s + [x], x) == IndexOf(s, x)
  {
    if s != [] && s[0] != x {
      assert (s + [x])[1..] == s[1..] + [x];
      IndexOfAppended(s[1..], x);
    }
  }
}
