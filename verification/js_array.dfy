/**
 * The three JavaScript array operations the aggregate tasks rely on, with the
 * semantics ECMAScript gives them: `indexOf`, `splice(start, 1)` and the order
 * in which repeated `pop()` hands out the elements.
 */
module JsArray {

  /** `s.indexOf(x)`: the first index holding `x`, or -1 when there is none. */
  function IndexOf<T(==)>(s: seq<T>, x: T): (r: int)
    ensures -1 <= r < |s|
    ensures r == -1 <==> x !in s
    ensures 0 <= r ==> s[r] == x && x !in s[..r]
  {
    if s == [] then -1
    else if s[0] == x then 0
    else
      var k := IndexOf(s[1..], x);
      if k == -1 then -1
      else
        assert s[..k + 1] == [s[0]] + s[1..][..k];
        k + 1
  }

  /**
   * The array left behind by `s.splice(start, 1)`. A negative start counts
   * from the end (clamped at 0), a start past the end removes nothing.
   */
  function SpliceOne<T>(s: seq<T>, start: int): seq<T>
  {
    var k := if start < 0 then (if |s| + start < 0 then 0 else |s| + start)
             else (if start > |s| then |s| else start);
    if k < |s| then s[..k] + s[k + 1..] else s
  }

  /** Splicing at the index `indexOf` found removes exactly one copy of `x`. */
  lemma SpliceFound<T>(s: seq<T>, x: T)
    requires x in s
    ensures |SpliceOne(s, IndexOf(s, x))| == |s| - 1
    ensures multiset(SpliceOne(s, IndexOf(s, x))) + multiset{x} == multiset(s)
  {
    var i := IndexOf(s, x);
    SpliceAt(s, i);
    DropOne(s, i);
  }

  /** A start inside the array removes exactly that element. */
  lemma SpliceAt<T>(s: seq<T>, i: int)
    requires 0 <= i < |s|
    ensures SpliceOne(s, i) == s[..i] + s[i + 1..]
  {
  }

  lemma DropOne<T>(s: seq<T>, i: int)
    requires 0 <= i < |s|
    ensures |s[..i] + s[i + 1..]| == |s| - 1
    ensures multiset(s[..i] + s[i + 1..]) + multiset{s[i]} == multiset(s)
  {
    assert s == s[..i] + [s[i]] + s[i + 1..];
  }

  /** `splice(indexOf(x), 1)` for an absent `x` is `splice(-1, 1)`: it drops the last element. */
  lemma SpliceMissing<T>(s: seq<T>, x: T)
    requires x !in s && s != []
    ensures SpliceOne(s, IndexOf(s, x)) == s[..|s| - 1]
  {
  }

  /** The elements in the order `while (s.length) s.pop()` yields them: last first. */
  function PopOrder<T>(s: seq<T>): (r: seq<T>)
    ensures |r| == |s|
    ensures forall i :: 0 <= i < |s| ==> r[i] == s[|s| - 1 - i]
  {
    if s == [] then [] else PopOrder(s[1..]) + [s[0]]
  }

  /** Popping everything hands out every element, each as often as it occurs. */
  lemma {:induction false} PopOrderMultiset<T>(s: seq<T>)
    ensures multiset(PopOrder(s)) == multiset(s)
  {
    if s != [] {
      PopOrderMultiset(s[1..]);
      assert s == [s[0]] + s[1..];
    }
  }
}
