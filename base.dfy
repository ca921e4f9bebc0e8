/** Generic helpers over sequences: the array methods the planner leans on
    (`filter`, `indexOf`, `new Set(...)` insertion order, `slice`). */
module Base {

  datatype Option<T> = None | Some(value: T)

  /** `Array.prototype.filter`: the elements satisfying `p`, in their original order. */
  function Filter<T(!new)>(s: seq<T>, p: T -> bool): (r: seq<T>)
    ensures |r| <= |s|
    ensures forall x :: x in r <==> x in s && p(x)
    ensures forall i :: 0 <= i < |r| ==> p(r[i])
    ensures multiset(r) <= multiset(s)
  {
    if s == [] then []
    else
      assert s == [s[0]] + s[1..];
      (if p(s[0]) then [s[0]] else []) + Filter(s[1..], p)
  }

  /** Filtering distributes over concatenation (this is what lets a left-to-right
      loop build a filtered sequence one element at a time). */
  lemma {:induction false} FilterAppend<T(!new)>(a: seq<T>, b: seq<T>, p: T -> bool)
    ensures Filter(a + b, p) == Filter(a, p) + Filter(b, p)
  {
    if a == [] {
      assert a + b == b;
    } else {
      assert (a + b)[1..] == a[1..] + b;
      FilterAppend(a[1..], b, p);
    }
  }

  /** Filtering one element more. */
  lemma FilterSnoc<T(!new)>(s: seq<T>, x: T, p: T -> bool)
    ensures Filter(s + [x], p) == Filter(s, p) + (if p(x) then [x] else [])
  {
    FilterAppend(s, [x], p);
    assert [x] == [x] + [];
    assert Filter([x], p) == (if p(x) then [x] else []) + Filter([], p);
  }

  /** When every element passes, filtering changes nothing. */
  lemma {:induction false} FilterAll<T(!new)>(s: seq<T>, p: T -> bool)
    requires forall i :: 0 <= i < |s| ==> p(s[i])
    ensures Filter(s, p) == s
  {
    if s != [] {
      FilterAll(s[1..], p);
    }
  }

  /** `Array.prototype.indexOf`: the first index holding `x`, or -1. */
  function IndexOf<T(==)>(s: seq<T>, x: T): (r: int)
    ensures -1 <= r < |s|
    ensures r == -1 <==> x !in s
    ensures 0 <= r ==> s[r] == x && forall j :: 0 <= j < r ==> s[j] != x
  {
    if s == [] then -1
    else if s[0] == x then 0
    else var k := IndexOf(s[1..], x); if k == -1 then -1 else k + 1
  }

  /** At most the first `n` elements (`slice(0, n)`): the longest prefix of
      `s` whose length does not exceed `n`. */
  function Take<T>(s: seq<T>, n: nat): (r: seq<T>)
    ensures |r| <= n && |r| <= |s| && r == s[..|r|]
    ensures |r| < n ==> r == s
  {
    if |s| <= n then s else s[..n]
  }

  /** `[...new Set(s)]`: the distinct elements of `s` in first-seen order. */
  function Dedup<T(==,!new)>(s: seq<T>): (r: seq<T>)
    ensures forall x :: x in r <==> x in s
    ensures forall i, j :: 0 <= i < j < |r| ==> r[i] != r[j]
    decreases |s|
  {
    if s == [] then []
    else
      var r := Dedup(s[..|s| - 1]);
      assert forall x :: x in s <==> x in s[..|s| - 1] || x == s[|s| - 1] by {
        assert s == s[..|s| - 1] + [s[|s| - 1]];
      }
      if s[|s| - 1] in r then r else r + [s[|s| - 1]]
  }

  /** `current === x ? null : x`: select `x`, or clear the selection when `x`
      is already selected. */
  function Toggle<T(==)>(current: Option<T>, x: T): (r: Option<T>)
    ensures r == None <==> current == Some(x)
    ensures r != None ==> r == Some(x)
  {
    if current == Some(x) then None else Some(x)
  }

  /** After toggling `x`, a value `y` is the selection exactly when it is `x`
      and `x` was not selected before. */
  lemma ToggleSelects<T>(current: Option<T>, x: T, y: T)
    ensures Toggle(current, x) == Some(y) <==> y == x && current != Some(x)
  {
  }

  /** Toggling the same value twice restores the selection when nothing or that
      value was selected; when another value was selected, it ends cleared. */
  lemma ToggleTwice<T>(current: Option<T>, x: T)
    ensures current == None || current == Some(x) ==> Toggle(Toggle(current, x), x) == current
    ensures current != None && current != Some(x) ==> Toggle(Toggle(current, x), x) == None
  {
  }
}
