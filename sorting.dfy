/** `Array.prototype.sort` with a numeric comparator, which is a stable sort:
    tasks are ordered by a key and tasks with equal keys keep their order. */
module Sorting {
  import opened Models

  /** The two orders the views sort tasks in. */
  datatype Order = ByDueDate | NewestCompletedFirst

  /** The key each comparator subtracts: the due instant ascending, or the
      completion instant descending. A task without `completedAt` gets key 0
      (its comparator answers 0, "equal", against every task). */
  function SortKey(t: Task, order: Order): int
  {
    match order
    case ByDueDate => DueTimeOrEpoch(t)
    case NewestCompletedFirst => if t.completedAt.Some? then -t.completedAt.value else 0
  }

  predicate SortedBy(s: seq<Task>, order: Order)
  {
    forall i, j :: 0 <= i < j < |s| ==> SortKey(s[i], order) <= SortKey(s[j], order)
  }

  /** Puts `x` in front of the first element whose key is not smaller. */
  function Insert(x: Task, s: seq<Task>, order: Order): (r: seq<Task>)
    ensures multiset(r) == multiset(s) + multiset{x}
    ensures |r| == |s| + 1
  {
    if s == [] || SortKey(x, order) <= SortKey(s[0], order) then [x] + s
    else
      assert s == [s[0]] + s[1..];
      [s[0]] + Insert(x, s[1..], order)
  }

  /** A bound below `x` and all of `s` stays below everything after insertion. */
  lemma {:induction false} InsertBound(x: Task, s: seq<Task>, order: Order, b: int)
    requires b <= SortKey(x, order)
    requires forall i :: 0 <= i < |s| ==> b <= SortKey(s[i], order)
    ensures forall i :: 0 <= i < |s| + 1 ==> b <= SortKey(Insert(x, s, order)[i], order)
  {
    if s != [] && SortKey(x, order) > SortKey(s[0], order) {
      InsertBound(x, s[1..], order, b);
    }
  }

  /** Inserting into an ordered sequence keeps it ordered. */
  lemma {:induction false} InsertSorted(x: Task, s: seq<Task>, order: Order)
    requires SortedBy(s, order)
    ensures SortedBy(Insert(x, s, order), order)
  {
    if s != [] && SortKey(x, order) > SortKey(s[0], order) {
      InsertSorted(x, s[1..], order);
      InsertBound(x, s[1..], order, SortKey(s[0], order));
    }
  }

  /** Insertion sort: the result is ordered by the key and holds exactly the
      input's tasks. */
  function Sort(s: seq<Task>, order: Order): (r: seq<Task>)
    ensures SortedBy(r, order)
    ensures multiset(r) == multiset(s)
    ensures |r| == |s|
  {
    if s == [] then []
    else
      assert s == [s[0]] + s[1..];
      InsertSorted(s[0], Sort(s[1..], order), order);
      Insert(s[0], Sort(s[1..], order), order)
  }

  /** Sorting keeps exactly the tasks it is given. */
  lemma SortMembers(s: seq<Task>, order: Order)
    ensures forall x :: x in Sort(s, order) <==> x in s
  {
    var r := Sort(s, order);
    forall x
      ensures x in r <==> x in s
    {
      assert x in r <==> x in multiset(r);
      assert x in s <==> x in multiset(s);
    }
  }

  /** The tasks of `s` whose key is `k`, in order. */
  function WithKey(s: seq<Task>, order: Order, k: int): seq<Task>
  {
    if s == [] then []
    else (if SortKey(s[0], order) == k then [s[0]] else []) + WithKey(s[1..], order, k)
  }

  /** When one of two prefixes is empty, their order does not matter. */
  lemma SwapEmpty<T>(a: seq<T>, b: seq<T>, w: seq<T>)
    requires a == [] || b == []
    ensures a + (b + w) == b + (a + w)
  {
    if a == [] {
      assert a + (b + w) == b + w == b + (a + w);
    } else {
      assert b + (a + w) == a + w == a + (b + w);
    }
  }

  lemma {:induction false} InsertWithKey(x: Task, s: seq<Task>, order: Order, k: int)
    ensures WithKey(Insert(x, s, order), order, k)
            == (if SortKey(x, order) == k then [x] else []) + WithKey(s, order, k)
  {
    var hx := if SortKey(x, order) == k then [x] else [];
    var r := Insert(x, s, order);
    if s == [] || SortKey(x, order) <= SortKey(s[0], order) {
      assert r == [x] + s && r[1..] == s;
    } else {
      var h0 := if SortKey(s[0], order) == k then [s[0]] else [];
      assert r[0] == s[0] && r[1..] == Insert(x, s[1..], order);
      InsertWithKey(x, s[1..], order, k);
      var w := WithKey(s[1..], order, k);
      assert WithKey(r, order, k) == h0 + (hx + w);
      assert WithKey(s, order, k) == h0 + w;
      SwapEmpty(h0, hx, w);
    }
  }

  /** Stability: for every key, the tasks with that key appear in the sorted
      sequence in the same order as in the input. */
  lemma {:induction false} SortStable(s: seq<Task>, order: Order, k: int)
    ensures WithKey(Sort(s, order), order, k) == WithKey(s, order, k)
  {
    if s != [] {
      SortStable(s[1..], order, k);
      InsertWithKey(s[0], Sort(s[1..], order), order, k);
    }
  }

  /** The default `sort()` order on strings: lexicographic by character
      (a proper prefix comes first). */
  predicate LexLe(a: string, b: string)
    decreases |a|
  {
    a == [] || (b != [] && (a[0] < b[0] || (a[0] == b[0] && LexLe(a[1..], b[1..]))))
  }

  lemma {:induction false} LexLeTotal(a: string, b: string)
    ensures LexLe(a, b) || LexLe(b, a)
    decreases |a|
  {
    if a != [] && b != [] && a[0] == b[0] {
      LexLeTotal(a[1..], b[1..]);
    }
  }

  lemma {:induction false} LexLeAntisymmetric(a: string, b: string)
    requires LexLe(a, b) && LexLe(b, a)
    ensures a == b
    decreases |a|
  {
    if a != [] {
      LexLeAntisymmetric(a[1..], b[1..]);
      assert a == [a[0]] + a[1..] && b == [b[0]] + b[1..];
    }
  }

  lemma {:induction false} LexLeTransitive(a: string, b: string, c: string)
    requires LexLe(a, b) && LexLe(b, c)
    ensures LexLe(a, c)
    decreases |a|
  {
    if a != [] && a[0] == b[0] && b[0] == c[0] {
      LexLeTransitive(a[1..], b[1..], c[1..]);
    }
  }

  predicate StringsSorted(s: seq<string>)
  {
    forall i, j :: 0 <= i < j < |s| ==> LexLe(s[i], s[j])
  }

  function InsertString(x: string, s: seq<string>): (r: seq<string>)
    ensures multiset(r) == multiset(s) + multiset{x}
    ensures |r| == |s| + 1
  {
    if s == [] || LexLe(x, s[0]) then [x] + s
    else
      assert s == [s[0]] + s[1..];
      [s[0]] + InsertString(x, s[1..])
  }

  lemma {:induction false} InsertStringSorted(x: string, s: seq<string>)
    requires StringsSorted(s)
    ensures StringsSorted(InsertString(x, s))
    decreases |s|
  {
    if s != [] && !LexLe(x, s[0]) {
      InsertStringSorted(x, s[1..]);
      LexLeTotal(x, s[0]);
      var r := InsertString(x, s[1..]);
      forall j | 0 <= j < |r|
        ensures LexLe(s[0], r[j])
      {
        assert r[j] in multiset(r);
        if r[j] != x {
          assert r[j] in multiset(s[1..]);
          var k :| 0 <= k < |s[1..]| && s[1..][k] == r[j];
          assert s[k + 1] == r[j];
        }
      }
      assert InsertString(x, s) == [s[0]] + r;
    } else if s != [] {
      forall j | 0 <= j < |s|
        ensures LexLe(x, s[j])
      {
        if j > 0 {
          LexLeTransitive(x, s[0], s[j]);
        }
      }
    }
  }

  /** `Array.prototype.sort()` on strings: ordered, same strings. */
  function SortStrings(s: seq<string>): (r: seq<string>)
    ensures StringsSorted(r)
    ensures multiset(r) == multiset(s)
  {
    if s == [] then []
    else
      assert s == [s[0]] + s[1..];
      InsertStringSorted(s[0], SortStrings(s[1..]));
      InsertString(s[0], SortStrings(s[1..]))
  }
}
