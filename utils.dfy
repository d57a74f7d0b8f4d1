/** lib/core/utils.js: the ordered list the parser collects tokens in, `find`, `splitArray` and `toggle`. */
module Utils {

  // ------------------------------------------------------------------ find

  /** What `find` returns: the item and its position, or the pair `[undefined, -1]`. */
  datatype Found<T> = Found(item: T, at: nat) | NotFound

  /** `find(arr, strategy, skip)`: the first position at or after `skip` whose item satisfies `p`. */
  function Find<T>(arr: seq<T>, p: T -> bool, skip: nat): (r: Found<T>)
    ensures r.Found? ==> skip <= r.at < |arr| && r.item == arr[r.at] && p(r.item)
    ensures r.Found? ==> forall i :: skip <= i < r.at ==> !p(arr[i])
    ensures r.NotFound? <==> forall i :: skip <= i < |arr| ==> !p(arr[i])
    decreases |arr| - skip
  {
    if skip >= |arr| then NotFound
    else if p(arr[skip]) then Found(arr[skip], skip)
    else Find(arr, p, skip + 1)
  }

  /** The two calls of the test of `find`: the first item with value 3 is at 2, the next one at 3,
      and looking for a value that is absent gives `NotFound`. */
  lemma FindExample()
    ensures Find([1, 2, 3, 3], (v: int) => v == 3, 0) == Found(3, 2)
    ensures Find([1, 2, 3, 3], (v: int) => v == 3, 3) == Found(3, 3)
    ensures Find([1, 2, 3, 3], (v: int) => v == 4, 0) == NotFound
  {
  }

  /** JavaScript's `slice(start, end)` for non-negative bounds: the end is clamped to the length, and a
      start at or after the end gives an empty result. */
  function Slice<T>(s: seq<T>, start: nat, end: nat): (r: seq<T>)
    ensures start <= end <= |s| ==> r == s[start..end]
    ensures start < |s| < end ==> r == s[start..]
    ensures end <= start || |s| <= start ==> r == []
  {
    var e := if end < |s| then end else |s|;
    if start < e then s[start..e] else []
  }

  // ----------------------------------------------------------- SortedList

  /** `s` is in ascending order of `key`; equal keys may repeat. */
  ghost predicate Sorted<T>(s: seq<T>, key: T -> int) {
    forall i, j :: 0 <= i < j < |s| ==> key(s[i]) <= key(s[j])
  }

  /** `s` is in ascending order of `key` and no key repeats. */
  ghost predicate StrictlySorted<T>(s: seq<T>, key: T -> int) {
    forall i, j :: 0 <= i < j < |s| ==> key(s[i]) < key(s[j])
  }

  /** Reference definition of one insertion by `push`: `v` goes in front of the first element whose key
      is strictly greater than its own, and at the end when there is none. */
  function Insert<T>(s: seq<T>, v: T, key: T -> int): seq<T>
    decreases |s|
  {
    if s == [] then [v]
    else if key(v) < key(s[0]) then [v] + s
    else [s[0]] + Insert(s[1..], v, key)
  }

  /** `push(...vs)`: the values inserted one after the other, in argument order. */
  function InsertAll<T>(s: seq<T>, vs: seq<T>, key: T -> int): seq<T>
    decreases |vs|
  {
    if vs == [] then s else InsertAll(Insert(s, vs[0], key), vs[1..], key)
  }

  /** The position `findIndex` reports for `v`: the first element `v` is strictly less than, else the end. */
  function InsertionPoint<T>(s: seq<T>, v: T, key: T -> int): (p: nat)
    ensures p <= |s|
    ensures forall i :: 0 <= i < p ==> key(s[i]) <= key(v)
    ensures p < |s| ==> key(v) < key(s[p])
  {
    match Find(s, (item: T) => key(v) < key(item), 0)
    case Found(_, at) => at
    case NotFound => |s|
  }

  /** Inserting at a position that has only keys up to `v`'s before it and a greater key at it is
      the splice `s[..p] + [v] + s[p..]`. */
  lemma {:induction false} InsertSplits<T>(s: seq<T>, v: T, key: T -> int, p: nat)
    requires p <= |s|
    requires forall i :: 0 <= i < p ==> key(s[i]) <= key(v)
    requires p < |s| ==> key(v) < key(s[p])
    ensures Insert(s, v, key) == s[..p] + [v] + s[p..]
  {
    if s == [] {
    } else if p == 0 {
    } else {
      InsertSplits(s[1..], v, key, p - 1);
      assert s[1..][..p - 1] == s[1..p];
      assert s[1..][p - 1..] == s[p..];
      assert s[..p] == [s[0]] + s[1..p];
    }
  }

  /** `push` puts `v` after every element with the same key and before every greater one, and leaves
      the other elements in their order. */
  lemma InsertPlacement<T>(s: seq<T>, v: T, key: T -> int)
    ensures var p := InsertionPoint(s, v, key);
      Insert(s, v, key) == s[..p] + [v] + s[p..] &&
      (forall i :: 0 <= i < p ==> key(s[i]) <= key(v)) &&
      (p < |s| ==> key(v) < key(s[p]))
  {
    InsertSplits(s, v, key, InsertionPoint(s, v, key));
  }

  /** Insertion keeps a list ordered. */
  lemma InsertSorted<T>(s: seq<T>, v: T, key: T -> int)
    requires Sorted(s, key)
    ensures Sorted(Insert(s, v, key), key)
  {
    var p := InsertionPoint(s, v, key);
    InsertSplits(s, v, key, p);
    var r := Insert(s, v, key);
    forall i, j | 0 <= i < j < |r| ensures key(r[i]) <= key(r[j]) {
      if j == p {
      } else if i == p {
        assert key(v) < key(s[p]) <= key(s[j - 1]);
      } else if i < p < j {
        assert key(s[i]) <= key(v) < key(s[p]) <= key(s[j - 1]);
      }
    }
  }

  /** Splicing `v` in at a position with only smaller keys before it and a greater key at it keeps
      a strictly ordered list strictly ordered. */
  lemma StrictSplice<T>(s: seq<T>, v: T, key: T -> int, p: nat)
    requires StrictlySorted(s, key) && p <= |s|
    requires forall i :: 0 <= i < p ==> key(s[i]) < key(v)
    requires p < |s| ==> key(v) < key(s[p])
    ensures StrictlySorted(s[..p] + [v] + s[p..], key)
  {
    var r := s[..p] + [v] + s[p..];
    assert forall k :: 0 <= k < p ==> r[k] == s[k];
    assert forall k :: p < k < |r| ==> r[k] == s[k - 1];
    forall i, j | 0 <= i < j < |r| ensures key(r[i]) < key(r[j]) {
      if j < p || p < i {
      } else if i == p {
        assert key(v) < key(s[p]) <= key(s[j - 1]);
      } else if p < j {
        assert key(s[i]) < key(v) < key(s[p]) <= key(s[j - 1]);
      }
    }
  }

  /** Inserting a value whose key is not already present keeps a list strictly ordered. */
  lemma InsertStrictlySorted<T>(s: seq<T>, v: T, key: T -> int)
    requires StrictlySorted(s, key)
    requires forall i :: 0 <= i < |s| ==> key(s[i]) != key(v)
    ensures StrictlySorted(Insert(s, v, key), key)
  {
    var p := InsertionPoint(s, v, key);
    InsertSplits(s, v, key, p);
    assert forall i :: 0 <= i < p ==> key(s[i]) < key(v);
    StrictSplice(s, v, key, p);
  }

  /** Insertion adds exactly `v`. */
  lemma InsertMultiset<T>(s: seq<T>, v: T, key: T -> int)
    ensures multiset(Insert(s, v, key)) == multiset(s) + multiset{v}
  {
    var p := InsertionPoint(s, v, key);
    InsertSplits(s, v, key, p);
    assert s == s[..p] + s[p..];
  }

  /** `push` keeps a list ordered. */
  lemma {:induction false} InsertAllSorted<T>(s: seq<T>, vs: seq<T>, key: T -> int)
    requires Sorted(s, key)
    ensures Sorted(InsertAll(s, vs, key), key)
    decreases |vs|
  {
    if vs != [] {
      InsertSorted(s, vs[0], key);
      InsertAllSorted(Insert(s, vs[0], key), vs[1..], key);
    }
  }

  /** `push` grows the list by exactly the pushed values. */
  lemma {:induction false} InsertAllMultiset<T>(s: seq<T>, vs: seq<T>, key: T -> int)
    ensures multiset(InsertAll(s, vs, key)) == multiset(s) + multiset(vs)
    ensures |InsertAll(s, vs, key)| == |s| + |vs|
    decreases |vs|
  {
    if vs != [] {
      InsertMultiset(s, vs[0], key);
      InsertAllMultiset(Insert(s, vs[0], key), vs[1..], key);
      assert vs == [vs[0]] + vs[1..];
      assert |multiset(Insert(s, vs[0], key))| == |s| + 1;
    }
  }

  /** Pushing `a` and then `b` is pushing `a + b`. */
  lemma {:induction false} InsertAllAppend<T>(s: seq<T>, a: seq<T>, b: seq<T>, key: T -> int)
    ensures InsertAll(s, a + b, key) == InsertAll(InsertAll(s, a, key), b, key)
    decreases |a|
  {
    if a != [] {
      assert (a + b)[0] == a[0];
      assert (a + b)[1..] == a[1..] + b;
      InsertAllAppend(Insert(s, a[0], key), a[1..], b, key);
    } else {
      assert a + b == b;
    }
  }

  /** How many elements of `s` satisfy `p`. */
  function Count<T>(s: seq<T>, p: T -> bool): nat
    decreases |s|
  {
    if s == [] then 0 else (if p(s[0]) then 1 else 0) + Count(s[1..], p)
  }

  lemma {:induction false} CountAppend<T>(a: seq<T>, b: seq<T>, p: T -> bool)
    ensures Count(a + b, p) == Count(a, p) + Count(b, p)
    decreases |a|
  {
    if a != [] {
      assert (a + b)[0] == a[0];
      assert (a + b)[1..] == a[1..] + b;
      CountAppend(a[1..], b, p);
    } else {
      assert a + b == b;
    }
  }

  /** The count of a non-empty sequence: the count of all but the last element, plus the last one. */
  lemma CountLast<T>(s: seq<T>, p: T -> bool)
    requires s != []
    ensures Count(s, p) == Count(s[..|s| - 1], p) + if p(s[|s| - 1]) then 1 else 0
  {
    var n := |s| - 1;
    assert s == s[..n] + [s[n]];
    CountAppend(s[..n], [s[n]], p);
    assert [s[n]][1..] == [];
  }

  /** Insertion adds one to the count of every property that `v` has, and nothing to the others. */
  lemma {:induction false} InsertCount<T>(s: seq<T>, v: T, key: T -> int, p: T -> bool)
    ensures Count(Insert(s, v, key), p) == Count(s, p) + (if p(v) then 1 else 0)
    decreases |s|
  {
    if s != [] && !(key(v) < key(s[0])) {
      InsertCount(s[1..], v, key, p);
      assert Insert(s, v, key)[1..] == Insert(s[1..], v, key);
    }
  }

  lemma {:induction false} InsertAllCount<T>(s: seq<T>, vs: seq<T>, key: T -> int, p: T -> bool)
    ensures Count(InsertAll(s, vs, key), p) == Count(s, p) + Count(vs, p)
    decreases |vs|
  {
    if vs != [] {
      InsertCount(s, vs[0], key, p);
      InsertAllCount(Insert(s, vs[0], key), vs[1..], key, p);
    }
  }

  /** `SortedList`: an array kept in ascending order of the strategy's key by inserting every pushed
      value in front of the first element it is strictly less than. */
  class SortedList<T> {
    const key: T -> int
    var items: seq<T>

    ghost predicate Valid()
      reads this
    {
      Sorted(items, key)
    }

    constructor (key: T -> int)
      ensures this.key == key && items == [] && Valid()
    {
      this.key := key;
      items := [];
    }

    /** `push(...values)`: inserts the values one by one and returns the new length. */
    method Push(values: seq<T>) returns (length: nat)
      requires Valid()
      modifies this
      ensures Valid()
      ensures items == InsertAll(old(items), values, key)
      ensures length == |items| == |old(items)| + |values|
    {
      for n := 0 to |values|
        invariant Valid()
        invariant InsertAll(old(items), values, key) == InsertAll(items, values[n..], key)
      {
        var value := values[n];
        var found := Find(items, (item: T) => key(value) < key(item), 0);
        ghost var before := items;
        if found.NotFound? {
          items := items + [value];
          assert forall i :: 0 <= i < |before| ==> key(before[i]) <= key(value);
          InsertSplits(before, value, key, |before|);
          assert before[..|before|] == before;
        } else {
          items := items[..found.at] + [value] + items[found.at..];
          assert forall i :: 0 <= i < found.at ==> key(before[i]) <= key(value);
          InsertSplits(before, value, key, found.at);
        }
        assert items == Insert(before, value, key);
        InsertSorted(before, value, key);
        assert values[n..][0] == value;
        assert values[n..][1..] == values[n + 1..];
      }
      assert values[|values|..] == [];
      InsertAllMultiset(old(items), values, key);
      length := |items|;
    }

    /** `clone()`: a new, EMPTY list with the same strategy; the elements are not copied. */
    method Clone() returns (list: SortedList<T>)
      ensures fresh(list) && list.key == key && list.items == [] && list.Valid()
    {
      list := new SortedList(key);
    }
  }

  /** The test of `SortedList`: pushing 4, 2, 1, 3, 5 gives 1, 2, 3, 4, 5. */
  lemma SortedListExample()
    ensures InsertAll([], [4, 2, 1, 3, 5], (v: int) => v) == [1, 2, 3, 4, 5]
  {
    var id := (v: int) => v;
    assert Insert([], 4, id) == [4];
    assert Insert([4], 2, id) == [2, 4];
    assert Insert([2, 4], 1, id) == [1, 2, 4];
    assert Insert([1, 2, 4], 3, id) == [1, 2, 3, 4];
    assert Insert([1, 2, 3, 4], 5, id) == [1, 2, 3, 4, 5];
    assert InsertAll([1, 2, 3, 4, 5], [], id) == [1, 2, 3, 4, 5];
    assert InsertAll([1, 2, 3, 4], [5], id) == [1, 2, 3, 4, 5];
    assert InsertAll([1, 2, 4], [3, 5], id) == [1, 2, 3, 4, 5];
    assert InsertAll([2, 4], [1, 3, 5], id) == [1, 2, 3, 4, 5];
    assert InsertAll([4], [2, 1, 3, 5], id) == [1, 2, 3, 4, 5];
  }

  // ------------------------------------------------------------ splitArray

  /** Where slice `j` of `splitArray` starts: 0 for the first, one past the previous position otherwise. */
  function SliceStart(indexes: seq<nat>, j: nat): nat
    requires j <= |indexes|
  {
    if j == 0 then 0 else indexes[j - 1] + 1
  }

  /** Where slice `j` ends: at the `j`-th position, or at the end of `arr` for the last slice. */
  function SliceEnd<T>(arr: seq<T>, indexes: seq<nat>, j: nat): nat
    requires j <= |indexes|
  {
    if j < |indexes| then indexes[j] else |arr|
  }

  /** Reference definition of `splitArray(arr, ...indexes)`: `|indexes| + 1` slices, slice `j` running from
      just past position `j - 1` up to, and not including, position `j`. */
  function Split<T>(arr: seq<T>, indexes: seq<nat>): (r: seq<seq<T>>)
    ensures |r| == |indexes| + 1
  {
    seq(|indexes| + 1, j requires 0 <= j <= |indexes| =>
      Slice(arr, SliceStart(indexes, j), SliceEnd(arr, indexes, j)))
  }

  /** Cutting at one position `i` gives the part in front of it and the part behind it. */
  lemma SplitOne<T>(arr: seq<T>, i: nat)
    requires i < |arr|
    ensures Split(arr, [i]) == [arr[..i], arr[i + 1..]]
  {
    var r := Split(arr, [i]);
    assert r[0] == Slice(arr, 0, i) == arr[0..i] == arr[..i];
    assert r[1] == Slice(arr, i + 1, |arr|) == arr[i + 1..|arr|] == arr[i + 1..];
  }

  /** Cutting at two positions `i < j` gives the part in front of `i`, the part between, and the
      part behind `j`. */
  lemma SplitTwo<T>(arr: seq<T>, i: nat, j: nat)
    requires i < j < |arr|
    ensures Split(arr, [i, j]) == [arr[..i], arr[i + 1..j], arr[j + 1..]]
  {
    var r := Split(arr, [i, j]);
    assert r[0] == Slice(arr, 0, i) == arr[0..i] == arr[..i];
    assert r[1] == Slice(arr, i + 1, j) == arr[i + 1..j];
    assert r[2] == Slice(arr, j + 1, |arr|) == arr[j + 1..|arr|] == arr[j + 1..];
  }

  /** `splitArray`: a loop that cuts the next slice and moves `start` past the boundary. */
  method SplitArray<T>(arr: seq<T>, indexes: seq<nat>) returns (res: seq<seq<T>>)
    ensures res == Split(arr, indexes)
  {
    res := [];
    var start := 0;
    for i := 0 to |indexes| + 1
      invariant |res| == i
      invariant i <= |indexes| ==> start == SliceStart(indexes, i)
      invariant forall j :: 0 <= j < i ==> res[j] == Split(arr, indexes)[j]
    {
      var end := if i < |indexes| then indexes[i] else |arr|;
      var slice := Slice(arr, start, end);
      res := res + [slice];
      start := end + 1;
    }
  }

  /** Positions inside an array of length `n`, strictly increasing. */
  ghost predicate Increasing(indexes: seq<nat>, n: nat) {
    && (forall j :: 0 <= j < |indexes| ==> indexes[j] < n)
    && (forall j, k :: 0 <= j < k < |indexes| ==> indexes[j] < indexes[k])
  }

  /** The elements at the cut positions. */
  function Picked<T>(arr: seq<T>, indexes: seq<nat>): (r: seq<T>)
    requires forall j :: 0 <= j < |indexes| ==> indexes[j] < |arr|
    ensures |r| == |indexes|
  {
    seq(|indexes|, j requires 0 <= j < |indexes| => arr[indexes[j]])
  }

  /** `slices[0] + [seps[0]] + slices[1] + ... + [seps[k-1]] + slices[k]`. */
  function Interleave<T>(slices: seq<seq<T>>, seps: seq<T>): seq<T>
    requires |slices| == |seps| + 1
    decreases |seps|
  {
    if seps == [] then slices[0]
    else Interleave(slices[..|seps|], seps[..|seps| - 1]) + [seps[|seps| - 1]] + slices[|seps|]
  }

  /** The sum of the lengths of `slices`. */
  function TotalLength<T>(slices: seq<seq<T>>): nat
    decreases |slices|
  {
    if slices == [] then 0 else TotalLength(slices[..|slices| - 1]) + |slices[|slices| - 1]|
  }

  /** Cutting at all positions but the last, then the last: the first slices are those of the part
      of the array in front of the last position. */
  lemma SplitFront<T>(arr: seq<T>, indexes: seq<nat>)
    requires Increasing(indexes, |arr|) && |indexes| > 0
    ensures var k := |indexes|;
      Increasing(indexes[..k - 1], indexes[k - 1]) &&
      Split(arr, indexes)[..k] == Split(arr[..indexes[k - 1]], indexes[..k - 1]) &&
      Split(arr, indexes)[k] == arr[indexes[k - 1] + 1..] &&
      Picked(arr, indexes)[..k - 1] == Picked(arr[..indexes[k - 1]], indexes[..k - 1])
  {
    var k := |indexes|;
    var last := indexes[k - 1];
    var init := indexes[..k - 1];
    var front := arr[..last];
    var split := Split(arr, indexes);
    forall j | 0 <= j < |init| ensures init[j] < last {
      assert indexes[j] < indexes[k - 1];
    }
    forall j | 0 <= j < k ensures split[j] == Split(front, init)[j] {
      var start, end := SliceStart(indexes, j), SliceEnd(arr, indexes, j);
      assert start == SliceStart(init, j);
      assert end == SliceEnd(front, init, j);
      if j < k - 1 {
        assert end < last;
      }
      SliceOfPrefix(arr, last, start, end);
    }
  }

  /** A slice that ends inside a prefix is the same slice of the prefix. */
  lemma SliceOfPrefix<T>(arr: seq<T>, n: nat, start: nat, end: nat)
    requires end <= n <= |arr|
    ensures Slice(arr, start, end) == Slice(arr[..n], start, end)
  {
  }

  /** With cut positions inside the array and increasing, the slices put back together with the
      elements at the positions between them are the array again: no element is lost, and the one at
      each position belongs to no slice. */
  lemma {:induction false} SplitRebuilds<T>(arr: seq<T>, indexes: seq<nat>)
    requires Increasing(indexes, |arr|)
    ensures Interleave(Split(arr, indexes), Picked(arr, indexes)) == arr
    decreases |indexes|
  {
    var k := |indexes|;
    var split := Split(arr, indexes);
    if k == 0 {
      assert split[0] == arr[0..|arr|];
    } else {
      var last := indexes[k - 1];
      SplitFront(arr, indexes);
      SplitRebuilds(arr[..last], indexes[..k - 1]);
      assert Picked(arr, indexes)[k - 1] == arr[last];
      assert arr == arr[..last] + [arr[last]] + arr[last + 1..];
    }
  }

  lemma {:induction false} InterleaveLength<T>(slices: seq<seq<T>>, seps: seq<T>)
    requires |slices| == |seps| + 1
    ensures |Interleave(slices, seps)| == TotalLength(slices) + |seps|
    decreases |seps|
  {
    if seps != [] {
      InterleaveLength(slices[..|seps|], seps[..|seps| - 1]);
      assert slices[..|seps|][..|seps| - 1] == slices[..|slices| - 1][..|seps| - 1];
      assert TotalLength(slices[..|seps|]) == TotalLength(slices[..|seps|][..|seps| - 1]) + |slices[|seps| - 1]|;
    } else {
      assert TotalLength(slices) == TotalLength(slices[..0]) + |slices[0]|;
    }
  }

  /** The `k + 1` slices of an array cut at `k` increasing positions hold `|arr| - k` elements. */
  lemma SplitLengths<T>(arr: seq<T>, indexes: seq<nat>)
    requires Increasing(indexes, |arr|)
    ensures TotalLength(Split(arr, indexes)) == |arr| - |indexes|
  {
    SplitRebuilds(arr, indexes);
    InterleaveLength(Split(arr, indexes), Picked(arr, indexes));
  }

  /** Every element of a slice is an element of the array. */
  lemma SplitMembers<T>(arr: seq<T>, indexes: seq<nat>, j: nat, x: T)
    requires j <= |indexes| && x in Split(arr, indexes)[j]
    ensures x in arr
  {
    var s := SliceStart(indexes, j);
    var e := SliceEnd(arr, indexes, j);
    var k :| 0 <= k < |Split(arr, indexes)[j]| && Split(arr, indexes)[j][k] == x;
    assert Split(arr, indexes)[j] == Slice(arr, s, e);
    assert s + k < |arr| && arr[s + k] == x;
  }

  /** The test of `splitArray`: [1..8] cut at positions 2 and 5 gives [1, 2], [4, 5] and [7, 8]. */
  lemma SplitExample()
    ensures Split([1, 2, 3, 4, 5, 6, 7, 8], [2, 5]) == [[1, 2], [4, 5], [7, 8]]
  {
    var s := Split([1, 2, 3, 4, 5, 6, 7, 8], [2, 5]);
    assert s[0] == [1, 2];
    assert s[1] == [4, 5];
    assert s[2] == [7, 8];
  }

  // ---------------------------------------------------------------- toggle

  /** `toggle(i)`: `i ? 0 : 1`, so every number other than 0 counts as set. */
  function Toggle(i: int): (r: int)
    ensures r == 0 || r == 1
    ensures r == 1 <==> i == 0
  {
    if i != 0 then 0 else 1
  }

  /** On 0 and 1, toggling twice gives the value back. */
  lemma ToggleTwice(i: int)
    requires i == 0 || i == 1
    ensures Toggle(Toggle(i)) == i
  {
  }
}
