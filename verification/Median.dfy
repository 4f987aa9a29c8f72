/** The median of a window of block times, and why it cannot go backwards. */
module Median {
  import opened Compact

  const MEDIAN_TIME_SPAN: nat := 11

  function Insert(x: u32, s: seq<u32>): (r: seq<u32>)
    ensures |r| == |s| + 1
  {
    if s == [] || x <= s[0] then [x] + s else [s[0]] + Insert(x, s[1..])
  }

  /** What `sort_unstable` leaves in the array. */
  function Sorted(s: seq<u32>): (r: seq<u32>)
    ensures |r| == |s|
  {
    if s == [] then [] else Insert(s[0], Sorted(s[1..]))
  }

  ghost predicate Ordered(s: seq<u32>) {
    forall i, j :: 0 <= i < j < |s| ==> s[i] <= s[j]
  }

  function CountLE(s: seq<u32>, v: int): nat {
    if s == [] then 0 else (if s[0] <= v then 1 else 0) + CountLE(s[1..], v)
  }

  lemma {:induction false} InsertOrdered(x: u32, s: seq<u32>)
    requires Ordered(s)
    ensures Ordered(Insert(x, s))
  {
    if s == [] || x <= s[0] {
      OrderedCons(x, s);
    } else {
      InsertOrdered(x, s[1..]);
      InsertBag(x, s[1..]);
      var t := Insert(x, s[1..]);
      forall i | 0 <= i < |t| ensures s[0] <= t[i] {
        assert t[i] in multiset(t);
        assert t[i] == x || t[i] in s[1..];
      }
      OrderedCons(s[0], t);
    }
  }

  lemma OrderedCons(x: u32, t: seq<u32>)
    requires Ordered(t) && forall i :: 0 <= i < |t| ==> x <= t[i]
    ensures Ordered([x] + t)
  {
  }

  lemma {:induction false} InsertBag(x: u32, s: seq<u32>)
    ensures multiset(Insert(x, s)) == multiset{x} + multiset(s)
  {
    if s != [] && x > s[0] {
      InsertBag(x, s[1..]);
      assert s == [s[0]] + s[1..];
    }
  }

  lemma {:induction false} SortedIsSort(s: seq<u32>)
    ensures Ordered(Sorted(s)) && multiset(Sorted(s)) == multiset(s)
  {
    if s != [] {
      SortedIsSort(s[1..]);
      InsertOrdered(s[0], Sorted(s[1..]));
      InsertBag(s[0], Sorted(s[1..]));
      assert s == [s[0]] + s[1..];
    }
  }

  lemma {:induction false} CountInsert(x: u32, s: seq<u32>, v: int)
    ensures CountLE(Insert(x, s), v) == (if x <= v then 1 else 0) + CountLE(s, v)
  {
    if s == [] || x <= s[0] {
      assert ([x] + s)[1..] == s;
    } else {
      CountInsert(x, s[1..], v);
      assert Insert(x, s)[1..] == Insert(x, s[1..]);
    }
  }

  lemma {:induction false} CountSorted(s: seq<u32>, v: int)
    ensures CountLE(Sorted(s), v) == CountLE(s, v)
  {
    if s != [] {
      CountSorted(s[1..], v);
      CountInsert(s[0], Sorted(s[1..]), v);
    }
  }

  lemma {:induction false} RankOrdered(s: seq<u32>, k: nat, v: int)
    requires Ordered(s) && k < |s|
    ensures s[k] <= v <==> CountLE(s, v) > k
  {
    if s[0] > v {
      CountNone(s, v);
    } else if k > 0 {
      RankOrdered(s[1..], k - 1, v);
    }
  }

  lemma {:induction false} CountNone(s: seq<u32>, v: int)
    requires forall i :: 0 <= i < |s| ==> s[i] > v
    ensures CountLE(s, v) == 0
  {
    if s != [] {
      CountNone(s[1..], v);
    }
  }

  /** The element of rank k is at most v exactly when more than k elements are. */
  lemma Rank(s: seq<u32>, k: nat, v: int)
    requires k < |s|
    ensures Sorted(s)[k] <= v <==> CountLE(s, v) > k
  {
    SortedIsSort(s);
    RankOrdered(Sorted(s), k, v);
    CountSorted(s, v);
  }

  lemma {:induction false} CountPrefix(s: seq<u32>, v: int)
    requires s != []
    ensures CountLE(s[..|s| - 1], v) <= CountLE(s, v)
  {
    if |s| > 1 {
      CountPrefix(s[1..], v);
      assert s[..|s| - 1][1..] == s[1..][..|s[1..]| - 1];
    }
  }

  function MedianOf(s: seq<u32>): u32
    requires s != []
  {
    Sorted(s)[|s| / 2]
  }

  /** The median is the one number that more than half of the times do not exceed, and that no smaller
      number has in common with it. */
  lemma MedianIff(s: seq<u32>, v: int)
    requires s != []
    ensures v == MedianOf(s) <==> CountLE(s, v) > |s| / 2 && CountLE(s, v - 1) <= |s| / 2
  {
    Rank(s, |s| / 2, v);
    Rank(s, |s| / 2, v - 1);
  }

  /** Replacing the oldest time by one that is not below the median never lowers the median. */
  lemma MedianNeverFalls(window: seq<u32>, time: u32)
    requires window != [] && time >= MedianOf(window)
    ensures MedianOf([time] + window[..|window| - 1]) >= MedianOf(window)
  {
    var k := |window| / 2;
    var m: int := MedianOf(window);
    var rest := window[..|window| - 1];
    var shifted := [time] + rest;
    Rank(window, k, m - 1);
    CountPrefix(window, m - 1);
    assert shifted[1..] == rest;
    Rank(shifted, k, m - 1);
  }

  /** The standard library's `sort_unstable`, by its result. */
  method SortUnstable(a: array<u32>)
    modifies a
    ensures a[..] == Sorted(old(a[..]))
  {
    var sorted := Sorted(a[..]);
    for i := 0 to a.Length
      invariant a[..i] == sorted[..i]
    {
      a[i] := sorted[i];
    }
  }
}
