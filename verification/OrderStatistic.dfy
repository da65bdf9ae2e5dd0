/** `ORDER BY x DESC LIMIT 1 OFFSET n - 1` over a bag of integers, and what comparing
    with the row it returns means. */
module OrderStatistic {

  ghost predicate Descending(s: seq<int>) {
    forall i, j :: 0 <= i < j < |s| ==> s[i] >= s[j]
  }

  function InsertDesc(x: int, s: seq<int>): seq<int> {
    if s == [] || x >= s[0] then [x] + s else [s[0]] + InsertDesc(x, s[1..])
  }

  /** The rows in the order `ORDER BY ... DESC` delivers them. */
  function SortDesc(s: seq<int>): seq<int> {
    if s == [] then [] else InsertDesc(s[0], SortDesc(s[1..]))
  }

  /** How many elements lie strictly above x. */
  function CountAbove(s: seq<int>, x: int): nat {
    if s == [] then 0 else (if s[0] > x then 1 else 0) + CountAbove(s[1..], x)
  }

  lemma {:induction false} InsertCounts(y: int, s: seq<int>, x: int)
    ensures CountAbove(InsertDesc(y, s), x) == CountAbove(s, x) + (if y > x then 1 else 0)
  {
    if s == [] || y >= s[0] {
      assert ([y] + s)[1..] == s;
    } else {
      InsertCounts(y, s[1..], x);
      var t := InsertDesc(y, s[1..]);
      assert ([s[0]] + t)[1..] == t;
    }
  }

  lemma {:induction false} InsertPermutes(y: int, s: seq<int>)
    ensures multiset(InsertDesc(y, s)) == multiset(s) + multiset{y}
  {
    if s != [] && y < s[0] {
      InsertPermutes(y, s[1..]);
      assert s == [s[0]] + s[1..];
    }
  }

  lemma {:induction false} InsertSorts(y: int, s: seq<int>)
    requires Descending(s)
    ensures Descending(InsertDesc(y, s))
  {
    if s != [] && y < s[0] {
      var t := InsertDesc(y, s[1..]);
      InsertSorts(y, s[1..]);
      InsertPermutes(y, s[1..]);
      forall i | 0 <= i < |t| ensures s[0] >= t[i] {
        assert t[i] in multiset(t);
        assert t[i] == y || t[i] in s[1..];
      }
    }
  }

  lemma {:induction false} SortDescDescends(s: seq<int>)
    ensures Descending(SortDesc(s))
  {
    if s == [] {
    } else {
      SortDescDescends(s[1..]);
      InsertSorts(s[0], SortDesc(s[1..]));
    }
  }

  lemma {:induction false} SortDescPermutes(s: seq<int>)
    ensures multiset(SortDesc(s)) == multiset(s)
  {
    if s == [] {
    } else {
      SortDescPermutes(s[1..]);
      InsertPermutes(s[0], SortDesc(s[1..]));
      assert s == [s[0]] + s[1..];
    }
  }

  lemma {:induction false} SortDescCounts(s: seq<int>, x: int)
    ensures CountAbove(SortDesc(s), x) == CountAbove(s, x)
  {
    if s == [] {
    } else {
      SortDescCounts(s[1..], x);
      InsertCounts(s[0], SortDesc(s[1..]), x);
    }
  }

  /** The sort is a descending permutation. */
  lemma SortDescSorts(s: seq<int>)
    ensures Descending(SortDesc(s))
    ensures multiset(SortDesc(s)) == multiset(s)
    ensures |SortDesc(s)| == |s|
  {
    SortDescDescends(s);
    SortDescPermutes(s);
    assert |multiset(SortDesc(s))| == |multiset(s)|;
  }

  lemma {:induction false} DescendingCount(d: seq<int>, n: nat, x: int)
    requires Descending(d) && n >= 1
    ensures (n <= |d| && x < d[n - 1]) <==> CountAbove(d, x) >= n
  {
    if d == [] {
    } else {
      assert Descending(d[1..]);
      if n == 1 {
        if d[0] <= x { NoneAbove(d[1..], x); }
      } else {
        DescendingCount(d[1..], n - 1, x);
        if d[0] <= x { NoneAbove(d[1..], x); }
      }
    }
  }

  lemma {:induction false} NoneAbove(d: seq<int>, x: int)
    requires forall i :: 0 <= i < |d| ==> d[i] <= x
    ensures CountAbove(d, x) == 0
  {
    if d == [] {
    } else {
      NoneAbove(d[1..], x);
    }
  }

  /** Being below the n-th largest element is the same as having n elements above. */
  lemma NthLargestVersusCount(s: seq<int>, n: nat, x: int)
    requires n >= 1
    ensures |SortDesc(s)| == |s|
    ensures (n <= |s| && x < SortDesc(s)[n - 1]) <==> CountAbove(s, x) >= n
  {
    SortDescSorts(s);
    SortDescCounts(s, x);
    DescendingCount(SortDesc(s), n, x);
  }
}
