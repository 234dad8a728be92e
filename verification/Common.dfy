/** Small datatypes and list helpers shared by the components. */
module Common {

  datatype Option<+T> = None | Some(value: T) {
    function GetOr(default: T): T { if Some? then value else default }
  }

  /** The outcome of a call that may fail; the text of the error is not modelled. */
  datatype Result<+T> = Ok(value: T) | Err

  function Min(a: int, b: int): int { if a < b then a else b }

  function Max(a: int, b: int): int { if a < b then b else a }

  predicate Sorted(s: seq<int>) { forall i, j :: 0 <= i < j < |s| ==> s[i] <= s[j] }

  predicate Ascending(s: seq<int>) { forall i, j :: 0 <= i < j < |s| ==> s[i] < s[j] }

  function InsertSorted(n: int, s: seq<int>): (r: seq<int>)
    requires Sorted(s)
    ensures Sorted(r) && |r| == |s| + 1
    ensures forall x :: x in r <==> x == n || x in s
  {
    if |s| == 0 then [n]
    else if n <= s[0] then [n] + s
    else
      assert s == [s[0]] + s[1..];
      var rest := InsertSorted(n, s[1..]);
      assert forall i :: 0 <= i < |rest| ==> rest[i] in rest;
      [s[0]] + rest
  }

  /** What sort.Ints leaves in a slice. */
  function SortInts(s: seq<int>): (r: seq<int>)
    ensures Sorted(r) && |r| == |s|
    ensures forall x :: x in r <==> x in s
  {
    if |s| == 0 then []
    else
      assert s == s[..|s| - 1] + [s[|s| - 1]];
      InsertSorted(s[|s| - 1], SortInts(s[..|s| - 1]))
  }

  /** How many elements lie below `t`. */
  function CountBelow(s: seq<int>, t: int): nat {
    if |s| == 0 then 0 else (if s[0] < t then 1 else 0) + CountBelow(s[1..], t)
  }

  lemma {:induction false} CountBelowAppend(a: seq<int>, b: seq<int>, t: int)
    ensures CountBelow(a + b, t) == CountBelow(a, t) + CountBelow(b, t)
  {
    if |a| == 0 {
      assert a + b == b;
    } else {
      assert (a + b)[1..] == a[1..] + b;
      CountBelowAppend(a[1..], b, t);
    }
  }

  lemma {:induction false} InsertCounts(n: int, s: seq<int>, t: int)
    requires Sorted(s)
    ensures CountBelow(InsertSorted(n, s), t) == CountBelow(s, t) + (if n < t then 1 else 0)
  {
    if |s| == 0 {
    } else {
      if n > s[0] {
        InsertCounts(n, s[1..], t);
        assert InsertSorted(n, s)[1..] == InsertSorted(n, s[1..]);
      } else {
        assert ([n] + s)[1..] == s;
      }
    }
  }

  /** Sorting is a permutation: it keeps the number of elements below every value. */
  lemma {:induction false} SortCounts(s: seq<int>, t: int)
    ensures CountBelow(SortInts(s), t) == CountBelow(s, t)
  {
    if |s| == 0 {
    } else {
      var init, last := s[..|s| - 1], s[|s| - 1];
      assert s == init + [last];
      SortCounts(init, t);
      InsertCounts(last, SortInts(init), t);
      CountBelowAppend(init, [last], t);
    }
  }

  lemma {:induction false} SortedCount(s: seq<int>, k: nat, t: int)
    requires Sorted(s) && k < |s|
    ensures s[k] < t <==> CountBelow(s, t) > k
    ensures s[0] >= t ==> CountBelow(s, t) == 0
  {
    if |s| <= 1 {
    } else {
      SortedCount(s[1..], if k > 0 then k - 1 else 0, t);
    }
  }

  /** The middle element of a sorted list is below `t` exactly when more than half of them are. */
  lemma MedianBelow(s: seq<int>, t: int)
    requires |s| > 0
    ensures SortInts(s)[|s| / 2] < t <==> CountBelow(s, t) > |s| / 2
  {
    SortCounts(s, t);
    SortedCount(SortInts(s), |s| / 2, t);
  }

  /** A strictly ascending list is determined by its elements. */
  lemma {:induction false} AscendingUnique(a: seq<int>, b: seq<int>)
    requires Ascending(a) && Ascending(b)
    requires forall x :: x in a <==> x in b
    ensures a == b
  {
    assert |a| > 0 ==> a[0] in a;
    assert |b| > 0 ==> b[0] in b;
    if |a| == 0 {
    } else {
      assert a[0] in b && b[0] in a;
      assert a[0] == b[0];
      forall x ensures x in a[1..] <==> x in b[1..] {
        assert a == [a[0]] + a[1..] && b == [b[0]] + b[1..];
        assert x in a <==> x == a[0] || x in a[1..];
        assert x in b <==> x == b[0] || x in b[1..];
      }
      AscendingUnique(a[1..], b[1..]);
    }
  }
}
