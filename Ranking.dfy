/** The stable descending sort by score that non-max suppression starts with
    (a merge sort in the Java runtime); specified here as an insertion sort. */
module Ranking {
  import opened Types

  /** Scores never increase from left to right. */
  predicate NonIncreasing(s: seq<Detection>) {
    forall i, j :: 0 <= i < j < |s| ==> s[i].score >= s[j].score
  }

  /** Places x after every element that scores strictly higher and before
      the first one that does not. */
  function Insert(x: Detection, t: seq<Detection>): (r: seq<Detection>)
    ensures |r| == |t| + 1
  {
    if t == [] then [x]
    else if t[0].score > x.score then [t[0]] + Insert(x, t[1..])
    else [x] + t
  }

  /** Sorts by descending score; elements of equal score keep their order. */
  function SortByScore(s: seq<Detection>): (r: seq<Detection>)
    ensures |r| == |s|
  {
    if s == [] then [] else Insert(s[0], SortByScore(s[1..]))
  }

  /** The elements of s whose score is v, in order. */
  function WithScore(s: seq<Detection>, v: real): seq<Detection> {
    if s == [] then []
    else (if s[0].score == v then [s[0]] else []) + WithScore(s[1..], v)
  }

  lemma {:induction false} InsertPermutes(x: Detection, t: seq<Detection>)
    ensures multiset(Insert(x, t)) == multiset([x] + t)
  {
    if t != [] && t[0].score > x.score {
      InsertPermutes(x, t[1..]);
      assert t == [t[0]] + t[1..];
    }
  }

  lemma {:induction false} InsertOrders(x: Detection, t: seq<Detection>)
    requires NonIncreasing(t)
    ensures NonIncreasing(Insert(x, t))
  {
    if t != [] && t[0].score > x.score {
      var rest := Insert(x, t[1..]);
      InsertOrders(x, t[1..]);
      InsertPermutes(x, t[1..]);
      forall k | 0 <= k < |rest| ensures rest[k].score <= t[0].score {
        assert rest[k] in multiset([x] + t[1..]);
        assert rest[k] in [x] + t[1..];
      }
    }
  }

  lemma {:induction false} InsertWithScore(x: Detection, t: seq<Detection>, v: real)
    requires NonIncreasing(t)
    ensures WithScore(Insert(x, t), v) == WithScore([x] + t, v)
  {
    if t != [] && t[0].score > x.score {
      InsertWithScore(x, t[1..], v);
      if x.score == v {
        // every element ahead of x scores more than v
        assert WithScore([t[0]] + Insert(x, t[1..]), v) == WithScore(Insert(x, t[1..]), v);
        LeadingAbove(t, v);
        assert WithScore(t, v) == WithScore(t[1..], v);
      } else {
        assert WithScore([t[0]] + Insert(x, t[1..]), v)
            == (if t[0].score == v then [t[0]] else []) + WithScore(Insert(x, t[1..]), v);
        assert [x] + t == [x] + ([t[0]] + t[1..]);
      }
    }
  }

  lemma LeadingAbove(t: seq<Detection>, v: real)
    requires t != [] && t[0].score > v
    ensures WithScore(t, v) == WithScore(t[1..], v)
  {
  }

  /** The sorted sequence is ordered by score and is a permutation of s. */
  lemma {:induction false} SortOrdersAndPermutes(s: seq<Detection>)
    ensures NonIncreasing(SortByScore(s))
    ensures multiset(SortByScore(s)) == multiset(s)
  {
    if s != [] {
      SortOrdersAndPermutes(s[1..]);
      InsertOrders(s[0], SortByScore(s[1..]));
      InsertPermutes(s[0], SortByScore(s[1..]));
      assert s == [s[0]] + s[1..];
    }
  }

  /** Stability: for every score, the elements with that score appear in
      the sorted sequence in their original order. */
  lemma {:induction false} SortIsStable(s: seq<Detection>, v: real)
    ensures WithScore(SortByScore(s), v) == WithScore(s, v)
  {
    if s != [] {
      SortIsStable(s[1..], v);
      SortOrdersAndPermutes(s[1..]);
      InsertWithScore(s[0], SortByScore(s[1..]), v);
    }
  }

  /** A sequence already in non-increasing score order is left unchanged. */
  lemma {:induction false} SortKeepsSorted(s: seq<Detection>)
    requires NonIncreasing(s)
    ensures SortByScore(s) == s
  {
    if s != [] {
      assert NonIncreasing(s[1..]);
      SortKeepsSorted(s[1..]);
      assert s == [s[0]] + s[1..];
    }
  }
}
