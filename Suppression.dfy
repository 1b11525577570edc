/** Greedy non-max suppression, specified over positions in the score-sorted
    candidate list: a candidate is selected when no earlier selected box
    overlaps it by more than the IOU threshold, and selection stops as soon
    as the result holds `limit` boxes (always after the first box). */
module Suppression {
  import opened Types
  import opened Ranking

  /** Some box at a position in sel overlaps box j by more than thr. */
  predicate Overlapped(s: seq<Detection>, iou: (Rect, Rect) -> real, sel: seq<nat>, j: nat, thr: real)
    requires j < |s| && Below(sel, |s|)
  {
    exists k :: 0 <= k < |sel| && iou(s[sel[k]].rect, s[j].rect) > thr
  }

  /** The effective cap: the first box is taken before the limit is tested. */
  function Cap(limit: int): int {
    if limit < 1 then 1 else limit
  }

  /** Greedy selection from position i on, having selected the positions sel. */
  function Scan(s: seq<Detection>, iou: (Rect, Rect) -> real, thr: real, limit: int, i: nat, sel: seq<nat>): (r: seq<nat>)
    requires i <= |s| && Below(sel, i)
    ensures |sel| <= |r| <= |sel| + (|s| - i)
    decreases |s| - i
  {
    if i == |s| then sel
    else if Overlapped(s, iou, sel, i, thr) then Scan(s, iou, thr, limit, i + 1, sel)
    else if |sel| + 1 >= limit then sel + [i]
    else Scan(s, iou, thr, limit, i + 1, sel + [i])
  }

  /** The scan only appends positions from i on to sel, each at most once
      and in ascending order. */
  lemma {:induction false} ScanShape(s: seq<Detection>, iou: (Rect, Rect) -> real, thr: real, limit: int, i: nat, sel: seq<nat>)
    requires i <= |s| && Below(sel, i)
    ensures var r := Scan(s, iou, thr, limit, i, sel);
      && Below(r, |s|)
      && |sel| <= |r| <= |sel| + (|s| - i) && r[..|sel|] == sel
      && (forall k :: |sel| <= k < |r| ==> i <= r[k])
      && (Increasing(sel) ==> Increasing(r))
    decreases |s| - i
  {
    if i < |s| {
      if Overlapped(s, iou, sel, i, thr) {
        ScanShape(s, iou, thr, limit, i + 1, sel);
      } else if |sel| + 1 < limit {
        ScanShape(s, iou, thr, limit, i + 1, sel + [i]);
        var r := Scan(s, iou, thr, limit, i + 1, sel + [i]);
        assert r[..|sel| + 1][..|sel|] == r[..|sel|];
      }
    }
  }

  /** Positions selected from the sorted sequence s. */
  function NmsIndices(s: seq<Detection>, iou: (Rect, Rect) -> real, thr: real, limit: int): (r: seq<nat>)
    ensures Below(r, |s|)
  {
    ScanShape(s, iou, thr, limit, 0, []);
    Scan(s, iou, thr, limit, 0, [])
  }

  function Pick(s: seq<Detection>, idx: seq<nat>): (r: seq<Detection>)
    requires Below(idx, |s|)
    ensures |r| == |idx| && forall k :: 0 <= k < |idx| ==> r[k] == s[idx[k]]
  {
    seq(|idx|, k requires 0 <= k < |idx| => s[idx[k]])
  }

  /** One step of the scan. */
  lemma ScanStep(s: seq<Detection>, iou: (Rect, Rect) -> real, thr: real, limit: int, i: nat, sel: seq<nat>)
    requires i < |s| && Below(sel, i)
    ensures Below(sel + [i], i + 1)
    ensures Scan(s, iou, thr, limit, i, sel)
         == if Overlapped(s, iou, sel, i, thr) then Scan(s, iou, thr, limit, i + 1, sel)
            else if |sel| + 1 >= limit then sel + [i]
            else Scan(s, iou, thr, limit, i + 1, sel + [i])
  {
  }

  lemma PickSnoc(s: seq<Detection>, idx: seq<nat>, i: nat)
    requires Below(idx, |s|) && i < |s|
    ensures Below(idx + [i], |s|) && Pick(s, idx + [i]) == Pick(s, idx) + [s[i]]
  {
  }

  /** The boxes the greedy procedure keeps from the sorted sequence s. */
  function Greedy(s: seq<Detection>, iou: (Rect, Rect) -> real, thr: real, limit: int): seq<Detection> {
    Pick(s, NmsIndices(s, iou, thr, limit))
  }

  /** An earlier selected box overlaps box j by more than thr. */
  predicate SuppressedBy(s: seq<Detection>, iou: (Rect, Rect) -> real, r: seq<nat>, j: nat, thr: real)
    requires j < |s| && Below(r, |s|)
  {
    exists k :: 0 <= k < |r| && r[k] < j && iou(s[r[k]].rect, s[j].rect) > thr
  }

  /** Box j comes after the box at which the limit was reached. */
  predicate CutOff(r: seq<nat>, j: nat, limit: int) {
    |r| > 0 && r[|r| - 1] < j && |r| >= limit
  }

  predicate PairwiseBelow(s: seq<Detection>, iou: (Rect, Rect) -> real, r: seq<nat>, thr: real)
    requires Below(r, |s|)
  {
    forall k, l :: 0 <= k < l < |r| ==> iou(s[r[k]].rect, s[r[l]].rect) <= thr
  }

  /** a is a subsequence of b. */
  ghost predicate Sub(a: seq<Detection>, b: seq<Detection>)
    decreases |a| + |b|
  {
    a == [] || (b != [] && ((a[0] == b[0] && Sub(a[1..], b[1..])) || Sub(a, b[1..])))
  }

  // ---------------------------------------------------------------------
  // Size

  lemma {:induction false} ScanWithinCap(s: seq<Detection>, iou: (Rect, Rect) -> real, thr: real, limit: int, i: nat, sel: seq<nat>)
    requires i <= |s| && Below(sel, i) && |sel| < Cap(limit)
    ensures |Scan(s, iou, thr, limit, i, sel)| <= Cap(limit)
    decreases |s| - i
  {
    if i < |s| {
      if Overlapped(s, iou, sel, i, thr) {
        ScanWithinCap(s, iou, thr, limit, i + 1, sel);
      } else if |sel| + 1 < limit {
        ScanWithinCap(s, iou, thr, limit, i + 1, sel + [i]);
      }
    }
  }

  /** The selected positions are distinct, ascending and in range; there are
      at most |s| of them and at most max(limit, 1); none for empty input. */
  lemma NmsShape(s: seq<Detection>, iou: (Rect, Rect) -> real, thr: real, limit: int)
    ensures Increasing(NmsIndices(s, iou, thr, limit))
    ensures |NmsIndices(s, iou, thr, limit)| <= |s|
    ensures |NmsIndices(s, iou, thr, limit)| <= Cap(limit)
    ensures s == [] ==> NmsIndices(s, iou, thr, limit) == []
  {
    ScanShape(s, iou, thr, limit, 0, []);
    ScanWithinCap(s, iou, thr, limit, 0, []);
  }

  // ---------------------------------------------------------------------
  // No two kept boxes overlap too much

  lemma PairwiseSnoc(s: seq<Detection>, iou: (Rect, Rect) -> real, sel: seq<nat>, i: nat, thr: real)
    requires i < |s| && Below(sel, |s|) && PairwiseBelow(s, iou, sel, thr) && !Overlapped(s, iou, sel, i, thr)
    ensures Below(sel + [i], |s|) && PairwiseBelow(s, iou, sel + [i], thr)
  {
    var sel' := sel + [i];
    forall k, l | 0 <= k < l < |sel'|
      ensures iou(s[sel'[k]].rect, s[sel'[l]].rect) <= thr
    {
      assert sel'[k] == sel[k];
      if l == |sel| {
        assert !(iou(s[sel[k]].rect, s[i].rect) > thr);
      } else {
        assert sel'[l] == sel[l];
      }
    }
  }

  lemma {:induction false} ScanPairwise(s: seq<Detection>, iou: (Rect, Rect) -> real, thr: real, limit: int, i: nat, sel: seq<nat>)
    requires i <= |s| && Below(sel, i) && PairwiseBelow(s, iou, sel, thr)
    ensures Below(Scan(s, iou, thr, limit, i, sel), |s|) && PairwiseBelow(s, iou, Scan(s, iou, thr, limit, i, sel), thr)
    decreases |s| - i
  {
    ScanShape(s, iou, thr, limit, i, sel);
    var r := Scan(s, iou, thr, limit, i, sel);
    if i < |s| {
      if Overlapped(s, iou, sel, i, thr) {
        assert r == Scan(s, iou, thr, limit, i + 1, sel);
        ScanPairwise(s, iou, thr, limit, i + 1, sel);
      } else {
        PairwiseSnoc(s, iou, sel, i, thr);
        if |sel| + 1 < limit {
          assert r == Scan(s, iou, thr, limit, i + 1, sel + [i]);
          ScanPairwise(s, iou, thr, limit, i + 1, sel + [i]);
        } else {
          assert r == sel + [i];
        }
      }
    } else {
      assert r == sel;
    }
  }

  /** For boxes A and B kept in that order, IOU(A, B) is at most thr. */
  lemma NmsPairwise(s: seq<Detection>, iou: (Rect, Rect) -> real, thr: real, limit: int)
    ensures PairwiseBelow(s, iou, NmsIndices(s, iou, thr, limit), thr)
  {
    ScanPairwise(s, iou, thr, limit, 0, []);
  }

  // ---------------------------------------------------------------------
  // Every box left out has a reason

  /** Every position of s missing from r is explained. */
  ghost predicate Explained(s: seq<Detection>, iou: (Rect, Rect) -> real, r: seq<nat>, thr: real, limit: int)
    requires Below(r, |s|)
  {
    forall j :: 0 <= j < |s| && j !in r ==> SuppressedBy(s, iou, r, j, thr) || CutOff(r, j, limit)
  }

  lemma SuppressedExtends(s: seq<Detection>, iou: (Rect, Rect) -> real, sel: seq<nat>, r: seq<nat>, j: nat, thr: real)
    requires j < |s| && Below(sel, |s|) && Below(r, |s|)
    requires |sel| <= |r| && r[..|sel|] == sel
    requires SuppressedBy(s, iou, sel, j, thr)
    ensures SuppressedBy(s, iou, r, j, thr)
  {
    var k :| 0 <= k < |sel| && sel[k] < j && iou(s[sel[k]].rect, s[j].rect) > thr;
    assert r[k] == sel[k];
  }

  lemma {:induction false} ScanExplains(s: seq<Detection>, iou: (Rect, Rect) -> real, thr: real, limit: int, i: nat, sel: seq<nat>)
    requires i <= |s| && Below(sel, i)
    requires forall j :: 0 <= j < i && j !in sel ==> SuppressedBy(s, iou, sel, j, thr)
    ensures Below(Scan(s, iou, thr, limit, i, sel), |s|) && Explained(s, iou, Scan(s, iou, thr, limit, i, sel), thr, limit)
    decreases |s| - i
  {
    ScanShape(s, iou, thr, limit, i, sel);
    if i == |s| {
    } else if Overlapped(s, iou, sel, i, thr) {
      assert SuppressedBy(s, iou, sel, i, thr);
      ScanExplains(s, iou, thr, limit, i + 1, sel);
    } else {
      var sel' := sel + [i];
      assert sel'[..|sel|] == sel;
      forall j | 0 <= j < i + 1 && j !in sel' ensures SuppressedBy(s, iou, sel', j, thr) {
        SuppressedExtends(s, iou, sel, sel', j, thr);
      }
      if |sel| + 1 < limit {
        ScanExplains(s, iou, thr, limit, i + 1, sel');
      } else {
        forall j | 0 <= j < |s| && j !in sel' ensures SuppressedBy(s, iou, sel', j, thr) || CutOff(sel', j, limit) {
          if j > i {
            assert CutOff(sel', j, limit);
          }
        }
      }
    }
  }

  /** Every box that is not kept is either overlapped by more than thr by an
      earlier kept box, or lies after the box at which the limit was reached. */
  lemma NmsDroppedExplained(s: seq<Detection>, iou: (Rect, Rect) -> real, thr: real, limit: int, j: nat)
    requires j < |s| && j !in NmsIndices(s, iou, thr, limit)
    ensures SuppressedBy(s, iou, NmsIndices(s, iou, thr, limit), j, thr) || CutOff(NmsIndices(s, iou, thr, limit), j, limit)
  {
    ScanExplains(s, iou, thr, limit, 0, []);
    assert Explained(s, iou, NmsIndices(s, iou, thr, limit), thr, limit);
  }

  // ---------------------------------------------------------------------
  // Order and idempotence

  lemma {:induction false} PickSub(t: seq<Detection>, idx: seq<nat>, m: nat)
    requires m <= |t| && Increasing(idx) && Below(idx, |t|)
    requires forall k :: 0 <= k < |idx| ==> m <= idx[k]
    ensures Sub(Pick(t, idx), t[m..])
    decreases |t| - m
  {
    if idx != [] {
      if idx[0] == m {
        PickSub(t, idx[1..], m + 1);
        assert Pick(t, idx)[1..] == Pick(t, idx[1..]);
        assert t[m..][1..] == t[m + 1..];
      } else {
        PickSub(t, idx, m + 1);
        assert t[m..][1..] == t[m + 1..];
      }
    }
  }

  lemma SubCons(a: seq<Detection>, x: Detection, b: seq<Detection>)
    requires Sub(a, b)
    ensures Sub(a, [x] + b)
  {
    assert ([x] + b)[1..] == b;
  }

  lemma {:induction false} SubWithScore(a: seq<Detection>, b: seq<Detection>, v: real)
    requires Sub(a, b)
    ensures Sub(WithScore(a, v), WithScore(b, v))
    decreases |a| + |b|
  {
    if a == [] {
    } else if a[0] == b[0] && Sub(a[1..], b[1..]) {
      SubWithScore(a[1..], b[1..], v);
      if a[0].score == v {
        var wa, wb := WithScore(a, v), WithScore(b, v);
        assert wa == [a[0]] + WithScore(a[1..], v);
        assert wb == [b[0]] + WithScore(b[1..], v);
        assert wa[0] == wb[0] && wa[1..] == WithScore(a[1..], v) && wb[1..] == WithScore(b[1..], v);
      } else {
        assert WithScore(a, v) == WithScore(a[1..], v);
        assert WithScore(b, v) == WithScore(b[1..], v);
      }
    } else {
      SubWithScore(a, b[1..], v);
      if b[0].score == v {
        assert WithScore(b, v) == [b[0]] + WithScore(b[1..], v);
        SubCons(WithScore(a, v), b[0], WithScore(b[1..], v));
      } else {
        assert WithScore(b, v) == WithScore(b[1..], v);
      }
    }
  }

  /** Kept boxes are a subsequence of the sorted input, hence in
      non-increasing score order when the input is. */
  lemma GreedyOrdered(s: seq<Detection>, iou: (Rect, Rect) -> real, thr: real, limit: int)
    ensures Sub(Greedy(s, iou, thr, limit), s)
    ensures NonIncreasing(s) ==> NonIncreasing(Greedy(s, iou, thr, limit))
  {
    NmsShape(s, iou, thr, limit);
    PickSub(s, NmsIndices(s, iou, thr, limit), 0);
    assert s[0..] == s;
  }

  /** Non-max suppression of arbitrary candidates, sorted first. */
  function Nms(boxes: seq<Detection>, iou: (Rect, Rect) -> real, thr: real, limit: int): (r: seq<Detection>)
    ensures |r| <= |boxes|
  {
    Greedy(SortByScore(boxes), iou, thr, limit)
  }

  /** The result is in non-increasing score order, and for every score the
      boxes with that score appear in their input order. */
  lemma NmsOrderedAndStable(boxes: seq<Detection>, iou: (Rect, Rect) -> real, thr: real, limit: int, v: real)
    ensures NonIncreasing(Nms(boxes, iou, thr, limit))
    ensures Sub(Nms(boxes, iou, thr, limit), SortByScore(boxes))
    ensures Sub(WithScore(Nms(boxes, iou, thr, limit), v), WithScore(boxes, v))
  {
    SortOrdersAndPermutes(boxes);
    GreedyOrdered(SortByScore(boxes), iou, thr, limit);
    SubWithScore(Nms(boxes, iou, thr, limit), SortByScore(boxes), v);
    SortIsStable(boxes, v);
  }

  lemma {:induction false} ScanTakesAll(s: seq<Detection>, iou: (Rect, Rect) -> real, thr: real, limit: int, i: nat, sel: seq<nat>)
    requires i <= |s| <= Cap(limit) && |sel| == i && (forall k :: 0 <= k < i ==> sel[k] == k)
    requires forall k, l :: 0 <= k < l < |s| ==> iou(s[k].rect, s[l].rect) <= thr
    ensures |Scan(s, iou, thr, limit, i, sel)| == |s|
    ensures forall k :: 0 <= k < |s| ==> Scan(s, iou, thr, limit, i, sel)[k] == k
    decreases |s| - i
  {
    if i < |s| {
      assert !Overlapped(s, iou, sel, i, thr);
      if |sel| + 1 < limit {
        ScanTakesAll(s, iou, thr, limit, i + 1, sel + [i]);
      }
    }
  }

  /** Suppressing the result of a suppression with the same parameters
      gives it back unchanged. */
  lemma NmsIdempotent(boxes: seq<Detection>, iou: (Rect, Rect) -> real, thr: real, limit: int)
    ensures Nms(Nms(boxes, iou, thr, limit), iou, thr, limit) == Nms(boxes, iou, thr, limit)
  {
    var g := Nms(boxes, iou, thr, limit);
    var idx := NmsIndices(SortByScore(boxes), iou, thr, limit);
    NmsOrderedAndStable(boxes, iou, thr, limit, 0.0);
    SortKeepsSorted(g);
    NmsShape(SortByScore(boxes), iou, thr, limit);
    NmsPairwise(SortByScore(boxes), iou, thr, limit);
    ScanTakesAll(g, iou, thr, limit, 0, []);
    var again := NmsIndices(g, iou, thr, limit);
    assert Pick(g, again) == g;
  }
}
