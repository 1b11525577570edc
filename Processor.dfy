/** The post-processor object: configuration fields, the two decoding loops
    and greedy non-max suppression over an `active` flag array. */
module Processor {
  import opened Types
  import opened Geometry
  import opened Ranking
  import opened Suppression
  import opened Decoding

  /** Width of one output row: x, y, w, h, objectness and one score per
      class for YOLOv5 (model type 0); x, y, w, h and the class scores for
      every other type. */
  function ColumnWidth(numberOfClasses: int, modelType: int): int {
    if modelType == 0 then numberOfClasses + 5 else numberOfClasses + 4
  }

  /** With at least one class, the decoder of each model type scans exactly
      one score per class. */
  lemma ClassColumns(outputs: seq<real>, numberOfClasses: int, modelType: int, i: nat)
    requires numberOfClasses >= 1 && i < RowCount(|outputs|, ColumnWidth(numberOfClasses, modelType))
    ensures modelType == 0 ==> |Yolov5ClassScores(outputs, ColumnWidth(numberOfClasses, modelType), i)| == numberOfClasses
    ensures modelType != 0 ==> |Yolov8ClassScores(outputs, ColumnWidth(numberOfClasses, modelType), i)| == numberOfClasses
  {
  }

  /** Number of true flags. */
  function CountTrue(a: seq<bool>): nat {
    if a == [] then 0 else (if a[0] then 1 else 0) + CountTrue(a[1..])
  }

  lemma {:induction false} CountAllTrue(a: seq<bool>)
    requires forall k :: 0 <= k < |a| ==> a[k]
    ensures CountTrue(a) == |a|
  {
    if a != [] {
      CountAllTrue(a[1..]);
    }
  }

  lemma {:induction false} CountClear(a: seq<bool>, j: nat)
    requires j < |a| && a[j]
    ensures CountTrue(a[j := false]) == CountTrue(a) - 1
  {
    if j > 0 {
      CountClear(a[1..], j - 1);
      assert a[j := false][1..] == a[1..][j - 1 := false];
    } else {
      assert a[j := false][1..] == a[1..];
    }
  }

  lemma {:induction false} CountPositive(a: seq<bool>, i: nat)
    requires i < |a| && a[i]
    ensures CountTrue(a) >= 1
  {
    if i > 0 {
      CountPositive(a[1..], i - 1);
    }
  }

  lemma OverlappedSnoc(s: seq<Detection>, sel: seq<nat>, i: nat, m: nat, thr: real)
    requires i < |s| && m < |s| && Below(sel, |s|)
    ensures Below(sel + [i], |s|)
    ensures Overlapped(s, Iou, sel + [i], m, thr) <==> Overlapped(s, Iou, sel, m, thr) || Iou(s[i].rect, s[m].rect) > thr
  {
    var sel' := sel + [i];
    if Overlapped(s, Iou, sel', m, thr) {
      var k :| 0 <= k < |sel'| && Iou(s[sel'[k]].rect, s[m].rect) > thr;
      if k < |sel| { assert sel'[k] == sel[k]; }
    }
    if Overlapped(s, Iou, sel, m, thr) {
      var k :| 0 <= k < |sel| && Iou(s[sel[k]].rect, s[m].rect) > thr;
      assert sel'[k] == sel[k];
    }
    assert sel'[|sel|] == i;
  }

  /** The inner loop of the suppression: deactivates every active box after
      position i whose IOU with box i exceeds thr, keeping numActive equal to
      the number of active boxes. `done` would report that no active box is
      left; it never can, since box i stays active. */
  method SuppressOverlapping(active: array<bool>, sorted: seq<Detection>, thr: real, i: nat,
                             ghost prev: seq<nat>, numActiveIn: int)
    returns (numActive: int, done: bool)
    requires active.Length == |sorted| && i < |sorted| && active[i] && Below(prev, i)
    requires forall m :: i < m < |sorted| ==> (active[m] <==> !Overlapped(sorted, Iou, prev, m, thr))
    requires numActiveIn == CountTrue(active[..])
    modifies active
    ensures !done && active[i]
    ensures forall m :: 0 <= m <= i ==> active[m] == old(active[m])
    ensures forall m :: i < m < |sorted| ==> (active[m] <==> !Overlapped(sorted, Iou, prev + [i], m, thr))
    ensures numActive == CountTrue(active[..])
  {
    var boxA := sorted[i];
    var n := |sorted|;
    numActive, done := numActiveIn, false;
    var j := i + 1;
    while j < n
      invariant i + 1 <= j <= n && !done && active[i]
      invariant forall m :: 0 <= m <= i ==> active[m] == old(active[m])
      invariant forall m :: j <= m < n ==> (active[m] <==> !Overlapped(sorted, Iou, prev, m, thr))
      invariant forall m :: i < m < j ==> (active[m] <==> !Overlapped(sorted, Iou, prev + [i], m, thr))
      invariant numActive == CountTrue(active[..])
    {
      OverlappedSnoc(sorted, prev, i, j, thr);
      if active[j] {
        var boxB := sorted[j];
        if Iou(boxA.rect, boxB.rect) > thr {
          ghost var before := active[..];
          active[j] := false;
          numActive := numActive - 1;
          assert active[..] == before[j := false];
          CountClear(before, j);
          CountPositive(active[..], i);
          if numActive <= 0 {
            done := true;
            break;
          }
        }
      }
      j := j + 1;
    }
  }

  lemma Yolov5RowIs(outputs: seq<real>, col: int, thr: real, W: int, H: int, i: nat,
                    x: real, y: real, w: real, h: real, cls: nat, rect: Rect)
    requires col >= 6 && i < RowCount(|outputs|, col) && W > 0 && H > 0
    requires Cell(outputs, col, i, 4) > thr ==>
      && x == Cell(outputs, col, i, 0) && y == Cell(outputs, col, i, 1)
      && w == Cell(outputs, col, i, 2) && h == Cell(outputs, col, i, 3)
      && cls == FirstArgMax(Yolov5ClassScores(outputs, col, i))
      && rect == CornerRect(x, y, w, h, W, H)
    ensures Yolov5Row(outputs, col, thr, W, H, i)
         == if Cell(outputs, col, i, 4) > thr then Some(Detection(cls, Cell(outputs, col, i, 4), rect)) else None
  {
  }

  /** The four coordinate channels of row i are in range. */
  lemma Yolov8Coordinates(outputs: seq<real>, col: int, rows: nat, i: nat)
    requires col >= 5 && rows == RowCount(|outputs|, col) && i < rows
    ensures 3 * rows + i < |outputs|
    ensures Channel(outputs, col, 0, i) == outputs[i] && Channel(outputs, col, 1, i) == outputs[rows + i]
    ensures Channel(outputs, col, 2, i) == outputs[2 * rows + i] && Channel(outputs, col, 3, i) == outputs[3 * rows + i]
  {
    ChannelAt(outputs, col, 0, i, i);
    ChannelAt(outputs, col, 1, i, rows + i);
    ChannelAt(outputs, col, 2, i, 2 * rows + i);
    ChannelAt(outputs, col, 3, i, 3 * rows + i);
  }

  lemma Yolov8RowIs(outputs: seq<real>, col: int, thr: real, W: int, H: int, rows: nat, i: nat,
                    cls: nat, max: real, rect: Rect)
    requires col >= 5 && rows == RowCount(|outputs|, col) && i < rows && W > 0 && H > 0
    requires 3 * rows + i < |outputs|
    requires cls == FirstArgMax(Yolov8ClassScores(outputs, col, i))
    requires max == Yolov8ClassScores(outputs, col, i)[cls]
    requires rect == CornerRect(outputs[i], outputs[rows + i], outputs[2 * rows + i], outputs[3 * rows + i], W, H)
    ensures Yolov8Row(outputs, col, thr, W, H, i) == if max > thr then Some(Detection(cls, max, rect)) else None
  {
    Yolov8Coordinates(outputs, col, rows, i);
  }

  /** The class scan of a YOLOv5 row starting at position base: the running
      maximum starts at the first class column and moves only to a strictly
      larger score. */
  method ArgMaxYolov5(outputs: seq<real>, col: int, i: nat, base: int) returns (max: real, cls: nat)
    requires col >= 6 && i < RowCount(|outputs|, col) && base == i * col
    ensures cls == FirstArgMax(Yolov5ClassScores(outputs, col, i))
    ensures max == Yolov5ClassScores(outputs, col, i)[cls]
  {
    RowAt(outputs, col, i, base);
    ghost var v := Yolov5ClassScores(outputs, col, i);
    max := outputs[base + 5];
    cls := 0;
    var j := 0;
    while j < col - 5
      invariant 0 <= j <= col - 5
      invariant cls == FirstArgMax(v[..if j == 0 then 1 else j]) && max == v[cls]
    {
      assert v[j] == outputs[base + 5 + j];
      if j > 0 {
        assert v[..j + 1][..j] == v[..j];
      }
      if outputs[base + 5 + j] > max {
        max := outputs[base + 5 + j];
        cls := j;
      }
      j := j + 1;
    }
    assert v[..col - 5] == v;
  }

  /** The class scan of YOLOv8 row i: channels 4 to col - 1, each read at
      channel * rows + i. */
  method ArgMaxYoloV8(outputs: seq<real>, col: int, rows: nat, i: nat) returns (max: real, cls: nat)
    requires col >= 5 && rows == RowCount(|outputs|, col) && i < rows
    ensures cls == FirstArgMax(Yolov8ClassScores(outputs, col, i))
    ensures max == Yolov8ClassScores(outputs, col, i)[cls]
  {
    ghost var v := Yolov8ClassScores(outputs, col, i);
    ChannelAt(outputs, col, 4, i, 4 * rows + i);
    max := outputs[4 * rows + i];
    cls := 0;
    var j := 4;
    while j < col
      invariant 4 <= j <= col
      invariant cls == FirstArgMax(v[..if j == 4 then 1 else j - 4]) && max == v[cls]
    {
      var at := j * rows + i;
      ChannelAt(outputs, col, j, i, at);
      assert v[j - 4] == outputs[at];
      if j > 4 {
        assert v[..j - 3][..j - 4] == v[..j - 4];
      }
      if outputs[at] > max {
        max := outputs[at];
        cls := j - 4;
      }
      j := j + 1;
    }
    assert v[..col - 4] == v;
  }

  /** The facts about a suppression result that the method states. */
  lemma NmsFacts(boxes: seq<Detection>, thr: real, limit: int)
    ensures |Nms(boxes, Iou, thr, limit)| <= |boxes| && |Nms(boxes, Iou, thr, limit)| <= Cap(limit)
    ensures NonIncreasing(Nms(boxes, Iou, thr, limit))
    ensures forall a, b :: 0 <= a < b < |Nms(boxes, Iou, thr, limit)| ==>
              Iou(Nms(boxes, Iou, thr, limit)[a].rect, Nms(boxes, Iou, thr, limit)[b].rect) <= thr
  {
    var sorted := SortByScore(boxes);
    NmsShape(sorted, Iou, thr, limit);
    NmsPairwise(sorted, Iou, thr, limit);
    NmsOrderedAndStable(boxes, Iou, thr, limit, 0.0);
    SortOrdersAndPermutes(boxes);
    assert |multiset(sorted)| == |multiset(boxes)|;
  }

  class PrePostProcessor {
    var mNumberOfClasses: int
    var mOutputColumn: int
    var mScoreThreshold: real
    var mIOUThreshold: real
    var mImageWidth: int
    var mImageHeight: int
    var mNmsLimit: int
    var mObjectDetectionModelType: int

    /** At least one class, positive image size, and the column width that
        belongs to the class count and model type. */
    ghost predicate Valid()
      reads this
    {
      mNumberOfClasses >= 1
      && mOutputColumn == ColumnWidth(mNumberOfClasses, mObjectDetectionModelType)
      && mImageWidth > 0 && mImageHeight > 0
    }

    /** The defaults: 17 classes, YOLOv5 layout, 640 x 640, thresholds 0.30,
        at most 15 boxes. */
    constructor ()
      ensures mNumberOfClasses == 17 && mOutputColumn == 22 && mObjectDetectionModelType == 0
      ensures mScoreThreshold == 0.30 && mIOUThreshold == 0.30 && mNmsLimit == 15
      ensures mImageWidth == 640 && mImageHeight == 640
      ensures Valid()
    {
      mNumberOfClasses := 17;
      mOutputColumn := 17 + 5;
      mScoreThreshold := 0.30;
      mIOUThreshold := 0.30;
      mImageWidth := 640;
      mImageHeight := 640;
      mNmsLimit := 15;
      mObjectDetectionModelType := 0;
    }

    /** The defaults with another image size. */
    constructor WithImageSize(imageWidth: int, imageHeight: int)
      ensures mNumberOfClasses == 17 && mOutputColumn == 22 && mObjectDetectionModelType == 0
      ensures mScoreThreshold == 0.30 && mIOUThreshold == 0.30 && mNmsLimit == 15
      ensures mImageWidth == imageWidth && mImageHeight == imageHeight
      ensures Valid() <==> imageWidth > 0 && imageHeight > 0
    {
      mNumberOfClasses := 17;
      mOutputColumn := 17 + 5;
      mScoreThreshold := 0.30;
      mIOUThreshold := 0.30;
      mImageWidth := imageWidth;
      mImageHeight := imageHeight;
      mNmsLimit := 15;
      mObjectDetectionModelType := 0;
    }

    /** A processor for a model with the given class count and layout. */
    constructor ForModel(numberOfClasses: int, imageWidth: int, imageHeight: int,
                         objectDetectionModelType: int)
      ensures mNumberOfClasses == numberOfClasses && mObjectDetectionModelType == objectDetectionModelType
      ensures mOutputColumn == numberOfClasses + (if objectDetectionModelType == 0 then 5 else 4)
      ensures mScoreThreshold == 0.30 && mIOUThreshold == 0.30 && mNmsLimit == 15
      ensures mImageWidth == imageWidth && mImageHeight == imageHeight
      ensures Valid() <==> numberOfClasses >= 1 && imageWidth > 0 && imageHeight > 0
    {
      mNumberOfClasses := numberOfClasses;
      mScoreThreshold := 0.30;
      mIOUThreshold := 0.30;
      mImageWidth := imageWidth;
      mImageHeight := imageHeight;
      mNmsLimit := 15;
      mObjectDetectionModelType := objectDetectionModelType;
      if objectDetectionModelType == 0 {
        mOutputColumn := numberOfClasses + 5;
      } else {
        mOutputColumn := numberOfClasses + 4;
      }
    }

    /** The per-call overrides of the box limit and the two thresholds. */
    method SetDetectionParameters(nmsLimit: int, scoreThreshold: real, iouThreshold: real)
      modifies this
      ensures mNmsLimit == nmsLimit && mScoreThreshold == scoreThreshold && mIOUThreshold == iouThreshold
      ensures mNumberOfClasses == old(mNumberOfClasses) && mOutputColumn == old(mOutputColumn)
      ensures mImageWidth == old(mImageWidth) && mImageHeight == old(mImageHeight)
      ensures mObjectDetectionModelType == old(mObjectDetectionModelType)
      ensures old(Valid()) ==> Valid()
    {
      mNmsLimit := nmsLimit;
      mScoreThreshold := scoreThreshold;
      mIOUThreshold := iouThreshold;
    }

    /** Greedy non-max suppression: sorts by descending score (stably), then
        keeps each still active box and deactivates every later active box
        whose IOU with it exceeds the threshold, stopping at the limit. */
    method NonMaxSuppression(boxes: seq<Detection>) returns (selected: seq<Detection>)
      ensures selected == Nms(boxes, Iou, mIOUThreshold, mNmsLimit)
      ensures |selected| <= |boxes| && |selected| <= Cap(mNmsLimit) && NonIncreasing(selected)
      ensures forall a, b :: 0 <= a < b < |selected| ==> Iou(selected[a].rect, selected[b].rect) <= mIOUThreshold
    {
      var sorted := SortByScore(boxes);
      var thr, limit := mIOUThreshold, mNmsLimit;
      var n := |sorted|;
      var active := new bool[n](_ => true);
      CountAllTrue(active[..]);
      var numActive := active.Length;
      selected := [];
      ghost var picked: seq<nat> := [];
      var done := false;
      var i := 0;
      while i < n && !done
        invariant 0 <= i <= n && !done
        invariant Below(picked, i)
        invariant selected == Pick(sorted, picked)
        invariant Scan(sorted, Iou, thr, limit, i, picked) == NmsIndices(sorted, Iou, thr, limit)
        invariant forall m :: i <= m < n ==> (active[m] <==> !Overlapped(sorted, Iou, picked, m, thr))
        invariant numActive == CountTrue(active[..])
      {
        ScanStep(sorted, Iou, thr, limit, i, picked);
        if active[i] {
          var boxA := sorted[i];
          ghost var prev := picked;
          PickSnoc(sorted, picked, i);
          selected := selected + [boxA];
          picked := picked + [i];
          if |selected| >= limit {
            break;
          }
          numActive, done := SuppressOverlapping(active, sorted, thr, i, prev, numActive);
        }
        i := i + 1;
      }
      assert picked == NmsIndices(sorted, Iou, thr, limit);
      assert selected == Nms(boxes, Iou, thr, limit);
      NmsFacts(boxes, thr, limit);
    }

    /** The YOLOv5 candidate loop: one row of x, y, w, h, objectness and the
        class scores per box; keeps rows whose objectness exceeds the score
        threshold. */
    method CandidatesYolov5(outputs: seq<real>) returns (results: seq<Detection>)
      requires Valid() && mOutputColumn >= 6
      ensures results == Yolov5Candidates(outputs, mOutputColumn, mScoreThreshold, mImageWidth, mImageHeight)
    {
      var col := mOutputColumn;
      var mOutputRow := RowCount(|outputs|, col);
      ghost var rows := Yolov5Rows(outputs, col, mScoreThreshold, mImageWidth, mImageHeight);
      results := [];
      var i := 0;
      while i < mOutputRow
        invariant 0 <= i <= mOutputRow
        invariant results == Somes(rows[..i])
      {
        SomesSnoc(rows, i);
        var base := i * col;
        RowAt(outputs, col, i, base);
        if outputs[base + 4] > mScoreThreshold {
          var x := outputs[base];
          var y := outputs[base + 1];
          var w := outputs[base + 2];
          var h := outputs[base + 3];
          var max, cls := ArgMaxYolov5(outputs, col, i, base);
          var rect := CornerRect(x, y, w, h, mImageWidth, mImageHeight);
          Yolov5RowIs(outputs, col, mScoreThreshold, mImageWidth, mImageHeight, i, x, y, w, h, cls, rect);
          results := results + [Detection(cls, outputs[base + 4], rect)];
        } else {
          Yolov5RowIs(outputs, col, mScoreThreshold, mImageWidth, mImageHeight, i, 0.0, 0.0, 0.0, 0.0, 0,
                      CornerRect(0.0, 0.0, 0.0, 0.0, mImageWidth, mImageHeight));
        }
        i := i + 1;
      }
      assert rows[..mOutputRow] == rows;
    }

    /** The YOLOv8 candidate loop: channel c of row i at c * rows + i; the
        score is the largest class score, kept when it exceeds the score
        threshold. */
    method CandidatesYoloV8(outputs: seq<real>) returns (results: seq<Detection>)
      requires Valid()
      ensures results == Yolov8Candidates(outputs, mOutputColumn, mScoreThreshold, mImageWidth, mImageHeight)
    {
      var col := mOutputColumn;
      var mOutputRow := RowCount(|outputs|, col);
      ghost var rows := Yolov8Rows(outputs, col, mScoreThreshold, mImageWidth, mImageHeight);
      results := [];
      var i := 0;
      while i < mOutputRow
        invariant 0 <= i <= mOutputRow
        invariant results == Somes(rows[..i])
      {
        SomesSnoc(rows, i);
        Yolov8Coordinates(outputs, col, mOutputRow, i);
        var x := outputs[i];
        var y := outputs[mOutputRow + i];
        var w := outputs[2 * mOutputRow + i];
        var h := outputs[3 * mOutputRow + i];
        var max, cls := ArgMaxYoloV8(outputs, col, mOutputRow, i);
        var rect := CornerRect(x, y, w, h, mImageWidth, mImageHeight);
        Yolov8RowIs(outputs, col, mScoreThreshold, mImageWidth, mImageHeight, mOutputRow, i, cls, max, rect);
        if max > mScoreThreshold {
          results := results + [Detection(cls, max, rect)];
        }
        i := i + 1;
      }
      assert rows[..mOutputRow] == rows;
    }

    method OutputsToNmsPredictionsYolov5(outputs: seq<real>) returns (r: seq<Detection>)
      requires Valid() && mOutputColumn >= 6
      ensures r == Nms(Yolov5Candidates(outputs, mOutputColumn, mScoreThreshold, mImageWidth, mImageHeight), Iou,
                       mIOUThreshold, mNmsLimit)
    {
      var results := CandidatesYolov5(outputs);
      r := NonMaxSuppression(results);
    }

    method OutputsToNmsPredictionsYoloV8(outputs: seq<real>) returns (r: seq<Detection>)
      requires Valid()
      ensures r == Nms(Yolov8Candidates(outputs, mOutputColumn, mScoreThreshold, mImageWidth, mImageHeight), Iou,
                       mIOUThreshold, mNmsLimit)
    {
      var results := CandidatesYoloV8(outputs);
      r := NonMaxSuppression(results);
    }

    /** Decodes with the layout of the model type, then suppresses. */
    method OutputsToNmsPredictions(outputs: seq<real>) returns (r: seq<Detection>)
      requires Valid()
      ensures r == Nms(if mObjectDetectionModelType == 0
                       then Yolov5Candidates(outputs, mOutputColumn, mScoreThreshold, mImageWidth, mImageHeight)
                       else Yolov8Candidates(outputs, mOutputColumn, mScoreThreshold, mImageWidth, mImageHeight), Iou,
                       mIOUThreshold, mNmsLimit)
      ensures |r| <= Cap(mNmsLimit)
      ensures NonIncreasing(r)
      ensures forall a, b :: 0 <= a < b < |r| ==> Iou(r[a].rect, r[b].rect) <= mIOUThreshold
    {
      if mObjectDetectionModelType == 0 {
        r := OutputsToNmsPredictionsYolov5(outputs);
      } else {
        r := OutputsToNmsPredictionsYoloV8(outputs);
      }
      ghost var candidates := if mObjectDetectionModelType == 0
        then Yolov5Candidates(outputs, mOutputColumn, mScoreThreshold, mImageWidth, mImageHeight)
        else Yolov8Candidates(outputs, mOutputColumn, mScoreThreshold, mImageWidth, mImageHeight);
      NmsFacts(candidates, mIOUThreshold, mNmsLimit);
    }
  }
}
