/** Decoding of a detector's flat output buffer into candidate detections.
    Two layouts: YOLOv5 is row-major (row i holds x, y, w, h, objectness and
    one score per class), YOLOv8 is channel-major (channel c of row i sits at
    c * rows + i; channels are x, y, w, h and one score per class). */
module Decoding {
  import opened Types

  /** Number of rows: the buffer length divided by the column width, with
      any remainder ignored. */
  function RowCount(len: nat, col: int): nat
    requires col > 0
  {
    len / col
  }

  lemma MulMono(a: nat, b: nat, c: nat)
    requires a <= b
    ensures a * c <= b * c
  {
  }

  /** Row i of a row-major buffer lies wholly inside the buffer. */
  lemma RowInBounds(len: nat, col: int, i: nat)
    requires col > 0 && i < RowCount(len, col)
    ensures i * col + col <= len
  {
    MulMono(i + 1, len / col, col);
  }

  /** Channel c of row i of a channel-major buffer lies inside the buffer. */
  lemma ChannelInBounds(len: nat, col: int, c: nat, i: nat)
    requires col > 0 && c < col && i < RowCount(len, col)
    ensures c * RowCount(len, col) + i < len
  {
    var rows := RowCount(len, col);
    MulMono(c + 1, col, rows);
    assert rows * col <= len;
  }

  /** The buffer position at of channel c of row i is in range and holds
      that channel. */
  lemma ChannelAt(outputs: seq<real>, col: int, c: nat, i: nat, at: int)
    requires 0 <= c < col && i < RowCount(|outputs|, col)
    requires at == c * RowCount(|outputs|, col) + i
    ensures 0 <= at < |outputs| && Channel(outputs, col, c, i) == outputs[at]
  {
    ChannelInBounds(|outputs|, col, c, i);
  }

  /** The buffer position base of row i starts a whole row. */
  lemma RowAt(outputs: seq<real>, col: int, i: nat, base: int)
    requires col > 0 && i < RowCount(|outputs|, col) && base == i * col
    ensures 0 <= base && base + col <= |outputs|
    ensures forall c :: 0 <= c < col ==> Cell(outputs, col, i, c) == outputs[base + c]
  {
    RowInBounds(|outputs|, col, i);
  }

  /** Column c of row i in the row-major layout. */
  function Cell(outputs: seq<real>, col: int, i: nat, c: nat): real
    requires 0 <= c < col && i < RowCount(|outputs|, col)
  {
    RowInBounds(|outputs|, col, i);
    outputs[i * col + c]
  }

  /** Channel c of row i in the channel-major layout. */
  function Channel(outputs: seq<real>, col: int, c: nat, i: nat): real
    requires 0 <= c < col && i < RowCount(|outputs|, col)
  {
    ChannelInBounds(|outputs|, col, c, i);
    outputs[c * RowCount(|outputs|, col) + i]
  }

  /** The box given by its centre (x, y) and size (w, h), in native units,
      as corners normalised by the image width W and height H. */
  function CornerRect(x: real, y: real, w: real, h: real, W: int, H: int): (r: Rect)
    requires W > 0 && H > 0
    ensures (r.left + r.right) / 2.0 == x / W as real
    ensures (r.top + r.bottom) / 2.0 == y / H as real
    ensures r.right - r.left == r.width == w / W as real
    ensures r.bottom - r.top == r.height == h / H as real
  {
    var fw, fh := W as real, H as real;
    Rect((x - w / 2.0) / fw, (y - h / 2.0) / fh, (x + w / 2.0) / fw, (y + h / 2.0) / fh, w / fw, h / fh)
  }

  /** k is the lowest position holding the largest value of v. */
  predicate IsFirstMax(v: seq<real>, k: int) {
    0 <= k < |v|
    && (forall j :: 0 <= j < |v| ==> v[j] <= v[k])
    && (forall j :: 0 <= j < k ==> v[j] < v[k])
  }

  /** The running arg-max of a left-to-right scan that replaces the current
      maximum only on a strictly larger value. */
  function FirstArgMax(v: seq<real>): (k: nat)
    requires |v| >= 1
    ensures IsFirstMax(v, k)
    decreases |v|
  {
    if |v| == 1 then 0
    else
      var k := FirstArgMax(v[..|v| - 1]);
      if v[|v| - 1] > v[k] then |v| - 1 else k
  }

  // ---------------------------------------------------------------------
  // Keeping the rows that produced a detection

  function Somes(s: seq<Option<Detection>>): (r: seq<Detection>)
    ensures |r| <= |s|
  {
    if s == [] then []
    else Somes(s[..|s| - 1]) + (if s[|s| - 1].Some? then [s[|s| - 1].value] else [])
  }

  function SomeIndices(s: seq<Option<Detection>>): seq<nat> {
    if s == [] then []
    else SomeIndices(s[..|s| - 1]) + (if s[|s| - 1].Some? then [|s| - 1] else [])
  }

  lemma SomesSnoc(s: seq<Option<Detection>>, i: nat)
    requires i < |s|
    ensures Somes(s[..i + 1]) == Somes(s[..i]) + (if s[i].Some? then [s[i].value] else [])
  {
    assert s[..i + 1][..i] == s[..i];
  }

  /** Somes(s) lists, in order, the values at exactly the positions of s that
      hold one. */
  lemma {:induction false} SomesIndexed(s: seq<Option<Detection>>)
    ensures |Somes(s)| == |SomeIndices(s)|
    ensures Increasing(SomeIndices(s)) && Below(SomeIndices(s), |s|)
    ensures forall k :: 0 <= k < |SomeIndices(s)| ==> s[SomeIndices(s)[k]] == Some(Somes(s)[k])
    ensures forall i :: 0 <= i < |s| ==> (i in SomeIndices(s) <==> s[i].Some?)
  {
    if s != [] {
      var n := |s| - 1;
      var init := s[..n];
      SomesIndexed(init);
      var k0, c0 := SomeIndices(init), Somes(init);
      var k, c := SomeIndices(s), Somes(s);
      assert k == k0 + (if s[n].Some? then [n] else []);
      assert c == c0 + (if s[n].Some? then [s[n].value] else []);
      forall m | 0 <= m < |k| ensures s[k[m]] == Some(c[m]) {
        if m < |k0| {
          assert k[m] == k0[m] && c[m] == c0[m] && init[k0[m]] == s[k0[m]];
        }
      }
      forall i | 0 <= i < |s| ensures i in k <==> s[i].Some? {
        if i < n {
          assert init[i] == s[i];
          assert i in k <==> i in k0;
        }
      }
    }
  }

  // ---------------------------------------------------------------------
  // YOLOv5: row-major, objectness in column 4, classes from column 5

  function Yolov5ClassScores(outputs: seq<real>, col: int, i: nat): (v: seq<real>)
    requires col >= 6 && i < RowCount(|outputs|, col)
    ensures |v| == col - 5
  {
    seq(col - 5, j requires 0 <= j < col - 5 => Cell(outputs, col, i, 5 + j))
  }

  /** The detection of row i: class is the first arg-max over the class
      columns, score is the objectness column. */
  function Yolov5Detection(outputs: seq<real>, col: int, i: nat, W: int, H: int): (d: Detection)
    requires col >= 6 && i < RowCount(|outputs|, col) && W > 0 && H > 0
    ensures IsFirstMax(Yolov5ClassScores(outputs, col, i), d.classIndex)
    ensures d.score == Cell(outputs, col, i, 4)
  {
    Detection(FirstArgMax(Yolov5ClassScores(outputs, col, i)), Cell(outputs, col, i, 4),
              CornerRect(Cell(outputs, col, i, 0), Cell(outputs, col, i, 1),
                         Cell(outputs, col, i, 2), Cell(outputs, col, i, 3), W, H))
  }

  function Yolov5Row(outputs: seq<real>, col: int, thr: real, W: int, H: int, i: nat): Option<Detection>
    requires col >= 6 && i < RowCount(|outputs|, col) && W > 0 && H > 0
  {
    if Cell(outputs, col, i, 4) > thr then Some(Yolov5Detection(outputs, col, i, W, H)) else None
  }

  function Yolov5Rows(outputs: seq<real>, col: int, thr: real, W: int, H: int): (rows: seq<Option<Detection>>)
    requires col >= 6 && W > 0 && H > 0
    ensures |rows| == RowCount(|outputs|, col)
  {
    seq(RowCount(|outputs|, col),
        i requires 0 <= i < RowCount(|outputs|, col) => Yolov5Row(outputs, col, thr, W, H, i))
  }

  /** The YOLOv5 candidates, in row order. */
  function Yolov5Candidates(outputs: seq<real>, col: int, thr: real, W: int, H: int): (r: seq<Detection>)
    requires col >= 6 && W > 0 && H > 0
    ensures |r| <= RowCount(|outputs|, col)
  {
    Somes(Yolov5Rows(outputs, col, thr, W, H))
  }

  /** Row i yields a candidate exactly when its objectness is strictly above
      thr; the candidates are those rows' detections, in row order. */
  lemma Yolov5Decoded(outputs: seq<real>, col: int, thr: real, W: int, H: int)
    requires col >= 6 && W > 0 && H > 0
    ensures var c, k := Yolov5Candidates(outputs, col, thr, W, H), SomeIndices(Yolov5Rows(outputs, col, thr, W, H));
      && |c| == |k| && Increasing(k) && Below(k, RowCount(|outputs|, col))
      && (forall n :: 0 <= n < |k| ==> c[n] == Yolov5Detection(outputs, col, k[n], W, H))
      && (forall i :: 0 <= i < RowCount(|outputs|, col) ==> (i in k <==> Cell(outputs, col, i, 4) > thr))
  {
    SomesIndexed(Yolov5Rows(outputs, col, thr, W, H));
  }

  // ---------------------------------------------------------------------
  // YOLOv8: channel-major, classes from channel 4, no objectness

  function Yolov8ClassScores(outputs: seq<real>, col: int, i: nat): (v: seq<real>)
    requires col >= 5 && i < RowCount(|outputs|, col)
    ensures |v| == col - 4
  {
    seq(col - 4, j requires 0 <= j < col - 4 => Channel(outputs, col, 4 + j, i))
  }

  /** The detection of row i: class is the first arg-max over the class
      channels and score is the maximum class score. */
  function Yolov8Detection(outputs: seq<real>, col: int, i: nat, W: int, H: int): (d: Detection)
    requires col >= 5 && i < RowCount(|outputs|, col) && W > 0 && H > 0
    ensures IsFirstMax(Yolov8ClassScores(outputs, col, i), d.classIndex)
    ensures d.score == Yolov8ClassScores(outputs, col, i)[d.classIndex]
  {
    var v := Yolov8ClassScores(outputs, col, i);
    var k := FirstArgMax(v);
    Detection(k, v[k],
              CornerRect(Channel(outputs, col, 0, i), Channel(outputs, col, 1, i),
                         Channel(outputs, col, 2, i), Channel(outputs, col, 3, i), W, H))
  }

  function Yolov8Row(outputs: seq<real>, col: int, thr: real, W: int, H: int, i: nat): Option<Detection>
    requires col >= 5 && i < RowCount(|outputs|, col) && W > 0 && H > 0
  {
    var d := Yolov8Detection(outputs, col, i, W, H);
    if d.score > thr then Some(d) else None
  }

  function Yolov8Rows(outputs: seq<real>, col: int, thr: real, W: int, H: int): (rows: seq<Option<Detection>>)
    requires col >= 5 && W > 0 && H > 0
    ensures |rows| == RowCount(|outputs|, col)
  {
    seq(RowCount(|outputs|, col),
        i requires 0 <= i < RowCount(|outputs|, col) => Yolov8Row(outputs, col, thr, W, H, i))
  }

  /** The YOLOv8 candidates, in row order. */
  function Yolov8Candidates(outputs: seq<real>, col: int, thr: real, W: int, H: int): (r: seq<Detection>)
    requires col >= 5 && W > 0 && H > 0
    ensures |r| <= RowCount(|outputs|, col)
  {
    Somes(Yolov8Rows(outputs, col, thr, W, H))
  }

  /** Row i yields a candidate exactly when some class score is strictly
      above thr; the candidates are those rows' detections, in row order. */
  lemma Yolov8Decoded(outputs: seq<real>, col: int, thr: real, W: int, H: int)
    requires col >= 5 && W > 0 && H > 0
    ensures var c, k := Yolov8Candidates(outputs, col, thr, W, H), SomeIndices(Yolov8Rows(outputs, col, thr, W, H));
      && |c| == |k| && Increasing(k) && Below(k, RowCount(|outputs|, col))
      && (forall n :: 0 <= n < |k| ==> c[n] == Yolov8Detection(outputs, col, k[n], W, H))
      && (forall i :: 0 <= i < RowCount(|outputs|, col) ==>
            (i in k <==> exists j :: 0 <= j < col - 4 && Yolov8ClassScores(outputs, col, i)[j] > thr))
  {
    var rows := Yolov8Rows(outputs, col, thr, W, H);
    SomesIndexed(rows);
    forall i | 0 <= i < RowCount(|outputs|, col)
      ensures rows[i].Some? <==> exists j :: 0 <= j < col - 4 && Yolov8ClassScores(outputs, col, i)[j] > thr
    {
      var v := Yolov8ClassScores(outputs, col, i);
      var d := Yolov8Detection(outputs, col, i, W, H);
      assert rows[i].Some? <==> d.score > thr;
      if exists j :: 0 <= j < col - 4 && v[j] > thr {
        var j :| 0 <= j < col - 4 && v[j] > thr;
        assert v[j] <= d.score;
      }
    }
  }
}
