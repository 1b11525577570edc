# pytorch_lite object-detection post-processor, in Dafny

pytorch_lite is a Flutter plugin that runs PyTorch Mobile models. On Android,
the class `PrePostProcessor` turns the flat `float[]` output of a YOLO-family
detector into a short list of detections. Each detection has a class index, a
score and a rectangle normalised to the image size. This project models that
class and proves what its results mean.

The modules follow the structure of the Java class:

- `Types`: the Pigeon records `PyTorchRect` (`Rect`) and
  `ResultObjectDetection` (`Detection`), plus `Option`.
- `Geometry`: `IOU`, the intersection-over-union of two rectangles.
- `Ranking`: the stable descending sort by score that suppression starts with.
  `Collections.sort` with the reversed `compareTo` comparator is a stable merge
  sort. Its result is specified by a stable insertion sort, `SortByScore`.
- `Suppression`: greedy non-max suppression as a specification over positions
  of the sorted list.
  - `Scan` walks the sorted boxes. It selects a box unless an already selected
    box overlaps it by more than the threshold, and it stops once the limit is
    reached.
  - `Nms` sorts the boxes, then scans them.
  - The specification takes the overlap measure as a parameter. `Processor`
    instantiates it with `Iou`.
- `Decoding`: the two buffer layouts as functions of the buffer.
  - YOLOv5 is row-major: row `i`, column `c` is at `i * col + c`.
  - YOLOv8 is channel-major: channel `c` of row `i` is at `c * rows + i`.
  - Both read under the first-maximum rule: the running maximum moves only to a
    strictly larger score.
  - Both use the centre/size to corner conversion, normalised by the image size.
- `Processor`: the class `PrePostProcessor`, with the Java fields and the
  three constructors.
  - `ColumnWidth` is the row width the constructors derive from the class
    count and model type. `Valid()` requires `mOutputColumn` to equal it, with
    at least one class and a positive image size.
  - The per-call overrides of limit and thresholds made by the plugin become
    `SetDetectionParameters`.
  - `NonMaxSuppression` keeps the `active` flag array, the `numActive` counter
    and the nested loops with their `break`s. It is proved equal to `Nms`.
  - The two decoding loops are proved equal to the decoding functions.
  - `OutputsToNmsPredictions` dispatches on the model type.

The code is followed where it differs from its own comment. The comment says
suppression stops "until ... the limit has been reached". The limit check,
however, sits after the box is added (PrePostProcessor.java:92-94). So at least
one box of a non-empty list is kept even when `mNmsLimit` is 0 or negative, and the result holds
at most `max(mNmsLimit, 1)` boxes (`Suppression.Cap`).

The counter `numActive` can never reach zero. The box being processed stays
active, which keeps the counter at one or more. So the `done` exit is dead
code, and the model proves it: `SuppressOverlapping` ensures `!done`.

## Model

| member | source | states |
|---|---|---|
| Processor.PrePostProcessor.constructor | android/src/main/java/com/zezo357/pytorch_lite/PrePostProcessor.java:20-32 | the field defaults: 17 classes, column width 22, thresholds 0.30, image 640 x 640, limit 15, model type 0; the object is valid |
| Processor.PrePostProcessor.WithImageSize | android/src/main/java/com/zezo357/pytorch_lite/PrePostProcessor.java:34-37 | the defaults with the given image size; valid exactly when both sides are positive |
| Processor.PrePostProcessor.ForModel | android/src/main/java/com/zezo357/pytorch_lite/PrePostProcessor.java:39-53 | class count and model type as given; column width is classes + 5 for type 0 and classes + 4 otherwise; valid exactly when there is a class and the image size is positive |
| Processor.PrePostProcessor.SetDetectionParameters | android/src/main/java/com/zezo357/pytorch_lite/PytorchLitePlugin.java:192-194 | only limit, score threshold and IOU threshold change, to the given values; validity is kept |
| Geometry.IntersectionArea | android/src/main/java/com/zezo357/pytorch_lite/PrePostProcessor.java:128-133 | the intersection area is never negative (both sides are clamped at zero) |
| Geometry.IntersectionWithin | android/src/main/java/com/zezo357/pytorch_lite/PrePostProcessor.java:120-133 | when both signed areas are positive, the intersection is no larger than either area |
| Geometry.Iou | android/src/main/java/com/zezo357/pytorch_lite/PrePostProcessor.java:119-135 | IOU is 0 when either signed area is at most 0; it always lies in [0, 1] |
| Geometry.IouIdentical | android/src/main/java/com/zezo357/pytorch_lite/PrePostProcessor.java:119-135 | a box with positive width and height has IOU 1 with itself |
| Geometry.IouDisjoint | android/src/main/java/com/zezo357/pytorch_lite/PrePostProcessor.java:128-134 | boxes separated horizontally or vertically have IOU 0 |
| Geometry.IouMisoriented | android/src/main/java/com/zezo357/pytorch_lite/PrePostProcessor.java:120-134 | a box with a reversed or empty side has IOU 0 with every box, in both argument orders, even when its signed area is positive |
| Processor.ColumnWidth | android/src/main/java/com/zezo357/pytorch_lite/PrePostProcessor.java:45-51 | the row width: numberOfClasses + 5 for model type 0 (x, y, w, h, objectness, class scores) and numberOfClasses + 4 otherwise (no objectness) |
| Processor.ClassColumns | android/src/main/java/com/zezo357/pytorch_lite/PrePostProcessor.java:45-51 | with at least one class, the YOLOv5 decoder scans columns 5 to col - 1 and the YOLOv8 decoder scans channels 4 to col - 1: exactly one score per class |
| Ranking.SortByScore | android/src/main/java/com/zezo357/pytorch_lite/PrePostProcessor.java:74-75 | the stable descending sort of the boxes by score; as many boxes as the input |
| Suppression.Scan | android/src/main/java/com/zezo357/pytorch_lite/PrePostProcessor.java:89-108 | the greedy walk from position i with the positions selected so far: skip a box that a selected box overlaps by more than the threshold, otherwise select it, and stop once the selection has reached the limit; appends at most one position per remaining box |
| Suppression.Nms | android/src/main/java/com/zezo357/pytorch_lite/PrePostProcessor.java:70-114 | the sorted boxes at the positions the scan selects; never more boxes than the input |
| Decoding.Yolov5Candidates | android/src/main/java/com/zezo357/pytorch_lite/PrePostProcessor.java:192-235 | the detections of the rows whose objectness is above the threshold, in row order; at most one per row |
| Decoding.Yolov8Candidates | android/src/main/java/com/zezo357/pytorch_lite/PrePostProcessor.java:142-182 | the detections of the rows whose largest class score is above the threshold, in row order; at most one per row |
| Ranking.SortOrdersAndPermutes | android/src/main/java/com/zezo357/pytorch_lite/PrePostProcessor.java:74-75 | the sorted list has non-increasing scores and is a permutation of the input |
| Ranking.SortIsStable | android/src/main/java/com/zezo357/pytorch_lite/PrePostProcessor.java:74-75 | for every score value, the boxes with that score keep their input order |
| Ranking.SortKeepsSorted | android/src/main/java/com/zezo357/pytorch_lite/PrePostProcessor.java:74-75 | a list already in non-increasing order is left unchanged |
| Suppression.ScanShape | android/src/main/java/com/zezo357/pytorch_lite/PrePostProcessor.java:89-94 | the scan only appends positions at or after the current one, in ascending order, keeping what was selected before |
| Suppression.NmsShape | android/src/main/java/com/zezo357/pytorch_lite/PrePostProcessor.java:78-94 | selected positions ascend; at most as many as boxes and at most max(limit, 1); none for an empty list |
| Suppression.NmsPairwise | android/src/main/java/com/zezo357/pytorch_lite/PrePostProcessor.java:96-101 | for boxes A and B selected in that order, the overlap of A with B is at most the threshold |
| Suppression.NmsDroppedExplained | android/src/main/java/com/zezo357/pytorch_lite/PrePostProcessor.java:89-108 | a sorted box that is not selected either overlaps an earlier selected box by more than the threshold, or lies after the box at which the limit was reached |
| Suppression.GreedyOrdered | android/src/main/java/com/zezo357/pytorch_lite/PrePostProcessor.java:89-92 | the boxes kept from a list form a subsequence of it, in non-increasing score order when the list is |
| Suppression.NmsOrderedAndStable | android/src/main/java/com/zezo357/pytorch_lite/PrePostProcessor.java:74-92 | the result is in non-increasing score order and is a subsequence of the sorted input; boxes of equal score appear in their input order |
| Suppression.NmsIdempotent | android/src/main/java/com/zezo357/pytorch_lite/PrePostProcessor.java:70-114 | suppressing a suppression result again changes nothing |
| Decoding.CornerRect | android/src/main/java/com/zezo357/pytorch_lite/PrePostProcessor.java:149-152 | the normalised box has centre (x / W, y / H), and its right - left equals its width w / W (bottom - top equals its height h / H) |
| Decoding.FirstArgMax | android/src/main/java/com/zezo357/pytorch_lite/PrePostProcessor.java:207-214 | the result is the lowest position holding the largest value |
| Decoding.SomesIndexed | android/src/main/java/com/zezo357/pytorch_lite/PrePostProcessor.java:192-235 | the kept candidates are, in row order, the values at exactly the rows that produced one |
| Decoding.Yolov5Detection | android/src/main/java/com/zezo357/pytorch_lite/PrePostProcessor.java:195-230 | the class of row i is the first arg-max of its class columns; the score is its objectness column |
| Decoding.Yolov5Decoded | android/src/main/java/com/zezo357/pytorch_lite/PrePostProcessor.java:188-235 | row i yields a candidate exactly when its objectness is strictly above the threshold; candidates are those rows' detections, in row order |
| Decoding.Yolov8Detection | android/src/main/java/com/zezo357/pytorch_lite/PrePostProcessor.java:144-177 | the class of row i is the first arg-max of its class channels; the score is that maximum class score |
| Decoding.Yolov8Decoded | android/src/main/java/com/zezo357/pytorch_lite/PrePostProcessor.java:137-182 | row i yields a candidate exactly when some class score is strictly above the threshold; candidates are those rows' detections, in row order |
| Processor.SuppressOverlapping | android/src/main/java/com/zezo357/pytorch_lite/PrePostProcessor.java:96-108 | every later box stays active exactly when no box selected so far, this one included, overlaps it by more than the threshold; earlier flags are unchanged; the counter equals the number of active flags; the early exit is never taken |
| Processor.ArgMaxYolov5 | android/src/main/java/com/zezo357/pytorch_lite/PrePostProcessor.java:207-214 | the loop's class is the first arg-max of the row's class columns, and its max is that score |
| Processor.ArgMaxYoloV8 | android/src/main/java/com/zezo357/pytorch_lite/PrePostProcessor.java:154-161 | the loop's class is the first arg-max of the row's class channels, and its max is that score |
| Processor.NmsFacts | android/src/main/java/com/zezo357/pytorch_lite/PrePostProcessor.java:70-114 | an IOU suppression result has at most as many boxes as the input and at most max(limit, 1); it is in non-increasing score order; IOU between any two of its boxes is at most the threshold |
| Processor.PrePostProcessor.NonMaxSuppression | android/src/main/java/com/zezo357/pytorch_lite/PrePostProcessor.java:70-114 | the flag-array loop returns exactly the greedy suppression of the stably sorted boxes; size bounds, score order and pairwise IOU at most the threshold |
| Processor.PrePostProcessor.CandidatesYolov5 | android/src/main/java/com/zezo357/pytorch_lite/PrePostProcessor.java:189-235 | the decoding loop returns exactly the YOLOv5 candidates of the buffer; every read is in bounds |
| Processor.PrePostProcessor.CandidatesYoloV8 | android/src/main/java/com/zezo357/pytorch_lite/PrePostProcessor.java:138-182 | the decoding loop returns exactly the YOLOv8 candidates of the buffer; every read is in bounds |
| Processor.PrePostProcessor.OutputsToNmsPredictionsYolov5 | android/src/main/java/com/zezo357/pytorch_lite/PrePostProcessor.java:188-239 | the result is the suppression of the YOLOv5 candidates under the current thresholds and limit |
| Processor.PrePostProcessor.OutputsToNmsPredictionsYoloV8 | android/src/main/java/com/zezo357/pytorch_lite/PrePostProcessor.java:137-186 | the result is the suppression of the YOLOv8 candidates under the current thresholds and limit |
| Processor.PrePostProcessor.OutputsToNmsPredictions | android/src/main/java/com/zezo357/pytorch_lite/PrePostProcessor.java:241-248 | model type 0 decodes as YOLOv5 and every other type as YOLOv8, then suppresses; the result has at most max(limit, 1) boxes, non-increasing scores and pairwise IOU at most the threshold |

## Left out

- Floating point: coordinates, scores and thresholds are `real`. The model leaves out `float`/`double` rounding, the float-to-double widening `getFloatAsDouble` (the identity over reals), NaN, and the order `Double.compareTo` gives to NaN and -0.0.
- Processor.PrePostProcessor.CandidatesYolov5: requires `Valid()`, meaning at least one class and a positive image size. With no class the column width is 5. YOLOv5 then takes the next row's first value as the class score and reports class 0. It throws only when the last row passes the threshold in a buffer whose length is an exact multiple of 5. With a zero image size, it divides floats by zero and yields infinities or NaN, which reals cannot express.
- Processor.PrePostProcessor.CandidatesYoloV8: requires `Valid()`. With no class the column width is 4, and the first score read, `outputs[4 * rows + i]`, lies past the buffer for row 0 whenever the length is a multiple of 4. A zero image size gives infinities or NaN, as for YOLOv5.
- Processor.PrePostProcessor.OutputsToNmsPredictions: requires `Valid()`, for the same reasons. The two per-model methods do too.
- Processor.PrePostProcessor.SetDetectionParameters: takes the limit as an `int`. The plugin's narrowing `Long.intValue()` and `Double.floatValue()` are not modelled.
- `Collections.sort` sorts the caller's list in place. The model sorts a copy (`SortByScore`). The only callers are the two decoders, which pass a local list, so the in-place update cannot be observed.
- The output buffer is a read-only `seq<real>` rather than a `float[]`, since nothing writes to it.
- Helper methods: the inner suppression loop (`SuppressOverlapping`) and the two arg-max loops (`ArgMaxYolov5`, `ArgMaxYoloV8`) are separate methods called from the outer loops. The statements and their order are the Java's.
- The decoders build the rectangle with `CornerRect` instead of named `left`/`top`/`right`/`bottom` locals. The values are the same.
- `Log.i` calls, the unused static `mClasses`, and the `NO_MEAN_RGB`/`NO_STD_RGB` constants (used only for image-to-tensor conversion).
- Thread safety of the mutable threshold fields: the model is sequential.
- The plugin beyond its three field assignments: model loading, inference, bitmap decoding and callbacks are calls into the Android and PyTorch Mobile runtimes. The iOS and C++ files hold inference and declarations only and are not part of this model.
