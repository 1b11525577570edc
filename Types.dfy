/** Value types of the detector post-processor: the Pigeon records that the
    decoders build and the suppressor filters, and the two predicates on
    position sequences (selected boxes, rows that yielded a candidate) that
    the suppression and decoding modules both use. */
module Types {

  datatype Option<T> = None | Some(value: T)

  /** A bounding box in normalised image coordinates (Pigeon.PyTorchRect).
      Nothing forces right >= left or bottom >= top: the decoders build the
      box from whatever centre and size the model emitted. */
  datatype Rect = Rect(left: real, top: real, right: real, bottom: real,
                       width: real, height: real)

  /** One detection (Pigeon.ResultObjectDetection). */
  datatype Detection = Detection(classIndex: int, score: real, rect: Rect)

  /** Positions into a sequence that strictly ascend. */
  predicate Increasing(idx: seq<nat>) {
    forall k, l :: 0 <= k < l < |idx| ==> idx[k] < idx[l]
  }

  /** Positions that all lie below n. */
  predicate Below(idx: seq<nat>, n: nat) {
    forall k :: 0 <= k < |idx| ==> idx[k] < n
  }
}
