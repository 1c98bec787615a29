/** What every backend knows of an image: its raw bytes and, once decoded,
    its size `frame.shape[:2]`. */
module Frames {

  type Bytes = seq<bv8>

  /** `(h, w) = frame.shape[:2]` of a decoded image. */
  datatype Dims = Dims(height: nat, width: nat)
}
