/** The per-frame arithmetic app.py and main.py share: counting the boxes of
    class 0 ("person" in the YOLO class list), the density per 10 000 pixels
    and the change of the count per second since the previous frame. */
module YoloFrames {
  import opened Frames

  /** One detected box: `int(b.cls[0])`, `float(b.conf[0])` and `b.xyxy[0]`. */
  datatype Box = Box(cls: int, conf: real, x1: real, y1: real, x2: real, y2: real)

  predicate IsPerson(b: Box) {
    b.cls == 0
  }

  /** `sum(1 for box in boxes if int(box.cls[0]) == 0)`: never more than the
      number of boxes. */
  function PersonCount(boxes: seq<Box>): (n: nat)
    ensures n <= |boxes|
  {
    if boxes == [] then 0
    else PersonCount(boxes[..|boxes| - 1]) + (if IsPerson(boxes[|boxes| - 1]) then 1 else 0)
  }

  /** The positions of the person boxes. */
  function PersonIndices(boxes: seq<Box>): set<nat> {
    set i: nat | i < |boxes| && IsPerson(boxes[i])
  }

  /** The count is the number of positions holding a box of class 0. */
  lemma {:induction false} PersonCountIsIndexCount(boxes: seq<Box>)
    ensures PersonCount(boxes) == |PersonIndices(boxes)|
    decreases |boxes|
  {
    if boxes != [] {
      var n := |boxes| - 1;
      var prefix := boxes[..n];
      PersonCountIsIndexCount(prefix);
      if IsPerson(boxes[n]) {
        assert PersonIndices(boxes) == PersonIndices(prefix) + {n};
        assert n !in PersonIndices(prefix);
      } else {
        assert PersonIndices(boxes) == PersonIndices(prefix);
      }
    } else {
      assert PersonIndices(boxes) == {};
    }
  }

  /** Counting splits over concatenation: boxes of other classes add nothing,
      each person box adds one. */
  lemma {:induction false} PersonCountAppend(a: seq<Box>, b: seq<Box>)
    ensures PersonCount(a + b) == PersonCount(a) + PersonCount(b)
    decreases |b|
  {
    if b == [] {
      assert a + b == a;
    } else {
      assert (a + b)[..|a + b| - 1] == a + b[..|b| - 1];
      PersonCountAppend(a, b[..|b| - 1]);
    }
  }

  /** `person_count / (h * w) * 10000` in exact arithmetic; the division raises
      when the frame has no pixels, so the caller must rule that out. */
  function PixelDensity(count: nat, dims: Dims): (d: real)
    requires dims.height * dims.width != 0
    ensures d >= 0.0 && (d == 0.0 <==> count == 0)
  {
    count as real / (dims.height * dims.width) as real * 10000.0
  }

  function Abs(x: int): nat {
    if x < 0 then -x else x
  }

  /** `abs(person_count - last_person_count) / (current_time - last_frame_time)`:
      the change of the count per second; the division raises when no time has
      passed, so the caller must rule that out. */
  function CountRate(count: nat, lastCount: nat, lastTime: real, now: real): (s: real)
    requires now != lastTime
    ensures s == 0.0 <==> count == lastCount
    ensures now > lastTime ==> s >= 0.0
  {
    var change, elapsed := Abs(count - lastCount) as real, now - lastTime;
    var s := change / elapsed;
    assert s * elapsed == change;
    s
  }

  /** How a frame request fails: the upload is not an image (`frame` is None
      and reading its shape raises), the image has no pixels (the density
      divides by zero), or two frames arrive at the same clock reading (the
      speed divides by zero). */
  datatype FrameError = UndecodableFrame | EmptyFrame | NoTimeElapsed
}
