/** POST /process_frame of app.py: run YOLO on the uploaded image, list every
    box, count the person boxes, and report density and the change of the
    count per second since the previous successful frame, kept in the module
    globals `last_frame_time` and `last_person_count`. Any exception becomes
    an error result. */
module AppBackend {
  import opened Wrappers
  import opened Frames
  import opened YoloFrames

  /** One entry of `boxes_data`: class, confidence and corners of a box. */
  datatype BoxData = BoxData(cls: int, conf: real, box: seq<real>)

  datatype FrameResult =
    | Success(personCount: nat, density: real, speed: real, boxes: seq<BoxData>)
    | Error(error: FrameError)

  function ToBoxData(b: Box): BoxData {
    BoxData(b.cls, b.conf, [b.x1, b.y1, b.x2, b.y2])
  }

  /** The loop over `results[0].boxes`: one `boxes_data` entry per box, in box
      order and whatever its class, and one count per box of class 0. */
  method TallyBoxes(boxes: seq<Box>) returns (personCount: nat, boxesData: seq<BoxData>)
    ensures personCount == PersonCount(boxes)
    ensures |boxesData| == |boxes|
    ensures forall i :: 0 <= i < |boxes| ==> boxesData[i] == ToBoxData(boxes[i])
    ensures personCount <= |boxesData|
  {
    personCount, boxesData := 0, [];
    for i := 0 to |boxes|
      invariant personCount == PersonCount(boxes[..i])
      invariant |boxesData| == i
      invariant forall k :: 0 <= k < i ==> boxesData[k] == ToBoxData(boxes[k])
    {
      assert boxes[..i + 1][..i] == boxes[..i];
      var b := boxes[i];
      if b.cls == 0 {
        personCount := personCount + 1;
      }
      boxesData := boxesData + [ToBoxData(b)];
    }
    assert boxes[..|boxes|] == boxes;
  }

  /** The module globals of app.py. */
  class Backend {
    var lastFrameTime: Option<real>
    var lastPersonCount: nat

    constructor ()
      ensures lastFrameTime == None && lastPersonCount == 0
    {
      lastFrameTime := None;
      lastPersonCount := 0;
    }

    /** `process_frame`, given what decoding produced (`None` when the upload
        is not an image), the boxes YOLO found and the clock reading. The
        globals change only on success, to this frame's count and time. */
    method ProcessFrame(frame: Option<Dims>, boxes: seq<Box>, currentTime: real) returns (r: FrameResult)
      modifies this
      ensures frame.None? ==> r == Error(UndecodableFrame)
      ensures frame.Some? && frame.value.height * frame.value.width == 0 ==> r == Error(EmptyFrame)
      ensures (frame.Some? && frame.value.height * frame.value.width != 0 &&
               Truthy(old(lastFrameTime)) && currentTime == old(lastFrameTime).value) ==>
              r == Error(NoTimeElapsed)
      ensures r.Success? <==>
        frame.Some? && frame.value.height * frame.value.width != 0 &&
        !(Truthy(old(lastFrameTime)) && currentTime == old(lastFrameTime).value)
      ensures r.Error? ==> lastFrameTime == old(lastFrameTime) && lastPersonCount == old(lastPersonCount)
      ensures r.Success? ==>
        && frame.Some? && frame.value.height * frame.value.width != 0
        && r.personCount == PersonCount(boxes)
        && |r.boxes| == |boxes|
        && (forall i :: 0 <= i < |boxes| ==> r.boxes[i] == ToBoxData(boxes[i]))
        && r.density == PixelDensity(r.personCount, frame.value)
        && (!Truthy(old(lastFrameTime)) ==> r.speed == 0.0)
        && (Truthy(old(lastFrameTime)) ==>
              currentTime != old(lastFrameTime).value &&
              r.speed == CountRate(r.personCount, old(lastPersonCount), old(lastFrameTime).value, currentTime))
        && lastPersonCount == r.personCount
        && lastFrameTime == Some(currentTime)
    {
      if frame.None? {
        return Error(UndecodableFrame);
      }
      var personCount, boxesData := TallyBoxes(boxes);
      var dims := frame.value;
      if dims.height * dims.width == 0 {
        return Error(EmptyFrame);
      }
      var density := PixelDensity(personCount, dims);
      var speed := 0.0;
      if Truthy(lastFrameTime) {
        if currentTime == lastFrameTime.value {
          return Error(NoTimeElapsed);
        }
        speed := CountRate(personCount, lastPersonCount, lastFrameTime.value, currentTime);
      }
      lastPersonCount := personCount;
      lastFrameTime := Some(currentTime);
      r := Success(personCount, density, speed, boxesData);
    }
  }
}
