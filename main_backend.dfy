/** POST /process_frame of main.py: run YOLO on the uploaded image, count the
    person boxes, and report density and the change of the count per second
    since the previous successful frame, kept in the module globals
    `last_frame_time` and `last_person_count`. Any exception becomes an error
    result. */
module MainBackend {
  import opened Wrappers
  import opened Frames
  import opened YoloFrames

  datatype FrameResult =
    | Success(personCount: nat, density: real, speed: real)
    | Error(error: FrameError)

  /** The module globals of main.py. */
  class Backend {
    var lastFrameTime: Option<real>
    var lastPersonCount: nat

    constructor ()
      ensures lastFrameTime == None && lastPersonCount == 0
    {
      lastFrameTime := None;
      lastPersonCount := 0;
    }

    /** `process_frame`, given what decoding produced (`None` when the upload
        is not an image), the boxes YOLO found and the clock reading. Unlike
        app.py, a previous frame exists whenever `last_frame_time is not None`,
        even at clock reading 0. The globals change only on success. */
    method ProcessFrame(frame: Option<Dims>, boxes: seq<Box>, currentTime: real) returns (r: FrameResult)
      modifies this
      ensures frame.None? ==> r == Error(UndecodableFrame)
      ensures frame.Some? && frame.value.height * frame.value.width == 0 ==> r == Error(EmptyFrame)
      ensures (frame.Some? && frame.value.height * frame.value.width != 0 &&
               old(lastFrameTime) == Some(currentTime)) ==>
              r == Error(NoTimeElapsed)
      ensures r.Success? <==>
        frame.Some? && frame.value.height * frame.value.width != 0 && old(lastFrameTime) != Some(currentTime)
      ensures r.Error? ==> lastFrameTime == old(lastFrameTime) && lastPersonCount == old(lastPersonCount)
      ensures r.Success? ==>
        && frame.Some? && frame.value.height * frame.value.width != 0
        && r.personCount == PersonCount(boxes)
        && r.density == PixelDensity(r.personCount, frame.value)
        && (old(lastFrameTime).None? ==> r.speed == 0.0)
        && (old(lastFrameTime).Some? ==>
              currentTime != old(lastFrameTime).value &&
              r.speed == CountRate(r.personCount, old(lastPersonCount), old(lastFrameTime).value, currentTime))
        && lastPersonCount == r.personCount
        && lastFrameTime == Some(currentTime)
    {
      if frame.None? {
        return Error(UndecodableFrame);
      }
      var personCount := PersonCount(boxes);
      var dims := frame.value;
      if dims.height * dims.width == 0 {
        return Error(EmptyFrame);
      }
      var density := PixelDensity(personCount, dims);
      var speed := 0.0;
      if lastFrameTime.Some? {
        if currentTime == lastFrameTime.value {
          return Error(NoTimeElapsed);
        }
        speed := CountRate(personCount, lastPersonCount, lastFrameTime.value, currentTime);
      }
      lastPersonCount := personCount;
      lastFrameTime := Some(currentTime);
      r := Success(personCount, density, speed);
    }
  }
}
