# Project Drishti crowd metrics, modelled in Dafny

Project Drishti takes video frames from fixed cameras, counts the people in
them, estimates density and motion, and records per-camera metrics. It raises
an alert when a frame holds too many people. This project models the
bookkeeping the code does around its detectors and cloud services:

- `processing.dfy` (module `Processing`) models Processing.py, the Vertex AI
  pipeline. It covers `extract_persons`, the count of `compute_density`, the
  per-camera baseline map of `compute_optical_flow`, the metric document of
  `save_metrics`, the alert decision and the upload locator. `process_frame`
  runs them in order. The module-level `_last_frames` and the two Firestore
  collections are fields of the class `FramePipeline`. The collections are
  only ever appended to.
- `metrics_server.dfy` (module `MetricsServer`) models server.js: the
  `realTimeMetrics` array, which POST /metrics fills and trims to the newest
  100 entries and GET /metrics returns.
- `app_backend.dfy` (module `AppBackend`) and `main_backend.dfy` (module
  `MainBackend`) model the `process_frame` endpoints of app.py and main.py.
  Each counts YOLO boxes of class 0 and keeps `last_frame_time` and
  `last_person_count` as module globals. These become the fields of a
  `Backend` class.
- `yolo_frames.dfy` (module `YoloFrames`) holds what app.py and main.py
  share: the box count, the pixel density and the count rate.
  `frames.dfy`, `text.dfy` and `wrappers.dfy` hold image sizes, string
  operations (lower-casing, substring search, decimal rendering) and `Option`.

The collaborators are parameters. This covers Vertex AI prediction, OpenCV
decoding, the Farneback flow magnitude, the YOLO model, the clock and uuid4.
Processing.py receives them as a `Services` value of functions and a
`CallInputs` value of clock and uuid readings. app.py and main.py receive the
decoded frame size, the boxes and the clock reading as arguments.

No confidence cutoff is applied when counting persons: every detection
whose lower-cased label contains "person" is counted, whatever its score.
Invalid frame sizes, persistence failures and upload failures raise nothing
of their own. The one failure Processing.py's `process_frame` meets in its
own code is reading the shape of a frame that `cv2.imdecode` could not
decode. That failure is modelled, and it records nothing.

## Model

| member | source | states |
|---|---|---|
| `Text.Lower` | Processing.py:53 | `name.lower()` keeps the length, leaves no upper-case ASCII letter, and leaves every other character in place |
| `Text.LowerIdempotent` | Processing.py:53 | lower-casing an already lower-cased string changes nothing |
| `Text.LowerIgnoresCase` | Processing.py:53 | strings that differ only in letter case lower-case to the same string |
| `Text.ContainsIff` | Processing.py:53 | the `in` test on strings holds exactly when the pattern occurs at some position, in both directions |
| `Text.ContainsMiddle` | Processing.py:122 | a string built around a value contains that value |
| `Text.Decimal` | Processing.py:31 | `str(n)` of a non-negative integer is a non-empty string of digits |
| `Text.ParseDecimalInverts` | Processing.py:31 | reading `str(n)` back as a number gives `n` |
| `Text.DecimalInjective` | Processing.py:31 | distinct numbers give distinct decimal strings |
| `Processing.Entries` | Processing.py:48-52 | `zip` of the three lists yields one entry per position up to the shortest list; a missing key reads as an empty list |
| `Processing.PersonLabelIgnoresCase` | Processing.py:53 | a name and its lower-cased form are both person labels or both not |
| `Processing.PersonLabelCaseInsensitive` | Processing.py:53 | names that differ only in letter case ("Person", "PERSON", "person") are treated alike |
| `Processing.PersonsIn` | Processing.py:52-54 | the persons kept from one prediction's zipped entries are no more than those entries |
| `Processing.PersonsOf` | Processing.py:47-54 | the reference result of `extract_persons`: at most min(len(displayNames), len(confidences), len(bboxes)) entries per prediction contribute |
| `Processing.ExtractPersons` | Processing.py:44-56 | the nested loops return exactly `PersonsOf(preds)`, the person entries of all predictions in order |
| `Processing.AppendPersons` | Processing.py:48-54 | the inner `zip` loop appends exactly the persons of one prediction, in entry order, to what was collected before |
| `Processing.PersonsInAppend` | Processing.py:52-54 | filtering the entries of one prediction preserves their order, so it commutes with concatenation |
| `Processing.PersonsOfAppend` | Processing.py:47-54 | the output for a concatenation of prediction lists is the concatenation of the outputs, so prediction order is kept |
| `Processing.PersonsInSound` | Processing.py:52-54 | every person kept from a list of entries comes from a person-labelled entry and carries its bbox and score |
| `Processing.PersonsOfSound` | Processing.py:52-54 | every returned person comes from an entry whose lower-cased name contains "person" and carries that entry's bbox and `float(score)` |
| `Processing.PersonsOfAround` | Processing.py:47-54 | the output around one prediction is the output before it, its own persons, and the output after it |
| `Processing.PersonsInComplete` | Processing.py:52-54 | every zipped entry whose lower-cased name contains "person" is appended |
| `Processing.PersonsOfComplete` | Processing.py:52-54 | every entry whose lower-cased name contains "person" is returned, whatever its score |
| `Processing.MissingKeyContributesNothing` | Processing.py:48-50 | a prediction lacking any of the three keys contributes nothing: dropping it leaves the output unchanged |
| `Processing.EntriesAddDetection` | Processing.py:52 | inserting a detection at one position of all three lists inserts one zipped entry there |
| `Processing.NonPersonInsertIgnored` | Processing.py:52-54 | inserting an entry whose name does not contain "person" into a prediction's entries leaves its persons unchanged |
| `Processing.PersonInsertCounted` | Processing.py:52-54 | inserting an entry whose name contains "person" adds exactly one person, whatever its score |
| `Processing.PersonsOfReplace` | Processing.py:47-54 | replacing one prediction changes only that prediction's share of the output |
| `Processing.NonPersonDetectionIgnored` | Processing.py:53 | adding a detection whose name does not contain "person" in any letter case leaves the output unchanged |
| `Processing.PersonDetectionCounted` | Processing.py:53-54 | adding a person detection raises the count by exactly one, whatever its score |
| `Processing.Density` | Processing.py:61 | `count / ((w * h) / 10000.0 + 1e-6)` is never negative and is zero exactly when the count is |
| `Processing.ComputeDensity` | Processing.py:59-62 | the count is `len(persons)`; the density is non-negative and zero exactly when nobody was found |
| `Processing.DensityMonotoneInCount` | Processing.py:61 | for a fixed frame size, a larger count never gives a lower density |
| `Processing.DensityAntitoneInArea` | Processing.py:61 | for a fixed count, a larger frame never gives a higher density |
| `Processing.FlowStep` | Processing.py:64-79 | an undecodable frame gives 0.0 and leaves the map alone; a missing or differently shaped baseline gives 0.0; a matching one gives the flow magnitude; a decoded frame becomes the camera's baseline and other cameras' entries are unchanged |
| `Processing.FramePipeline.constructor` | Processing.py:27 | the pipeline starts with no baselines and empty collections |
| `Processing.FramePipeline.ComputeOpticalFlow` | Processing.py:64-79 | the returned flow and the new baseline map are those of `FlowStep` on the old map |
| `Processing.BuildMetricDoc` | Processing.py:83-93 | the `lat` (resp. `lon`) key is present iff `lat` (resp. `lon`) is truthy, so `None` and 0 are omitted; it carries the given value; the other fields are the arguments |
| `Processing.FramePipeline.SaveMetrics` | Processing.py:82-96 | exactly one document, the one returned, is appended to the metrics collection |
| `Processing.AlertFor` | Processing.py:118-123 | an alert exists iff the count reaches the threshold; it has level "high" and its message contains the count in decimal |
| `Processing.DefaultThresholdBoundary` | Processing.py:18 | with the default ALERT_THRESHOLD of 15, a count of 14 raises no alert and 15 does |
| `Processing.Take` | Processing.py:31 | `s[:n]` has length `min(len(s), n)` |
| `Processing.FrameObjectName` | Processing.py:31 | the object name starts with `frames/<camera_id>/` and ends with `.jpg` |
| `Processing.GcsLocator` | Processing.py:35 | the locator starts with `gs://<bucket>/frames/<camera_id>/` and ends with `.jpg` |
| `Processing.LocatorUnique` | Processing.py:30-35 | for one bucket and camera, two uploads get the same `gs://` locator iff they share the second and the first eight hex digits of the uuid |
| `Processing.FramePipeline.ProcessFrame` | Processing.py:99-130 | an undecodable frame raises and changes nothing; otherwise one metric document with count, density, flow and locator is appended, and an alert document embedding it is appended iff the count reaches the threshold |
| `MetricsServer.LastN` | server.js:15-16 | the last `n` elements of a sequence number `min(len, n)` |
| `MetricsServer.Pushed` | server.js:13-16 | POST makes the new item the last element; below 100 nothing is removed; at 100 or more exactly the oldest is removed; the bound of 100 is kept |
| `MetricsServer.PushedKeepsNewest` | server.js:13-16 | from at most 100 entries, one POST leaves the newest 100 of the old entries plus the new item, in order |
| `MetricsServer.LastNSnoc` | server.js:13-16 | keeping the newest 100 before or after appending one more item gives the same buffer |
| `MetricsServer.PostAllKeepsNewest` | server.js:11-19 | after any number of POSTs the buffer holds exactly the 100 most recent items, in arrival order |
| `MetricsServer.Server.constructor` | server.js:8 | the buffer starts empty |
| `MetricsServer.Server.PostMetrics` | server.js:11-19 | the buffer becomes `Pushed` of the old buffer, stays within 100 if it was, and the reply is "success" |
| `MetricsServer.Server.GetMetrics` | server.js:22-24 | GET returns the buffer and changes nothing |
| `YoloFrames.PersonCount` | main.py:53 | the `sum` over class-0 boxes is never more than the number of boxes |
| `YoloFrames.PersonCountIsIndexCount` | main.py:53 | the person count equals the number of positions holding a box of class 0 |
| `YoloFrames.PersonCountAppend` | main.py:53 | the count splits over concatenation: other classes add nothing, each class-0 box adds one |
| `YoloFrames.PixelDensity` | app.py:67 | density per 10 000 pixels is non-negative and zero exactly when the count is zero (same formula at main.py:57) |
| `YoloFrames.CountRate` | app.py:72 | the speed is zero exactly when the count did not change, and non-negative when time moved forward (same formula at main.py:62) |
| `AppBackend.TallyBoxes` | app.py:52-64 | `person_count` is the number of class-0 boxes; `boxes_data` has one entry per box in box order, whatever its class, so `person_count <= len(boxes_data)` |
| `AppBackend.Backend.constructor` | app.py:34-35 | no previous frame, last count 0 |
| `AppBackend.Backend.ProcessFrame` | app.py:39-86 | the result is a success exactly when the frame decodes, has pixels, and time has passed since a truthy `last_frame_time`; an undecodable frame, a zero-pixel frame or no elapsed time yields an error and leaves the globals unchanged; on success the count, boxes, density and speed are reported, with speed 0 when `last_frame_time` is falsy, and the globals become this frame's count and time |
| `MainBackend.Backend.constructor` | main.py:30-31 | no previous frame, last count 0 |
| `MainBackend.Backend.ProcessFrame` | main.py:34-76 | the result is "success" exactly when the frame decodes, has pixels, and the clock reading differs from a non-None `last_frame_time`; an undecodable frame, a zero-pixel frame or no elapsed time yields status "error" and leaves the globals unchanged; on success the result carries the class-0 count, density and speed (0 when `last_frame_time is None`), and the globals become this frame's count and time |

## Left out

- Cloud services: the Google Cloud Storage upload, the Vertex AI endpoint call and the Firestore client are not modelled. The upload contributes only its locator string, prediction is a function parameter, and Firestore is two append-only sequences that never fail.
- OpenCV is not modelled: image decoding, Farneback optical flow and the mean magnitude are function parameters. A decoded grayscale frame is reduced to its shape and pixels.
- Floating point: densities, speeds and scores are exact reals. `round(..., 4)`, `round(speed, 3)` and `round(conf, 2)` are not modelled, and neither is `float()` conversion of non-numeric values.
- Clocks and randomness: `time.time()`, `datetime.utcnow().isoformat()` and `uuid.uuid4()` are inputs to the model.
- `Text.Lower`: lower-cases ASCII letters only; Python's full Unicode `str.lower()` is not modelled.
- `Processing.BuildMetricDoc`: `lat` and `lon` are optional numbers; truthiness of other Python values (strings, for one) is not modelled.
- `Processing.FramePipeline.ProcessFrame`: exceptions raised by the storage, prediction or Firestore calls are not modelled, and neither is a prediction list whose values are not lists. The undecodable frame is the one failure modelled.
- Processing.py keeps no memory bound on `_last_frames`; the model keeps none either.
- main.py prints the exception on its error path; output is not modelled.
- `AppBackend.Backend.ProcessFrame`: app.py calls YOLO with `conf=0.3`, so no box below confidence 0.3 reaches the loop; the model takes the boxes as given and does not constrain `Box.conf`.
- The YOLO model call itself is not modelled: its boxes are an input. Boxes whose corners do not unpack into four values are not modelled.
- forecasting.py is not part of this model: it is a pandas resample and a Prophet fit over Firestore data, a library and floating-point numerics.
- vertex_predict.py and webcam_stream_to_backend.py are not part of this model: they are a CSV load with a remote endpoint call, and a camera capture and HTTP loop.
- `generate_summary`, the dummy event data and the Gemini REST call in app.py, the HTTP routing, CORS and any concurrency are not modelled.
