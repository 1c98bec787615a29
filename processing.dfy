/** The per-frame pipeline of Processing.py: upload the frame, ask the
    detector for predictions, keep the person detections, compute count,
    density and optical flow, record the metric document and, when the count
    reaches the alert threshold, an alert document.

    The cloud services are not modelled: the detector, the image decoders and
    the Farneback flow magnitude are function-valued parameters, the clock and
    the uuid are inputs, and the two Firestore collections are append-only
    sequences held by the pipeline object. */
module Processing {
  import opened Wrappers
  import opened Frames
  import Text

  /** ALERT_THRESHOLD when the environment does not override it. */
  const DefaultAlertThreshold: int := 15

  type BBox = seq<real>

  // ---------------------------------------------------------------- detections

  /** One element of `pred.predictions`: three parallel lists, any of which may
      be missing from the prediction dict. */
  datatype Prediction = Prediction(
    displayNames: Option<seq<string>>,
    confidences: Option<seq<real>>,
    bboxes: Option<seq<BBox>>)

  /** One position of the parallel lists. */
  datatype Entry = Entry(name: string, score: real, bbox: BBox)

  /** What `extract_persons` keeps of an entry: `{"bbox": bbox, "score": float(score)}`. */
  datatype Person = Person(bbox: BBox, score: real)

  function Min3(a: nat, b: nat, c: nat): (m: nat)
    ensures m <= a && m <= b && m <= c
    ensures m == a || m == b || m == c
  {
    if a <= b && a <= c then a else if b <= c then b else c
  }

  function Names(p: Prediction): seq<string> { p.displayNames.GetOr([]) }
  function Scores(p: Prediction): seq<real> { p.confidences.GetOr([]) }
  function Boxes(p: Prediction): seq<BBox> { p.bboxes.GetOr([]) }

  /** `zip(display_names, confidences, bboxes)`: one entry per position up to
      the shortest list; a missing key reads as the empty list. */
  function Entries(p: Prediction): (es: seq<Entry>)
    ensures |es| == Min3(|Names(p)|, |Scores(p)|, |Boxes(p)|)
    ensures forall k :: 0 <= k < |es| ==>
      es[k] == Entry(Names(p)[k], Scores(p)[k], Boxes(p)[k])
  {
    var n := Min3(|Names(p)|, |Scores(p)|, |Boxes(p)|);
    seq(n, k requires 0 <= k < n => Entry(Names(p)[k], Scores(p)[k], Boxes(p)[k]))
  }

  /** `"person" in name.lower()`. */
  predicate IsPersonLabel(name: string) {
    Text.Contains(Text.Lower(name), "person")
  }

  /** The label test ignores letter case: a name and its lower-cased form are
      both person labels or both not. */
  lemma PersonLabelIgnoresCase(name: string)
    ensures IsPersonLabel(Text.Lower(name)) <==> IsPersonLabel(name)
  {
    Text.LowerIdempotent(name);
  }

  /** Names that differ only in letter case are treated alike. */
  lemma PersonLabelCaseInsensitive(a: string, b: string)
    requires |a| == |b|
    requires forall i :: 0 <= i < |a| ==> Text.LowerChar(a[i]) == Text.LowerChar(b[i])
    ensures IsPersonLabel(a) <==> IsPersonLabel(b)
  {
    Text.LowerIgnoresCase(a, b);
  }

  function ToPerson(e: Entry): Person {
    Person(e.bbox, e.score)
  }

  /** The persons of a list of entries, in entry order. */
  function PersonsIn(es: seq<Entry>): (r: seq<Person>)
    ensures |r| <= |es|
  {
    if es == [] then []
    else
      var last := es[|es| - 1];
      PersonsIn(es[..|es| - 1]) + (if IsPersonLabel(last.name) then [ToPerson(last)] else [])
  }

  /** The persons of all predictions, in prediction order and, within a
      prediction, in entry order. */
  function PersonsOf(preds: seq<Prediction>): (r: seq<Person>)
    ensures |r| <= EntryCount(preds)
  {
    if preds == [] then []
    else PersonsOf(preds[..|preds| - 1]) + PersonsIn(Entries(preds[|preds| - 1]))
  }

  /** `extract_persons`: the loop over predictions. */
  method ExtractPersons(preds: seq<Prediction>) returns (persons: seq<Person>)
    ensures persons == PersonsOf(preds)
  {
    persons := [];
    var i := 0;
    while i < |preds|
      invariant 0 <= i <= |preds|
      invariant persons == PersonsOf(preds[..i])
    {
      persons := AppendPersons(persons, preds[i]);
      PersonsOfSnoc(preds, i);
      i := i + 1;
    }
    assert preds[..i] == preds;
  }

  /** The inner loop of `extract_persons`: walk `zip(display_names,
      confidences, bboxes)` of one prediction, appending each person entry. */
  method AppendPersons(persons: seq<Person>, p: Prediction) returns (r: seq<Person>)
    ensures r == persons + PersonsIn(Entries(p))
  {
    var names, scores, boxes := Names(p), Scores(p), Boxes(p);
    var n := Min3(|names|, |scores|, |boxes|);
    ghost var es := Entries(p);
    r := persons;
    var j := 0;
    while j < n
      invariant 0 <= j <= n
      invariant r == persons + PersonsIn(es[..j])
    {
      PersonsInSnoc(es, j);
      assert es[j] == Entry(names[j], scores[j], boxes[j]);
      if IsPersonLabel(names[j]) {
        r := r + [Person(boxes[j], scores[j])];
      }
      j := j + 1;
    }
    assert es[..n] == es;
  }

  /** One more entry visited by the inner loop. */
  lemma PersonsInSnoc(es: seq<Entry>, j: int)
    requires 0 <= j < |es|
    ensures PersonsIn(es[..j + 1])
            == PersonsIn(es[..j]) + (if IsPersonLabel(es[j].name) then [ToPerson(es[j])] else [])
  {
    assert es[..j + 1][..j] == es[..j];
  }

  /** One more prediction visited by the outer loop. */
  lemma PersonsOfSnoc(preds: seq<Prediction>, i: int)
    requires 0 <= i < |preds|
    ensures PersonsOf(preds[..i + 1]) == PersonsOf(preds[..i]) + PersonsIn(Entries(preds[i]))
  {
    assert preds[..i + 1][..i] == preds[..i];
  }

  /** Filtering entries commutes with concatenation: the order of the output
      follows the order of the entries. */
  lemma {:induction false} PersonsInAppend(a: seq<Entry>, b: seq<Entry>)
    ensures PersonsIn(a + b) == PersonsIn(a) + PersonsIn(b)
    decreases |b|
  {
    if b != [] {
      var b' := b[..|b| - 1];
      assert (a + b)[..|a + b| - 1] == a + b';
      PersonsInAppend(a, b');
    } else {
      assert a + b == a;
    }
  }

  /** The output for a concatenation of prediction lists is the concatenation of
      the outputs: predictions are processed in order. */
  lemma {:induction false} PersonsOfAppend(a: seq<Prediction>, b: seq<Prediction>)
    ensures PersonsOf(a + b) == PersonsOf(a) + PersonsOf(b)
    decreases |b|
  {
    if b != [] {
      var b' := b[..|b| - 1];
      assert (a + b)[..|a + b| - 1] == a + b';
      PersonsOfAppend(a, b');
    } else {
      assert a + b == a;
    }
  }

  /** Entry `j` of prediction `i` is labelled as a person. */
  predicate IsPersonEntry(preds: seq<Prediction>, i: int, j: int) {
    0 <= i < |preds| && 0 <= j < |Entries(preds[i])| && IsPersonLabel(Entries(preds[i])[j].name)
  }

  lemma {:induction false} PersonsInSound(es: seq<Entry>, x: Person)
    requires x in PersonsIn(es)
    ensures exists j :: 0 <= j < |es| && IsPersonLabel(es[j].name) && x == ToPerson(es[j])
    decreases |es|
  {
    var es' := es[..|es| - 1];
    if x in PersonsIn(es') {
      PersonsInSound(es', x);
      var j :| 0 <= j < |es'| && IsPersonLabel(es'[j].name) && x == ToPerson(es'[j]);
      assert es[j] == es'[j];
    } else {
      assert IsPersonLabel(es[|es| - 1].name) && x == ToPerson(es[|es| - 1]);
    }
  }

  /** Every person returned comes from an entry whose lower-cased name contains
      "person", and carries that entry's bbox and score. */
  lemma {:induction false} PersonsOfSound(preds: seq<Prediction>, x: Person)
    requires x in PersonsOf(preds)
    ensures exists i, j :: IsPersonEntry(preds, i, j) && x == ToPerson(Entries(preds[i])[j])
    decreases |preds|
  {
    var preds' := preds[..|preds| - 1];
    var i := |preds| - 1;
    if x in PersonsOf(preds') {
      PersonsOfSound(preds', x);
      var i', j :| IsPersonEntry(preds', i', j) && x == ToPerson(Entries(preds'[i'])[j]);
      assert preds[i'] == preds'[i'];
      assert IsPersonEntry(preds, i', j);
    } else {
      PersonsInSound(Entries(preds[i]), x);
      var j :| 0 <= j < |Entries(preds[i])| && IsPersonLabel(Entries(preds[i])[j].name)
               && x == ToPerson(Entries(preds[i])[j]);
      assert IsPersonEntry(preds, i, j);
    }
  }

  /** The output around one prediction `p`. */
  lemma PersonsOfAround(a: seq<Prediction>, p: Prediction, b: seq<Prediction>)
    ensures PersonsOf(a + [p] + b) == PersonsOf(a) + PersonsIn(Entries(p)) + PersonsOf(b)
  {
    PersonsOfAppend(a + [p], b);
    PersonsOfAppend(a, [p]);
    assert [p][..0] == [];
  }

  /** Every entry labelled as a person is kept from its own list. */
  lemma {:induction false} PersonsInComplete(es: seq<Entry>, j: int)
    requires 0 <= j < |es| && IsPersonLabel(es[j].name)
    ensures ToPerson(es[j]) in PersonsIn(es)
    decreases |es|
  {
    if j < |es| - 1 {
      var es' := es[..|es| - 1];
      assert es'[j] == es[j];
      PersonsInComplete(es', j);
    }
  }

  /** Every entry labelled as a person is returned. */
  lemma PersonsOfComplete(preds: seq<Prediction>, i: int, j: int)
    requires IsPersonEntry(preds, i, j)
    ensures ToPerson(Entries(preds[i])[j]) in PersonsOf(preds)
  {
    PersonsInComplete(Entries(preds[i]), j);
    assert preds == preds[..i] + [preds[i]] + preds[i + 1..];
    PersonsOfAround(preds[..i], preds[i], preds[i + 1..]);
  }

  /** The number of positions `zip` visits, over all predictions. */
  function EntryCount(preds: seq<Prediction>): nat {
    if preds == [] then 0 else EntryCount(preds[..|preds| - 1]) + |Entries(preds[|preds| - 1])|
  }

  /** Dropping a prediction that yields no person leaves the output unchanged. */
  lemma DropSilentPrediction(a: seq<Prediction>, p: Prediction, b: seq<Prediction>)
    requires PersonsIn(Entries(p)) == []
    ensures PersonsOf(a + [p] + b) == PersonsOf(a + b)
  {
    PersonsOfAround(a, p, b);
    PersonsOfAppend(a, b);
  }

  /** A prediction with a missing key contributes nothing: dropping it leaves
      the output unchanged. */
  lemma MissingKeyContributesNothing(preds: seq<Prediction>, i: int)
    requires 0 <= i < |preds|
    requires preds[i].displayNames.None? || preds[i].confidences.None? || preds[i].bboxes.None?
    ensures PersonsOf(preds) == PersonsOf(preds[..i] + preds[i + 1..])
  {
    var a, p, b := preds[..i], preds[i], preds[i + 1..];
    assert Entries(p) == [];
    assert preds == a + [p] + b;
    DropSilentPrediction(a, p, b);
  }

  function InsertAt<T>(xs: seq<T>, j: nat, x: T): seq<T>
    requires j <= |xs|
  {
    xs[..j] + [x] + xs[j..]
  }

  /** The prediction with one more detection `e`, placed at position `j` of all
      three lists. */
  function AddDetection(p: Prediction, j: nat, e: Entry): Prediction
    requires j <= |Entries(p)|
  {
    Prediction(Some(InsertAt(Names(p), j, e.name)),
               Some(InsertAt(Scores(p), j, e.score)),
               Some(InsertAt(Boxes(p), j, e.bbox)))
  }

  lemma EntriesAddDetection(p: Prediction, j: nat, e: Entry)
    requires j <= |Entries(p)|
    ensures Entries(AddDetection(p, j, e)) == InsertAt(Entries(p), j, e)
  {
    var es, es' := Entries(p), Entries(AddDetection(p, j, e));
    assert |es'| == |es| + 1;
    forall k | 0 <= k < |es'|
      ensures es'[k] == InsertAt(es, j, e)[k]
    {
      if k < j {
        assert es'[k] == es[k];
      } else if k > j {
        assert es'[k] == es[k - 1];
      }
    }
  }

  /** Replacing one prediction changes only its own share of the output. */
  lemma PersonsOfReplace(preds: seq<Prediction>, i: int, p': Prediction)
    requires 0 <= i < |preds|
    ensures PersonsOf(preds[i := p']) == PersonsOf(preds[..i]) + PersonsIn(Entries(p')) + PersonsOf(preds[i + 1..])
  {
    assert preds[i := p'] == preds[..i] + [p'] + preds[i + 1..];
    PersonsOfAround(preds[..i], p', preds[i + 1..]);
  }

  /** Inserting an entry whose name does not contain "person" adds nothing. */
  lemma {:induction false} NonPersonInsertIgnored(es: seq<Entry>, j: nat, e: Entry)
    requires j <= |es|
    requires !IsPersonLabel(e.name)
    ensures PersonsIn(InsertAt(es, j, e)) == PersonsIn(es)
    decreases |es|
  {
    var ins := InsertAt(es, j, e);
    if j == |es| {
      assert ins[..|ins| - 1] == es;
    } else {
      var es' := es[..|es| - 1];
      NonPersonInsertIgnored(es', j, e);
      assert ins[..|ins| - 1] == InsertAt(es', j, e);
      assert ins[|ins| - 1] == es[|es| - 1];
    }
  }

  /** Inserting an entry whose name contains "person" adds one person. */
  lemma {:induction false} PersonInsertCounted(es: seq<Entry>, j: nat, e: Entry)
    requires j <= |es|
    requires IsPersonLabel(e.name)
    ensures |PersonsIn(InsertAt(es, j, e))| == |PersonsIn(es)| + 1
    decreases |es|
  {
    var ins := InsertAt(es, j, e);
    if j == |es| {
      assert ins[..|ins| - 1] == es;
    } else {
      var es' := es[..|es| - 1];
      PersonInsertCounted(es', j, e);
      assert ins[..|ins| - 1] == InsertAt(es', j, e);
      assert ins[|ins| - 1] == es[|es| - 1];
    }
  }

  /** Adding a detection whose name does not contain "person" (in any letter
      case) leaves the output unchanged. */
  lemma NonPersonDetectionIgnored(preds: seq<Prediction>, i: int, j: nat, e: Entry)
    requires 0 <= i < |preds| && j <= |Entries(preds[i])|
    requires !IsPersonLabel(e.name)
    ensures PersonsOf(preds[i := AddDetection(preds[i], j, e)]) == PersonsOf(preds)
  {
    EntriesAddDetection(preds[i], j, e);
    NonPersonInsertIgnored(Entries(preds[i]), j, e);
    PersonsOfReplace(preds, i, AddDetection(preds[i], j, e));
    PersonsOfReplace(preds, i, preds[i]);
    assert preds[i := preds[i]] == preds;
  }

  /** Adding a person detection adds exactly one person, whatever its score:
      no confidence cutoff is applied. */
  lemma PersonDetectionCounted(preds: seq<Prediction>, i: int, j: nat, e: Entry)
    requires 0 <= i < |preds| && j <= |Entries(preds[i])|
    requires IsPersonLabel(e.name)
    ensures |PersonsOf(preds[i := AddDetection(preds[i], j, e)])| == |PersonsOf(preds)| + 1
  {
    EntriesAddDetection(preds[i], j, e);
    PersonInsertCounted(Entries(preds[i]), j, e);
    PersonsOfReplace(preds, i, AddDetection(preds[i], j, e));
    PersonsOfReplace(preds, i, preds[i]);
    assert preds[i := preds[i]] == preds;
  }

  // ------------------------------------------------------------------ density

  /** `count / ((w * h) / 10000.0 + 1e-6)`, in exact arithmetic: never
      negative, and zero exactly when the count is. */
  function Density(count: nat, w: nat, h: nat): (d: real)
    ensures d >= 0.0 && (d == 0.0 <==> count == 0)
  {
    var area := (w * h) as real / 10000.0 + 0.000001;
    var d := count as real / area;
    assert d * area == count as real;
    d
  }

  /** `compute_density`: the count is the number of persons; the density is
      non-negative and zero exactly when nobody was detected. */
  function ComputeDensity(persons: seq<Person>, w: nat, h: nat): (r: (nat, real))
    ensures r.0 == |persons|
    ensures r.1 >= 0.0 && (r.1 == 0.0 <==> persons == [])
  {
    (|persons|, Density(|persons|, w, h))
  }

  /** For a fixed frame size, more persons never means a lower density. */
  lemma DensityMonotoneInCount(c1: nat, c2: nat, w: nat, h: nat)
    requires c1 <= c2
    ensures Density(c1, w, h) <= Density(c2, w, h)
  {
    var d := (w * h) as real / 10000.0 + 0.000001;
    assert d > 0.0;
    assert c1 as real / d <= c2 as real / d;
  }

  /** For a fixed count, a larger frame never means a higher density. */
  lemma DensityAntitoneInArea(c: nat, w1: nat, h1: nat, w2: nat, h2: nat)
    requires w1 * h1 <= w2 * h2
    ensures Density(c, w2, h2) <= Density(c, w1, h1)
  {
    var d1 := (w1 * h1) as real / 10000.0 + 0.000001;
    var d2 := (w2 * h2) as real / 10000.0 + 0.000001;
    assert 0.0 < d1 <= d2;
    assert c as real / d2 <= c as real / d1;
  }

  // ------------------------------------------------------------- optical flow

  /** A decoded grayscale frame; only its shape matters to the pipeline. */
  datatype GrayFrame = GrayFrame(rows: nat, cols: nat, pixels: seq<bv8>)

  /** `prev.shape == curr.shape`. */
  predicate SameShape(a: GrayFrame, b: GrayFrame) {
    a.rows == b.rows && a.cols == b.cols
  }

  /** One call of `compute_optical_flow` on the baseline map `last`, given what
      decoding the bytes produced: the flow speed and the new map. `flow` is the
      mean Farneback magnitude between two frames of the same shape. */
  function FlowStep(last: map<string, GrayFrame>, cameraId: string, decoded: Option<GrayFrame>,
                    flow: (GrayFrame, GrayFrame) -> real): (r: (real, map<string, GrayFrame>))
    ensures decoded.None? ==> r == (0.0, last)
    ensures decoded.Some? ==> r.1 == last[cameraId := decoded.value]
    ensures decoded.Some? && (cameraId !in last || !SameShape(last[cameraId], decoded.value)) ==>
      r.0 == 0.0
    ensures decoded.Some? && cameraId in last && SameShape(last[cameraId], decoded.value) ==>
      r.0 == flow(last[cameraId], decoded.value)
    ensures forall c :: c != cameraId ==>
      (c in r.1 <==> c in last) && (c in last ==> r.1[c] == last[c])
  {
    match decoded
    case None => (0.0, last)
    case Some(curr) =>
      var avg := if cameraId in last && SameShape(last[cameraId], curr) then flow(last[cameraId], curr) else 0.0;
      (avg, last[cameraId := curr])
  }

  // ------------------------------------------------------------- metric docs

  /** A metric document; `lat` and `lon` are keys that may be absent. */
  datatype MetricDoc = MetricDoc(
    cameraId: string,
    zoneId: string,
    personCount: nat,
    density: real,
    speed: real,
    gcsUri: string,
    timestamp: string,
    lat: Option<real>,
    lon: Option<real>)

  /** The document `save_metrics` assembles; `timestamp` is the ISO time at
      which it is built. */
  function BuildMetricDoc(cameraId: string, zoneId: string, count: nat, density: real, avgFlow: real,
                          gcsUri: string, timestamp: string, lat: Option<real>, lon: Option<real>): (d: MetricDoc)
    ensures d.lat.Some? <==> Truthy(lat)
    ensures d.lon.Some? <==> Truthy(lon)
    ensures d.lat.Some? ==> d.lat == lat
    ensures d.lon.Some? ==> d.lon == lon
    ensures d.cameraId == cameraId && d.zoneId == zoneId && d.personCount == count
    ensures d.density == density && d.speed == avgFlow && d.gcsUri == gcsUri && d.timestamp == timestamp
  {
    MetricDoc(cameraId, zoneId, count, density, avgFlow, gcsUri, timestamp,
              if Truthy(lat) then lat else None,
              if Truthy(lon) then lon else None)
  }

  // ------------------------------------------------------------------- alerts

  datatype Alert = Alert(level: string, message: string)

  /** An alert document: the metric document's keys plus `alert` and `generated_at`. */
  datatype AlertDoc = AlertDoc(metric: MetricDoc, alert: Alert, generatedAt: string)

  const AlertMessagePrefix: string := "\U{26A0} High crowd density: "
  const AlertMessageSuffix: string := " people detected"

  /** The alert decision of `process_frame`: an alert of level "high" whose
      message states the count, exactly when the count reaches the threshold.
      Every qualifying frame alerts; there is no cooldown. */
  function AlertFor(count: nat, threshold: int): (r: Option<Alert>)
    ensures r.Some? <==> count >= threshold
    ensures r.Some? ==> r.value.level == "high" && Text.Contains(r.value.message, Text.Decimal(count))
  {
    if count >= threshold then
      Text.ContainsMiddle(AlertMessagePrefix, Text.Decimal(count), AlertMessageSuffix);
      Some(Alert("high", AlertMessagePrefix + Text.Decimal(count) + AlertMessageSuffix))
    else None
  }

  /** With the default threshold, 14 people raise no alert and 15 do. */
  lemma DefaultThresholdBoundary()
    ensures AlertFor(14, DefaultAlertThreshold).None?
    ensures AlertFor(15, DefaultAlertThreshold).Some?
  {
  }

  // ------------------------------------------------------------------- upload

  /** Python's `s[:n]`. */
  function Take(s: string, n: nat): (r: string)
    ensures |r| == if |s| <= n then |s| else n
  {
    if |s| <= n then s else s[..n]
  }

  /** The object name `upload_to_gcs` writes: `frames/<camera>/<seconds>_<hex8>.jpg`. */
  function FrameObjectName(cameraId: string, epochSeconds: nat, uuidHex: string): (name: string)
    ensures var dir := "frames/" + cameraId + "/";
      |name| >= |dir| + 6 && name[..|dir|] == dir && name[|name| - 4..] == ".jpg"
  {
    var dir := "frames/" + cameraId + "/";
    var stem := Text.Decimal(epochSeconds) + "_" + Take(uuidHex, 8);
    var name := dir + (stem + ".jpg");
    assert name[..|dir|] == dir && name[|name| - 4..] == ".jpg";
    name
  }

  /** The locator `upload_to_gcs` returns. */
  function GcsLocator(bucket: string, cameraId: string, epochSeconds: nat, uuidHex: string): (uri: string)
    ensures var root := "gs://" + bucket + "/" + "frames/" + cameraId + "/";
      |uri| >= |root| + 6 && uri[..|root|] == root && uri[|uri| - 4..] == ".jpg"
  {
    var host := "gs://" + bucket + "/";
    var name := FrameObjectName(cameraId, epochSeconds, uuidHex);
    var uri := host + name;
    assert uri[..|host| + |"frames/" + cameraId + "/"|] == host + name[..|"frames/" + cameraId + "/"|];
    assert uri[|uri| - 4..] == name[|name| - 4..];
    uri
  }

  /** The `<seconds>_<hex8>.jpg` tail determines its two parts. */
  lemma {:induction false} StampInjective(d1: string, x1: string, d2: string, x2: string)
    requires |x1| == 8 && |x2| == 8
    requires d1 + "_" + x1 + ".jpg" == d2 + "_" + x2 + ".jpg"
    ensures d1 == d2 && x1 == x2
  {
    var s1, s2 := d1 + "_" + x1 + ".jpg", d2 + "_" + x2 + ".jpg";
    assert |d1| == |d2|;
    assert d1 == s1[..|d1|] && d2 == s2[..|d2|];
    assert x1 == s1[|d1| + 1..|d1| + 9] && x2 == s2[|d2| + 1..|d2| + 9];
  }

  /** The locator split into its per-camera root and its `<seconds>_<hex8>.jpg` tail. */
  lemma LocatorParts(bucket: string, cameraId: string, t: nat, h: string)
    requires |h| >= 8
    ensures GcsLocator(bucket, cameraId, t, h)
            == ("gs://" + bucket + "/" + "frames/" + cameraId + "/") + (Text.Decimal(t) + "_" + h[..8] + ".jpg")
  {
    var host, dir := "gs://" + bucket + "/", "frames/" + cameraId + "/";
    var tail := Text.Decimal(t) + "_" + h[..8] + ".jpg";
    assert FrameObjectName(cameraId, t, h) == dir + tail;
    assert host + (dir + tail) == ("gs://" + bucket + "/" + "frames/" + cameraId + "/") + tail;
  }

  /** Two uploads for the same camera get the same locator exactly when they
      happen in the same second and draw the same first eight hex digits. */
  lemma LocatorUnique(bucket: string, cameraId: string, t1: nat, h1: string, t2: nat, h2: string)
    requires |h1| >= 8 && |h2| >= 8
    ensures GcsLocator(bucket, cameraId, t1, h1) == GcsLocator(bucket, cameraId, t2, h2)
            <==> t1 == t2 && h1[..8] == h2[..8]
  {
    var prefix := "gs://" + bucket + "/" + "frames/" + cameraId + "/";
    var d1, d2 := Text.Decimal(t1), Text.Decimal(t2);
    var s1 := d1 + "_" + h1[..8] + ".jpg";
    var s2 := d2 + "_" + h2[..8] + ".jpg";
    LocatorParts(bucket, cameraId, t1, h1);
    LocatorParts(bucket, cameraId, t2, h2);
    if prefix + s1 == prefix + s2 {
      assert s1 == s2 by {
        assert s1 == (prefix + s1)[|prefix|..] && s2 == (prefix + s2)[|prefix|..];
      }
      StampInjective(d1, h1[..8], d2, h2[..8]);
      Text.DecimalInjective(t1, t2);
    }
  }

  // ----------------------------------------------------------------- pipeline

  /** The collaborators of `process_frame`: the detector's predictions for a
      locator, the colour and grayscale decoders, and the flow magnitude. */
  datatype Services = Services(
    predict: string -> seq<Prediction>,
    decodeColor: Bytes -> Option<Dims>,
    decodeGray: Bytes -> Option<GrayFrame>,
    flow: (GrayFrame, GrayFrame) -> real)

  /** The values `process_frame` draws from the clock and from uuid4: the
      upload second, the hex uuid, and the two ISO timestamps. */
  datatype CallInputs = CallInputs(epochSeconds: nat, uuidHex: string, savedAt: string, alertAt: string)

  /** Why a frame was not processed: `cv2.imdecode` returned None, so reading
      its shape raised. */
  datatype Failure = UndecodableFrame

  /** `{"ok": True, "metric": doc, "alert": alert}`, or the exception raised. */
  datatype FrameOutcome = Processed(metric: MetricDoc, alert: Option<Alert>) | Raised(failure: Failure)

  /** The module-level state of Processing.py: the per-camera flow baselines
      `_last_frames` and the two Firestore collections, `camera_metrics` and
      `alerts`, which are only ever appended to. */
  class FramePipeline {
    const bucket: string
    const alertThreshold: int
    var lastFrames: map<string, GrayFrame>
    var metrics: seq<MetricDoc>
    var alerts: seq<AlertDoc>

    /** `alertThreshold` is ALERT_THRESHOLD: `DefaultAlertThreshold` unless the
        environment overrides it. */
    constructor (bucket: string, alertThreshold: int)
      ensures this.bucket == bucket && this.alertThreshold == alertThreshold
      ensures lastFrames == map[] && metrics == [] && alerts == []
    {
      this.bucket := bucket;
      this.alertThreshold := alertThreshold;
      lastFrames := map[];
      metrics := [];
      alerts := [];
    }

    /** `compute_optical_flow`: updates only the baseline map. */
    method ComputeOpticalFlow(cameraId: string, imageBytes: Bytes, decodeGray: Bytes -> Option<GrayFrame>,
                              flow: (GrayFrame, GrayFrame) -> real) returns (avgFlow: real)
      modifies this`lastFrames
      ensures (avgFlow, lastFrames) == FlowStep(old(lastFrames), cameraId, decodeGray(imageBytes), flow)
    {
      var curr := decodeGray(imageBytes);
      if curr.None? {
        return 0.0;
      }
      avgFlow := 0.0;
      if cameraId in lastFrames && SameShape(lastFrames[cameraId], curr.value) {
        avgFlow := flow(lastFrames[cameraId], curr.value);
      }
      lastFrames := lastFrames[cameraId := curr.value];
    }

    /** `save_metrics`: appends exactly one document to the metrics collection. */
    method SaveMetrics(cameraId: string, zoneId: string, count: nat, density: real, avgFlow: real,
                       gcsUri: string, timestamp: string, lat: Option<real>, lon: Option<real>)
      returns (doc: MetricDoc)
      modifies this`metrics
      ensures doc == BuildMetricDoc(cameraId, zoneId, count, density, avgFlow, gcsUri, timestamp, lat, lon)
      ensures metrics == old(metrics) + [doc]
    {
      doc := BuildMetricDoc(cameraId, zoneId, count, density, avgFlow, gcsUri, timestamp, lat, lon);
      metrics := metrics + [doc];
    }

    /** `process_frame`: upload, detect, count, flow, record, alert. When the
        frame cannot be decoded nothing is recorded and no baseline changes;
        otherwise one metric document is appended, and one alert document
        embedding it exactly when the count reaches the threshold. */
    method ProcessFrame(imageBytes: Bytes, cameraId: string, zoneId: string, lat: Option<real>, lon: Option<real>,
                        svc: Services, call: CallInputs) returns (r: FrameOutcome)
      modifies this`lastFrames, this`metrics, this`alerts
      ensures svc.decodeColor(imageBytes).None? ==>
        r == Raised(UndecodableFrame) &&
        lastFrames == old(lastFrames) && metrics == old(metrics) && alerts == old(alerts)
      ensures svc.decodeColor(imageBytes).Some? ==>
        var uri := GcsLocator(bucket, cameraId, call.epochSeconds, call.uuidHex);
        var count := |PersonsOf(svc.predict(uri))|;
        var dims := svc.decodeColor(imageBytes).value;
        var step := FlowStep(old(lastFrames), cameraId, svc.decodeGray(imageBytes), svc.flow);
        && r.Processed?
        && r.metric == BuildMetricDoc(cameraId, zoneId, count, Density(count, dims.width, dims.height),
                                      step.0, uri, call.savedAt, lat, lon)
        && r.alert == AlertFor(count, alertThreshold)
        && lastFrames == step.1
        && metrics == old(metrics) + [r.metric]
        && alerts == old(alerts) + (if r.alert.Some? then [AlertDoc(r.metric, r.alert.value, call.alertAt)] else [])
    {
      var gcsUri := GcsLocator(bucket, cameraId, call.epochSeconds, call.uuidHex);
      var persons := ExtractPersons(svc.predict(gcsUri));
      var img := svc.decodeColor(imageBytes);
      if img.None? {
        return Raised(UndecodableFrame);
      }
      var h, w := img.value.height, img.value.width;
      var (count, density) := ComputeDensity(persons, w, h);
      var avgFlow := ComputeOpticalFlow(cameraId, imageBytes, svc.decodeGray, svc.flow);
      var doc := SaveMetrics(cameraId, zoneId, count, density, avgFlow, gcsUri, call.savedAt, lat, lon);
      var alert := AlertFor(count, alertThreshold);
      if alert.Some? {
        alerts := alerts + [AlertDoc(doc, alert.value, call.alertAt)];
      }
      r := Processed(doc, alert);
    }
  }
}
