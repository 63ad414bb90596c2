/** The earlier Raspberry Pi pipeline: parse the network outputs into detections
    (keeping the previous ones when a frame has no outputs), clean the label list,
    pick each detection's label, and assemble the published payload. */
module RaspMain {
  import opened Common
  import Geometry
  import Imx = Imx500Detection

  /** Four box coordinates as the network emits them. */
  datatype Quad = Quad(c0: real, c1: real, c2: real, c3: real)

  /** Boxes, scores and classes of the default post-processing. */
  datatype NetworkOutputs = NetworkOutputs(boxes: seq<Quad>, scores: seq<real>, classes: seq<int>)

  /** The `--bbox-order` setting. */
  datatype BboxOrder = XY | YX

  /** A parsed detection: box in pixel coordinates, category and confidence. */
  datatype Detection = Detection(box: Quad, category: int, conf: real)

  // ---------------------------------------------------------------------------
  // parse_detections
  // ---------------------------------------------------------------------------

  /** The box as one row of the `boxes` array. */
  function Coords(q: Quad): (r: seq<real>)
    ensures |r| == 4
  {
    [q.c0, q.c1, q.c2, q.c3]
  }

  /** The column selection of `boxes[:, [1, 0, 3, 2]]`. */
  const SwapColumns: seq<nat> := [1, 0, 3, 2]

  /** `boxes[:, [1, 0, 3, 2]]` on one row: column k of the result is column
      `SwapColumns[k]` of the input, so each corner's two coordinates trade places. */
  function Swapped(q: Quad): (r: Quad)
    ensures Coords(r) == seq(4, k requires 0 <= k < 4 => Coords(q)[SwapColumns[k]])
  {
    var r := Quad(q.c1, q.c0, q.c3, q.c2);
    assert Coords(r) == [Coords(q)[1], Coords(q)[0], Coords(q)[3], Coords(q)[2]];
    r
  }

  /** The reorder undoes itself. */
  lemma SwappedTwice(q: Quad)
    ensures Swapped(Swapped(q)) == q
  {
  }

  /** The box as it enters the detection: swapped only for `--bbox-order xy`. */
  function Oriented(q: Quad, order: BboxOrder): (r: Quad)
    ensures order == YX ==> r == q
    ensures order == XY ==> Swapped(r) == q
  {
    if order == XY then Swapped(q) else q
  }

  /** `zip(boxes, scores, classes)` stops at the shortest of the three. */
  function ZipLength(o: NetworkOutputs): (n: nat)
    ensures n <= |o.boxes| && n <= |o.scores| && n <= |o.classes|
    ensures n == |o.boxes| || n == |o.scores| || n == |o.classes|
  {
    var m := if |o.boxes| <= |o.scores| then |o.boxes| else |o.scores|;
    if m <= |o.classes| then m else |o.classes|
  }

  /** The detection built from row `i`; `convert` stands for the camera's mapping of
      inference coordinates to pixel coordinates. */
  function RowDetection(o: NetworkOutputs, i: nat, order: BboxOrder, convert: Quad -> Quad): Detection
    requires i < ZipLength(o)
  {
    Detection(convert(Oriented(o.boxes[i], order)), o.classes[i], o.scores[i])
  }

  /** Every zipped row as a detection, in output order. */
  function AllRows(o: NetworkOutputs, order: BboxOrder, convert: Quad -> Quad): (r: seq<Detection>)
    ensures |r| == ZipLength(o)
  {
    seq(ZipLength(o), i requires 0 <= i < ZipLength(o) => RowDetection(o, i, order, convert))
  }

  /** The comprehension over the first `n` zipped rows, keeping scores strictly above the threshold. */
  function ParsedPrefix(o: NetworkOutputs, n: nat, order: BboxOrder, threshold: real, convert: Quad -> Quad)
    : (r: seq<Detection>)
    requires n <= ZipLength(o)
    ensures |r| <= n
    ensures forall d :: d in r ==> d.conf > threshold
  {
    if n == 0 then []
    else
      var rest := ParsedPrefix(o, n - 1, order, threshold, convert);
      if o.scores[n - 1] > threshold then rest + [RowDetection(o, n - 1, order, convert)] else rest
  }

  /** The detections parsed from one frame's outputs. */
  function Parsed(o: NetworkOutputs, order: BboxOrder, threshold: real, convert: Quad -> Quad)
    : (r: seq<Detection>)
    ensures |r| <= ZipLength(o)
    ensures forall d :: d in r ==> d.conf > threshold
  {
    ParsedPrefix(o, ZipLength(o), order, threshold, convert)
  }

  /** A detection is parsed exactly when it comes from a zipped row whose score is
      strictly greater than the threshold; a score equal to the threshold is dropped. */
  lemma {:induction false} ParsedPrefixExactly(o: NetworkOutputs, n: nat, order: BboxOrder, threshold: real,
                                               convert: Quad -> Quad, d: Detection)
    requires n <= ZipLength(o)
    ensures d in ParsedPrefix(o, n, order, threshold, convert) <==>
            exists i :: 0 <= i < n && o.scores[i] > threshold && d == RowDetection(o, i, order, convert)
  {
    if n > 0 {
      ParsedPrefixExactly(o, n - 1, order, threshold, convert, d);
    }
  }

  /** The parsed detections keep the output order. */
  lemma {:induction false} ParsedPrefixInOrder(o: NetworkOutputs, n: nat, order: BboxOrder, threshold: real,
                                               convert: Quad -> Quad)
    requires n <= ZipLength(o)
    ensures IsSubsequence(ParsedPrefix(o, n, order, threshold, convert), AllRows(o, order, convert)[..n])
  {
    if n > 0 {
      var rows := AllRows(o, order, convert);
      ParsedPrefixInOrder(o, n - 1, order, threshold, convert);
      assert rows[..n] == rows[..n - 1] + [RowDetection(o, n - 1, order, convert)];
      var rest := ParsedPrefix(o, n - 1, order, threshold, convert);
      if o.scores[n - 1] > threshold {
        SubsequenceExtend(rest, rows[..n - 1], RowDetection(o, n - 1, order, convert));
      } else {
        SubsequenceWeaken(rest, rows[..n - 1], RowDetection(o, n - 1, order, convert));
      }
    }
  }

  /** How many of `scores` are strictly above the threshold. */
  function CountAbove(scores: seq<real>, threshold: real): (c: nat)
    ensures c <= |scores|
  {
    if scores == [] then 0
    else CountAbove(scores[..|scores| - 1], threshold) + (if scores[|scores| - 1] > threshold then 1 else 0)
  }

  /** Every qualifying row is kept, duplicates included: the parsed list is exactly as
      long as the number of rows scoring above the threshold. With `ParsedPrefixInOrder`
      this fixes the result, since a subsequence of the rows of that length made of
      qualifying rows can only be all of them. */
  lemma {:induction false} ParsedPrefixCounts(o: NetworkOutputs, n: nat, order: BboxOrder, threshold: real,
                                              convert: Quad -> Quad)
    requires n <= ZipLength(o)
    ensures |ParsedPrefix(o, n, order, threshold, convert)| == CountAbove(o.scores[..n], threshold)
  {
    if n > 0 {
      ParsedPrefixCounts(o, n - 1, order, threshold, convert);
      assert o.scores[..n][..n - 1] == o.scores[..n - 1];
    }
  }

  /** The three facts for the whole frame. */
  lemma ParsedSpec(o: NetworkOutputs, order: BboxOrder, threshold: real, convert: Quad -> Quad, d: Detection)
    ensures d in Parsed(o, order, threshold, convert) <==>
            exists i :: 0 <= i < ZipLength(o) && o.scores[i] > threshold && d == RowDetection(o, i, order, convert)
    ensures IsSubsequence(Parsed(o, order, threshold, convert), AllRows(o, order, convert))
    ensures |Parsed(o, order, threshold, convert)| == CountAbove(o.scores[..ZipLength(o)], threshold)
  {
    ParsedPrefixExactly(o, ZipLength(o), order, threshold, convert, d);
    ParsedPrefixInOrder(o, ZipLength(o), order, threshold, convert);
    ParsedPrefixCounts(o, ZipLength(o), order, threshold, convert);
    assert AllRows(o, order, convert)[..ZipLength(o)] == AllRows(o, order, convert);
  }

  /** The two pipelines disagree at the threshold itself: a row scoring exactly the
      threshold is dropped here (strict comparison) and kept by the IMX500 publisher. */
  lemma ThresholdBoundaryDiffers(t: real)
    ensures Parsed(NetworkOutputs([Quad(0.0, 0.0, 1.0, 1.0)], [t], [0]), YX, t, q => q) == []
    ensures |Imx.Filtered([Imx.RawDetection(Geometry.Xywh(0.0, 0.0, 1.0, 1.0), t, 0)], t)| == 1
  {
  }

  // ---------------------------------------------------------------------------
  // get_labels and the label lookup of draw_detections
  // ---------------------------------------------------------------------------

  /** A label is kept by `--ignore-dash-labels` when it is non-empty and not "-". */
  predicate Meaningful(text: string)
  {
    text != "" && text != "-"
  }

  /** `[label for label in labels if label and label != "-"]`. */
  function DashFree(labels: seq<string>): (r: seq<string>)
    ensures |r| <= |labels|
    ensures forall l :: l in r ==> Meaningful(l)
  {
    if labels == [] then []
    else
      var rest := DashFree(labels[..|labels| - 1]);
      var last := labels[|labels| - 1];
      if Meaningful(last) then rest + [last] else rest
  }

  /** The label list, cleaned only when dash labels are to be ignored. */
  function GetLabels(labels: seq<string>, ignoreDash: bool): (r: seq<string>)
    ensures |r| <= |labels|
    ensures !ignoreDash ==> r == labels
    ensures ignoreDash ==> forall l :: l in r ==> Meaningful(l)
  {
    if ignoreDash then DashFree(labels) else labels
  }

  /** The cleaned list holds exactly the meaningful labels, in order; without the
      option the list is returned unchanged. */
  lemma {:induction false} GetLabelsSpec(labels: seq<string>, ignoreDash: bool, l: string)
    ensures !ignoreDash ==> GetLabels(labels, ignoreDash) == labels
    ensures ignoreDash ==> (l in GetLabels(labels, ignoreDash) <==> l in labels && Meaningful(l))
    ensures IsSubsequence(GetLabels(labels, ignoreDash), labels)
    ensures ignoreDash ==>
              multiset(GetLabels(labels, ignoreDash))[l] == if Meaningful(l) then multiset(labels)[l] else 0
  {
    if ignoreDash {
      DashFreeSpec(labels, l);
    } else {
      SubsequenceReflexive(labels);
    }
  }

  /** Cleaning keeps exactly the meaningful labels, each as often as it occurs, in order. */
  lemma {:induction false} DashFreeSpec(labels: seq<string>, l: string)
    ensures l in DashFree(labels) <==> l in labels && Meaningful(l)
    ensures IsSubsequence(DashFree(labels), labels)
    ensures multiset(DashFree(labels))[l] == if Meaningful(l) then multiset(labels)[l] else 0
  {
    DashFreeCounts(labels, l);
    if labels != [] {
      var init, last := labels[..|labels| - 1], labels[|labels| - 1];
      DashFreeSpec(init, l);
      assert labels == init + [last];
      if Meaningful(last) {
        SubsequenceExtend(DashFree(init), init, last);
      } else {
        SubsequenceWeaken(DashFree(init), init, last);
      }
    }
  }

  lemma {:induction false} DashFreeCounts(labels: seq<string>, l: string)
    ensures multiset(DashFree(labels))[l] == if Meaningful(l) then multiset(labels)[l] else 0
  {
    if labels != [] {
      var init, last := labels[..|labels| - 1], labels[|labels| - 1];
      DashFreeCounts(init, l);
      assert labels == init + [last];
      assert multiset(labels) == multiset(init) + multiset{last};
      if Meaningful(last) {
        assert multiset(DashFree(labels)) == multiset(DashFree(init)) + multiset{last};
      }
    }
  }

  lemma {:induction false} SubsequenceReflexive<T>(s: seq<T>)
    ensures IsSubsequence(s, s)
  {
    if s != [] {
      SubsequenceReflexive(s[..|s| - 1]);
    }
  }

  /** Cleaning an already cleaned list changes nothing. */
  lemma {:induction false} DashFreeIdempotent(labels: seq<string>)
    ensures DashFree(DashFree(labels)) == DashFree(labels)
  {
    if labels != [] {
      var init, last := labels[..|labels| - 1], labels[|labels| - 1];
      DashFreeIdempotent(init);
      if Meaningful(last) {
        var r := DashFree(init) + [last];
        assert r[..|r| - 1] == DashFree(init);
      }
    }
  }

  /** Every character is a decimal digit. */
  predicate AllDigits(s: string)
  {
    forall k :: 0 <= k < |s| ==> '0' <= s[k] <= '9'
  }

  /** The decimal digits of `n`, most significant first, without leading zeros:
      only 0 itself starts with '0'. */
  function DecimalDigits(n: nat): (s: string)
    ensures |s| >= 1
    ensures AllDigits(s)
    ensures s[0] == '0' <==> n == 0
    ensures |s| > 1 ==> s[0] != '0'
  {
    if n < 10 then [Digit(n)]
    else DecimalDigits(n / 10) + [Digit(n % 10)]
  }

  /** The character of a decimal digit value. */
  function Digit(v: nat): (c: char)
    requires v < 10
    ensures '0' <= c <= '9' && c as int - '0' as int == v
  {
    ('0' as int + v) as char
  }

  /** Python's `str(i)` for an integer: a minus sign exactly for negative `i`, then
      the digits of its magnitude, which read back as that magnitude. */
  function IntToString(i: int): (r: string)
    ensures |r| >= 1
    ensures r[0] == '-' <==> i < 0
    ensures i >= 0 ==> r == DecimalDigits(i)
    ensures i < 0 ==> r[1..] == DecimalDigits(-i)
  {
    if i < 0 then "-" + DecimalDigits(-i) else DecimalDigits(i)
  }

  /** The number a string of decimal digits denotes. */
  function DigitsValue(s: string): nat
    requires AllDigits(s)
  {
    if s == [] then 0
    else DigitsValue(s[..|s| - 1]) * 10 + (s[|s| - 1] as int - '0' as int)
  }

  /** Reading back the digits gives the number. */
  lemma {:induction false} DecimalDigitsValue(n: nat)
    ensures DigitsValue(DecimalDigits(n)) == n
  {
    var s := DecimalDigits(n);
    if n < 10 {
      assert s[..0] == [];
    } else {
      DecimalDigitsValue(n / 10);
      assert s[..|s| - 1] == DecimalDigits(n / 10);
    }
  }

  /** The text drawn for a category index: its label when the index is in range,
      otherwise "Label" followed by the index. */
  function LabelText(labels: seq<string>, catIdx: int): (r: string)
    ensures 0 <= catIdx < |labels| ==> r in labels
    ensures !(0 <= catIdx < |labels|) ==> |r| > 5 && r[..5] == "Label"
  {
    if 0 <= catIdx < |labels| then labels[catIdx] else "Label" + IntToString(catIdx)
  }

  /** In range the lookup yields `labels[i]`. */
  lemma LabelTextSpec(labels: seq<string>, catIdx: int)
    requires 0 <= catIdx < |labels|
    ensures LabelText(labels, catIdx) == labels[catIdx]
  {
  }

  /** Outside the label list the text is "Label" followed by the decimal index. */
  lemma LabelTextFallback(labels: seq<string>, catIdx: nat)
    requires catIdx >= |labels|
    ensures LabelText(labels, catIdx) == "Label" + DecimalDigits(catIdx)
    ensures LabelText(labels, catIdx)[..5] == "Label"
    ensures DigitsValue(LabelText(labels, catIdx)[5..]) == catIdx
  {
    DecimalDigitsValue(catIdx);
    SplitConcat("Label", DecimalDigits(catIdx));
  }

  /** A negative index -m also falls back, with a minus sign before the digits of m. */
  lemma LabelTextNegative(labels: seq<string>, m: nat)
    requires m > 0
    ensures LabelText(labels, -(m as int)) == "Label-" + DecimalDigits(m)
    ensures LabelText(labels, -(m as int))[..6] == "Label-"
    ensures DigitsValue(LabelText(labels, -(m as int))[6..]) == m
  {
    var digits := DecimalDigits(m);
    NegativeLabelText(labels, m);
    DecimalDigitsValue(m);
    SplitConcat("Label-", digits);
  }

  lemma NegativeLabelText(labels: seq<string>, m: nat)
    requires m > 0
    ensures LabelText(labels, -(m as int)) == "Label-" + DecimalDigits(m)
  {
    var digits := DecimalDigits(m);
    assert IntToString(-(m as int)) == "-" + digits;
    assert "Label" + ("-" + digits) == "Label-" + digits;
  }

  lemma SplitConcat(p: string, d: string)
    ensures (p + d)[..|p|] == p && (p + d)[|p|..] == d
  {
  }

  /** What draw_detections puts on the preview for one detection: its box
      (x, y, w, h) and its label text (the confidence suffix is not modelled). */
  datatype Annotation = Annotation(box: Quad, text: string)

  /** draw_detections: nothing for an empty list, otherwise one annotation per detection. */
  method DrawDetections(lastResults: seq<Detection>, labels: seq<string>, ignoreDash: bool)
    returns (drawn: seq<Annotation>)
    ensures |drawn| == |lastResults|
    ensures forall i :: 0 <= i < |drawn| ==>
              drawn[i].box == lastResults[i].box &&
              drawn[i].text == LabelText(GetLabels(labels, ignoreDash), lastResults[i].category)
  {
    if lastResults == [] {
      return [];
    }
    var lbls := GetLabels(labels, ignoreDash);
    drawn := [];
    for i := 0 to |lastResults|
      invariant |drawn| == i
      invariant forall k :: 0 <= k < i ==>
                  drawn[k].box == lastResults[k].box && drawn[k].text == LabelText(lbls, lastResults[k].category)
    {
      var detection := lastResults[i];
      var catIdx := detection.category;
      var labelStr;
      if 0 <= catIdx < |lbls| {
        labelStr := lbls[catIdx];
      } else {
        labelStr := "Label" + IntToString(catIdx);
      }
      drawn := drawn + [Annotation(detection.box, labelStr)];
    }
  }

  // ---------------------------------------------------------------------------
  // Payload assembled in main
  // ---------------------------------------------------------------------------

  /** One element of `detections_info`. */
  datatype DetectionInfo = DetectionInfo(category: int, confidence: real, box: Quad)

  /** The published JSON object. */
  datatype Payload = Payload(numDetections: int, detections: seq<DetectionInfo>)

  function InfoOf(d: Detection): DetectionInfo
  {
    DetectionInfo(d.category, d.conf, d.box)
  }

  /** The payload for a list of detections. */
  function PayloadOf(dets: seq<Detection>): (p: Payload)
    ensures p.numDetections == |p.detections| == |dets|
    ensures forall i :: 0 <= i < |dets| ==>
              p.detections[i].category == dets[i].category && p.detections[i].confidence == dets[i].conf &&
              p.detections[i].box == dets[i].box
  {
    Payload(|dets|, seq(|dets|, i requires 0 <= i < |dets| => InfoOf(dets[i])))
  }

  /** The append loop that builds `detections_info`, then the payload object. */
  method BuildPayload(dets: seq<Detection>) returns (p: Payload)
    ensures p == PayloadOf(dets)
    ensures p.numDetections == |p.detections| == |dets|
    ensures forall i :: 0 <= i < |dets| ==> p.detections[i] == InfoOf(dets[i])
  {
    var detectionsInfo: seq<DetectionInfo> := [];
    for i := 0 to |dets|
      invariant detectionsInfo == seq(i, k requires 0 <= k < i => InfoOf(dets[k]))
    {
      var d := dets[i];
      detectionsInfo := detectionsInfo + [DetectionInfo(d.category, d.conf, d.box)];
    }
    p := Payload(|detectionsInfo|, detectionsInfo);
  }

  // ---------------------------------------------------------------------------
  // The global last_detections and the main loop
  // ---------------------------------------------------------------------------

  /** The module state of the script: the global `last_detections`, the settings it
      runs with, and the log of payloads handed to the MQTT client. */
  class Detector {
    var lastDetections: seq<Detection>
    var published: seq<Payload>
    const bboxOrder: BboxOrder
    const threshold: real
    /** Whether the MQTT connection at start-up succeeded (`mqtt_client` is not None). */
    const mqttConnected: bool

    constructor (bboxOrder: BboxOrder, threshold: real, mqttConnected: bool)
      ensures lastDetections == [] && published == []
      ensures this.bboxOrder == bboxOrder && this.threshold == threshold
      ensures this.mqttConnected == mqttConnected
    {
      this.bboxOrder := bboxOrder;
      this.threshold := threshold;
      this.mqttConnected := mqttConnected;
      lastDetections := [];
      published := [];
    }

    /** parse_detections: no outputs returns (and keeps) the previous detections;
        otherwise the parsed ones replace them. */
    method ParseDetections(outputs: Option<NetworkOutputs>, convert: Quad -> Quad)
      returns (r: seq<Detection>)
      modifies this`lastDetections
      ensures r == lastDetections
      ensures outputs.None? ==> lastDetections == old(lastDetections)
      ensures outputs.Some? ==> lastDetections == Parsed(outputs.value, bboxOrder, threshold, convert)
    {
      if outputs.None? {
        return lastDetections;
      }
      lastDetections := Parsed(outputs.value, bboxOrder, threshold, convert);
      r := lastDetections;
    }

    /** One iteration of the main loop: parse, and publish when there is something to
        report and the MQTT client exists. A frame without outputs therefore
        publishes the previous detections again. */
    method MainStep(outputs: Option<NetworkOutputs>, convert: Quad -> Quad)
      modifies this`lastDetections, this`published
      ensures outputs.None? ==> lastDetections == old(lastDetections)
      ensures outputs.Some? ==> lastDetections == Parsed(outputs.value, bboxOrder, threshold, convert)
      ensures published == old(published) +
                (if lastDetections != [] && mqttConnected then [PayloadOf(lastDetections)] else [])
    {
      lastDetections := ParseDetections(outputs, convert);
      if lastDetections != [] {
        var payload := BuildPayload(lastDetections);
        if mqttConnected {
          published := published + [payload];
        }
      }
    }
  }
}
