/** The per-frame de-duplication step of the IMX500 publisher: filter the sensor's
    raw detections by score, sort them by score, truncate, decide which ones are new
    with respect to the objects seen in the previous frame, refresh that set, and
    build the payload that is published when something is new. */
module Imx500Detection {
  import opened Common
  import opened Geometry

  /** One row of the sensor output: box as (x, y, w, h), score and class. */
  datatype RawDetection = RawDetection(box: Xywh, score: real, cls: int)

  /** A candidate detection, box in corner form. */
  datatype Detection = Detection(cls: int, box: Box, score: real)

  /** An object remembered from the previous frame (a detection without its score). */
  datatype ActiveObject = ActiveObject(cls: int, box: Box)

  /** One element of the published `detections` list; the bbox is (x, y, w, h). */
  datatype PayloadEntry = PayloadEntry(cls: int, score: real, bbox: Xywh)

  /** Command-line settings: `--threshold`, `--max-boxes`, `--iou-threshold`. */
  datatype Config = Config(threshold: real, maxBoxes: int, iouThreshold: real)

  /** The candidate built from a raw row: corners (x1, y1, x1 + w, y1 + h). */
  function Converted(r: RawDetection): Detection
  {
    Detection(r.cls, CornersOf(r.box), r.score)
  }

  /** Every raw row converted, in output order. */
  function AllConverted(raw: seq<RawDetection>): (r: seq<Detection>)
    ensures |r| == |raw|
  {
    seq(|raw|, i requires 0 <= i < |raw| => Converted(raw[i]))
  }

  // ---------------------------------------------------------------------------
  // Filtering by score
  // ---------------------------------------------------------------------------

  /** The rows whose score is not below the threshold, converted, in output order. */
  function Filtered(raw: seq<RawDetection>, threshold: real): (r: seq<Detection>)
    ensures |r| <= |raw|
    ensures forall d :: d in r ==> d.score >= threshold
  {
    if raw == [] then []
    else
      var rest := Filtered(raw[..|raw| - 1], threshold);
      var last := raw[|raw| - 1];
      if last.score < threshold then rest else rest + [Converted(last)]
  }

  /** The append loop that builds `dets`. */
  method FilterDetections(raw: seq<RawDetection>, threshold: real) returns (dets: seq<Detection>)
    ensures dets == Filtered(raw, threshold)
  {
    dets := [];
    for i := 0 to |raw|
      invariant dets == Filtered(raw[..i], threshold)
    {
      assert raw[..i + 1][..i] == raw[..i];
      var r := raw[i];
      if r.score < threshold {
        continue;
      }
      var x2, y2 := r.box.x + r.box.w, r.box.y + r.box.h;
      dets := dets + [Detection(r.cls, Box(r.box.x, r.box.y, x2, y2), r.score)];
    }
    assert raw[..|raw|] == raw;
  }

  /** A candidate is kept exactly when it is the conversion of a row scoring at least the threshold. */
  lemma {:induction false} FilteredExactly(raw: seq<RawDetection>, threshold: real, d: Detection)
    ensures d in Filtered(raw, threshold) <==>
            exists i :: 0 <= i < |raw| && raw[i].score >= threshold && d == Converted(raw[i])
  {
    if raw != [] {
      var init := raw[..|raw| - 1];
      FilteredExactly(init, threshold, d);
      if d in Filtered(init, threshold) {
        var i :| 0 <= i < |init| && init[i].score >= threshold && d == Converted(init[i]);
        assert raw[i] == init[i];
      }
      if exists i :: 0 <= i < |raw| && raw[i].score >= threshold && d == Converted(raw[i]) {
        var i :| 0 <= i < |raw| && raw[i].score >= threshold && d == Converted(raw[i]);
        if i < |init| {
          assert init[i] == raw[i];
        }
      }
    }
  }

  /** The kept candidates appear in the order of the sensor output. */
  lemma {:induction false} FilteredInOrder(raw: seq<RawDetection>, threshold: real)
    ensures IsSubsequence(Filtered(raw, threshold), AllConverted(raw))
  {
    if raw != [] {
      var init := raw[..|raw| - 1];
      var last := raw[|raw| - 1];
      FilteredInOrder(init, threshold);
      assert AllConverted(raw) == AllConverted(init) + [Converted(last)];
      if last.score < threshold {
        SubsequenceWeaken(Filtered(init, threshold), AllConverted(init), Converted(last));
      } else {
        SubsequenceExtend(Filtered(init, threshold), AllConverted(init), Converted(last));
      }
    }
  }

  /** Filtering never merges duplicates: a candidate occurs as often as among the
      converted rows when its score reaches the threshold, and not at all otherwise. */
  lemma {:induction false} FilteredCounts(raw: seq<RawDetection>, threshold: real, d: Detection)
    ensures multiset(Filtered(raw, threshold))[d] ==
            if d.score >= threshold then multiset(AllConverted(raw))[d] else 0
  {
    if raw != [] {
      var init := raw[..|raw| - 1];
      FilteredCounts(init, threshold, d);
      assert AllConverted(raw) == AllConverted(init) + [Converted(raw[|raw| - 1])];
    }
  }

  /** Raising the threshold only removes candidates: the stricter result is a
      subsequence of the looser one, hence never longer. */
  lemma {:induction false} FilteredMonotone(raw: seq<RawDetection>, low: real, high: real)
    requires low <= high
    ensures IsSubsequence(Filtered(raw, high), Filtered(raw, low))
    ensures |Filtered(raw, high)| <= |Filtered(raw, low)|
  {
    if raw != [] {
      var init := raw[..|raw| - 1];
      var last := raw[|raw| - 1];
      FilteredMonotone(init, low, high);
      if last.score < low {
      } else if last.score < high {
        SubsequenceWeaken(Filtered(init, high), Filtered(init, low), Converted(last));
      } else {
        SubsequenceExtend(Filtered(init, high), Filtered(init, low), Converted(last));
      }
    }
    SubsequenceLength(Filtered(raw, high), Filtered(raw, low));
  }

  // ---------------------------------------------------------------------------
  // Sorting by score, descending and stable
  // ---------------------------------------------------------------------------

  /** Inserts `d` in front of the first element whose score does not exceed its own,
      so that it stays ahead of later equal-score elements. */
  function InsertByScore(d: Detection, s: seq<Detection>): (r: seq<Detection>)
    ensures multiset(r) == multiset(s) + multiset{d}
  {
    if s == [] then [d]
    else if d.score >= s[0].score then [d] + s
    else
      assert s == [s[0]] + s[1..];
      [s[0]] + InsertByScore(d, s[1..])
  }

  /** `dets.sort(key=score, reverse=True)`: a stable sort by descending score. */
  function SortByScore(s: seq<Detection>): (r: seq<Detection>)
    ensures multiset(r) == multiset(s)
    ensures |r| == |s|
  {
    if s == [] then []
    else
      assert s == [s[0]] + s[1..];
      InsertByScore(s[0], SortByScore(s[1..]))
  }

  /** Scores never increase along the sequence. */
  ghost predicate NonIncreasing(s: seq<Detection>)
  {
    forall i, j :: 0 <= i < j < |s| ==> s[i].score >= s[j].score
  }

  /** The elements of `s` whose score is `v`, in order. Two sequences with the same
      `WithScore` for every `v` order equal-score elements the same way. */
  ghost function WithScore(s: seq<Detection>, v: real): seq<Detection>
  {
    if s == [] then []
    else if s[0].score == v then [s[0]] + WithScore(s[1..], v)
    else WithScore(s[1..], v)
  }

  lemma {:induction false} InsertKeepsOrder(d: Detection, s: seq<Detection>)
    requires NonIncreasing(s)
    ensures NonIncreasing(InsertByScore(d, s))
  {
    if s != [] && d.score < s[0].score {
      InsertKeepsOrder(d, s[1..]);
      var r := InsertByScore(d, s);
      var tail := InsertByScore(d, s[1..]);
      assert r == [s[0]] + tail;
      forall k | 0 <= k < |tail|
        ensures s[0].score >= tail[k].score
      {
        assert tail[k] in multiset(tail);
        assert tail[k] == d || tail[k] in multiset(s[1..]);
        if tail[k] != d {
          var m :| 0 <= m < |s[1..]| && s[1..][m] == tail[k];
          assert s[m + 1] == tail[k];
        }
      }
      forall i, j | 0 <= i < j < |r|
        ensures r[i].score >= r[j].score
      {
        assert r[j] == tail[j - 1];
        if i > 0 {
          assert r[i] == tail[i - 1];
        }
      }
    }
  }

  lemma {:induction false} InsertKeepsTies(d: Detection, s: seq<Detection>, v: real)
    ensures WithScore(InsertByScore(d, s), v) ==
            (if d.score == v then [d] else []) + WithScore(s, v)
  {
    if s == [] {
      assert WithScore([d], v) == (if d.score == v then [d] else []) + WithScore([], v);
    } else if d.score >= s[0].score {
      assert ([d] + s)[1..] == s;
    } else {
      InsertKeepsTies(d, s[1..], v);
      assert ([s[0]] + InsertByScore(d, s[1..]))[1..] == InsertByScore(d, s[1..]);
    }
  }

  /** The sorted sequence has non-increasing scores. */
  lemma {:induction false} SortByScoreOrdered(s: seq<Detection>)
    ensures NonIncreasing(SortByScore(s))
  {
    if s != [] {
      SortByScoreOrdered(s[1..]);
      InsertKeepsOrder(s[0], SortByScore(s[1..]));
    }
  }

  /** Stability: for every score, equal-score elements keep their original relative order. */
  lemma {:induction false} SortByScoreStable(s: seq<Detection>, v: real)
    ensures WithScore(SortByScore(s), v) == WithScore(s, v)
  {
    if s != [] {
      SortByScoreStable(s[1..], v);
      InsertKeepsTies(s[0], SortByScore(s[1..]), v);
    }
  }

  lemma {:induction false} WithScoreMembers(s: seq<Detection>, v: real, x: Detection)
    ensures x in WithScore(s, v) <==> x in s && x.score == v
  {
    if s != [] {
      WithScoreMembers(s[1..], v, x);
      assert s == [s[0]] + s[1..];
    }
  }

  /** Sortedness and stability determine the result: any non-increasing arrangement
      that orders every group of equal scores like the input is SortByScore's. */
  lemma {:induction false} SortedStableUnique(t: seq<Detection>, u: seq<Detection>)
    requires |t| == |u|
    requires NonIncreasing(t) && NonIncreasing(u)
    requires forall v :: WithScore(t, v) == WithScore(u, v)
    ensures t == u
  {
    if t != [] {
      var m, n := t[0].score, u[0].score;
      // the highest score of each is reached by the other
      WithScoreMembers(u, m, t[0]);
      assert WithScore(t, m)[0] == t[0];
      assert WithScore(u, m) != [];
      var x := WithScore(u, m)[0];
      WithScoreMembers(u, m, x);
      assert n >= m;
      WithScoreMembers(t, n, u[0]);
      assert WithScore(u, n)[0] == u[0];
      var y := WithScore(t, n)[0];
      WithScoreMembers(t, n, y);
      assert m >= n;
      assert t[0] == u[0];
      forall v
        ensures WithScore(t[1..], v) == WithScore(u[1..], v)
      {
        assert WithScore(t, v) == WithScore(u, v);
        if m == v {
          assert WithScore(t[1..], v) == WithScore(t, v)[1..];
          assert WithScore(u[1..], v) == WithScore(u, v)[1..];
        } else {
          assert WithScore(t[1..], v) == WithScore(t, v);
          assert WithScore(u[1..], v) == WithScore(u, v);
        }
      }
      SortedStableUnique(t[1..], u[1..]);
      assert t == [t[0]] + t[1..];
      assert u == [u[0]] + u[1..];
    }
  }

  /** SortByScore is the stable descending sort: ordered, a permutation, stable,
      and the only arrangement with those properties. */
  lemma SortByScoreIsStableSort(s: seq<Detection>, t: seq<Detection>)
    requires multiset(t) == multiset(s)
    requires NonIncreasing(t) && forall v :: WithScore(t, v) == WithScore(s, v)
    ensures NonIncreasing(SortByScore(s)) && multiset(SortByScore(s)) == multiset(s)
    ensures t == SortByScore(s)
  {
    SortByScoreOrdered(s);
    forall v
      ensures WithScore(t, v) == WithScore(SortByScore(s), v)
    {
      SortByScoreStable(s, v);
    }
    assert |t| == |multiset(t)| == |multiset(s)| == |s|;
    SortedStableUnique(t, SortByScore(s));
  }

  // ---------------------------------------------------------------------------
  // Truncation to --max-boxes
  // ---------------------------------------------------------------------------

  /** `dets[:max_boxes]` when `max_boxes > 0`; otherwise nothing is removed. */
  function Truncate(s: seq<Detection>, maxBoxes: int): (r: seq<Detection>)
    ensures r <= s
    ensures maxBoxes <= 0 ==> r == s
    ensures maxBoxes > 0 ==> |r| == if |s| < maxBoxes then |s| else maxBoxes
  {
    if maxBoxes > 0 && maxBoxes < |s| then s[..maxBoxes] else s
  }

  /** On a non-increasing input, what truncation keeps scores at least as high as
      anything it drops. */
  lemma TruncateKeepsHighest(s: seq<Detection>, maxBoxes: int, i: int, j: int)
    requires NonIncreasing(s)
    requires 0 <= i < |Truncate(s, maxBoxes)| <= j < |s|
    ensures Truncate(s, maxBoxes)[i].score >= s[j].score
  {
  }

  /** The candidates of one frame: filtered, sorted, truncated. */
  function Kept(raw: seq<RawDetection>, cfg: Config): (r: seq<Detection>)
    ensures |r| <= |raw|
    ensures cfg.maxBoxes > 0 ==> |r| <= cfg.maxBoxes
    ensures forall d :: d in r ==> d.score >= cfg.threshold
  {
    var filtered := Filtered(raw, cfg.threshold);
    var sorted := SortByScore(filtered);
    assert forall d :: d in sorted ==> d in filtered by {
      forall d | d in sorted
        ensures d in filtered
      {
        assert d in multiset(sorted);
      }
    }
    Truncate(sorted, cfg.maxBoxes)
  }

  /** What the candidate list promises: ordered by score, bounded by --max-boxes, and
      every candidate is a converted raw row whose score reaches the threshold. */
  lemma KeptSound(raw: seq<RawDetection>, cfg: Config)
    ensures NonIncreasing(Kept(raw, cfg))
    ensures cfg.maxBoxes > 0 ==> |Kept(raw, cfg)| <= cfg.maxBoxes
    ensures cfg.maxBoxes <= 0 ==> |Kept(raw, cfg)| == |Filtered(raw, cfg.threshold)|
    ensures forall d :: d in Kept(raw, cfg) ==>
              exists i :: 0 <= i < |raw| && raw[i].score >= cfg.threshold && d == Converted(raw[i])
  {
    var sorted := SortByScore(Filtered(raw, cfg.threshold));
    SortByScoreOrdered(Filtered(raw, cfg.threshold));
    forall d | d in Kept(raw, cfg)
      ensures exists i :: 0 <= i < |raw| && raw[i].score >= cfg.threshold && d == Converted(raw[i])
    {
      var k :| 0 <= k < |Kept(raw, cfg)| && Kept(raw, cfg)[k] == d;
      assert sorted[k] == d;
      assert d in multiset(sorted);
      FilteredExactly(raw, cfg.threshold, d);
    }
  }

  /** Raising the confidence threshold never increases the number of candidates. */
  lemma KeptMonotone(raw: seq<RawDetection>, cfg: Config, higher: real)
    requires cfg.threshold <= higher
    ensures |Kept(raw, cfg.(threshold := higher))| <= |Kept(raw, cfg)|
  {
    FilteredMonotone(raw, cfg.threshold, higher);
  }

  // ---------------------------------------------------------------------------
  // New-object partition
  // ---------------------------------------------------------------------------

  /** An active object is the same object as `d`: same class and IoU at or above the threshold. */
  predicate Matches(a: ActiveObject, d: Detection, iouThreshold: real)
  {
    a.cls == d.cls && Iou(a.box, d.box) >= iouThreshold
  }

  /** No active object matches `d`. */
  predicate IsNew(d: Detection, active: seq<ActiveObject>, iouThreshold: real)
  {
    forall k :: 0 <= k < |active| ==> !Matches(active[k], d, iouThreshold)
  }

  /** The candidates that are new, in candidate order. */
  function NewOf(dets: seq<Detection>, active: seq<ActiveObject>, iouThreshold: real): (r: seq<Detection>)
    ensures |r| <= |dets|
    ensures forall d :: d in r ==> IsNew(d, active, iouThreshold)
  {
    if dets == [] then []
    else
      var rest := NewOf(dets[..|dets| - 1], active, iouThreshold);
      var last := dets[|dets| - 1];
      if IsNew(last, active, iouThreshold) then rest + [last] else rest
  }

  /** The nested loop with the `found` flag and `break`. */
  method PartitionNew(dets: seq<Detection>, active: seq<ActiveObject>, iouThreshold: real)
    returns (newObjs: seq<Detection>)
    ensures newObjs == NewOf(dets, active, iouThreshold)
  {
    newObjs := [];
    for i := 0 to |dets|
      invariant newObjs == NewOf(dets[..i], active, iouThreshold)
    {
      assert dets[..i + 1][..i] == dets[..i];
      var det := dets[i];
      var found := false;
      var j := 0;
      while j < |active|
        invariant 0 <= j <= |active|
        invariant !found
        invariant forall k :: 0 <= k < j ==> !Matches(active[k], det, iouThreshold)
      {
        var ac := active[j];
        if ac.cls == det.cls && Iou(ac.box, det.box) >= iouThreshold {
          found := true;
          break;
        }
        j := j + 1;
      }
      if !found {
        newObjs := newObjs + [det];
      }
    }
    assert dets[..|dets|] == dets;
  }

  /** A candidate is new exactly when it is a candidate and no active object matches it. */
  lemma {:induction false} NewOfExactly(dets: seq<Detection>, active: seq<ActiveObject>, iouThreshold: real, d: Detection)
    ensures d in NewOf(dets, active, iouThreshold) <==> d in dets && IsNew(d, active, iouThreshold)
  {
    if dets != [] {
      NewOfExactly(dets[..|dets| - 1], active, iouThreshold, d);
      assert dets == dets[..|dets| - 1] + [dets[|dets| - 1]];
    }
  }

  /** The new objects keep the candidates' order. */
  lemma {:induction false} NewOfInOrder(dets: seq<Detection>, active: seq<ActiveObject>, iouThreshold: real)
    ensures IsSubsequence(NewOf(dets, active, iouThreshold), dets)
  {
    if dets != [] {
      var init, last := dets[..|dets| - 1], dets[|dets| - 1];
      NewOfInOrder(init, active, iouThreshold);
      assert dets == init + [last];
      if IsNew(last, active, iouThreshold) {
        SubsequenceExtend(NewOf(init, active, iouThreshold), init, last);
      } else {
        SubsequenceWeaken(NewOf(init, active, iouThreshold), init, last);
      }
    }
  }

  /** The partition never merges duplicates: a new candidate occurs as often as
      among the candidates, and a matched one not at all. */
  lemma {:induction false} NewOfCounts(dets: seq<Detection>, active: seq<ActiveObject>, iouThreshold: real,
                                       d: Detection)
    ensures multiset(NewOf(dets, active, iouThreshold))[d] ==
            if IsNew(d, active, iouThreshold) then multiset(dets)[d] else 0
  {
    if dets != [] {
      NewOfCounts(dets[..|dets| - 1], active, iouThreshold, d);
      assert dets == dets[..|dets| - 1] + [dets[|dets| - 1]];
    }
  }

  /** With nothing active, every candidate is new. */
  lemma {:induction false} NewOfNoActive(dets: seq<Detection>, iouThreshold: real)
    ensures NewOf(dets, [], iouThreshold) == dets
  {
    if dets != [] {
      NewOfNoActive(dets[..|dets| - 1], iouThreshold);
      assert dets == dets[..|dets| - 1] + [dets[|dets| - 1]];
    }
  }

  // ---------------------------------------------------------------------------
  // Active-set refresh and payload
  // ---------------------------------------------------------------------------

  /** `[(cls, x1, y1, x2, y2) for ... in dets]`: the candidates without their scores. */
  function ActiveOf(dets: seq<Detection>): (r: seq<ActiveObject>)
    ensures |r| == |dets|
  {
    seq(|dets|, i requires 0 <= i < |dets| => ActiveObject(dets[i].cls, dets[i].box))
  }

  /** The payload entries for the new objects, bbox back in (x, y, w, h) form. */
  function PayloadOf(newObjs: seq<Detection>): (p: seq<PayloadEntry>)
    ensures |p| == |newObjs|
  {
    seq(|newObjs|, i requires 0 <= i < |newObjs| =>
      PayloadEntry(newObjs[i].cls, newObjs[i].score, SizeOf(newObjs[i].box)))
  }

  /** The append loop that builds the payload list. */
  method BuildPayload(newObjs: seq<Detection>) returns (payload: seq<PayloadEntry>)
    ensures payload == PayloadOf(newObjs)
  {
    payload := [];
    for i := 0 to |newObjs|
      invariant payload == PayloadOf(newObjs[..i])
    {
      var det := newObjs[i];
      var b := det.box;
      payload := payload + [PayloadEntry(det.cls, det.score, Xywh(b.x1, b.y1, b.x2 - b.x1, b.y2 - b.y1))];
    }
    assert newObjs[..|newObjs|] == newObjs;
  }

  // ---------------------------------------------------------------------------
  // One frame and the capture loop
  // ---------------------------------------------------------------------------

  /** What one loop iteration leaves behind: the new active set and, when something
      was new, the published batch. */
  datatype FrameResult = FrameResult(active: seq<ActiveObject>, batch: Option<seq<PayloadEntry>>)

  /** One iteration of the capture loop; `None` outputs skip the iteration. */
  function Step(active: seq<ActiveObject>, outputs: Option<seq<RawDetection>>, cfg: Config): (r: FrameResult)
    ensures outputs.None? ==> r == FrameResult(active, None)
    ensures r.batch.Some? ==> r.batch.value != []
    ensures r.batch.Some? <==>
              outputs.Some? && exists d :: d in Kept(outputs.value, cfg) && IsNew(d, active, cfg.iouThreshold)
  {
    match outputs
    case None => FrameResult(active, None)
    case Some(raw) =>
      var dets := Kept(raw, cfg);
      var newObjs := NewOf(dets, active, cfg.iouThreshold);
      assert newObjs != [] ==> newObjs[0] in dets && IsNew(newObjs[0], active, cfg.iouThreshold) by {
        if newObjs != [] {
          NewOfExactly(dets, active, cfg.iouThreshold, newObjs[0]);
        }
      }
      forall d | d in dets && IsNew(d, active, cfg.iouThreshold)
        ensures d in newObjs
      {
        NewOfExactly(dets, active, cfg.iouThreshold, d);
      }
      FrameResult(ActiveOf(dets), if newObjs == [] then None else Some(PayloadOf(newObjs)))
  }

  /** The loop body of the publisher, step by step as the source does it. */
  method ProcessFrame(active: seq<ActiveObject>, outputs: Option<seq<RawDetection>>, cfg: Config)
    returns (active': seq<ActiveObject>, batch: Option<seq<PayloadEntry>>)
    ensures FrameResult(active', batch) == Step(active, outputs, cfg)
  {
    if outputs.None? {
      return active, None;
    }
    var dets := FilterDetections(outputs.value, cfg.threshold);
    dets := SortByScore(dets);
    if cfg.maxBoxes > 0 {
      dets := dets[..if cfg.maxBoxes < |dets| then cfg.maxBoxes else |dets|];
    }
    assert dets == Kept(outputs.value, cfg);
    var newObjs := PartitionNew(dets, active, cfg.iouThreshold);
    active' := ActiveOf(dets);
    if newObjs != [] {
      var payload := BuildPayload(newObjs);
      batch := Some(payload);
    } else {
      batch := None;
    }
  }

  /** After a processed frame the active set is that frame's candidates without scores,
      whatever the active set was before and whatever was judged new. */
  lemma StepRefreshesActive(active: seq<ActiveObject>, other: seq<ActiveObject>, raw: seq<RawDetection>, cfg: Config)
    ensures Step(active, Some(raw), cfg).active == ActiveOf(Kept(raw, cfg))
    ensures Step(active, Some(raw), cfg).active == Step(other, Some(raw), cfg).active
  {
  }

  /** Every published entry is a raw row of the frame, unchanged: same class, same score,
      and the (x, y, w, h) box the sensor reported, with a score reaching the threshold. */
  lemma StepPublishesRawRows(active: seq<ActiveObject>, raw: seq<RawDetection>, cfg: Config, e: PayloadEntry)
    requires Step(active, Some(raw), cfg).batch.Some?
    requires e in Step(active, Some(raw), cfg).batch.value
    ensures exists i :: 0 <= i < |raw| && raw[i].score >= cfg.threshold &&
                        e == PayloadEntry(raw[i].cls, raw[i].score, raw[i].box)
  {
    var dets := Kept(raw, cfg);
    var newObjs := NewOf(dets, active, cfg.iouThreshold);
    var p := PayloadOf(newObjs);
    var k :| 0 <= k < |p| && p[k] == e;
    var d := newObjs[k];
    NewOfExactly(dets, active, cfg.iouThreshold, d);
    KeptSound(raw, cfg);
    var i :| 0 <= i < |raw| && raw[i].score >= cfg.threshold && d == Converted(raw[i]);
    SizeOfCornersOf(raw[i].box);
  }

  /** The payload lists exactly the new objects, in order, with bbox (x1, y1, x2 - x1, y2 - y1). */
  lemma StepPayloadMatchesNewObjects(active: seq<ActiveObject>, raw: seq<RawDetection>, cfg: Config)
    requires Step(active, Some(raw), cfg).batch.Some?
    ensures var newObjs := NewOf(Kept(raw, cfg), active, cfg.iouThreshold);
            var p := Step(active, Some(raw), cfg).batch.value;
            |p| == |newObjs| &&
            forall k :: 0 <= k < |p| ==>
              p[k].cls == newObjs[k].cls && p[k].score == newObjs[k].score &&
              CornersOf(p[k].bbox) == newObjs[k].box
  {
  }

  /** A frame whose candidates are all already active (the same boxes as the previous
      frame) publishes nothing, provided the boxes have positive size and the IoU
      threshold is at most 1. */
  lemma RepeatedFrameIsSilent(raw: seq<RawDetection>, cfg: Config)
    requires forall i :: 0 <= i < |raw| ==> raw[i].box.w > 0.0 && raw[i].box.h > 0.0
    requires cfg.iouThreshold <= 1.0
    ensures Step(ActiveOf(Kept(raw, cfg)), Some(raw), cfg).batch == None
  {
    var dets := Kept(raw, cfg);
    var active := ActiveOf(dets);
    KeptSound(raw, cfg);
    forall d | d in dets
      ensures !IsNew(d, active, cfg.iouThreshold)
    {
      var k :| 0 <= k < |dets| && dets[k] == d;
      var i :| 0 <= i < |raw| && raw[i].score >= cfg.threshold && d == Converted(raw[i]);
      IouSelf(d.box);
      assert Matches(active[k], d, cfg.iouThreshold);
    }
  }

  /** State of the capture loop: the active set and the log of published batches. */
  datatype RunState = RunState(active: seq<ActiveObject>, published: seq<seq<PayloadEntry>>)

  /** The state after processing `frames` in order, starting from an empty active set. */
  function RunOf(frames: seq<Option<seq<RawDetection>>>, cfg: Config): (r: RunState)
    ensures |r.published| <= |frames|
    ensures forall b :: b in r.published ==> b != []
  {
    if frames == [] then RunState([], [])
    else
      var s := RunOf(frames[..|frames| - 1], cfg);
      var r := Step(s.active, frames[|frames| - 1], cfg);
      RunState(r.active, s.published + (if r.batch.Some? then [r.batch.value] else []))
  }

  /** The capture loop over a finite sequence of frames (`None`: no outputs for that frame). */
  method Run(frames: seq<Option<seq<RawDetection>>>, cfg: Config)
    returns (active: seq<ActiveObject>, published: seq<seq<PayloadEntry>>)
    ensures RunState(active, published) == RunOf(frames, cfg)
  {
    active, published := [], [];
    for n := 0 to |frames|
      invariant RunState(active, published) == RunOf(frames[..n], cfg)
    {
      assert frames[..n + 1][..n] == frames[..n];
      var batch;
      active, batch := ProcessFrame(active, frames[n], cfg);
      if batch.Some? {
        published := published + [batch.value];
      }
    }
    assert frames[..|frames|] == frames;
  }

  /** The most recent frame that had outputs, if any. */
  function LastOutputs(frames: seq<Option<seq<RawDetection>>>): Option<seq<RawDetection>>
  {
    if frames == [] then None
    else if frames[|frames| - 1].Some? then frames[|frames| - 1]
    else LastOutputs(frames[..|frames| - 1])
  }

  /** The active set always reflects the last frame that had outputs; frames without
      outputs leave it alone. */
  lemma {:induction false} RunActiveIsLastFrame(frames: seq<Option<seq<RawDetection>>>, cfg: Config)
    ensures RunOf(frames, cfg).active ==
            match LastOutputs(frames)
            case None => []
            case Some(raw) => ActiveOf(Kept(raw, cfg))
  {
    if frames != [] {
      RunActiveIsLastFrame(frames[..|frames| - 1], cfg);
    }
  }

  /** Number of frames that had outputs. */
  function FramesWithOutputs(frames: seq<Option<seq<RawDetection>>>): nat
  {
    if frames == [] then 0
    else FramesWithOutputs(frames[..|frames| - 1]) + (if frames[|frames| - 1].Some? then 1 else 0)
  }

  /** No empty batch is ever published, and at most one batch per frame with outputs. */
  lemma {:induction false} RunPublishesOnlyNew(frames: seq<Option<seq<RawDetection>>>, cfg: Config)
    ensures forall b :: b in RunOf(frames, cfg).published ==> b != []
    ensures |RunOf(frames, cfg).published| <= FramesWithOutputs(frames)
  {
    if frames != [] {
      RunPublishesOnlyNew(frames[..|frames| - 1], cfg);
    }
  }

  // ---------------------------------------------------------------------------
  // Worked scenarios
  // ---------------------------------------------------------------------------

  const Car: RawDetection := RawDetection(Xywh(0.0, 0.0, 10.0, 10.0), 0.9, 1)
  const DefaultConfig: Config := Config(0.4, 0, 0.5)

  /** Nothing active: the single detection is new, published, and becomes active. */
  lemma ScenarioFirstSighting()
    ensures Step([], Some([Car]), DefaultConfig) ==
            FrameResult([ActiveObject(1, Box(0.0, 0.0, 10.0, 10.0))],
                        Some([PayloadEntry(1, 0.9, Xywh(0.0, 0.0, 10.0, 10.0))]))
  {
    assert Filtered([Car], 0.4) == [Converted(Car)] by {
      assert [Car][..0] == [];
    }
    var d := Converted(Car);
    assert SortByScore([d]) == [d];
    assert Kept([Car], DefaultConfig) == [d];
    NewOfNoActive([d], 0.5);
    assert ActiveOf([d]) == [ActiveObject(1, Box(0.0, 0.0, 10.0, 10.0))];
    assert PayloadOf([d]) == [PayloadEntry(1, 0.9, Xywh(0.0, 0.0, 10.0, 10.0))];
  }

  /** A box shifted by one pixel (IoU 81/119) is the same object: nothing is published,
      and the active set moves to the new box. */
  lemma ScenarioSameObjectMoved()
    ensures Step([ActiveObject(1, Box(0.0, 0.0, 10.0, 10.0))],
                 Some([RawDetection(Xywh(1.0, 1.0, 10.0, 10.0), 0.9, 1)]), DefaultConfig) ==
            FrameResult([ActiveObject(1, Box(1.0, 1.0, 11.0, 11.0))], None)
  {
    var raw := RawDetection(Xywh(1.0, 1.0, 10.0, 10.0), 0.9, 1);
    assert Filtered([raw], 0.4) == [Converted(raw)] by {
      assert [raw][..0] == [];
    }
    var d := Converted(raw);
    assert SortByScore([d]) == [d];
    var a := Box(0.0, 0.0, 10.0, 10.0);
    assert Intersection(a, d.box) == 81.0;
    assert Union(a, d.box) == 119.0;
    assert Iou(a, d.box) == 81.0 / 119.0;
    var previous := [ActiveObject(1, a)];
    assert Matches(previous[0], d, 0.5);
    assert !IsNew(d, previous, 0.5);
    assert Kept([raw], DefaultConfig) == [d];
    assert [d][..0] == [];
    assert NewOf([d], [ActiveObject(1, a)], 0.5) == [];
  }

  /** No hysteresis: an object missing from one processed frame is published again
      when it comes back. */
  lemma ScenarioReappearance()
    ensures |RunOf([Some([Car]), Some([]), Some([Car])], DefaultConfig).published| == 2
  {
    var frames := [Some([Car]), Some([]), Some([Car])];
    ScenarioFirstSighting();
    var first := Step([], Some([Car]), DefaultConfig);
    assert frames[..2][..1] == [Some([Car])];
    assert [Some([Car])][..0] == [];
    var s1 := RunOf([Some([Car])], DefaultConfig);
    assert first.batch.Some?;
    assert RunOf([], DefaultConfig) == RunState([], []);
    assert s1 == RunState(first.active, [first.batch.value]);
    var second := Step(s1.active, Some([]), DefaultConfig);
    assert Kept([], DefaultConfig) == [];
    assert second == FrameResult([], None);
    assert frames[..2] == [Some([Car]), Some([])];
    var s2 := RunOf(frames[..2], DefaultConfig);
    assert s2 == RunState([], [first.batch.value]);
    assert frames[..3] == frames;
    assert RunOf(frames, DefaultConfig) == RunState(first.active, [first.batch.value, first.batch.value]);
  }
}
