# Detection de-duplication and publishing — a Dafny model

This project models the on-device detection pipeline of the VIPRA camera nodes.

- **`imx500Detection.py`** is the IMX500 publisher. Each frame, it drops the sensor's detections that score below
  `--threshold`. It converts their (x, y, w, h) boxes to corners and sorts them by score, highest first and stable.
  It keeps at most `--max-boxes` of them. A detection is *new* when no object remembered from the previous frame has
  the same class and an Intersection-over-Union (IoU) of at least `--iou-threshold` with it. The remembered set
  (`active`) is then replaced by this frame's detections. A JSON payload is published only when something is new.
- **`raspMAIN.py`** is the earlier pipeline. `parse_detections` keeps detections scoring strictly above the threshold.
  It reorders `xy` boxes, and returns the previous detections when a frame has no outputs. The file also cleans the
  label list, looks up each detection's label, and publishes every non-empty detection list when an MQTT
  client is connected.
- **`checkRete.py`** is the Ethernet watchdog. It configures a static fallback address each time the link goes
  from up to down.

Files:

- `common.dfy`: `Option` and order-preserving subsequences.
- `geometry.dfy`: box formats and IoU over exact reals.
- `imx500_detection.dfy`: the publisher's per-frame step and its capture loop.
- `rasp_main.dfy`: the earlier pipeline.
- `check_rete.dfy`: the watchdog.

Loops in the source are Dafny methods. Each one is proved equal to a specification function, and the promised
properties are lemmas about that function. The `while True` loops run over a finite sequence of frames or polls.
A frame "without outputs" is `None`.

`iou` accepts any box; an inverted box has positive area but self-IoU 0 (`Geometry.IouSelfInverted`).

## Model

| member | source | states |
|---|---|---|
| `Geometry.Iou` | vision-detection-classification/imx500/imx500Detection.py:49-58 | IoU is never negative, and is 0 whenever areaA + areaB - inter is not positive |
| `Geometry.IouSymmetric` | vision-detection-classification/imx500/imx500Detection.py:51-58 | IoU does not depend on argument order |
| `Geometry.IouInUnitInterval` | vision-detection-classification/imx500/imx500Detection.py:51-58 | for any two boxes, IoU lies in [0, 1]; an axis with unordered corners clamps the overlap to 0 |
| `Geometry.IntersectionWithinAreas` | vision-detection-classification/imx500/imx500Detection.py:51-56 | for boxes with x1 <= x2 and y1 <= y2, the clamped intersection is non-negative and at most either box's area |
| `Geometry.IouSelf` | vision-detection-classification/imx500/imx500Detection.py:49-58 | a box with x1 < x2 and y1 < y2 has IoU 1 with itself |
| `Geometry.IouSelfInverted` | vision-detection-classification/imx500/imx500Detection.py:53-58 | a box with both corners swapped has positive area yet IoU 0 with itself |
| `Geometry.IouDegenerate` | vision-detection-classification/imx500/imx500Detection.py:53-58 | a box without positive width or height has IoU 0 with any box, in either argument position |
| `Geometry.IouDisjoint` | vision-detection-classification/imx500/imx500Detection.py:51-58 | boxes separated along either axis have IoU 0 |
| `Geometry.CornersOf` | vision-detection-classification/imx500/imx500Detection.py:139-140 | (x, y, w, h) to corners keeps the top-left corner, has area w * h, and gives ordered corners iff w >= 0 and h >= 0 |
| `Geometry.SizeOf` | vision-detection-classification/imx500/imx500Detection.py:167 | corners to (x1, y1, x2 - x1, y2 - y1) keeps the top-left corner, w * h is the area, and w, h >= 0 iff the corners are ordered |
| `Geometry.SizeOfCornersOf` | vision-detection-classification/imx500/imx500Detection.py:163-168 | the payload's (x1, y1, x2-x1, y2-y1) recovers the sensor's (x, y, w, h) exactly |
| `Geometry.CornersOfSizeOf` | vision-detection-classification/imx500/imx500Detection.py:139-140 | converting a corner box to (x, y, w, h) and back gives the same box |
| `Imx500Detection.Filtered` | vision-detection-classification/imx500/imx500Detection.py:136-141 | filtering never lengthens the list; every kept candidate scores at least the threshold |
| `Imx500Detection.FilterDetections` | vision-detection-classification/imx500/imx500Detection.py:136-141 | the append loop with `continue` builds exactly `Filtered` |
| `Imx500Detection.FilteredExactly` | vision-detection-classification/imx500/imx500Detection.py:137-141 | a candidate is kept iff it is the (cls, x1, y1, x1+w, y1+h, score) of a row with score >= threshold |
| `Imx500Detection.FilteredInOrder` | vision-detection-classification/imx500/imx500Detection.py:136-141 | kept candidates are an order-preserving subsequence of the converted rows |
| `Imx500Detection.FilteredCounts` | vision-detection-classification/imx500/imx500Detection.py:136-141 | no de-duplication: a candidate occurs as often as among the converted rows if its score reaches the threshold, otherwise never |
| `Imx500Detection.FilteredMonotone` | vision-detection-classification/imx500/imx500Detection.py:138 | a higher threshold keeps a subsequence of what a lower one keeps, so never more |
| `Imx500Detection.InsertByScore` | vision-detection-classification/imx500/imx500Detection.py:142 | inserting adds exactly the one element (multiset) |
| `Imx500Detection.SortByScore` | vision-detection-classification/imx500/imx500Detection.py:142 | the sort is a permutation of its input |
| `Imx500Detection.InsertKeepsOrder` | vision-detection-classification/imx500/imx500Detection.py:142 | insertion into a list with non-increasing scores keeps it non-increasing |
| `Imx500Detection.InsertKeepsTies` | vision-detection-classification/imx500/imx500Detection.py:142 | the inserted element goes ahead of all later elements with its score |
| `Imx500Detection.SortByScoreOrdered` | vision-detection-classification/imx500/imx500Detection.py:142 | after sorting, scores never increase |
| `Imx500Detection.SortByScoreStable` | vision-detection-classification/imx500/imx500Detection.py:142 | for every score, equal-score entries keep their original relative order |
| `Imx500Detection.WithScoreMembers` | vision-detection-classification/imx500/imx500Detection.py:142 | the equal-score group of v holds exactly the elements with score v |
| `Imx500Detection.SortedStableUnique` | vision-detection-classification/imx500/imx500Detection.py:142 | two same-length non-increasing lists with the same equal-score groups are equal |
| `Imx500Detection.SortByScoreIsStableSort` | vision-detection-classification/imx500/imx500Detection.py:142 | the result is sorted and a permutation; any sorted, stable permutation of the input equals it |
| `Imx500Detection.Truncate` | vision-detection-classification/imx500/imx500Detection.py:143-144 | result is a prefix; of length min(len, max_boxes) when max_boxes > 0; unchanged when max_boxes <= 0 |
| `Imx500Detection.TruncateKeepsHighest` | vision-detection-classification/imx500/imx500Detection.py:142-144 | on sorted input, every kept entry scores at least as high as every dropped one |
| `Imx500Detection.Kept` | vision-detection-classification/imx500/imx500Detection.py:136-144 | the candidates are no more than the raw rows, at most max_boxes when max_boxes > 0, and each scores at least the threshold |
| `Imx500Detection.KeptSound` | vision-detection-classification/imx500/imx500Detection.py:136-144 | the candidates are sorted and at most max_boxes (all filtered ones if max_boxes <= 0); each is a converted row reaching the threshold |
| `Imx500Detection.KeptMonotone` | vision-detection-classification/imx500/imx500Detection.py:136-144 | raising the confidence threshold never increases the candidate count |
| `Imx500Detection.NewOf` | vision-detection-classification/imx500/imx500Detection.py:147-155 | the new objects are no more than the candidates, and no active object matches any of them |
| `Imx500Detection.PartitionNew` | vision-detection-classification/imx500/imx500Detection.py:147-155 | the nested loop with the `found` flag and `break` computes exactly `NewOf` |
| `Imx500Detection.NewOfExactly` | vision-detection-classification/imx500/imx500Detection.py:147-155 | a detection is new iff it is a candidate and no active entry has its class with IoU >= threshold |
| `Imx500Detection.NewOfInOrder` | vision-detection-classification/imx500/imx500Detection.py:147-155 | the new objects are an order-preserving subsequence of the candidates |
| `Imx500Detection.NewOfCounts` | vision-detection-classification/imx500/imx500Detection.py:147-155 | no de-duplication: a new candidate occurs as often as among the candidates, a matched one never |
| `Imx500Detection.NewOfNoActive` | vision-detection-classification/imx500/imx500Detection.py:150-155 | with an empty active set every candidate is new |
| `Imx500Detection.ActiveOf` | vision-detection-classification/imx500/imx500Detection.py:158 | the refreshed active set has one entry per candidate |
| `Imx500Detection.PayloadOf` | vision-detection-classification/imx500/imx500Detection.py:162-168 | one payload entry per new object |
| `Imx500Detection.BuildPayload` | vision-detection-classification/imx500/imx500Detection.py:162-168 | the append loop builds exactly `PayloadOf` |
| `Imx500Detection.Step` | vision-detection-classification/imx500/imx500Detection.py:127-172 | no outputs: state unchanged, nothing published; a batch is published iff some candidate is new, and never empty |
| `Imx500Detection.ProcessFrame` | vision-detection-classification/imx500/imx500Detection.py:127-172 | the loop body (filter, sort, slice, partition, refresh, payload) computes exactly `Step` |
| `Imx500Detection.StepRefreshesActive` | vision-detection-classification/imx500/imx500Detection.py:158 | after a processed frame, active is the candidates without scores, independent of the previous active set and of the partition |
| `Imx500Detection.StepPublishesRawRows` | vision-detection-classification/imx500/imx500Detection.py:136-168 | every published entry is some raw row of the frame: same class, score and (x, y, w, h), with score >= threshold |
| `Imx500Detection.StepPayloadMatchesNewObjects` | vision-detection-classification/imx500/imx500Detection.py:160-168 | the payload lists the new objects in order; its bbox converts back to their corner box |
| `Imx500Detection.RepeatedFrameIsSilent` | vision-detection-classification/imx500/imx500Detection.py:147-158 | repeating a frame with positive-size boxes publishes nothing when the IoU threshold is at most 1 |
| `Imx500Detection.RunOf` | vision-detection-classification/imx500/imx500Detection.py:115-173 | over a frame sequence, at most one batch per frame is published and no published batch is empty |
| `Imx500Detection.Run` | vision-detection-classification/imx500/imx500Detection.py:115-173 | the capture loop over a finite frame sequence computes exactly `RunOf` |
| `Imx500Detection.RunActiveIsLastFrame` | vision-detection-classification/imx500/imx500Detection.py:127-158 | active always equals the last frame with outputs, without scores; frames without outputs leave it alone |
| `Imx500Detection.RunPublishesOnlyNew` | vision-detection-classification/imx500/imx500Detection.py:160-173 | no empty batch is ever published, and at most one per frame with outputs |
| `Imx500Detection.ScenarioFirstSighting` | vision-detection-classification/imx500/imx500Detection.py:136-168 | with nothing active, one detection is published and becomes the active set |
| `Imx500Detection.ScenarioSameObjectMoved` | vision-detection-classification/imx500/imx500Detection.py:147-158 | a box moved by one pixel (IoU 81/119) is not new; active moves to the new box |
| `Imx500Detection.ScenarioReappearance` | vision-detection-classification/imx500/imx500Detection.py:147-172 | an object missing for one frame is published again when it returns |
| `RaspMain.Swapped` | software/parte_ai/raspMAIN.py:62-64 | as numpy column indexing: column k of the reordered row is column [1, 0, 3, 2][k] of the original |
| `RaspMain.SwappedTwice` | software/parte_ai/raspMAIN.py:62-64 | reordering twice is the identity |
| `RaspMain.Oriented` | software/parte_ai/raspMAIN.py:62-64 | with `yx` the box is unchanged; with `xy` it is the box whose reorder gives back the network's row |
| `RaspMain.ZipLength` | software/parte_ai/raspMAIN.py:71-73 | the zip covers exactly the shortest of boxes, scores and classes |
| `RaspMain.ParsedPrefix` | software/parte_ai/raspMAIN.py:71-75 | parsing never lengthens the list; every parsed detection scores strictly above the threshold |
| `RaspMain.ParsedPrefixExactly` | software/parte_ai/raspMAIN.py:71-75 | a detection is parsed iff it comes from a zipped row with score > threshold |
| `RaspMain.ParsedPrefixInOrder` | software/parte_ai/raspMAIN.py:71-75 | parsed detections keep the output order |
| `RaspMain.ParsedPrefixCounts` | software/parte_ai/raspMAIN.py:71-75 | no de-duplication: the parsed list is as long as the number of rows scoring above the threshold, so with the in-order lemma it is all of them, duplicates included |
| `RaspMain.Parsed` | software/parte_ai/raspMAIN.py:58-75 | a frame yields at most as many detections as zipped rows, each with confidence strictly above the threshold |
| `RaspMain.ParsedSpec` | software/parte_ai/raspMAIN.py:58-75 | for a whole frame: exactly the rows above the threshold, reordered as configured, in output order, as many as there are such rows |
| `RaspMain.ThresholdBoundaryDiffers` | software/parte_ai/raspMAIN.py:74 | a row scoring exactly the threshold is dropped here but kept by the IMX500 publisher |
| `RaspMain.DashFree` | software/parte_ai/raspMAIN.py:83 | cleaning never lengthens the list and leaves only non-empty labels other than "-" |
| `RaspMain.DashFreeSpec` | software/parte_ai/raspMAIN.py:83 | the cleaned list holds exactly the meaningful labels, each as often as in the input, as an order-preserving subsequence |
| `RaspMain.GetLabels` | software/parte_ai/raspMAIN.py:79-84 | the result is never longer than the label list; unchanged without the option, only meaningful labels with it |
| `RaspMain.GetLabelsSpec` | software/parte_ai/raspMAIN.py:79-84 | with the option the meaningful labels in order, each as often as in the input; without it the list unchanged |
| `RaspMain.DashFreeIdempotent` | software/parte_ai/raspMAIN.py:83 | cleaning twice equals cleaning once |
| `RaspMain.DecimalDigits` | software/parte_ai/raspMAIN.py:100 | `str` of a natural number is a non-empty string of decimal digits without leading zeros (only 0 starts with '0') |
| `RaspMain.DecimalDigitsValue` | software/parte_ai/raspMAIN.py:100 | reading back those digits gives the number |
| `RaspMain.IntToString` | software/parte_ai/raspMAIN.py:100 | `str(i)` starts with '-' exactly for negative i; the rest is the digit string of the magnitude |
| `RaspMain.LabelText` | software/parte_ai/raspMAIN.py:95-100 | an in-range index gives one of the labels; any other index gives a text starting with "Label" |
| `RaspMain.LabelTextSpec` | software/parte_ai/raspMAIN.py:95-96 | a category index inside the label list yields that label |
| `RaspMain.LabelTextFallback` | software/parte_ai/raspMAIN.py:95-98 | an index past the end of the list yields "Label" followed by digits that read back as the index |
| `RaspMain.LabelTextNegative` | software/parte_ai/raspMAIN.py:95-98 | a negative index -m also falls back: the text is "Label-" followed by digits that read back as m |
| `RaspMain.DrawDetections` | software/parte_ai/raspMAIN.py:86-100 | draws nothing for an empty list; otherwise one annotation per detection, with its box and looked-up label |
| `RaspMain.PayloadOf` | software/parte_ai/raspMAIN.py:251-271 | num_detections equals the number of entries and of detections; entry i carries detection i's category, confidence and box |
| `RaspMain.BuildPayload` | software/parte_ai/raspMAIN.py:251-271 | num_detections equals the length of the detections list, one entry per detection in order |
| `RaspMain.Detector.constructor` | software/parte_ai/raspMAIN.py:218-219 | starts with no detections and nothing published |
| `RaspMain.Detector.ParseDetections` | software/parte_ai/raspMAIN.py:31-76 | no outputs: returns and keeps the previous detections; otherwise stores and returns the parsed ones |
| `RaspMain.Detector.MainStep` | software/parte_ai/raspMAIN.py:245-273 | publishes the payload of the current detections iff there are some and MQTT connected, so a frame without outputs republishes the previous ones |
| `CheckRete.EthernetConnected` | software/parte_ai/checkRete.py:10-12 | a connected answer implies that eth0 is among the interfaces |
| `CheckRete.EthernetConnectedSpec` | software/parte_ai/checkRete.py:10-12 | a missing interface counts as disconnected; otherwise its up flag decides |
| `CheckRete.EthernetConnectedOnlyWatchesInterface` | software/parte_ai/checkRete.py:10-12 | adding, changing or removing any interface other than eth0 does not change the answer |
| `CheckRete.Monitor` | software/parte_ai/checkRete.py:21-36 | the state starts as the first observation and afterwards equals the last poll; the static address is configured exactly at `StaticIpCalls` |
| `CheckRete.StaticIpCalls` | software/parte_ai/checkRete.py:27-30 | every recorded call is an iteration of the loop |
| `CheckRete.StaticIpCallsExactly` | software/parte_ai/checkRete.py:24-34 | the fallback runs at iteration i iff the link is down there and the previous state was up |
| `CheckRete.ReconnectionsExactly` | software/parte_ai/checkRete.py:32-34 | a reconnection happens at i iff the link is up there and the previous state was down; the state then becomes up and no static-address call happens at i |
| `CheckRete.StaticIpCallsIncreasing` | software/parte_ai/checkRete.py:24-30 | calls are recorded in strictly increasing iteration order |
| `CheckRete.ReconnectBetweenCalls` | software/parte_ai/checkRete.py:24-34 | between two fallback configurations the link was observed up |
| `CheckRete.TransitionsBalance` | software/parte_ai/checkRete.py:24-34 | fallback calls plus final-up equal reconnections plus initial-up (downs and ups alternate) |
| `CheckRete.SteadyLinkNoCalls` | software/parte_ai/checkRete.py:24-36 | a link that never changes from its first observation never triggers the fallback |

## Left out

- Camera and sensor plumbing is not modelled: `Picamera2`, `IMX500`, `capture_request`, `get_outputs` and `build_camera`.
  Raw outputs are an input sequence; `None` stands for a frame without outputs.
- `convert_inference_coords` is a foreign call. `RaspMain` takes it as a function parameter `convert`.
- The `nanodet` post-processing branch of `parse_detections` is not modelled, with `postprocess_nanodet_detection` and
  `scale_boxes`. These are foreign library calls. Only the default branch is modelled.
- `--bbox-normalization` (division by the network input height) is not modelled. The input size comes from a
  foreign call.
- MQTT connection, `publish`, `loop` and QoS are not modelled. Publishing is appending to a log of payloads.
  The `ts` timestamp of the IMX500 payload is not modelled because it is a clock read.
- Snapshot writing (`cv2.imwrite`) and its timestamp file names are not modelled. They are file I/O and a clock read.
- Float formatting and truncation are not modelled: `round(score, 3)`, `int()` of the payload coordinates,
  `f"{conf:.2f}"`, and `int()` of class ids. Coordinates and scores are exact reals; classes are integers.
- Signal handling and the `running` flag are not modelled. Loops run over finite sequences of frames or polls.
- OpenCV drawing is not modelled: rectangles, the translucent label background, the ROI box, and the confidence suffix
  of the label text. `DrawDetections` yields each box with its label text.
- `draw_detections` runs as the camera's `pre_callback` and reads the global `last_detections` while `main` reassigns
  it. `DrawDetections` takes the detection list as a plain argument, so the sharing between the callback and the loop
  is not modelled.
- `get_labels`'s `lru_cache` is not modelled because it has no observable effect.
- Console prints, argument parsing, label-file loading and the intrinsics set-up of `raspMAIN.py` are not modelled.
- `imposta_ip_statico` runs shell commands. It is recorded as the iteration at which it ran. The five-second sleep
  and the prints of `checkRete.py` are not modelled.
- `serverAI.py`, the training scripts, the start-up and streaming scripts and the web UI are not part of this model.
