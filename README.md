# Periodic fruit-freshness / trash classification cycle

A Dafny model of the classification cycle that two board-level vision
samples run on every frame: `FruitFreshnessCal` (fruit freshness, with an
on-screen overlay) and `CnnTrashClassifyCal` (trash classifier, result only
reported). Each cycle does the following:

1. While the clock moves forward, it runs at most once per 10-second
   detection interval. A call at the same instant as the last run, or after
   the clock went back, always runs. The last-run timestamp is persisted,
   and a zero seconds field means "never run".
2. It records the current time before doing any work.
3. It resizes the frame, converts it, crops the fixed centre region and runs
   the inference engine. Each of these steps may fail, and the first failure
   is returned as the cycle's result.
4. It interprets the at most four ranked `(label index, score)` results with
   a first-match policy. An item must have a confidence of at least 30 % and
   a label index in `[0, 9]`. The first item that passes is written as
   `"<label> <confidence>"`. When no item passes, the status is
   `"No fruit detected"`.
5. For the fruit classifier only, the status is drawn on the overlay, in
   ARGB1555 yellow at (20, 20), and the source frame is forwarded. This
   happens only when the status differs from the one published last.

Modules:

- `Recognition` (recognition.dfy) holds the label table and the threshold. It
  defines the specification of the interpretation: `FirstMatch` (position of
  the first qualifying item) and `Status` (the text produced). It also holds
  the lemmas that characterise them.
- `Throttle` (throttle.dfy) holds the detection-interval gate. It defines
  `Throttled` and `ExecutedTimes`, the times at which a sequence of calls does
  real work. It proves that executed cycles are spaced at least one interval
  apart.
- `Pipeline` (pipeline.dfy) covers the vendor collaborators. They are seen
  only through what they return: a `Vendor` value holds the return codes of
  the resize, conversion, crop, inference and frame-forwarding calls, plus the
  inference results. `Call` names one collaborator invocation. The module
  defines which step's failure is propagated and which calls a failing cycle
  makes.
- `CnnAppleFresh` (cnn_apple_fresh.dfy) models the fruit file.
  `FruitFreshnessFlag` is the scanning loop. The class
  `FruitFreshnessClassifier` holds the persisted `lastDetectTime` and
  `prevOsd` state. It also holds two ghost records: `calls`, the trace of
  collaborator invocations, and `runs`, the times at which a cycle executed.
  Its method `FruitFreshnessCal` is the cycle. It applies the
  detection-interval gate and then calls `RunDetection`, which holds the rest
  of the same C function. The split only keeps each proof small.
  `FruitFreshnessCalEach` invokes the cycle once per time of a sequence, as
  the frame loop does.
- `CnnTrashClassify` (cnn_trash_classify.dfy) models the trash file the same
  way, with `CnnTrashClassifyCal` (gate, then `RunDetection`) and
  `CnnTrashClassifyCalEach`. It has no
  `prevOsd` and never touches the overlay.

Modelling choices:

- The time of day is a parameter, `Timeval(sec, usec)`. The code computes
  the elapsed time in double-precision seconds. The model uses integer
  microseconds, which give the same comparisons against 0 and 10 s for
  microsecond fields in `[0, 10^6)`.
- The code tests `(float)score / 4096 * 100 < 30`. The model uses
  `score * 100 < 30 * 4096` instead. The two are equivalent for every
  score below 671089, that is while `25 * score < 2^24`. In that range the
  division by 4096 is exact, and so is the product by 100, which equals
  `25 * score / 1024`. No integer score equals 1228.8.
- The confidence text is `%.2f` of `score / 4096`. The model renders it as
  the hundredths nearest to that exact ratio, with ties rounded to even.
- `HI_SUCCESS` is 0.
- Resizing and image conversion fail on any non-zero code. Cropping and
  inference fail only on a negative code. A positive code from either of
  these two is not a failure.
- The check of the Flag function's return code in both Cal functions can
  never fire, because Flag always returns `HI_SUCCESS`. The model leaves that
  branch out.
- On an early failure, neither file releases the resized frame or the
  cropped image. The call trace shows this as it is, and no release is
  claimed for those paths.
- If a run is recorded while the clock's seconds field is 0, the next call is
  never throttled, because that timestamp reads as "never run".
  `Throttled` reproduces this.

## Model

| member | source | states |
|---|---|---|
| `Recognition.FirstMatch` | scenario/cnn_apple_fresh.c:114-128 | the index found is in range and that item clears the threshold with a label index in [0, 9] |
| `Recognition.FirstMatchIsFirst` | scenario/cnn_apple_fresh.c:114-127 | FirstMatch yields k exactly when item k qualifies and no earlier item does (both directions) |
| `Recognition.FirstMatchNone` | scenario/cnn_apple_fresh.c:130-133 | nothing is found exactly when no item qualifies, the empty list included |
| `Recognition.LaterItemsNotExamined` | scenario/cnn_apple_fresh.c:123-126 | replacing every item after the first qualifying one changes neither the match nor the status text: the scan stops there |
| `Recognition.NonQualifyingItemSkipped` | scenario/cnn_apple_fresh.c:118-127 | an item below the threshold, or above it with a label index outside [0, 9], is passed over and the scan continues with the next item |
| `Recognition.LabelsDiffer` | scenario/cnn_apple_fresh.c:66-69 | any two labels of the table differ at position 0, 6 or 7, and each has at least 11 characters |
| `Recognition.DescriptionsOfLabelsDiffer` | scenario/cnn_apple_fresh.c:122-124 | items with different labels are never written as the same text |
| `Recognition.DescribeIdentifiesItem` | scenario/cnn_apple_fresh.c:122-124 | two reported items give the same text exactly when they have the same label and the same confidence rounded to hundredths (both directions) |
| `Recognition.NatText` | scenario/cnn_apple_fresh.c:124 | the integer part is printed as decimal digits, without a leading zero, that denote the number |
| `Recognition.ConfidenceText` | scenario/cnn_apple_fresh.c:124 | the confidence is a numeral (decimal digits, no leading zero), a point and two digits, and the whole text denotes the rounded confidence in hundredths |
| `Recognition.Status` | scenario/cnn_apple_fresh.c:109-136 | the status is "No fruit detected" exactly when no item qualifies (both directions) |
| `Recognition.SameStatusIffSameFirstMatch` | scenario/cnn_apple_fresh.c:205-206 | two result lists give the same status exactly when neither has a qualifying item, or the first qualifying items of both have the same label and the same rounded confidence; so the overlay is redrawn exactly when that changes |
| `Recognition.StatusNamesFirstMatch` | scenario/cnn_apple_fresh.c:118-127 | when item k qualifies and no earlier item does, the status is the description of item k, whatever follows it |
| `Recognition.DescribeIsNotNoFruit` | scenario/cnn_apple_fresh.c:66-69 | a label with its confidence can never be mistaken for "No fruit detected" |
| `Recognition.Hundredths` | scenario/cnn_apple_fresh.c:116-124 | the printed confidence is the hundredth nearest to score/4096, ties to even |
| `Recognition.StatusExamples` | scenario/cnn_apple_fresh.c:109-136 | results [(0, 3500)] give "fresh apple 0.85"; [(5, 1000)] and [] give "No fruit detected" |
| `Throttle.Throttled` | scenario/cnn_apple_fresh.c:150-159 | a cycle is skipped exactly when a run is recorded and the call comes strictly after it but less than 10 s later (both directions) |
| `Throttle.UnthrottledCases` | scenario/cnn_apple_fresh.c:150-159 | the first call, a call at the same instant as the recorded run or after the clock went back, and a call at least 10 s later all run |
| `Throttle.ExecutedTimes` | scenario/cnn_apple_fresh.c:143-162 | the executed calls are an order-preserving subsequence of the calls, and the first call runs whenever the recorded run does not throttle it |
| `Throttle.ExecutedTimesSnoc` | scenario/cnn_apple_fresh.c:150-162 | one more call is added to the executed times, and becomes the recorded run, exactly when the run recorded so far does not throttle it |
| `Throttle.LastRunIsLastExecuted` | scenario/cnn_apple_fresh.c:157-162 | after a sequence of calls the recorded timestamp is that of the last executed cycle, or the one recorded before them when every call was skipped |
| `Throttle.ExecutedAfterRecorded` | scenario/cnn_apple_fresh.c:151-162 | for calls at increasing times whose seconds fields are non-zero, made after a recorded run, every executed cycle comes at least 10 s after that run |
| `Throttle.ExecutedSpacing` | scenario/cnn_apple_fresh.c:143-162 | for calls at increasing times whose seconds fields are non-zero, the first call after start-up executes and any two consecutive executed cycles are at least 10 s apart |
| `Throttle.ExecutedTimesExample` | scenario/cnn_trash_classify/cnn_trash_classify.c:145-156 | calls at 100 s, 105 s and 111 s execute at 100 s and 111 s only; calls at 100 s, 100 s and 99 s all execute |
| `Pipeline.PipelineFailure` | scenario/cnn_apple_fresh.c:184-197 | a failing step's code is never HI_SUCCESS and is one of the step codes; no step fails exactly when resize and conversion return success and crop and inference are non-negative |
| `Pipeline.PreparationCalls` | scenario/cnn_apple_fresh.c:184-197 | the steps made are a non-empty prefix of resize, conversion, crop, inference; inference is invoked exactly when resize, conversion and crop all succeeded; all four are made when none fails |
| `Pipeline.StopsAtFirstFailure` | scenario/cnn_apple_fresh.c:184-197 | every step made before the last one succeeded; the last step fails exactly when the cycle fails; the code returned is that step's own code, so the first failing step's code is returned at once |
| `Pipeline.OverlayUpdatesAppend` | scenario/cnn_apple_fresh.c:206-217 | overlay updates in two consecutive traces add up |
| `CnnAppleFresh.FruitFreshnessFlag` | scenario/cnn_apple_fresh.c:109-136 | the loop writes exactly the status text of the first qualifying item (or "No fruit detected" exactly when none qualifies) and returns HI_SUCCESS |
| `CnnAppleFresh.CycleCallsShape` | scenario/cnn_apple_fresh.c:184-223 | an executed cycle makes the preparation steps first; a failing step ends it there; a completed cycle ends with the release of the cropped image and the resized frame |
| `CnnAppleFresh.OverlayUpdatedIffStatusChanged` | scenario/cnn_apple_fresh.c:205-217 | an executed cycle sets the overlay (once, with the new status at (20, 20) in ARGB1555 yellow) and forwards the frame exactly when all steps succeeded and the status differs from the previous one |
| `CnnAppleFresh.RepeatedStatusPublishesOnce` | scenario/cnn_apple_fresh.c:170-217 | two consecutive completed cycles with the same status update the overlay once if it changed from before, never twice |
| `CnnAppleFresh.FruitFreshnessClassifier.constructor` | scenario/cnn_apple_fresh.c:143-170 | the persisted timestamp starts at zero ("never run") and the previous status empty |
| `CnnAppleFresh.FruitFreshnessClassifier.FruitFreshnessCal` | scenario/cnn_apple_fresh.c:141-224 | a throttled call returns HI_SUCCESS and changes nothing, not even the call trace; otherwise the timestamp becomes now, the run is recorded, and the trace grows by exactly the cycle's calls; a failing step returns its code with prevOsd unchanged; a completed cycle leaves prevOsd equal to the new status and returns the frame-forwarding code if it changed, HI_SUCCESS otherwise |
| `CnnAppleFresh.FruitFreshnessClassifier.RunDetection` | scenario/cnn_apple_fresh.c:164-223 | after the gate: the timestamp is left alone, the trace grows by exactly the cycle's calls, a failing step returns its code with prevOsd unchanged, and a completed cycle publishes a changed status |
| `CnnAppleFresh.FruitFreshnessClassifier.FruitFreshnessCalEach` | scenario/cnn_apple_fresh.c:143-162 | a driver for the gate that states only the record of executed times and the timestamp: over a sequence of calls, the cycle executes exactly at ExecutedTimes, and the timestamp ends as LastRun, the last executed time |
| `CnnAppleFresh.RepeatedResultScenario` | scenario/cnn_apple_fresh.c:141-224 | the same result seen at 100 s, 105 s and 111 s leaves "fresh apple 0.85" published after one overlay update |
| `CnnTrashClassify.CnnTrashClassifyFlag` | scenario/cnn_trash_classify/cnn_trash_classify.c:103-130 | the loop writes exactly the status text of the first qualifying item (or "No fruit detected" exactly when none qualifies) and returns HI_SUCCESS |
| `CnnTrashClassify.CycleCallsShape` | scenario/cnn_trash_classify/cnn_trash_classify.c:177-207 | an executed cycle makes the preparation steps first; a failing step ends it there; a completed cycle reports the status and then releases the cropped image and the resized frame |
| `CnnTrashClassify.CycleLeavesOverlayAlone` | scenario/cnn_trash_classify/cnn_trash_classify.c:177-207 | no path updates the overlay or forwards the frame; a report is made exactly when the cycle completed, and it carries the status |
| `CnnTrashClassify.TrashClassifier.constructor` | scenario/cnn_trash_classify/cnn_trash_classify.c:137 | the persisted timestamp starts at zero ("never run") |
| `CnnTrashClassify.TrashClassifier.CnnTrashClassifyCal` | scenario/cnn_trash_classify/cnn_trash_classify.c:135-208 | a throttled call returns HI_SUCCESS and changes nothing; otherwise the timestamp becomes now, the run is recorded, the trace grows by exactly the cycle's calls, and the result is the first failing step's code or HI_SUCCESS |
| `CnnTrashClassify.TrashClassifier.RunDetection` | scenario/cnn_trash_classify/cnn_trash_classify.c:158-207 | after the gate: the timestamp is left alone, the trace grows by exactly the cycle's calls, and the result is the first failing step's code or HI_SUCCESS |
| `CnnTrashClassify.TrashClassifier.CnnTrashClassifyCalEach` | scenario/cnn_trash_classify/cnn_trash_classify.c:137-156 | a driver for the gate that states only the record of executed times and the timestamp: over a sequence of calls, the cycle executes exactly at ExecutedTimes, and the timestamp ends as LastRun, the last executed time |

## Left out

- Model loading and unloading (`FruitFreshnessLoadModel`, `FruitFreshnessUnloadModel`, `CnnTrashClassifyLoadModel`, `CnnTrashClassifyUnloadModel`) are not modelled. They are thin wrappers over vendor calls. A failure of the overlay library set-up or of the region creation is only asserted. A failure of model creation is returned as the load result, and the model handle is then 0.
- The overlay region handle created at load time is not modelled. Every overlay update of the fruit cycle goes to that one region, so `SetOverlay` records only the text, position and colour.
- The streaming-server thread spawned at trash-model load time is not modelled. It is concurrency with no lifecycle in the code.
- The vendor calls (frame resize, image conversion, crop, inference, frame forwarding, overlay region set, image and frame release) are not modelled. They are represented only by their return codes and results, passed in as a `Vendor` value, and by a ghost trace of their invocation.
- `gettimeofday` is not modelled. The current time is a parameter.
- Floating-point formatting is not modelled, beyond the nearest-hundredth rendering above. A score of 2^24 or more, which a 4096-scaled confidence never reaches, would not convert exactly to `float`, and that rounding is not modelled.
- Truncation of the status text to the output buffer is not modelled. The buffer size is defined in a header that is not part of this model.
- Diagnostic logging is not modelled, except for the trash classifier's report of the detection result. That report is its only output, and the model keeps it as a `Report` call.
- CnnAppleFresh.FruitFreshnessClassifier.FruitFreshnessCal requires the inference engine to return at most four results. The code asserts this and aborts otherwise, and the abort is not modelled.
- CnnTrashClassify.TrashClassifier.CnnTrashClassifyCal carries the same requirement for the same reason.
- CnnAppleFresh.FruitFreshnessClassifier.FruitFreshnessCalEach states only the executed times and the timestamp after a sequence of calls. The call trace and `prevOsd` are given call by call by `FruitFreshnessCal`, and are not summed up over the sequence.
- CnnTrashClassify.TrashClassifier.CnnTrashClassifyCalEach states only the executed times and the timestamp after a sequence of calls. The call trace is given call by call by `CnnTrashClassifyCal`.
- Label indices and scores are unbounded integers. Their C integer widths play no role in the comparisons made.
