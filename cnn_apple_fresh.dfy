/**
 * Fruit freshness classifier: a rate-limited cycle that classifies the
 * centre of the frame and, when the resulting status text changes, draws it
 * on the overlay and forwards the source frame.
 */
module CnnAppleFresh {
  import opened Recognition
  import opened Throttle
  import opened Pipeline

  /**
   * Scans the ranked results in order, skipping those below the threshold
   * or with an unknown label, writes the first remaining one and stops;
   * writes "No fruit detected" when none remains.
   */
  method FruitFreshnessFlag(items: seq<RecogNumInfo>) returns (ret: int, buf: string)
    ensures ret == HiSuccess
    ensures buf == Status(items)
    ensures buf == NoFruit <==> forall j :: 0 <= j < |items| ==> !Qualifies(items[j])
  {
    buf := "";
    var foundValidResult := false;
    ghost var at: nat := 0;
    for i := 0 to |items|
      invariant !foundValidResult && buf == ""
      invariant forall j :: 0 <= j < i ==> !Qualifies(items[j])
    {
      var item := items[i];
      if BelowThreshold(item.score) {
        continue;
      }
      if 0 <= item.num <= 9 {
        buf := buf + Describe(item);
        foundValidResult := true;
        at := i;
        break;
      }
    }
    if !foundValidResult {
      buf := buf + NoFruit;
      FirstMatchNone(items);
    } else {
      FirstMatchIsFirst(items, at);
      DescribeIsNotNoFruit(items[at]);
    }
    ret := HiSuccess;
  }

  /**
   * The calls of a completed cycle after the inference: the status is drawn
   * and the frame forwarded when it differs from `prevOsd`, then the cropped
   * image and the resized frame are released.
   */
  function CompletionCalls(status: string, prevOsd: string): seq<Call> {
    (if status != prevOsd then [SetOverlay(status, TxtBegX, TxtBegY, Argb1555Yellow2), SendFrame] else [])
    + [ReleaseImage, ReleaseFrame]
  }

  /**
   * The completion updates the overlay, once, and forwards the frame exactly
   * when the status changed; the text drawn is the new status.
   */
  lemma CompletionPublishesIffChanged(status: string, prevOsd: string)
    ensures OverlayUpdates(CompletionCalls(status, prevOsd)) == (if status != prevOsd then 1 else 0)
    ensures SendFrame in CompletionCalls(status, prevOsd) <==> status != prevOsd
    ensures forall t, x, y, c :: SetOverlay(t, x, y, c) in CompletionCalls(status, prevOsd) ==>
      t == status && t != prevOsd && x == TxtBegX && y == TxtBegY && c == Argb1555Yellow2
  {
    var publish := if status != prevOsd then [SetOverlay(status, TxtBegX, TxtBegY, Argb1555Yellow2), SendFrame] else [];
    OverlayUpdatesAppend(publish, [ReleaseImage, ReleaseFrame]);
    assert OverlayUpdates([ReleaseImage, ReleaseFrame]) == 0 by {
      NoOverlayUpdates([ReleaseImage, ReleaseFrame]);
    }
    if status != prevOsd {
      assert OverlayUpdates(publish) == 1 by {
        assert publish[1..][1..] == [];
      }
    }
  }

  /**
   * The collaborator calls of one executed cycle that starts with `prevOsd`
   * published: the preparation steps up to the first failure, and after a
   * completed inference the optional publication, then the two releases.
   */
  function CycleCalls(v: Vendor, prevOsd: string): seq<Call> {
    PreparationCalls(v) +
    if PipelineFailure(v).Some? then []
    else
      var status := Status(v.results);
      (if status != prevOsd then [SetOverlay(status, TxtBegX, TxtBegY, Argb1555Yellow2), SendFrame] else [])
      + [ReleaseImage, ReleaseFrame]
  }

  /**
   * An executed cycle makes the preparation steps first; a failing step ends
   * it there, and a completed one ends with the two releases.
   */
  lemma CycleCallsShape(v: Vendor, prevOsd: string)
    ensures |CycleCalls(v, prevOsd)| >= |PreparationCalls(v)|
    ensures CycleCalls(v, prevOsd)[..|PreparationCalls(v)|] == PreparationCalls(v)
    ensures PipelineFailure(v).Some? ==> CycleCalls(v, prevOsd) == PreparationCalls(v)
    ensures PipelineFailure(v).None? ==>
      |CycleCalls(v, prevOsd)| >= 6 &&
      CycleCalls(v, prevOsd)[|CycleCalls(v, prevOsd)| - 2..] == [ReleaseImage, ReleaseFrame]
  {
  }

  /**
   * An executed cycle updates the overlay, once, and forwards the frame
   * exactly when every step succeeded and the status differs from the one
   * published before; the text drawn is the new status.
   */
  lemma OverlayUpdatedIffStatusChanged(v: Vendor, prevOsd: string)
    ensures OverlayUpdates(CycleCalls(v, prevOsd)) ==
      (if PipelineFailure(v).None? && Status(v.results) != prevOsd then 1 else 0)
    ensures SendFrame in CycleCalls(v, prevOsd) <==>
      PipelineFailure(v).None? && Status(v.results) != prevOsd
    ensures forall t, x, y, c :: SetOverlay(t, x, y, c) in CycleCalls(v, prevOsd) ==>
      t == Status(v.results) && t != prevOsd && x == TxtBegX && y == TxtBegY && c == Argb1555Yellow2
  {
    var prep := PreparationCalls(v);
    var tail := CycleCalls(v, prevOsd)[|prep|..];
    assert CycleCalls(v, prevOsd) == prep + tail;
    PreparationCallsNoOverlay(v);
    OverlayUpdatesAppend(prep, tail);
    if PipelineFailure(v).None? {
      assert tail == CompletionCalls(Status(v.results), prevOsd);
      CompletionPublishesIffChanged(Status(v.results), prevOsd);
    } else {
      assert tail == [];
    }
  }

  /**
   * Two consecutive executed cycles that both complete with the same status
   * update the overlay once at most: only the first, and only if it differs
   * from what was published before them.
   */
  lemma RepeatedStatusPublishesOnce(v1: Vendor, v2: Vendor, prevOsd: string)
    requires PipelineFailure(v1).None? && PipelineFailure(v2).None?
    requires Status(v1.results) == Status(v2.results)
    ensures OverlayUpdates(CycleCalls(v1, prevOsd) + CycleCalls(v2, Status(v1.results))) ==
      (if Status(v1.results) != prevOsd then 1 else 0)
  {
    OverlayUpdatesAppend(CycleCalls(v1, prevOsd), CycleCalls(v2, Status(v1.results)));
    OverlayUpdatedIffStatusChanged(v1, prevOsd);
    OverlayUpdatedIffStatusChanged(v2, Status(v1.results));
  }

  /** The per-process state of the fruit freshness cycle and the calls it has made. */
  class FruitFreshnessClassifier {
    /** Time of the last executed cycle; zero seconds means none yet. */
    var lastDetectTime: Timeval
    /** The status text last published to the overlay. */
    var prevOsd: string
    /** Every collaborator call made so far, in order. */
    ghost var calls: seq<Call>
    /** The times at which a cycle was executed rather than skipped. */
    ghost var runs: seq<Timeval>

    constructor ()
      ensures lastDetectTime == NeverRun && prevOsd == "" && calls == [] && runs == []
    {
      lastDetectTime := NeverRun;
      prevOsd := "";
      calls := [];
      runs := [];
    }

    /**
     * One invocation of the cycle at wall-clock time `now`, against a
     * platform that returns what `vendor` holds.
     */
    method FruitFreshnessCal(now: Timeval, vendor: Vendor) returns (ret: int)
      requires |vendor.results| <= RetNumMax
      modifies this
      ensures Throttled(old(lastDetectTime), now) ==>
        ret == HiSuccess && lastDetectTime == old(lastDetectTime) &&
        prevOsd == old(prevOsd) && calls == old(calls) && runs == old(runs)
      ensures !Throttled(old(lastDetectTime), now) ==>
        lastDetectTime == now && runs == old(runs) + [now] &&
        calls == old(calls) + CycleCalls(vendor, old(prevOsd))
      ensures !Throttled(old(lastDetectTime), now) && PipelineFailure(vendor).Some? ==>
        ret == PipelineFailure(vendor).value && prevOsd == old(prevOsd)
      ensures !Throttled(old(lastDetectTime), now) && PipelineFailure(vendor).None? ==>
        prevOsd == Status(vendor.results) &&
        ret == (if Status(vendor.results) != old(prevOsd) then vendor.sendRet else HiSuccess)
    {
      var elapsedUsec := 0;
      if lastDetectTime.sec != 0 {
        elapsedUsec := ElapsedUsec(lastDetectTime, now);
      }
      if 0 < elapsedUsec < DetectionIntervalUsec {
        return HiSuccess;
      }
      lastDetectTime := now;
      runs := runs + [now];

      ret := RunDetection(vendor);
    }

    /**
     * The part of the cycle after the gate: prepare the frame, classify it
     * and publish a changed status. The timestamp is not touched here.
     */
    method RunDetection(vendor: Vendor) returns (ret: int)
      requires |vendor.results| <= RetNumMax
      modifies this
      ensures lastDetectTime == old(lastDetectTime) && runs == old(runs)
      ensures calls == old(calls) + CycleCalls(vendor, old(prevOsd))
      ensures PipelineFailure(vendor).Some? ==>
        ret == PipelineFailure(vendor).value && prevOsd == old(prevOsd)
      ensures PipelineFailure(vendor).None? ==>
        prevOsd == Status(vendor.results) &&
        ret == (if Status(vendor.results) != old(prevOsd) then vendor.sendRet else HiSuccess)
    {
      ret := vendor.resizeRet;
      calls := calls + [Resize(FrmWidth, FrmHeight)];
      if ret != HiSuccess {
        assert CycleCalls(vendor, old(prevOsd)) == [Resize(FrmWidth, FrmHeight)];
        return ret;
      }
      ret := vendor.toImageRet;
      calls := calls + [ToImage];
      if ret != HiSuccess {
        assert CycleCalls(vendor, old(prevOsd)) == [Resize(FrmWidth, FrmHeight), ToImage];
        return ret;
      }
      ret := vendor.cropRet;
      calls := calls + [Crop(CnnBox)];
      if ret < 0 {
        assert CycleCalls(vendor, old(prevOsd)) == [Resize(FrmWidth, FrmHeight), ToImage, Crop(CnnBox)];
        return ret;
      }
      ret := vendor.cnnRet;
      calls := calls + [Infer(RetNumMax)];
      if ret < 0 {
        return ret;
      }

      var osdBuf;
      ret, osdBuf := FruitFreshnessFlag(vendor.results);
      if osdBuf != prevOsd {
        prevOsd := osdBuf;
        calls := calls + [SetOverlay(osdBuf, TxtBegX, TxtBegY, Argb1555Yellow2)];
        ret := vendor.sendRet;
        calls := calls + [SendFrame];
      }
      calls := calls + [ReleaseImage, ReleaseFrame];
    }

    /**
     * The cycle invoked once for each time in `times`, as the frame loop
     * calls it, the platform returning `vendors[i]` on the i-th call: real
     * work is done exactly at ExecutedTimes, and the last of those is recorded.
     */
    method FruitFreshnessCalEach(times: seq<Timeval>, vendors: seq<Vendor>)
      requires |vendors| == |times|
      requires forall i :: 0 <= i < |vendors| ==> |vendors[i].results| <= RetNumMax
      modifies this
      ensures runs == old(runs) + ExecutedTimes(old(lastDetectTime), times)
      ensures lastDetectTime == LastRun(old(lastDetectTime), times)
    {
      for i := 0 to |times|
        invariant runs == old(runs) + ExecutedTimes(old(lastDetectTime), times[..i])
        invariant lastDetectTime == LastRun(old(lastDetectTime), times[..i])
      {
        ExecutedTimesSnoc(old(lastDetectTime), times[..i], times[i]);
        assert times[..i + 1] == times[..i] + [times[i]];
        var _ := FruitFreshnessCal(times[i], vendors[i]);
      }
      assert times[..|times|] == times;
    }
  }

  /**
   * A classifier started at 100 s that sees the same result at 100 s, 105 s
   * and 111 s runs twice, at 100 s and 111 s, and draws the status once.
   */
  method RepeatedResultScenario() returns (osd: string, ghost updates: nat)
    ensures osd == "fresh apple 0.85" && updates == 1
  {
    var c := new FruitFreshnessClassifier();
    var v := Vendor(HiSuccess, HiSuccess, HiSuccess, HiSuccess, [RecogNumInfo(0, 3500)], HiSuccess);
    StatusExamples();
    var r := c.FruitFreshnessCal(Timeval(100, 0), v);
    assert c.prevOsd == "fresh apple 0.85" && c.calls == CycleCalls(v, "");
    r := c.FruitFreshnessCal(Timeval(105, 0), v);
    assert c.calls == CycleCalls(v, "");
    r := c.FruitFreshnessCal(Timeval(111, 0), v);
    assert c.calls == CycleCalls(v, "") + CycleCalls(v, "fresh apple 0.85");
    assert c.runs == [Timeval(100, 0), Timeval(111, 0)];
    RepeatedStatusPublishesOnce(v, v, "");
    osd := c.prevOsd;
    updates := OverlayUpdates(c.calls);
  }
}
