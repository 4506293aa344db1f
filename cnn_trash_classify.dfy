/**
 * Trash classifier: the same rate-limited classification cycle as the fruit
 * freshness one, with the same interpretation of the ranked results, but the
 * status text is only reported; no overlay is drawn and no frame forwarded.
 */
module CnnTrashClassify {
  import opened Recognition
  import opened Throttle
  import opened Pipeline

  /**
   * Scans the ranked results in order, skipping those below the threshold
   * or with an unknown label, writes the first remaining one and stops;
   * writes "No fruit detected" when none remains.
   */
  method CnnTrashClassifyFlag(items: seq<RecogNumInfo>) returns (ret: int, buf: string)
    ensures ret == HiSuccess
    ensures buf == Status(items)
    ensures buf == NoFruit <==> forall j :: 0 <= j < |items| ==> !Qualifies(items[j])
  {
    buf := "";
    var foundValidResult := false;
    ghost var at: nat := 0;
    for i := 0 to |items|
      invariant !foundValidResult && buf == ""
      invariant forall j :: 0 <= j < i ==> !Qualifies(items[j])
    {
      var item := items[i];
      if BelowThreshold(item.score) {
        continue;
      }
      if 0 <= item.num <= 9 {
        buf := buf + Describe(item);
        foundValidResult := true;
        at := i;
        break;
      }
    }
    if !foundValidResult {
      buf := buf + NoFruit;
      FirstMatchNone(items);
    } else {
      FirstMatchIsFirst(items, at);
      DescribeIsNotNoFruit(items[at]);
    }
    ret := HiSuccess;
  }

  /**
   * The collaborator calls of one executed cycle: the preparation steps up to
   * the first failure, and after a completed inference the report of the
   * status, then the two releases.
   */
  function CycleCalls(v: Vendor): seq<Call> {
    PreparationCalls(v) +
    if PipelineFailure(v).Some? then []
    else [Report(Status(v.results)), ReleaseImage, ReleaseFrame]
  }

  /**
   * An executed cycle makes the preparation steps first; a failing step ends
   * it there, and a completed one reports and then makes the two releases.
   */
  lemma CycleCallsShape(v: Vendor)
    ensures |CycleCalls(v)| >= |PreparationCalls(v)|
    ensures CycleCalls(v)[..|PreparationCalls(v)|] == PreparationCalls(v)
    ensures PipelineFailure(v).Some? ==> CycleCalls(v) == PreparationCalls(v)
    ensures PipelineFailure(v).None? ==>
      |CycleCalls(v)| == 7 &&
      CycleCalls(v)[|CycleCalls(v)| - 3..] == [Report(Status(v.results)), ReleaseImage, ReleaseFrame]
  {
  }

  /**
   * No path of the cycle touches the overlay or forwards the frame; a
   * completed cycle reports exactly the status of the inference results.
   */
  lemma CycleLeavesOverlayAlone(v: Vendor)
    ensures OverlayUpdates(CycleCalls(v)) == 0
    ensures SendFrame !in CycleCalls(v)
    ensures forall t :: Report(t) in CycleCalls(v) <==>
      PipelineFailure(v).None? && t == Status(v.results)
  {
    NoOverlayUpdates(CycleCalls(v));
  }

  /** The per-process state of the trash classification cycle and the calls it has made. */
  class TrashClassifier {
    /** Time of the last executed cycle; zero seconds means none yet. */
    var lastDetectTime: Timeval
    /** Every collaborator call made so far, in order. */
    ghost var calls: seq<Call>
    /** The times at which a cycle was executed rather than skipped. */
    ghost var runs: seq<Timeval>

    constructor ()
      ensures lastDetectTime == NeverRun && calls == [] && runs == []
    {
      lastDetectTime := NeverRun;
      calls := [];
      runs := [];
    }

    /**
     * One invocation of the cycle at wall-clock time `now`, against a
     * platform that returns what `vendor` holds.
     */
    method CnnTrashClassifyCal(now: Timeval, vendor: Vendor) returns (ret: int)
      requires |vendor.results| <= RetNumMax
      modifies this
      ensures Throttled(old(lastDetectTime), now) ==>
        ret == HiSuccess && lastDetectTime == old(lastDetectTime) &&
        calls == old(calls) && runs == old(runs)
      ensures !Throttled(old(lastDetectTime), now) ==>
        lastDetectTime == now && runs == old(runs) + [now] &&
        calls == old(calls) + CycleCalls(vendor)
      ensures !Throttled(old(lastDetectTime), now) ==>
        ret == (match PipelineFailure(vendor) case Some(code) => code case None => HiSuccess)
    {
      var elapsedUsec := 0;
      if lastDetectTime.sec != 0 {
        elapsedUsec := ElapsedUsec(lastDetectTime, now);
      }
      if 0 < elapsedUsec < DetectionIntervalUsec {
        return HiSuccess;
      }
      lastDetectTime := now;
      runs := runs + [now];

      ret := RunDetection(vendor);
    }

    /**
     * The part of the cycle after the gate: prepare the frame, classify it
     * and report the status. The timestamp is not touched here.
     */
    method RunDetection(vendor: Vendor) returns (ret: int)
      requires |vendor.results| <= RetNumMax
      modifies this
      ensures lastDetectTime == old(lastDetectTime) && runs == old(runs)
      ensures calls == old(calls) + CycleCalls(vendor)
      ensures ret == (match PipelineFailure(vendor) case Some(code) => code case None => HiSuccess)
    {
      ret := vendor.resizeRet;
      calls := calls + [Resize(FrmWidth, FrmHeight)];
      if ret != HiSuccess {
        return ret;
      }
      ret := vendor.toImageRet;
      calls := calls + [ToImage];
      if ret != HiSuccess {
        return ret;
      }
      ret := vendor.cropRet;
      calls := calls + [Crop(CnnBox)];
      if ret < 0 {
        return ret;
      }
      ret := vendor.cnnRet;
      calls := calls + [Infer(RetNumMax)];
      if ret < 0 {
        return ret;
      }

      var osdBuf;
      ret, osdBuf := CnnTrashClassifyFlag(vendor.results);
      calls := calls + [Report(osdBuf)];
      calls := calls + [ReleaseImage, ReleaseFrame];
    }

    /**
     * The cycle invoked once for each time in `times`, as the frame loop
     * calls it, the platform returning `vendors[i]` on the i-th call: real
     * work is done exactly at ExecutedTimes, and the last of those is recorded.
     */
    method CnnTrashClassifyCalEach(times: seq<Timeval>, vendors: seq<Vendor>)
      requires |vendors| == |times|
      requires forall i :: 0 <= i < |vendors| ==> |vendors[i].results| <= RetNumMax
      modifies this
      ensures runs == old(runs) + ExecutedTimes(old(lastDetectTime), times)
      ensures lastDetectTime == LastRun(old(lastDetectTime), times)
    {
      for i := 0 to |times|
        invariant runs == old(runs) + ExecutedTimes(old(lastDetectTime), times[..i])
        invariant lastDetectTime == LastRun(old(lastDetectTime), times[..i])
      {
        ExecutedTimesSnoc(old(lastDetectTime), times[..i], times[i]);
        assert times[..i + 1] == times[..i] + [times[i]];
        var _ := CnnTrashClassifyCal(times[i], vendors[i]);
      }
      assert times[..|times|] == times;
    }
  }
}
