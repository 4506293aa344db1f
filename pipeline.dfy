/**
 * The vendor collaborators a classification cycle calls, seen only through
 * what they return: each may fail with an error code. A `Vendor` value holds
 * the codes (and the inference results) the platform returns during one
 * cycle; a `Call` records that a collaborator was invoked.
 */
module Pipeline {
  import opened Recognition

  /** FRM_WIDTH x FRM_HEIGHT: the frame is resized to this before cropping. */
  const FrmWidth: int := 256
  const FrmHeight: int := 256
  /** TXT_BEGX, TXT_BEGY: where the status text is drawn. */
  const TxtBegX: int := 20
  const TxtBegY: int := 20

  /** The colour the status text is drawn in (ARGB1555_YELLOW2). */
  datatype TextColour = Argb1555Yellow2

  datatype RectBox = RectBox(xmin: int, ymin: int, xmax: int, ymax: int)

  /** The fixed centred region of interest (MIN_OF_BOX to MAX_OF_BOX) of the resized frame. */
  const CnnBox: RectBox := RectBox(16, 16, 240, 240)

  /**
   * What the platform returns during one cycle: the codes of MppFrmResize,
   * FrmToOrigImg, ImgYuvCrop, CnnCalImg and HI_MPI_VPSS_SendFrame, and the
   * ranked results CnnCalImg fills in.
   */
  datatype Vendor = Vendor(
    resizeRet: int,
    toImageRet: int,
    cropRet: int,
    cnnRet: int,
    results: seq<RecogNumInfo>,
    sendRet: int)

  /** A collaborator invocation, in the order a cycle makes them. */
  datatype Call =
    | Resize(width: int, height: int)
    | ToImage
    | Crop(box: RectBox)
    | Infer(maxResults: int)
    | SetOverlay(text: string, x: int, y: int, colour: TextColour)
    | SendFrame
    | Report(text: string)
    | ReleaseImage
    | ReleaseFrame

  /**
   * The code of the first preparation or inference step that fails, if any.
   * Resize and image conversion fail on any code other than success; the crop
   * and the inference fail only on a negative code.
   */
  function PipelineFailure(v: Vendor): (r: Option<int>)
    ensures r.Some? ==> r.value != HiSuccess
    ensures r.Some? ==> r.value in {v.resizeRet, v.toImageRet, v.cropRet, v.cnnRet}
    ensures r.None? <==>
      v.resizeRet == HiSuccess && v.toImageRet == HiSuccess && v.cropRet >= 0 && v.cnnRet >= 0
  {
    if v.resizeRet != HiSuccess then Some(v.resizeRet)
    else if v.toImageRet != HiSuccess then Some(v.toImageRet)
    else if v.cropRet < 0 then Some(v.cropRet)
    else if v.cnnRet < 0 then Some(v.cnnRet)
    else None
  }

  /**
   * Whether a preparation step fails on what the platform returns: resize
   * and image conversion on any code other than success, the crop and the
   * inference only on a negative code. No other call is checked.
   */
  predicate StepFails(v: Vendor, c: Call) {
    match c
    case Resize(_, _) => v.resizeRet != HiSuccess
    case ToImage => v.toImageRet != HiSuccess
    case Crop(_) => v.cropRet < 0
    case Infer(_) => v.cnnRet < 0
    case _ => false
  }

  /** The code a preparation step returns. */
  function StepCode(v: Vendor, c: Call): int {
    match c
    case Resize(_, _) => v.resizeRet
    case ToImage => v.toImageRet
    case Crop(_) => v.cropRet
    case Infer(_) => v.cnnRet
    case _ => HiSuccess
  }

  /** Every preparation step, in the order the cycle makes them. */
  const AllPreparationCalls: seq<Call> :=
    [Resize(FrmWidth, FrmHeight), ToImage, Crop(CnnBox), Infer(RetNumMax)]

  /**
   * The calls made from the resize up to the inference, stopping after the
   * first failing one: a non-empty prefix of the four steps, and inference
   * runs only on a frame that was resized, converted and cropped without error.
   */
  function PreparationCalls(v: Vendor): (r: seq<Call>)
    ensures 1 <= |r| <= 4 && r == AllPreparationCalls[..|r|]
    ensures Infer(RetNumMax) in r <==>
      v.resizeRet == HiSuccess && v.toImageRet == HiSuccess && v.cropRet >= 0
    ensures PipelineFailure(v).None? ==> r == AllPreparationCalls
  {
    if v.resizeRet != HiSuccess then [Resize(FrmWidth, FrmHeight)]
    else if v.toImageRet != HiSuccess then [Resize(FrmWidth, FrmHeight), ToImage]
    else if v.cropRet < 0 then [Resize(FrmWidth, FrmHeight), ToImage, Crop(CnnBox)]
    else AllPreparationCalls
  }

  /**
   * The steps stop at the first failure, whose code is the one returned:
   * every step made before the last succeeded, the last one fails exactly
   * when the cycle fails, and the failure's code is that step's code.
   */
  lemma StopsAtFirstFailure(v: Vendor)
    ensures forall i :: 0 <= i < |PreparationCalls(v)| - 1 ==> !StepFails(v, PreparationCalls(v)[i])
    ensures StepFails(v, PreparationCalls(v)[|PreparationCalls(v)| - 1]) <==> PipelineFailure(v).Some?
    ensures PipelineFailure(v).Some? ==>
      PipelineFailure(v).value == StepCode(v, PreparationCalls(v)[|PreparationCalls(v)| - 1])
  {
  }

  predicate IsOverlayUpdate(c: Call) {
    c.SetOverlay?
  }

  /** How many overlay updates a call trace holds. */
  function OverlayUpdates(calls: seq<Call>): nat {
    if calls == [] then 0
    else (if IsOverlayUpdate(calls[0]) then 1 else 0) + OverlayUpdates(calls[1..])
  }

  lemma {:induction false} OverlayUpdatesAppend(a: seq<Call>, b: seq<Call>)
    ensures OverlayUpdates(a + b) == OverlayUpdates(a) + OverlayUpdates(b)
  {
    if a != [] {
      assert (a + b)[1..] == a[1..] + b;
      OverlayUpdatesAppend(a[1..], b);
    } else {
      assert a + b == b;
    }
  }

  /** A trace counts no overlay update exactly when none of its calls is one. */
  lemma {:induction false} NoOverlayUpdates(calls: seq<Call>)
    ensures OverlayUpdates(calls) == 0 <==> forall i :: 0 <= i < |calls| ==> !calls[i].SetOverlay?
  {
    if calls != [] {
      NoOverlayUpdates(calls[1..]);
      assert forall i :: 0 < i < |calls| ==> calls[i] == calls[1..][i - 1];
    }
  }

  lemma PreparationCallsNoOverlay(v: Vendor)
    ensures OverlayUpdates(PreparationCalls(v)) == 0
  {
    NoOverlayUpdates(PreparationCalls(v));
  }
}
