/**
 * The obstacle pipeline of the AR renderer: on each drawn frame, every tenth
 * frame while guiding and while no request is in flight, the 16-bit depth frame
 * is packed into bytes and scanned for a sample closer than the danger
 * threshold; a dangerous frame (or, without AR depth, any admitted frame)
 * takes the single busy flag and launches one vision request that speaks its
 * answer, and every exit path hands the flag back.
 */
module HelloArRenderer {
  import opened Jvm
  import opened Text
  import opened Options
  import opened Atomic
  import opened PathGuidanceState

  const FRAME_SKIP_INTERVAL: nat := 10
  const DEPTH_THRESHOLD_MM: int := 2000
  const ERROR_MARKER := "Error"
  const NO_SIGNIFICANT_CHANGE := "No significant change"

  // ----- Danger scan -----

  /** A sample, read as unsigned millimetres, is dangerous when it is non-zero and nearer than the threshold. */
  predicate IsDangerous(v: nat, threshold: int) {
    v < threshold && v > 0
  }

  /** The index of the first dangerous sample, or `|s|` when there is none. */
  function FirstDanger(s: seq<Short>, threshold: int): (k: nat)
    ensures k <= |s|
    ensures k < |s| ==> IsDangerous(U16(s[k]), threshold)
    ensures forall j | 0 <= j < k :: !IsDangerous(U16(s[j]), threshold)
  {
    if s == [] then 0
    else if IsDangerous(U16(s[0]), threshold) then 0
    else 1 + FirstDanger(s[1..], threshold)
  }

  /** How many samples the scan reads before it stops: up to and including the first dangerous one. */
  function Examined(s: seq<Short>, threshold: int): (n: nat)
    ensures n <= |s|
    ensures n == |s| || (n > 0 && IsDangerous(U16(s[n - 1]), threshold))
  {
    var k := FirstDanger(s, threshold);
    if k < |s| then k + 1 else |s|
  }

  /** The largest unsigned value among the samples; 0 for no samples. */
  function MaxU16(s: seq<Short>): (m: nat)
    ensures forall i | 0 <= i < |s| :: U16(s[i]) <= m
    ensures m == 0 || exists i | 0 <= i < |s| :: U16(s[i]) == m
  {
    if s == [] then 0
    else
      var front := s[..|s| - 1];
      var m := MaxU16(front);
      var v := U16(s[|s| - 1]);
      assert forall i | 0 <= i < |front| :: front[i] == s[i];
      if v > m then v else m
  }

  /** The scan of the depth frame: stops at the first dangerous sample and keeps the
      largest value read so far. */
  method ScanForDanger(depth: array<Short>, threshold: int) returns (danger: bool, maxDepth: nat)
    ensures danger <==> exists i | 0 <= i < depth.Length :: IsDangerous(U16(depth[i]), threshold)
    ensures danger <==> FirstDanger(depth[..], threshold) < depth.Length
    ensures maxDepth == MaxU16(depth[..Examined(depth[..], threshold)])
  {
    danger := false;
    maxDepth := 0;
    var i := 0;
    while i < depth.Length
      invariant 0 <= i <= depth.Length
      invariant forall j | 0 <= j < i :: !IsDangerous(U16(depth[j]), threshold)
      invariant maxDepth == MaxU16(depth[..i])
    {
      var depthValueMm := U16(depth[i]);
      assert depth[..i + 1][..i] == depth[..i];
      if depthValueMm > maxDepth {
        maxDepth := depthValueMm;
      }
      assert maxDepth == MaxU16(depth[..i + 1]);
      if depthValueMm < threshold && depthValueMm > 0 {
        danger := true;
        assert FirstDanger(depth[..], threshold) == i;
        assert Examined(depth[..], threshold) == i + 1;
        break;
      }
      i := i + 1;
    }
    if !danger {
      assert depth[..depth.Length] == depth[..];
      assert Examined(depth[..], threshold) == depth.Length;
    }
    DangerExists(depth[..], threshold);
  }

  /** The scan's stopping index is inside the frame exactly when some sample is dangerous. */
  lemma DangerExists(s: seq<Short>, threshold: int)
    ensures FirstDanger(s, threshold) < |s| <==> exists i | 0 <= i < |s| :: IsDangerous(U16(s[i]), threshold)
  {
    var k := FirstDanger(s, threshold);
    if k < |s| {
      assert IsDangerous(U16(s[k]), threshold);
    }
  }

  /** A frame of zeros has no dangerous sample and a maximum of 0. */
  lemma AllZeroIsSafe(s: seq<Short>, threshold: int)
    requires forall i | 0 <= i < |s| :: s[i] == 0
    ensures FirstDanger(s, threshold) == |s| && MaxU16(s) == 0
  {
    DangerExists(s, threshold);
  }

  // ----- Big-endian packing of the samples -----

  /** `(v shr 8).toByte()` of the unsigned sample. */
  function HighByte(s: Short): Byte {
    ToByte(U16(s) / 256)
  }

  /** `(v and 0xFF).toByte()` of the unsigned sample. */
  function LowByte(s: Short): Byte {
    ToByte(U16(s) % 256)
  }

  /** Each sample becomes two bytes, high byte first. */
  function Packed(s: seq<Short>): (r: seq<Byte>)
    ensures |r| == 2 * |s|
    ensures forall i | 0 <= i < |s| :: r[2 * i] == HighByte(s[i]) && r[2 * i + 1] == LowByte(s[i])
  {
    if s == [] then [] else [HighByte(s[0]), LowByte(s[0])] + Packed(s[1..])
  }

  /** Reads byte pairs back as `(hi shl 8) or lo` over the unsigned bytes. */
  function Unpacked(b: seq<Byte>): (r: seq<nat>)
    requires |b| % 2 == 0
    ensures |r| == |b| / 2
  {
    if b == [] then [] else [UByte(b[0]) * 256 + UByte(b[1])] + Unpacked(b[2..])
  }

  /** The unsigned values of the samples. */
  function UnsignedSamples(s: seq<Short>): (r: seq<nat>)
    ensures |r| == |s| && forall i | 0 <= i < |s| :: r[i] == U16(s[i])
  {
    if s == [] then [] else [U16(s[0])] + UnsignedSamples(s[1..])
  }

  /** One sample survives its two bytes. */
  lemma SampleRoundTrip(s: Short)
    ensures UByte(HighByte(s)) * 256 + UByte(LowByte(s)) == U16(s)
  {
    var v := U16(s);
    var hi, lo := v / 256, v % 256;
    assert v == hi * 256 + lo && hi < 256 && lo < 256;
    UByteOfToByte(hi);
    UByteOfToByte(lo);
    assert hi % 256 == hi && lo % 256 == lo;
  }

  /** The whole frame survives packing. */
  lemma {:induction false} UnpackPacked(s: seq<Short>)
    ensures Unpacked(Packed(s)) == UnsignedSamples(s)
  {
    if s != [] {
      UnpackPacked(s[1..]);
      SampleRoundTrip(s[0]);
      assert Packed(s)[2..] == Packed(s[1..]);
    }
  }

  /** Fills a new byte array of twice the length, sample by sample. */
  method PackDepth(samples: array<Short>) returns (bytes: array<Byte>)
    ensures fresh(bytes)
    ensures bytes[..] == Packed(samples[..])
  {
    bytes := new Byte[samples.Length * 2];
    for i := 0 to samples.Length
      invariant forall j | 0 <= j < i :: bytes[2 * j] == HighByte(samples[j]) && bytes[2 * j + 1] == LowByte(samples[j])
    {
      var depthIntValue := U16(samples[i]);
      bytes[i * 2] := ToByte(depthIntValue / 256);
      bytes[i * 2 + 1] := ToByte(depthIntValue % 256);
    }
    var p := Packed(samples[..]);
    forall k | 0 <= k < bytes.Length
      ensures bytes[k] == p[k]
    {
      var i := k / 2;
      assert samples[..][i] == samples[i];
      if k % 2 == 0 {
        assert k == 2 * i;
      } else {
        assert k == 2 * i + 1;
      }
    }
  }

  // ----- Compass names -----

  const DIRECTIONS: seq<string> :=
    ["North", "North-East", "East", "South-East", "South", "South-West", "West", "North-West", "North"]

  /** `Math.round(bearing / 45f) % 8`, a negative index for bearings below -22.5 degrees
      that are not a whole turn away from north. */
  function DirectionIndex(bearing: real): (i: int)
    ensures -8 < i < 8
  {
    Rem8(Round(bearing / 45.0))
  }

  /** The compass name of a bearing; `None` where the array index is negative and the
      lookup throws. */
  function BearingToDirection(bearing: real): (r: Option<string>)
    ensures r.Some? <==> DirectionIndex(bearing) >= 0
    ensures r.Some? ==> r.value in DIRECTIONS[..8]
  {
    var i := DirectionIndex(bearing);
    if i >= 0 then Some(DIRECTIONS[i]) else None
  }

  /** A bearing in the 45-degree sector centred on `45 * k` gets the k-th name; the
      ninth name, "North" again, covers the sector centred on 360. */
  lemma DirectionSector(bearing: real, k: nat)
    requires k <= 8
    requires 45.0 * k as real - 22.5 <= bearing < 45.0 * k as real + 22.5
    ensures BearingToDirection(bearing) == Some(DIRECTIONS[k])
  {
    var n := Round(bearing / 45.0);
    assert n == k;
  }

  /** Every bearing of a full turn has a name, and bearings near 0 and near 360 are both north. */
  lemma DirectionTotalOnCircle(bearing: real)
    requires 0.0 <= bearing < 360.0
    ensures BearingToDirection(bearing).Some?
    ensures bearing < 22.5 || bearing >= 337.5 ==> BearingToDirection(bearing) == Some("North")
  {
    var k: nat := Round(bearing / 45.0);
    DirectionSector(bearing, k);
  }

  /** A whole turn more gives the same name, from -22.5 degrees on. */
  lemma DirectionPeriodic(bearing: real)
    requires bearing >= -22.5
    ensures BearingToDirection(bearing + 360.0) == BearingToDirection(bearing)
  {
    var q := bearing / 45.0;
    var n := Round(q);
    assert (bearing + 360.0) / 45.0 == q + 8.0;
    assert Round(q + 8.0) == n + 8;
    assert n >= 0 && (n + 8) % 8 == n % 8;
  }

  /** West given as -90 degrees has no name: the lookup index is -2. */
  lemma NegativeBearingHasNoName()
    ensures DirectionIndex(-90.0) == -2 && BearingToDirection(-90.0) == None
  {
    assert Round(-90.0 / 45.0) == -2;
  }

  // ----- Which answers are spoken -----

  /** The Gemini answer is shown whenever there is one, and spoken unless it contains "Error". */
  function GeminiSpoken(guidance: Option<string>): (r: Option<string>)
    ensures r.Some? <==> guidance.Some? && !Contains(guidance.value, ERROR_MARKER)
    ensures r.Some? ==> r == guidance
  {
    match guidance
    case None => None
    case Some(g) => if Contains(g, ERROR_MARKER) then None else Some(g)
  }

  /** The local server's answers, each spoken unless it reports no significant change. */
  function LocalServerSpoken(results: seq<string>): (r: seq<string>)
    ensures forall t | t in r :: t in results && !Contains(t, NO_SIGNIFICANT_CHANGE)
    ensures forall t | t in results && !Contains(t, NO_SIGNIFICANT_CHANGE) :: t in r
  {
    if results == [] then []
    else
      var rest := LocalServerSpoken(results[1..]);
      if Contains(results[0], NO_SIGNIFICANT_CHANGE) then rest else [results[0]] + rest
  }

  /** The filter keeps order and multiplicity: the answers of a concatenation are spoken as
      the first part's, then the second's, ... */
  lemma {:induction false} LocalServerSpokenAppend(a: seq<string>, b: seq<string>)
    ensures LocalServerSpoken(a + b) == LocalServerSpoken(a) + LocalServerSpoken(b)
  {
    if a == [] {
      assert a + b == b;
    } else {
      assert (a + b)[0] == a[0] && (a + b)[1..] == a[1..] + b;
      LocalServerSpokenAppend(a[1..], b);
    }
  }

  /** ... and a single answer is spoken once exactly when it does not report no change. */
  lemma LocalServerSpokenSingle(t: string)
    ensures LocalServerSpoken([t]) == if Contains(t, NO_SIGNIFICANT_CHANGE) then [] else [t]
  {
  }

  /** The first text part of the curl answer, trimmed; spoken when not blank and not
      reporting no significant change. */
  function CurlSpoken(text: string): (r: Option<string>)
    ensures r.Some? <==> !IsBlank(text) && !Contains(Trim(text), NO_SIGNIFICANT_CHANGE)
    ensures r.Some? ==>
      (r.value == Trim(text) && r.value != []
       && !IsWhitespace(r.value[0]) && !IsWhitespace(r.value[|r.value| - 1]))
  {
    var sanitized := Trim(text);
    if !IsBlank(sanitized) && !Contains(sanitized, NO_SIGNIFICANT_CHANGE) then Some(sanitized) else None
  }

  // ----- The admission gate, as a state machine -----

  /** What the gate holds: the frame counters, the busy flag, whether the warning tone
      was started and not stopped, the launched requests (each with the instruction it
      captured) and the answers spoken. */
  datatype Gate = Gate(frameCounter: nat, depthCount: nat, busy: bool, toneOn: bool,
                       jobs: seq<string>, spoken: seq<string>)

  datatype SessionUpdate = Updated | CameraNotAvailable | UpdateThrew
  datatype DepthImage = NotYetAvailable | AcquireFailed | Acquired(samples: seq<Short>)

  /** What a drawn frame brings: whether there is a session, how its update went,
      whether the depth shader assets could be read, whether the frame takes the
      AR-depth path (tracking and depth wanted), the depth image, whether the camera
      image could be acquired and converted, and whether the depth texture upload or
      a later rendering step threw. */
  datatype FrameEvent = FrameEvent(hasSession: bool, update: SessionUpdate, assetsReadable: bool,
                                   useDepthPath: bool, depth: DepthImage, cameraImageOk: bool,
                                   textureUpdateThrows: bool, laterStepThrows: bool)

  const INITIAL_GATE := Gate(0, 0, false, false, [], [])

  /** `if (isProcessing.getAndSet(false)) stopBeeping()`. */
  function Release(g: Gate): Gate {
    g.(busy := false, toneOn := if g.busy then false else g.toneOn)
  }

  /** The admission test: every tenth frame, nothing in flight, guiding. */
  predicate Admitted(g: Gate, guiding: bool) {
    g.frameCounter % FRAME_SKIP_INTERVAL == 0 && !g.busy && guiding
  }

  /** `compareAndSet(false, true)`, then the tone and the launch; a failure to get the
      camera image hands the flag back. */
  function Dispatch(g: Gate, cameraImageOk: bool, instruction: string): Gate {
    if g.busy then g
    else if cameraImageOk then g.(busy := true, toneOn := true, jobs := g.jobs + [instruction])
    else Release(g.(busy := true, toneOn := true))
  }

  /** An admitted AR-depth frame: counted, scanned, and dispatched when dangerous. */
  function ScanFrame(g: Gate, samples: seq<Short>, cameraImageOk: bool, instruction: string): Gate {
    var counted := g.(depthCount := g.depthCount + 1);
    if FirstDanger(samples, DEPTH_THRESHOLD_MM) < |samples| then Dispatch(counted, cameraImageOk, instruction)
    else counted
  }

  /** The AR-depth path of a frame. */
  function HaveDepth(g: Gate, e: FrameEvent, guiding: bool, instruction: string): Gate {
    match e.depth
    case NotYetAvailable => g
    case AcquireFailed => Release(g)
    case Acquired(samples) =>
      var scanned := if Admitted(g, guiding) then ScanFrame(g, samples, e.cameraImageOk, instruction) else g;
      if e.textureUpdateThrows then Release(scanned) else scanned
  }

  /** The path without AR depth: every admitted frame dispatches. */
  function NoDepth(g: Gate, e: FrameEvent, guiding: bool, instruction: string): Gate {
    if Admitted(g, guiding) then Dispatch(g, e.cameraImageOk, instruction) else g
  }

  /** The rest of a frame once the session has updated and the frame is counted. */
  function UpdatedFrame(g: Gate, e: FrameEvent, guiding: bool, instruction: string): Gate {
    if !e.assetsReadable then g
    else
      var checked :=
        if e.useDepthPath then HaveDepth(g, e, guiding, instruction)
        else NoDepth(g, e, guiding, instruction);
      if e.laterStepThrows then Release(checked) else checked
  }

  /** One drawn frame, given the guiding flag and the instruction in the shared state. */
  function DrawFrame(g: Gate, e: FrameEvent, guiding: bool, instruction: string): (h: Gate)
    ensures h.frameCounter == g.frameCounter + if e.hasSession && e.update == Updated then 1 else 0
    ensures h.spoken == g.spoken
    ensures h.jobs == g.jobs
      || (h.jobs == g.jobs + [instruction] && Admitted(g.(frameCounter := h.frameCounter), guiding))
    ensures h.depthCount == g.depthCount
      || (h.depthCount == g.depthCount + 1 && e.useDepthPath && Admitted(g.(frameCounter := h.frameCounter), guiding))
    ensures !g.busy && h.busy ==> h.toneOn && h.jobs == g.jobs + [instruction]
  {
    if !e.hasSession then g
    else
      match e.update
      case CameraNotAvailable => g
      case UpdateThrew => Release(g)
      case Updated => UpdatedFrame(g.(frameCounter := g.frameCounter + 1), e, guiding, instruction)
  }

  /** A launched Gemini request runs to its end: the answer is spoken unless it is an
      error, and the `finally` block hands the flag back. */
  function FinishGemini(g: Gate, guidance: Option<string>): (h: Gate)
    requires g.jobs != []
    ensures h.jobs == g.jobs[1..] && !h.busy
    ensures h.spoken == g.spoken + match GeminiSpoken(guidance) case Some(t) => [t] case None => []
    ensures h.frameCounter == g.frameCounter && h.depthCount == g.depthCount
  {
    var spoken := match GeminiSpoken(guidance) case Some(t) => g.spoken + [t] case None => g.spoken;
    Release(g.(jobs := g.jobs[1..], spoken := spoken))
  }

  /** At most one request in flight, exactly while the flag is held and the tone is on. */
  predicate SingleFlight(g: Gate) {
    |g.jobs| <= 1 && (g.busy <==> |g.jobs| == 1) && g.toneOn == g.busy
  }

  /** The frame raises an exception outside the dispatch itself; its handler hands the
      flag back whoever holds it. */
  predicate ThrowsOutsideDispatch(e: FrameEvent) {
    e.update == UpdateThrew || e.depth == AcquireFailed || e.textureUpdateThrows || e.laterStepThrows
  }

  lemma InitialSingleFlight()
    ensures SingleFlight(INITIAL_GATE)
  {
  }

  /** A frame that raises nothing outside the dispatch keeps a single request in flight. */
  lemma DrawFramePreservesSingleFlight(g: Gate, e: FrameEvent, guiding: bool, instruction: string)
    requires SingleFlight(g) && !ThrowsOutsideDispatch(e)
    ensures SingleFlight(DrawFrame(g, e, guiding, instruction))
  {
  }

  /** Finishing the request in flight frees the gate. */
  lemma FinishPreservesSingleFlight(g: Gate, guidance: Option<string>)
    requires SingleFlight(g) && g.jobs != []
    ensures SingleFlight(FinishGemini(g, guidance)) && FinishGemini(g, guidance).jobs == []
  {
  }

  /** A rendering exception in the frame that dispatched hands back the flag while the
      request is still in flight; ten frames later a second request is launched beside it. */
  lemma StrayReleaseAllowsSecondFlight(instruction: string)
    ensures
      var dispatching := FrameEvent(true, Updated, true, false, NotYetAvailable, true, false, false);
      var throwing := dispatching.(laterStepThrows := true);
      var g1 := DrawFrame(INITIAL_GATE.(frameCounter := 9), throwing, true, instruction);
      var g2 := DrawFrame(g1.(frameCounter := 19), dispatching, true, instruction);
      && !g1.busy && g1.jobs == [instruction] && !SingleFlight(g1)
      && g2.jobs == [instruction, instruction]
  {
  }

  /** The flag is never held without a request in flight to hand it back. */
  predicate NoLeak(g: Gate) {
    g.busy ==> g.jobs != []
  }

  /** Every frame, throwing or not, keeps the flag from leaking: each exit path that took
      the flag without launching a request hands it back. */
  lemma DrawFramePreservesNoLeak(g: Gate, e: FrameEvent, guiding: bool, instruction: string)
    requires NoLeak(g)
    ensures NoLeak(DrawFrame(g, e, guiding, instruction))
  {
  }

  /** The `finally` block of a finished request leaves the flag free. */
  lemma FinishFreesFlag(g: Gate, guidance: Option<string>)
    requires g.jobs != []
    ensures NoLeak(FinishGemini(g, guidance)) && !FinishGemini(g, guidance).busy
  {
  }

  // ----- The admission gate with owner-aware handlers -----

  /** The corrected catch-all handler: hands the flag back only when the frame that began
      in `start` took it and launched no request with it. */
  function OwnedRelease(start: Gate, g: Gate): Gate {
    if g.busy && !start.busy && g.jobs == start.jobs then Release(g) else g
  }

  /** `HaveDepth` with owner-aware handlers. */
  function HaveDepthCorrected(g: Gate, e: FrameEvent, guiding: bool, instruction: string): Gate {
    match e.depth
    case NotYetAvailable => g
    case AcquireFailed => OwnedRelease(g, g)
    case Acquired(samples) =>
      var scanned := if Admitted(g, guiding) then ScanFrame(g, samples, e.cameraImageOk, instruction) else g;
      if e.textureUpdateThrows then OwnedRelease(g, scanned) else scanned
  }

  /** `UpdatedFrame` with owner-aware handlers. */
  function UpdatedFrameCorrected(g: Gate, e: FrameEvent, guiding: bool, instruction: string): Gate {
    if !e.assetsReadable then g
    else
      var checked :=
        if e.useDepthPath then HaveDepthCorrected(g, e, guiding, instruction)
        else NoDepth(g, e, guiding, instruction);
      if e.laterStepThrows then OwnedRelease(g, checked) else checked
  }

  /** `DrawFrame` with owner-aware handlers: a request's flag is handed back only by the
      request's own `finally` block. */
  function DrawFrameCorrected(g: Gate, e: FrameEvent, guiding: bool, instruction: string): Gate {
    if !e.hasSession then g
    else
      match e.update
      case CameraNotAvailable => g
      case UpdateThrew => OwnedRelease(g, g)
      case Updated => UpdatedFrameCorrected(g.(frameCounter := g.frameCounter + 1), e, guiding, instruction)
  }

  /** With owner-aware handlers every frame, throwing or not, keeps a single request in flight. */
  lemma DrawFrameCorrectedPreservesSingleFlight(g: Gate, e: FrameEvent, guiding: bool, instruction: string)
    requires SingleFlight(g)
    ensures SingleFlight(DrawFrameCorrected(g, e, guiding, instruction))
  {
  }

  /** The corrected gate differs from the code only in frames that throw outside the dispatch. */
  lemma CorrectedAgreesWithoutThrow(g: Gate, e: FrameEvent, guiding: bool, instruction: string)
    requires !ThrowsOutsideDispatch(e)
    ensures DrawFrameCorrected(g, e, guiding, instruction) == DrawFrame(g, e, guiding, instruction)
  {
  }

  /** The corrected gate never lets a second request launch: on the frames of
      `StrayReleaseAllowsSecondFlight`, the second frame is not admitted. */
  lemma CorrectedBlocksSecondFlight(instruction: string)
    ensures
      var dispatching := FrameEvent(true, Updated, true, false, NotYetAvailable, true, false, false);
      var throwing := dispatching.(laterStepThrows := true);
      var g1 := DrawFrameCorrected(INITIAL_GATE.(frameCounter := 9), throwing, true, instruction);
      var g2 := DrawFrameCorrected(g1.(frameCounter := 19), dispatching, true, instruction);
      && g1.busy && g1.jobs == [instruction] && SingleFlight(g1)
      && g2.jobs == [instruction]
  {
  }

  class Renderer {
    const guidanceState: GuidanceState
    const isProcessing: AtomicBoolean
    var frameCounter: nat
    var depthCount: nat
    var toneOn: bool
    var jobs: seq<string>
    var spoken: seq<string>

    function State(): Gate
      reads this, isProcessing
    {
      Gate(frameCounter, depthCount, isProcessing.value, toneOn, jobs, spoken)
    }

    constructor (guidanceState: GuidanceState)
      ensures State() == INITIAL_GATE && this.guidanceState == guidanceState && fresh(isProcessing)
    {
      this.guidanceState := guidanceState;
      isProcessing := new AtomicBoolean(false);
      frameCounter := 0;
      depthCount := 0;
      toneOn := false;
      jobs := [];
      spoken := [];
    }

    method StartBeeping()
      modifies this
      ensures State() == old(State()).(toneOn := true)
    {
      toneOn := true;
    }

    method StopBeeping()
      modifies this
      ensures State() == old(State()).(toneOn := false)
    {
      toneOn := false;
    }

    /** The release every exit path performs. */
    method ReleaseBusy()
      modifies this, isProcessing
      ensures State() == Release(old(State()))
    {
      var wasProcessing := isProcessing.GetAndSet(false);
      if wasProcessing {
        StopBeeping();
      }
    }

    /** Takes the flag and launches the request with the current instruction. */
    method TryDispatch(cameraImageOk: bool)
      modifies this, isProcessing
      ensures State() == Dispatch(old(State()), cameraImageOk, guidanceState.currentInstruction)
    {
      var acquired := isProcessing.CompareAndSet(false, true);
      if acquired {
        StartBeeping();
        var overallDirection := guidanceState.GetInstruction();
        if cameraImageOk {
          jobs := jobs + [overallDirection];
        } else {
          ReleaseBusy();
        }
      }
    }

    method HaveARDepth(e: FrameEvent)
      modifies this, isProcessing
      ensures State() == HaveDepth(old(State()), e, guidanceState.startGuiding, guidanceState.currentInstruction)
    {
      match e.depth {
        case NotYetAvailable =>
        case AcquireFailed =>
          ReleaseBusy();
        case Acquired(samples) =>
          var busy := isProcessing.Get();
          var guiding := guidanceState.GetStartGuiding();
          if frameCounter % FRAME_SKIP_INTERVAL == 0 && !busy && guiding {
            ProcessDepthFrame(samples, e.cameraImageOk);
          }
          if e.textureUpdateThrows {
            ReleaseBusy();
          }
      }
    }

    /** Copies the depth frame, packs it, scans it and dispatches when it is dangerous. */
    method ProcessDepthFrame(samples: seq<Short>, cameraImageOk: bool)
      modifies this, isProcessing
      ensures State() == ScanFrame(old(State()), samples, cameraImageOk, guidanceState.currentInstruction)
    {
      depthCount := depthCount + 1;
      var danger := ExamineDepthFrame(samples);
      if danger {
        TryDispatch(cameraImageOk);
      }
    }

    /** The copy, packing and scan of one depth frame: danger exactly when the frame has a
        dangerous sample. */
    static method ExamineDepthFrame(samples: seq<Short>) returns (danger: bool)
      ensures danger <==> FirstDanger(samples, DEPTH_THRESHOLD_MM) < |samples|
    {
      var tempDepthArray := new Short[|samples|](i requires 0 <= i < |samples| => samples[i]);
      assert tempDepthArray[..] == samples;
      var depthAsByteArray := PackDepth(tempDepthArray);
      var maxDepth;
      danger, maxDepth := ScanForDanger(tempDepthArray, DEPTH_THRESHOLD_MM);
    }

    method NoARDepth(e: FrameEvent)
      modifies this, isProcessing
      ensures State() == NoDepth(old(State()), e, guidanceState.startGuiding, guidanceState.currentInstruction)
    {
      var busy := isProcessing.Get();
      var guiding := guidanceState.GetStartGuiding();
      if frameCounter % FRAME_SKIP_INTERVAL == 0 && !busy && guiding {
        TryDispatch(e.cameraImageOk);
      }
    }

    /** The gate half of drawing one frame. */
    method OnDrawFrame(e: FrameEvent)
      modifies this, isProcessing
      ensures State() == DrawFrame(old(State()), e, guidanceState.startGuiding, guidanceState.currentInstruction)
    {
      if !e.hasSession {
        return;
      }
      match e.update {
        case CameraNotAvailable =>
          return;
        case UpdateThrew =>
          ReleaseBusy();
          return;
        case Updated =>
      }
      frameCounter := frameCounter + 1;
      DrawUpdatedFrame(e);
    }

    /** The frame after `frameCounter++`: depth handling and the later rendering steps. */
    method DrawUpdatedFrame(e: FrameEvent)
      modifies this, isProcessing
      ensures State() == UpdatedFrame(old(State()), e, guidanceState.startGuiding, guidanceState.currentInstruction)
    {
      if !e.assetsReadable {
        return;
      }
      if e.useDepthPath {
        HaveARDepth(e);
      } else {
        NoARDepth(e);
      }
      if e.laterStepThrows {
        ReleaseBusy();
      }
    }

    /** Runs the oldest launched Gemini request with the answer it receives (`None` for
        no answer or an exception). */
    method RunGeminiJob(guidance: Option<string>)
      requires jobs != []
      modifies this, isProcessing
      ensures State() == FinishGemini(old(State()), guidance)
    {
      jobs := jobs[1..];
      var said := GeminiSpoken(guidance);
      if said.Some? {
        spoken := spoken + [said.value];
      }
      ReleaseBusy();
    }
  }
}
