# Guidance core of the blind-navigation AR app, in Dafny

This project models the guidance engine of an Android app that walks a
visually impaired pedestrian along a route. The engine is the set of decision
rules that turn location fixes, headings, depth frames and spoken commands
into spoken instructions. The model covers:

- **Path following** (`PathGuidanceManager`). The guidance manager arms on a
  decoded route. Each location fix leads to one of four texts: arriving,
  "Continue straight", a distance and clock-face direction to the nearest
  vertex, or the empty-route warning. The text goes into the shared
  `GuidanceState`. `StopGuidance` disarms.
- **Shared state** (`PathGuidanceState`): the instruction text and the guiding flag.
- **Step tracker** (`StepGuidanceManager`). This is the older route tracker with
  a step index that advances within 5 m of the next step.
- **Obstacle pipeline** (`HelloArRenderer`), four pieces:
  - the depth-frame danger scan;
  - big-endian packing of the samples;
  - the admission gate of the frame loop, with its busy flag (`Atomic`), modelled
    as a sequential state machine;
  - the compass names.
- **Speech completion** (`VoiceAssistant`): the map from utterance id to listener
  in the text-to-speech wrapper.
- **Depth-to-image encoder** (`GeminiVlmService`, with the row-major layout in
  `Raster`). Red holds the high byte and green the low byte.
- **Depth statistics and point cloud** (`DepthProcessor`).
- **Voice-command destination extraction** (`HelloArActivity`).

Operations on library values, such as Kotlin strings, JVM integer views and
floating remainders, are in `Text` and `Jvm`. The map library's great-circle
routines are the function values of `Geo.Geometry`. Classes keep the source's
mutable fields. For the classes with many fields (the renderer gate and the
speech assistant), a `State()` function ties each method to a transition
function on a datatype, and the invariants are proved about those functions.

The arrival radius is 15 m (`path/GuidanceManager.kt:25`), and the clock face
uses the absolute heading to the vertex (`path/GuidanceManager.kt:113-114`). The
instruction texts are the ones shown in the table. Arrival ends guidance only
after the arrival speech. `GuidanceManager.kt:16` calls `setStartGuiding()` with no argument.
The model reads it as `setStartGuiding(true)`, the only form `GuidanceState`
has.

## Model

| member | source | states |
|---|---|---|
| Jvm.U16 | app/src/main/java/com/google/ar/core/examples/kotlin/helloar/HelloArRenderer.kt:708 | the unsigned view of a sample is below 65536 and equals the sample, or the sample plus 65536 when it is negative |
| Jvm.ToByte | app/src/main/java/com/google/ar/core/examples/kotlin/helloar/HelloArRenderer.kt:702-703 | `toByte()` keeps the value modulo 256, in the signed byte range |
| Jvm.UByteOfToByte | app/src/main/java/com/google/ar/core/examples/kotlin/helloar/HelloArRenderer.kt:702-703 | reading a `toByte()` result as unsigned gives the low 8 bits of the value |
| Jvm.TruncToInt | app/src/main/java/com/google/ar/core/examples/kotlin/helloar/path/GuidanceManager.kt:40 | `toInt()` rounds toward zero on both signs |
| Jvm.Rem8 | app/src/main/java/com/google/ar/core/examples/kotlin/helloar/HelloArRenderer.kt:678 | Kotlin `% 8` on Int: the Euclidean remainder for non-negative operands, a non-positive remainder congruent to the operand for negative ones |
| Jvm.Round | app/src/main/java/com/google/ar/core/examples/kotlin/helloar/HelloArRenderer.kt:678 | `Math.round` gives the integer within half a unit, halves rounded up |
| Jvm.Rem360 | app/src/main/java/com/google/ar/core/examples/kotlin/helloar/path/GuidanceManager.kt:38 | Kotlin `% 360.0` lies in [0, 360) for a non-negative operand and in (-360, 0] for a negative one |
| Jvm.Mod360 | app/src/main/java/com/google/ar/core/examples/kotlin/helloar/path/GuidanceManager.kt:34 | the Euclidean remainder lies in [0, 360) and differs from the operand by a whole number of turns |
| Jvm.Rem360IsMod360OnNonNegative | app/src/main/java/com/google/ar/core/examples/kotlin/helloar/path/GuidanceManager.kt:34 | the truncated and Euclidean remainders agree on non-negative operands |
| Text.Trim | app/src/main/java/com/google/ar/core/examples/kotlin/helloar/HelloArActivity.kt:330 | `trim()` is empty exactly for blank text, and otherwise starts and ends with a non-whitespace character taken from the input |
| Text.TrimIsInfix | app/src/main/java/com/google/ar/core/examples/kotlin/helloar/HelloArActivity.kt:330 | `trim()` is a contiguous piece of the text with only whitespace before it and only whitespace after it |
| Text.SubstringAfter | app/src/main/java/com/google/ar/core/examples/kotlin/helloar/HelloArActivity.kt:330 | `substringAfter(p)` is the text after the first occurrence of `p`, or the whole text when `p` does not occur |
| Text.IndexOfFrom | app/src/main/java/com/google/ar/core/examples/kotlin/helloar/HelloArActivity.kt:329 | the search returns an occurrence at or after the start and there is none before it, or -1 when there is none at all |
| Text.ToLower | app/src/main/java/com/google/ar/core/examples/kotlin/helloar/HelloArActivity.kt:324 | `toLowerCase()` keeps the length, lowers each ASCII capital and leaves no capital |
| Text.NatToDecimal | app/src/main/java/com/google/ar/core/examples/kotlin/helloar/VoiceAssistant.kt:184 | the decimal text of a number is non-empty, made of digits, and starts with `0` exactly when the number is 0 (no leading zeros) |
| Text.DecimalRoundTrip | app/src/main/java/com/google/ar/core/examples/kotlin/helloar/VoiceAssistant.kt:184 | reading the decimal text back gives the number |
| Text.RoundHalfUp | app/src/main/java/com/google/ar/core/examples/kotlin/helloar/path/GuidanceManager.kt:116 | `%.0f` of a non-negative distance is the integer within half a unit |
| PathGuidanceManager.ClockHourAsWrittenOutOfRange | app/src/main/java/com/google/ar/core/examples/kotlin/helloar/path/GuidanceManager.kt:33-47 | as written, heading -450 (that is, 270) gives hour -2 |
| PathGuidanceManager.ClockHour | app/src/main/java/com/google/ar/core/examples/kotlin/helloar/path/GuidanceManager.kt:33-47 | the clock-face hour is always in 1..12 |
| PathGuidanceManager.ClockHourAsWrittenAgrees | app/src/main/java/com/google/ar/core/examples/kotlin/helloar/path/GuidanceManager.kt:34-45 | for every heading of -360 or more, which covers every heading the library returns, the code as written gives the corrected hour |
| PathGuidanceManager.LibraryHeadingsAgree | app/src/main/java/com/google/ar/core/examples/kotlin/helloar/path/GuidanceManager.kt:113-114 | for every heading `computeHeading` returns, which lies in [-180, 180), the code's hour and the corrected hour are the same |
| PathGuidanceManager.ClockHourPeriodic | app/src/main/java/com/google/ar/core/examples/kotlin/helloar/path/GuidanceManager.kt:34-40 | the hour depends only on the heading modulo 360 |
| PathGuidanceManager.ClockHourSector | app/src/main/java/com/google/ar/core/examples/kotlin/helloar/path/GuidanceManager.kt:34-45 | hour h covers exactly the 30-degree sector centred on 30h degrees; 12 covers [345, 360) and [0, 15), so 0 never occurs |
| PathGuidanceManager.Distances | app/src/main/java/com/google/ar/core/examples/kotlin/helloar/path/GuidanceManager.kt:102-106 | one library distance per vertex, in path order |
| PathGuidanceManager.FirstNearest | app/src/main/java/com/google/ar/core/examples/kotlin/helloar/path/GuidanceManager.kt:101-111 | the chosen index holds a distance no larger than any other, and every earlier index is strictly farther |
| PathGuidanceManager.NearestVertex | app/src/main/java/com/google/ar/core/examples/kotlin/helloar/path/GuidanceManager.kt:101-111 | the loop returns the first nearest vertex and its distance, which is at most the distance to every vertex |
| PathGuidanceManager.NoVInOffPathText | app/src/main/java/com/google/ar/core/examples/kotlin/helloar/path/GuidanceManager.kt:115-117 | no off-path text contains the letter v |
| PathGuidanceManager.ArrivingIffArrival | app/src/main/java/com/google/ar/core/examples/kotlin/helloar/path/GuidanceManager.kt:83 | a guidance text contains "arriving" exactly when it is the arrival text, for any destination name |
| PathGuidanceManager.OffPathExample | app/src/main/java/com/google/ar/core/examples/kotlin/helloar/path/GuidanceManager.kt:113-117 | off a one-vertex route, 50 m from a vertex due east, the text is "Take 50 meters to your 3 o'clock" |
| PathGuidanceManager.OffPathTextExample | app/src/main/java/com/google/ar/core/examples/kotlin/helloar/path/GuidanceManager.kt:113-117 | 50 m at a bearing of 90 degrees reads "Take 50 meters to your 3 o'clock" |
| PathGuidanceManager.GuidanceManager.constructor | app/src/main/java/com/google/ar/core/examples/kotlin/helloar/path/GuidanceManager.kt:28-31 | no route, no destination, no last guidance, nothing launched |
| PathGuidanceManager.GuidanceManager.SetPolylinePath | app/src/main/java/com/google/ar/core/examples/kotlin/helloar/path/GuidanceManager.kt:49-62 | stores the route and destination, sets guiding, clears the last guidance, writes "Navigation started to <name>." and launches its speech |
| PathGuidanceManager.GuidanceManager.UpdateGuidanceForLocation | app/src/main/java/com/google/ar/core/examples/kotlin/helloar/path/GuidanceManager.kt:64-135 | None with no state change unless guiding on a route; otherwise returns the arrival, "Continue straight", nearest-vertex or empty-route text, writes that same text as the instruction, and on arrival launches speak-then-stop while guiding stays on; the clock face uses the corrected hour, which equals the code's hour for every heading the library returns (`LibraryHeadingsAgree`) |
| PathGuidanceManager.GuidanceManager.StopGuidance | app/src/main/java/com/google/ar/core/examples/kotlin/helloar/path/GuidanceManager.kt:137-155 | always clears route, destination and last guidance and turns guiding off; writes and launches "Navigation stopped." exactly when guidance was on and the instruction lacks "arriving" |
| PathGuidanceManager.GuidanceManager.RunLaunched | app/src/main/java/com/google/ar/core/examples/kotlin/helloar/path/GuidanceManager.kt:86-89 | running a launched coroutine speaks its text; the arrival coroutine then performs the whole stop |
| PathGuidanceState.GuidanceState.constructor | app/src/main/java/com/google/ar/core/examples/kotlin/helloar/path/GuidanceState.kt:13-14 | the instruction starts as "" and guiding starts false |
| PathGuidanceState.GuidanceState.SetInstruction | app/src/main/java/com/google/ar/core/examples/kotlin/helloar/path/GuidanceState.kt:20-22 | the instruction becomes the argument; the flag is unchanged |
| PathGuidanceState.GuidanceState.GetInstruction | app/src/main/java/com/google/ar/core/examples/kotlin/helloar/path/GuidanceState.kt:28-30 | returns the stored instruction, the value of the latest write |
| PathGuidanceState.GuidanceState.Clear | app/src/main/java/com/google/ar/core/examples/kotlin/helloar/path/GuidanceState.kt:35-37 | the instruction becomes ""; the flag is unchanged |
| PathGuidanceState.GuidanceState.GetStartGuiding | app/src/main/java/com/google/ar/core/examples/kotlin/helloar/path/GuidanceState.kt:39-41 | returns the stored flag |
| PathGuidanceState.GuidanceState.SetStartGuiding | app/src/main/java/com/google/ar/core/examples/kotlin/helloar/path/GuidanceState.kt:43-45 | the flag becomes the argument; the instruction is unchanged |
| PathGuidanceState.GuidanceState.DoneGuiding | app/src/main/java/com/google/ar/core/examples/kotlin/helloar/path/GuidanceState.kt:47-50 | the flag becomes false; the instruction is unchanged |
| StepGuidanceManager.GuidanceManager.constructor | app/src/main/java/com/google/ar/core/examples/kotlin/helloar/GuidanceManager.kt:9-11 | no steps, index 0 |
| StepGuidanceManager.GuidanceManager.SetRoute | app/src/main/java/com/google/ar/core/examples/kotlin/helloar/GuidanceManager.kt:13-18 | replaces the steps, resets the index to 0, turns guiding on and writes step 0's text when there is a step |
| StepGuidanceManager.GuidanceManager.UpdateUserLocation | app/src/main/java/com/google/ar/core/examples/kotlin/helloar/GuidanceManager.kt:20-41 | no change once the index has passed the steps; otherwise the index rises by exactly 1 when the current step's start (`nextStep` in the code) is under 5 m away and nothing changes if not; the new step's text is written, or past the last step "You have arrived." with guiding off; 0 <= index <= number of steps is kept |
| StepGuidanceManager.GuidanceManager.ProvideGuidanceForCurrentStep | app/src/main/java/com/google/ar/core/examples/kotlin/helloar/GuidanceManager.kt:43-48 | writes the current step's text when the index is on a step, otherwise leaves the instruction |
| StepGuidanceManager.GuidanceManager.Clear | app/src/main/java/com/google/ar/core/examples/kotlin/helloar/GuidanceManager.kt:50-53 | empties the steps and resets the index without touching the shared state |
| Atomic.AtomicBoolean.constructor | app/src/main/java/com/google/ar/core/examples/kotlin/helloar/HelloArRenderer.kt:192 | holds the initial value |
| Atomic.AtomicBoolean.Get | app/src/main/java/com/google/ar/core/examples/kotlin/helloar/HelloArRenderer.kt:689 | returns the value |
| Atomic.AtomicBoolean.CompareAndSet | app/src/main/java/com/google/ar/core/examples/kotlin/helloar/HelloArRenderer.kt:720 | succeeds exactly when the value was the expected one, and writes only then |
| Atomic.AtomicBoolean.GetAndSet | app/src/main/java/com/google/ar/core/examples/kotlin/helloar/HelloArRenderer.kt:748 | returns the old value and writes the new one |
| HelloArRenderer.FirstDanger | app/src/main/java/com/google/ar/core/examples/kotlin/helloar/HelloArRenderer.kt:706-713 | the first sample with 0 < value < threshold, none before it, or the length when there is none |
| HelloArRenderer.Examined | app/src/main/java/com/google/ar/core/examples/kotlin/helloar/HelloArRenderer.kt:707-712 | the scan reads the whole frame, or stops right after a dangerous sample |
| HelloArRenderer.MaxU16 | app/src/main/java/com/google/ar/core/examples/kotlin/helloar/HelloArRenderer.kt:709 | an upper bound of the unsigned samples, attained by one of them unless 0 |
| HelloArRenderer.ScanForDanger | app/src/main/java/com/google/ar/core/examples/kotlin/helloar/HelloArRenderer.kt:706-713 | danger exactly when some sample has 0 < v < threshold; maxDepth is the maximum up to and including the first dangerous sample, the whole-frame maximum when there is none, and 0 for an all-zero frame |
| HelloArRenderer.DangerExists | app/src/main/java/com/google/ar/core/examples/kotlin/helloar/HelloArRenderer.kt:706-713 | the scan stops before the end of the frame exactly when some sample is dangerous |
| HelloArRenderer.AllZeroIsSafe | app/src/main/java/com/google/ar/core/examples/kotlin/helloar/HelloArRenderer.kt:706-713 | an all-zero frame has no dangerous sample and a maximum of 0 |
| HelloArRenderer.ExamineDepthFrame | app/src/main/java/com/google/ar/core/examples/kotlin/helloar/HelloArRenderer.kt:689-713 | the copied and packed frame is dangerous exactly when some sample of the original is |
| HelloArRenderer.Packed | app/src/main/java/com/google/ar/core/examples/kotlin/helloar/HelloArRenderer.kt:699-704 | twice the length; byte 2i is the high byte and byte 2i+1 the low byte of sample i |
| HelloArRenderer.Unpacked | app/src/main/java/com/google/ar/core/examples/kotlin/helloar/HelloArRenderer.kt:699-704 | reading byte pairs back as unsigned (hi shl 8) or lo gives half as many values |
| HelloArRenderer.UnsignedSamples | app/src/main/java/com/google/ar/core/examples/kotlin/helloar/HelloArRenderer.kt:701 | the unsigned value of each sample, in order |
| HelloArRenderer.SampleRoundTrip | app/src/main/java/com/google/ar/core/examples/kotlin/helloar/HelloArRenderer.kt:701-703 | the unsigned high byte times 256 plus the unsigned low byte is the unsigned sample |
| HelloArRenderer.UnpackPacked | app/src/main/java/com/google/ar/core/examples/kotlin/helloar/HelloArRenderer.kt:699-704 | unpacking the packed frame gives back every unsigned sample |
| HelloArRenderer.PackDepth | app/src/main/java/com/google/ar/core/examples/kotlin/helloar/HelloArRenderer.kt:699-704 | the loop fills a new array equal to the packed frame |
| HelloArRenderer.DirectionIndex | app/src/main/java/com/google/ar/core/examples/kotlin/helloar/HelloArRenderer.kt:678 | the lookup index lies strictly between -8 and 8 |
| HelloArRenderer.BearingToDirection | app/src/main/java/com/google/ar/core/examples/kotlin/helloar/HelloArRenderer.kt:676-679 | a name exactly when the index is non-negative (the lookup throws otherwise), and always one of the eight names |
| HelloArRenderer.DirectionSector | app/src/main/java/com/google/ar/core/examples/kotlin/helloar/HelloArRenderer.kt:677-678 | a bearing within 22.5 degrees of 45k gets the k-th name |
| HelloArRenderer.DirectionTotalOnCircle | app/src/main/java/com/google/ar/core/examples/kotlin/helloar/HelloArRenderer.kt:676-679 | every bearing in [0, 360) has a name, and bearings near 0 and near 360 both give "North" |
| HelloArRenderer.DirectionPeriodic | app/src/main/java/com/google/ar/core/examples/kotlin/helloar/HelloArRenderer.kt:678 | from -22.5 degrees on, a whole turn more gives the same name |
| HelloArRenderer.NegativeBearingHasNoName | app/src/main/java/com/google/ar/core/examples/kotlin/helloar/HelloArRenderer.kt:678 | bearing -90 gives index -2 and no name |
| HelloArRenderer.GeminiSpoken | app/src/main/java/com/google/ar/core/examples/kotlin/helloar/HelloArRenderer.kt:526-541 | an answer is spoken exactly when it exists and does not contain "Error" |
| HelloArRenderer.LocalServerSpoken | app/src/main/java/com/google/ar/core/examples/kotlin/helloar/HelloArRenderer.kt:472 | the answers spoken are exactly those not containing "No significant change" |
| HelloArRenderer.LocalServerSpokenAppend | app/src/main/java/com/google/ar/core/examples/kotlin/helloar/HelloArRenderer.kt:465-473 | the filter keeps order and multiplicity: the answers spoken for a concatenation are those of the first part followed by those of the second |
| HelloArRenderer.LocalServerSpokenSingle | app/src/main/java/com/google/ar/core/examples/kotlin/helloar/HelloArRenderer.kt:472 | one answer is spoken once exactly when it lacks "No significant change" |
| HelloArRenderer.CurlSpoken | app/src/main/java/com/google/ar/core/examples/kotlin/helloar/HelloArRenderer.kt:601-606 | a text part is spoken exactly when it is not blank and its trimmed form lacks "No significant change"; what is spoken is the trimmed text |
| HelloArRenderer.DrawFrame | app/src/main/java/com/google/ar/core/examples/kotlin/helloar/HelloArRenderer.kt:800-854 | the frame counter rises by one exactly per updated frame; a request is launched only on an admitted frame (counter multiple of 10, flag clear, guiding) and carries the current instruction; the flag is taken only together with the tone and a launch |
| HelloArRenderer.FinishGemini | app/src/main/java/com/google/ar/core/examples/kotlin/helloar/HelloArRenderer.kt:526-549 | the request leaves the queue, its answer is spoken unless it is an error, and the finally block clears the flag |
| HelloArRenderer.InitialSingleFlight | app/src/main/java/com/google/ar/core/examples/kotlin/helloar/HelloArRenderer.kt:192 | the gate starts idle |
| HelloArRenderer.DrawFramePreservesSingleFlight | app/src/main/java/com/google/ar/core/examples/kotlin/helloar/HelloArRenderer.kt:720 | a frame that throws nothing outside its dispatch keeps at most one request in flight, exactly while the flag is held |
| HelloArRenderer.FinishPreservesSingleFlight | app/src/main/java/com/google/ar/core/examples/kotlin/helloar/HelloArRenderer.kt:547-549 | finishing the request in flight leaves the gate idle |
| HelloArRenderer.StrayReleaseAllowsSecondFlight | app/src/main/java/com/google/ar/core/examples/kotlin/helloar/HelloArRenderer.kt:850-852 | a rendering exception after a dispatch clears the flag while that request is in flight, and the next admitted frame (counter 19, then 20) launches a second request beside it |
| HelloArRenderer.DrawFramePreservesNoLeak | app/src/main/java/com/google/ar/core/examples/kotlin/helloar/HelloArRenderer.kt:689-760 | every frame, throwing or not, keeps the flag from being held with no request in flight to hand it back |
| HelloArRenderer.FinishFreesFlag | app/src/main/java/com/google/ar/core/examples/kotlin/helloar/HelloArRenderer.kt:547-549 | a finished request's `finally` block leaves the flag free |
| HelloArRenderer.DrawFrameCorrectedPreservesSingleFlight | app/src/main/java/com/google/ar/core/examples/kotlin/helloar/HelloArRenderer.kt:720 | with handlers that hand back only a flag their own frame took without launching, every frame, throwing or not, keeps at most one request in flight |
| HelloArRenderer.CorrectedAgreesWithoutThrow | app/src/main/java/com/google/ar/core/examples/kotlin/helloar/HelloArRenderer.kt:689-760 | the corrected frame equals the code's frame whenever nothing throws outside the dispatch |
| HelloArRenderer.CorrectedBlocksSecondFlight | app/src/main/java/com/google/ar/core/examples/kotlin/helloar/HelloArRenderer.kt:850-852 | on the frames where the code launches a second request, the corrected gate keeps the first request's flag and launches nothing more |
| HelloArRenderer.Renderer.constructor | app/src/main/java/com/google/ar/core/examples/kotlin/helloar/HelloArRenderer.kt:187-192 | counters 0, flag clear, nothing launched |
| HelloArRenderer.Renderer.StartBeeping | app/src/main/java/com/google/ar/core/examples/kotlin/helloar/HelloArRenderer.kt:252-260 | the tone is on; nothing else changes |
| HelloArRenderer.Renderer.StopBeeping | app/src/main/java/com/google/ar/core/examples/kotlin/helloar/HelloArRenderer.kt:262-268 | the tone is off; nothing else changes |
| HelloArRenderer.Renderer.ReleaseBusy | app/src/main/java/com/google/ar/core/examples/kotlin/helloar/HelloArRenderer.kt:748 | `if (getAndSet(false)) stopBeeping()`: the flag is cleared, and the tone stopped if the flag was held |
| HelloArRenderer.Renderer.TryDispatch | app/src/main/java/com/google/ar/core/examples/kotlin/helloar/HelloArRenderer.kt:719-745 | compare-and-set, tone and a launch carrying the current instruction; a camera-image failure hands the flag back |
| HelloArRenderer.Renderer.HaveARDepth | app/src/main/java/com/google/ar/core/examples/kotlin/helloar/HelloArRenderer.kt:681-759 | the gate follows the AR-depth path: admitted frames are counted, scanned and dispatched when dangerous; acquisition and texture failures release |
| HelloArRenderer.Renderer.ProcessDepthFrame | app/src/main/java/com/google/ar/core/examples/kotlin/helloar/HelloArRenderer.kt:689-745 | copies, packs and scans the frame, counts it and dispatches when it is dangerous |
| HelloArRenderer.Renderer.NoARDepth | app/src/main/java/com/google/ar/core/examples/kotlin/helloar/HelloArRenderer.kt:761-797 | every admitted frame dispatches |
| HelloArRenderer.Renderer.OnDrawFrame | app/src/main/java/com/google/ar/core/examples/kotlin/helloar/HelloArRenderer.kt:800-854 | the new gate state is `DrawFrame` of the old one |
| HelloArRenderer.Renderer.DrawUpdatedFrame | app/src/main/java/com/google/ar/core/examples/kotlin/helloar/HelloArRenderer.kt:812-853 | the part of a frame after the counter increment, including the release of the catch-all handler |
| HelloArRenderer.Renderer.RunGeminiJob | app/src/main/java/com/google/ar/core/examples/kotlin/helloar/HelloArRenderer.kt:526-549 | the new gate state is `FinishGemini` of the old one |
| VoiceAssistant.BlankFiresAtOnce | app/src/main/java/com/google/ar/core/examples/kotlin/helloar/VoiceAssistant.kt:177-181 | blank text invokes the listener at once and changes nothing else |
| VoiceAssistant.NotReadyFiresAtOnce | app/src/main/java/com/google/ar/core/examples/kotlin/helloar/VoiceAssistant.kt:189-193 | when not initialised the listener is invoked at once and nothing is registered |
| VoiceAssistant.ReadyRegistersThenSpeaks | app/src/main/java/com/google/ar/core/examples/kotlin/helloar/VoiceAssistant.kt:183-188 | when ready, the listener is stored under the new id and the speak request carries that id; nothing fires yet |
| VoiceAssistant.SameMillisecondOverwrites | app/src/main/java/com/google/ar/core/examples/kotlin/helloar/VoiceAssistant.kt:184-186 | two requests in one millisecond share an id: only the second listener fires on completion |
| VoiceAssistant.DoneFiresOnlyItsListener | app/src/main/java/com/google/ar/core/examples/kotlin/helloar/VoiceAssistant.kt:59-64 | a completion invokes exactly the listener under its id, removes it and leaves every other entry |
| VoiceAssistant.UnknownOrRepeatedDoneIsNoOp | app/src/main/java/com/google/ar/core/examples/kotlin/helloar/VoiceAssistant.kt:61-63 | a completion for an unknown id, or a repeated one, changes nothing |
| VoiceAssistant.ErrorsAreDone | app/src/main/java/com/google/ar/core/examples/kotlin/helloar/VoiceAssistant.kt:66-76 | both error callbacks behave exactly as `onDone` |
| VoiceAssistant.InitializeGuard | app/src/main/java/com/google/ar/core/examples/kotlin/helloar/VoiceAssistant.kt:43-47 | initialising is a no-op when ready or when an engine exists; shutting down clears both |
| VoiceAssistant.LateInitCallbackAfterShutdown | app/src/main/java/com/google/ar/core/examples/kotlin/helloar/VoiceAssistant.kt:49-55 | an initialisation callback after shutdown marks the assistant ready with no engine; a later request registers a listener but nothing is spoken or fired |
| VoiceAssistant.StepCorrectedKeepsReadyHasEngine | app/src/main/java/com/google/ar/core/examples/kotlin/helloar/VoiceAssistant.kt:43-84 | with an initialisation callback that marks the assistant ready only while an engine exists, every call keeps "ready means an engine exists" |
| VoiceAssistant.ReadyRequestIsSpoken | app/src/main/java/com/google/ar/core/examples/kotlin/helloar/VoiceAssistant.kt:183-187 | under that invariant, a ready assistant hands every non-blank request to the engine under the id of its stored listener |
| VoiceAssistant.InitCallbackCorrectedAgrees | app/src/main/java/com/google/ar/core/examples/kotlin/helloar/VoiceAssistant.kt:49-84 | the corrected callback equals the code's whenever an engine exists |
| VoiceAssistant.CorrectedLateCallbackStaysNotReady | app/src/main/java/com/google/ar/core/examples/kotlin/helloar/VoiceAssistant.kt:190-191 | after the late callback the corrected assistant stays not ready, so the next listener is invoked at once |
| VoiceAssistant.InitialAtMostOnce | app/src/main/java/com/google/ar/core/examples/kotlin/helloar/VoiceAssistant.kt:36 | the empty map satisfies the at-most-once invariant |
| VoiceAssistant.FireNew | app/src/main/java/com/google/ar/core/examples/kotlin/helloar/VoiceAssistant.kt:61 | invoking a listener not invoked before keeps the invoked listeners distinct |
| VoiceAssistant.SpeakKeepsAtMostOnce | app/src/main/java/com/google/ar/core/examples/kotlin/helloar/VoiceAssistant.kt:176-194 | a request with a new listener keeps every listener invoked at most once |
| VoiceAssistant.DoneKeepsAtMostOnce | app/src/main/java/com/google/ar/core/examples/kotlin/helloar/VoiceAssistant.kt:59-64 | a completion keeps every listener invoked at most once |
| VoiceAssistant.Assistant.constructor | app/src/main/java/com/google/ar/core/examples/kotlin/helloar/VoiceAssistant.kt:36 | not ready, no engine, empty map |
| VoiceAssistant.Assistant.OnSpeechFinished | app/src/main/java/com/google/ar/core/examples/kotlin/helloar/VoiceAssistant.kt:31-33 | records the listener as invoked |
| VoiceAssistant.Assistant.SpeakTextAndWait | app/src/main/java/com/google/ar/core/examples/kotlin/helloar/VoiceAssistant.kt:176-194 | the new state is `SpeakAndWait` of the old one |
| VoiceAssistant.Assistant.OnDone | app/src/main/java/com/google/ar/core/examples/kotlin/helloar/VoiceAssistant.kt:59-64 | the new state is `Done` of the old one |
| VoiceAssistant.Assistant.OnError | app/src/main/java/com/google/ar/core/examples/kotlin/helloar/VoiceAssistant.kt:66-71 | the new state is that of `onDone` |
| VoiceAssistant.Assistant.OnErrorDeprecated | app/src/main/java/com/google/ar/core/examples/kotlin/helloar/VoiceAssistant.kt:73-76 | delegates with error code 0 |
| VoiceAssistant.Assistant.InitializeTextToSpeech | app/src/main/java/com/google/ar/core/examples/kotlin/helloar/VoiceAssistant.kt:43-49 | creates an engine unless ready or one exists |
| VoiceAssistant.Assistant.OnInitStatus | app/src/main/java/com/google/ar/core/examples/kotlin/helloar/VoiceAssistant.kt:49-85 | ready after a successful start unless the engine reports missing or unsupported language |
| VoiceAssistant.Assistant.ShutdownTextToSpeech | app/src/main/java/com/google/ar/core/examples/kotlin/helloar/VoiceAssistant.kt:248-254 | not ready and no engine |
| GeminiVlmService.ShortBuffer.constructor | app/src/main/java/com/google/ar/core/examples/kotlin/helloar/utils/GeminiVlmService.kt:47 | position 0, limit at the end of the contents |
| GeminiVlmService.ShortBuffer.Remaining | app/src/main/java/com/google/ar/core/examples/kotlin/helloar/utils/GeminiVlmService.kt:59 | the samples between position and limit |
| GeminiVlmService.ShortBuffer.SetPosition | app/src/main/java/com/google/ar/core/examples/kotlin/helloar/utils/GeminiVlmService.kt:61 | moves the position, keeps the limit |
| GeminiVlmService.ShortBuffer.GetInto | app/src/main/java/com/google/ar/core/examples/kotlin/helloar/utils/GeminiVlmService.kt:66 | copies the next samples in order and advances the position past them |
| GeminiVlmService.EncodeDepth | app/src/main/java/com/google/ar/core/examples/kotlin/helloar/utils/GeminiVlmService.kt:72-76 | alpha 255, blue 0, red and green single bytes |
| GeminiVlmService.EncodeDecodeRoundTrip | app/src/main/java/com/google/ar/core/examples/kotlin/helloar/utils/GeminiVlmService.kt:174 | red * 256 + green of an encoded pixel is the unsigned sample |
| GeminiVlmService.DepthBufferToEncodedRgbBitmap | app/src/main/java/com/google/ar/core/examples/kotlin/helloar/utils/GeminiVlmService.kt:46-80 | null exactly for a missing buffer, a non-positive size or too few remaining samples; otherwise a new width x height image whose pixel (x, y) encodes the sample y * width + x after the position; the position is restored in every case |
| GeminiVlmService.EncodePixels | app/src/main/java/com/google/ar/core/examples/kotlin/helloar/utils/GeminiVlmService.kt:69-78 | every pixel encodes its row-major sample |
| GeminiVlmService.EncodeRow | app/src/main/java/com/google/ar/core/examples/kotlin/helloar/utils/GeminiVlmService.kt:70-77 | one row is encoded and the other rows are untouched |
| Raster.RowStartIsProduct | app/src/main/java/com/google/ar/core/examples/kotlin/helloar/utils/GeminiVlmService.kt:71 | row y starts at y * width |
| Raster.RowInside | app/src/main/java/com/google/ar/core/examples/kotlin/helloar/utils/GeminiVlmService.kt:69-71 | a row before row h ends by the start of row h |
| Raster.AllRowsInside | app/src/main/java/com/google/ar/core/examples/kotlin/helloar/utils/GeminiVlmService.kt:69-71 | every row before row h ends by the start of row h |
| DepthProcessor.ValidDepths | app/src/main/java/com/google/ar/core/examples/kotlin/helloar/DepthProcessor.kt:161 | one value per non-zero sample, each in 1..65535, made only of the samples' unsigned values and holding every non-zero one |
| DepthProcessor.ValidDepthsAppend | app/src/main/java/com/google/ar/core/examples/kotlin/helloar/DepthProcessor.kt:161 | the filter keeps order and multiplicity: the valid samples of a concatenation are those of the first part followed by those of the second |
| DepthProcessor.ValidDepthsSingle | app/src/main/java/com/google/ar/core/examples/kotlin/helloar/DepthProcessor.kt:161 | one sample gives its unsigned value exactly when that value is not zero |
| DepthProcessor.MinOf | app/src/main/java/com/google/ar/core/examples/kotlin/helloar/DepthProcessor.kt:164 | an element no larger than any other |
| DepthProcessor.MaxOf | app/src/main/java/com/google/ar/core/examples/kotlin/helloar/DepthProcessor.kt:165 | an element no smaller than any other |
| DepthProcessor.Mean | app/src/main/java/com/google/ar/core/examples/kotlin/helloar/DepthProcessor.kt:166 | the mean times the count is the sum |
| DepthProcessor.Insert | app/src/main/java/com/google/ar/core/examples/kotlin/helloar/DepthProcessor.kt:168 | inserting into a sorted list keeps it sorted and adds exactly that value |
| DepthProcessor.Sort | app/src/main/java/com/google/ar/core/examples/kotlin/helloar/DepthProcessor.kt:168 | `sorted()` is ascending and a permutation of its input |
| DepthProcessor.Analyse | app/src/main/java/com/google/ar/core/examples/kotlin/helloar/DepthProcessor.kt:164-173 | min and max of the valid samples, min <= median <= max and min <= mean <= max |
| DepthProcessor.RangeAnalysis | app/src/main/java/com/google/ar/core/examples/kotlin/helloar/DepthProcessor.kt:158-176 | null exactly when no data is loaded or no sample is non-zero; otherwise the statistics of the valid samples only |
| DepthProcessor.SortedUnique | app/src/main/java/com/google/ar/core/examples/kotlin/helloar/DepthProcessor.kt:168 | the sorted arrangement of a list is unique |
| DepthProcessor.MedianOfSortedValid | app/src/main/java/com/google/ar/core/examples/kotlin/helloar/DepthProcessor.kt:168-173 | the median is the middle element of the sorted valid samples for an odd count and the mean of the two middle ones for an even count |
| DepthProcessor.AnalysedMedian | app/src/main/java/com/google/ar/core/examples/kotlin/helloar/DepthProcessor.kt:168-173 | the analysed median equals the median of any sorted arrangement of the valid samples |
| DepthProcessor.SameHeadSameRest | app/src/main/java/com/google/ar/core/examples/kotlin/helloar/DepthProcessor.kt:168 | two sorted arrangements of the same samples share their first element and the rest of both are again sorted arrangements of the same samples |
| DepthProcessor.SortedHeadIsLeast | app/src/main/java/com/google/ar/core/examples/kotlin/helloar/DepthProcessor.kt:168 | the first element of a sorted list is at most any of its elements |
| DepthProcessor.SortedEnds | app/src/main/java/com/google/ar/core/examples/kotlin/helloar/DepthProcessor.kt:164-168 | the first and last sorted elements are the minimum and the maximum |
| DepthProcessor.MedianWithinRange | app/src/main/java/com/google/ar/core/examples/kotlin/helloar/DepthProcessor.kt:164-173 | min <= median <= max |
| DepthProcessor.SumWithin | app/src/main/java/com/google/ar/core/examples/kotlin/helloar/DepthProcessor.kt:166 | n values within [lo, hi] sum to within [n lo, n hi] |
| DepthProcessor.MeanWithinRange | app/src/main/java/com/google/ar/core/examples/kotlin/helloar/DepthProcessor.kt:164-166 | min <= mean <= max |
| DepthProcessor.RowPointsAreSamples | app/src/main/java/com/google/ar/core/examples/kotlin/helloar/DepthProcessor.kt:70-89 | the points of one row: in that row, at increasing columns, each a non-zero sample at its own position |
| DepthProcessor.RowPointsCount | app/src/main/java/com/google/ar/core/examples/kotlin/helloar/DepthProcessor.kt:70-73 | one point per non-zero sample of the row, counted by index |
| DepthProcessor.NonZeroBetweenIsCount | app/src/main/java/com/google/ar/core/examples/kotlin/helloar/DepthProcessor.kt:71-73 | counting non-zero samples by index over the first n samples agrees with counting them in the prefix |
| DepthProcessor.CloudCount | app/src/main/java/com/google/ar/core/examples/kotlin/helloar/DepthProcessor.kt:68-91 | the cloud has exactly as many points as the frame has non-zero samples |
| DepthProcessor.CloudCountBetween | app/src/main/java/com/google/ar/core/examples/kotlin/helloar/DepthProcessor.kt:68-91 | the cloud of the first rows has one point per non-zero sample before the next row's start |
| DepthProcessor.CloudPointsAreSamples | app/src/main/java/com/google/ar/core/examples/kotlin/helloar/DepthProcessor.kt:71-88 | each point lies in the frame and its depth is the non-zero sample at its index |
| DepthProcessor.CloudRowMajor | app/src/main/java/com/google/ar/core/examples/kotlin/helloar/DepthProcessor.kt:69-90 | the points' sample indices strictly increase: row-major order, no sample twice |
| DepthProcessor.RowIndices | app/src/main/java/com/google/ar/core/examples/kotlin/helloar/DepthProcessor.kt:69-90 | the points of one row have sample indices from the row's start on, strictly increasing |
| DepthProcessor.ConcatIncreasing | app/src/main/java/com/google/ar/core/examples/kotlin/helloar/DepthProcessor.kt:69-90 | appending a row whose indices start after every earlier index keeps the indices strictly increasing |
| DepthProcessor.Processor.constructor | app/src/main/java/com/google/ar/core/examples/kotlin/helloar/DepthProcessor.kt:25-35 | no raw frame, no cloud, no view; nothing assigns the raw frame later |
| DepthProcessor.Processor.GetEffectiveRangeAnalysis | app/src/main/java/com/google/ar/core/examples/kotlin/helloar/DepthProcessor.kt:158-176 | the result is `RangeAnalysis` of the stored raw frame |
| DepthProcessor.Processor.ProcessImageAndCreatePointCloud | app/src/main/java/com/google/ar/core/examples/kotlin/helloar/DepthProcessor.kt:53-93 | completes exactly when the frame fits the buffer, then stores the cloud of its non-zero samples; when the absolute read throws the cloud is unchanged |
| DepthProcessor.Processor.RowOfPoints | app/src/main/java/com/google/ar/core/examples/kotlin/helloar/DepthProcessor.kt:70-89 | the inner loop yields the row's points, or reports the out-of-bounds read |
| DepthProcessor.Processor.GenerateBev | app/src/main/java/com/google/ar/core/examples/kotlin/helloar/DepthProcessor.kt:101-124 | completes and changes nothing without a cloud; with a cloud and a non-positive grid size, where `createBitmap` throws, reports failure and changes nothing; otherwise completes with a new square grid of that size in which a cell is marked exactly when some point maps to it, so only cells inside the grid are marked |
| DepthProcessor.Processor.MarkCells | app/src/main/java/com/google/ar/core/examples/kotlin/helloar/DepthProcessor.kt:111-121 | after the loop a cell is marked exactly when some point maps to it |
| HelloArActivity.FirstMatch | app/src/main/java/com/google/ar/core/examples/kotlin/helloar/HelloArActivity.kt:328-335 | the first pattern from the start that satisfies the test, with none before it, or the count when none does |
| HelloArActivity.ExtractDestinationFromCommand | app/src/main/java/com/google/ar/core/examples/kotlin/helloar/HelloArActivity.kt:323-339 | null exactly for a null or blank command; otherwise a non-empty, trimmed, lower-case piece of the lower-cased command |
| HelloArActivity.DestinationIn | app/src/main/java/com/google/ar/core/examples/kotlin/helloar/HelloArActivity.kt:324-337 | on a lower-cased command: none exactly for a blank command, otherwise a non-empty, trimmed, lower-case piece of it |
| HelloArActivity.LowerKeepsBlank | app/src/main/java/com/google/ar/core/examples/kotlin/helloar/HelloArActivity.kt:324 | lower-casing neither creates nor removes a blank command |
| HelloArActivity.SuffixOfLowercase | app/src/main/java/com/google/ar/core/examples/kotlin/helloar/HelloArActivity.kt:330 | the text after a pattern in lower-case text is lower-case and adds no character |
| HelloArActivity.TrimKeepsLowercase | app/src/main/java/com/google/ar/core/examples/kotlin/helloar/HelloArActivity.kt:330 | trimming keeps the text lower-case |
| HelloArActivity.FirstMatchIsFirst | app/src/main/java/com/google/ar/core/examples/kotlin/helloar/HelloArActivity.kt:328-335 | a satisfying pattern with no earlier one is the one the search returns |
| HelloArActivity.FirstYieldingPhraseWins | app/src/main/java/com/google/ar/core/examples/kotlin/helloar/HelloArActivity.kt:328-335 | the first pattern, in the order "take me to", "navigate to", "go to", "directions to", "find", whose trimmed remainder is non-empty gives the result: that trimmed remainder |
| HelloArActivity.WholeCommandWhenNoPhraseYields | app/src/main/java/com/google/ar/core/examples/kotlin/helloar/HelloArActivity.kt:336 | when no pattern yields, a non-blank command gives itself, lower-cased and trimmed |

## Left out

- Floating point: Kotlin `Double` and `Float` values are exact reals, with no rounding error. The clock face, the compass and `%.0f` use exact arithmetic.
- DepthProcessor.Analyse: the statistics stay in millimetres. The conversion to metres (`/ 1000f`) and the float rounding of the mean are not modelled.
- DepthProcessor.Processor.ProcessImageAndCreatePointCloud: each point keeps its pixel and its depth in millimetres. The pinhole projection into metres (`DepthProcessor.kt:75-87`) is not modelled.
- DepthProcessor.Processor.GenerateBev: the `IllegalArgumentException` of `createBitmap` is the result `completed == false`; the caller's catch (`HelloArRenderer.kt:876`) is not modelled. The floating-point cell of each point is the function parameter `toGrid`. The `Int` overflow of `gridSizeM * resolutionPxPerM` is not modelled.
- DepthProcessor: `rawDepthData` is never assigned (`DepthProcessor.kt:25`), so the range analysis always gives null in the app. The saving and visualisation of the bird's-eye view are file and bitmap I/O.
- GeminiVlmService.DepthBufferToEncodedRgbBitmap: for a positive width and height, requires `width * height` to fit in an `Int`. Kotlin would wrap the product; the wrap is not modelled.
- HelloArRenderer.Renderer.OnDrawFrame: `frameCounter` is unbounded. Kotlin's `Int` would wrap after 2^31 frames.
- Threads: every call is one indivisible step. The interleaving of the render, location and coroutine threads is not modelled. The busy-wait loops (`HelloArRenderer.kt:483`, `615`) and `delay` calls are timing only.
- Launched coroutines are queues. In the path manager, `launched` holds the jobs and `RunLaunched` runs one. In the renderer, `jobs` holds the requests and `RunGeminiJob` finishes the oldest.
- The renderer's model is the gate. The frame loop's rendering, ARCore session calls, light estimation, YUV conversion and map snapshots are left out. So is the `showBEV` visualisation: these are GPU and library calls.
- Depth and camera acquisition appear as outcomes in `FrameEvent`, and so do the exceptions of the rendering steps.
- HelloArRenderer.Renderer.ProcessDepthFrame: the copied frame and its packed bytes are built as the code builds them. The bytes are not sent anywhere, since the stream request that would use them is not selected.
- The network calls are left out: their HTTP and JSON bodies, the Gemini and local-server clients, the streaming variant, and the system-prompt text. Only which answers get spoken is modelled (`GeminiSpoken`, `LocalServerSpoken`, `CurlSpoken`). The removal of quote and backslash characters from local-server answers (`HelloArRenderer.kt:467`) is also left out.
- The route search in both `PathFinder.kt` files is left out. It is network I/O and JSON parsing.
- The tone generator, vibration, text views, toasts and speech-recognition intents are device I/O and not modelled. `toneOn` means the warning tone was started and not yet stopped; `startTone(…, 2000)` (`HelloArRenderer.kt:253`) also ends the tone by itself after 2 s, which is not modelled.
- VoiceAssistant: `speakTextAndAWait` resumes a coroutine continuation, which is not modelled; its listener is a plain `Listener`. `speak` is a request appended to `requests`. The engine's `QUEUE_FLUSH`, `onStart` and `stop` are not modelled. The clock reading `System.currentTimeMillis()` is a parameter.
- Text.ToLower: lowercases ASCII letters only. Other scripts and Unicode case mapping are not modelled. Strings are sequences of characters, without UTF-16 surrogates.
- Text.NatToDecimal, PathGuidanceManager.GuidanceManager.UpdateGuidanceForLocation: `%.0f` at `path/GuidanceManager.kt:115-117` writes the default locale's digits, which are not ASCII in, for example, Arabic or Persian locales. The model always writes ASCII digits, as `Long.toString` (`VoiceAssistant.kt:184`) and the `$clockHourInt` template (`path/GuidanceManager.kt:46`) do.
- `BoundingBoxView.kt`, `DirectionsDataModels.kt` and the activity's sensor and permission code are not part of this model. The data classes appear only as the shapes the model needs, such as `RouteLegStep`.

## Findings

The clock face uses the corrected hour, which equals the code's hour on every heading
the library returns. For the busy flag and the speech assistant, the classes follow
the code as written. The corrected definitions sit beside them, with the intended
property proved about each.

| source | as written | input that shows it | evidently intended | confidence | as-written member | corrected member |
|---|---|---|---|---|---|---|
| app/src/main/java/com/google/ar/core/examples/kotlin/helloar/path/GuidanceManager.kt:34 | `(bearingDegrees + 360) % 360` uses the truncating remainder, so a heading below -360 stays negative and the hour leaves 1..12 | heading -450 (the direction 270) gives "-2 o'clock" | normalise into [0, 360) as the comment says, giving "9 o'clock" | not executed; the library's headings lie in [-180, 180), where both agree (`ClockHourAsWrittenAgrees`) | PathGuidanceManager.ClockHourAsWrittenOutOfRange | PathGuidanceManager.ClockHour |
| app/src/main/java/com/google/ar/core/examples/kotlin/helloar/HelloArRenderer.kt:850-852 | the catch-all handlers (also at `HelloArRenderer.kt:755-757`) call `isProcessing.getAndSet(false)` whoever holds the flag, so an exception raised after a dispatch frees the flag of a request still in flight | on the path without AR depth, the admitted frame at counter 10 dispatches and a later rendering step throws; the admitted frame at counter 20 dispatches again: two requests in flight | one request in flight at a time, as the compare-and-set at `HelloArRenderer.kt:720` intends; a handler frees only a flag its own frame took without launching | not executed | HelloArRenderer.StrayReleaseAllowsSecondFlight | HelloArRenderer.DrawFrameCorrectedPreservesSingleFlight |
| app/src/main/java/com/google/ar/core/examples/kotlin/helloar/VoiceAssistant.kt:51 | `textToSpeech?.setLanguage(...)` on an engine already set to null by `shutdownTextToSpeech` gives null, which is neither failure, so the callback sets `isInitialized = true` with no engine | initialise, shut down, then the engine's success callback arrives; a non-blank `speakTextAndWait` stores its listener and nothing ever completes it | ready only with an engine, so a request that cannot be spoken invokes its listener at once, as `VoiceAssistant.kt:190-191` intends | not executed | VoiceAssistant.LateInitCallbackAfterShutdown | VoiceAssistant.StepCorrectedKeepsReadyHasEngine |
