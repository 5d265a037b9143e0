/**
 * The path-following guidance state machine (`path/GuidanceManager.kt`).
 *
 * `SetPolylinePath` arms guidance on a decoded route; every location fix goes
 * through `UpdateGuidanceForLocation`, which decides between arriving,
 * continuing on the path, heading back to the nearest vertex, and the
 * empty-route warning, and writes its text to the shared `GuidanceState`;
 * `StopGuidance` disarms. Speech is launched on a coroutine scope and runs
 * later: `launched` holds those coroutines until `RunLaunched` runs one.
 */
module PathGuidanceManager {
  import opened Jvm
  import opened Text
  import opened Options
  import opened Geo
  import opened PathGuidanceState

  const POLYLINE_TOLERANCE_METERS: real := 15.0
  const ARRIVAL_THRESHOLD_METERS: real := 15.0

  const CONTINUE_STRAIGHT := "Continue straight"
  const OFF_PATH_NO_ROUTE := "You are off the path. " + "Please try to head back towards the route."
  const STOP_MESSAGE := "Navigation stopped."
  const DEFAULT_DESTINATION := "your destination"

  // ---------------------------------------------------------------------------
  // Clock face

  /** `bearingToClockfaceDirection`'s hour as written: both normalisations use Kotlin's
      truncating `%`, so a heading below -360 is not brought into [0, 360). */
  function ClockHourAsWritten(bearingDegrees: real): int {
    var normalized := Rem360(bearingDegrees + 360.0);
    var adjusted := Rem360(normalized + 15.0);
    var hour := TruncToInt(adjusted / 30.0);
    if hour == 0 then 12 else hour
  }

  /** As written, -450 degrees (the heading 270) gives "-2 o'clock". */
  lemma ClockHourAsWrittenOutOfRange()
    ensures ClockHourAsWritten(-450.0) == -2
    ensures Mod360(-450.0) == 270.0
  {
  }

  /** The clock-face hour with the first normalisation made Euclidean, as its comment intends
      ("Normalize to 0-360 degrees"). The hour is always in 1..12. */
  function ClockHour(bearingDegrees: real): (h: int)
    ensures 1 <= h <= 12
  {
    var normalized := Mod360(bearingDegrees + 360.0);
    var adjusted := Rem360(normalized + 15.0);
    var hour := TruncToInt(adjusted / 30.0);
    if hour == 0 then 12 else hour
  }

  /** For every heading from -360 up, which includes every heading `computeHeading` returns
      ([-180, 180)), the corrected hour is the one the source computes. */
  lemma ClockHourAsWrittenAgrees(bearingDegrees: real)
    requires bearingDegrees >= -360.0
    ensures ClockHourAsWritten(bearingDegrees) == ClockHour(bearingDegrees)
  {
    Rem360IsMod360OnNonNegative(bearingDegrees + 360.0);
  }

  lemma Mod360Shift(x: real, k: int)
    ensures Mod360(x + 360.0 * (k as real)) == Mod360(x)
  {
    var f := (x / 360.0).Floor;
    assert (x + 360.0 * (k as real)) / 360.0 == x / 360.0 + k as real;
    assert ((x + 360.0 * (k as real)) / 360.0).Floor == f + k;
  }

  /** The hour depends only on the heading modulo 360. */
  lemma ClockHourPeriodic(bearingDegrees: real, k: int)
    ensures ClockHour(bearingDegrees + 360.0 * (k as real)) == ClockHour(bearingDegrees)
  {
    Mod360Shift(bearingDegrees + 360.0, k);
    assert bearingDegrees + 360.0 * (k as real) + 360.0 == (bearingDegrees + 360.0) + 360.0 * (k as real);
  }

  /** Hour h (1..11) covers the 30-degree sector centred on h * 30 degrees, and 12 covers
      the sector centred on north, [345, 360) and [0, 15). */
  lemma ClockHourSector(bearingDegrees: real, h: int)
    requires 1 <= h <= 12
    ensures var b := Mod360(bearingDegrees);
      ClockHour(bearingDegrees) == h <==>
        if h == 12 then b < 15.0 || b >= 345.0
        else (h * 30 - 15) as real <= b < (h * 30 + 15) as real
  {
    Mod360Shift(bearingDegrees, 1);
    assert bearingDegrees + 360.0 * (1 as real) == bearingDegrees + 360.0;
  }

  /** Every heading the library returns gets the hour the source computes, so the model's
      texts are the source's texts. */
  lemma LibraryHeadingsAgree(geo: Geometry, from: LatLng, to: LatLng)
    ensures ClockHourAsWritten(geo.computeHeading(from, to)) == ClockHour(geo.computeHeading(from, to))
  {
    ClockHourAsWrittenAgrees(geo.computeHeading(from, to));
  }

  /** `"$clockHourInt o'clock"`. */
  function ClockfaceDirection(bearingDegrees: real): string {
    NatToDecimal(ClockHour(bearingDegrees)) + " o'clock"
  }

  // ---------------------------------------------------------------------------
  // Nearest vertex

  /** The distance from `user` to each vertex of `path`. */
  function Distances(user: LatLng, path: seq<LatLng>, geo: Geometry): (ds: seq<real>)
    ensures |ds| == |path|
    ensures forall i | 0 <= i < |path| :: ds[i] == geo.computeDistanceBetween(user, path[i])
  {
    seq(|path|, i requires 0 <= i < |path| => geo.computeDistanceBetween(user, path[i]) as real)
  }

  /** The first index holding the least value of `ds`: the vertex the off-path scan picks,
      since a later vertex replaces the best so far only when strictly closer. */
  function FirstNearest(ds: seq<real>): (k: nat)
    requires |ds| > 0
    ensures k < |ds|
    ensures forall j | 0 <= j < |ds| :: ds[k] <= ds[j]
    ensures forall j | 0 <= j < k :: ds[j] > ds[k]
  {
    if |ds| == 1 then 0
    else
      var k := FirstNearest(ds[..|ds| - 1]);
      assert forall j | 0 <= j < |ds| - 1 :: ds[..|ds| - 1][j] == ds[j];
      if ds[|ds| - 1] < ds[k] then |ds| - 1 else k
  }

  /** The off-path scan of `updateGuidanceForLocation`: starts from the first vertex and
      replaces the best one whenever a later vertex is strictly closer. */
  method NearestVertex(user: LatLng, path: seq<LatLng>, geo: Geometry)
    returns (closestIndex: nat, closestVertexOnPath: LatLng, minDistance: real)
    requires |path| > 0
    ensures closestIndex == FirstNearest(Distances(user, path, geo))
    ensures closestIndex < |path| && closestVertexOnPath == path[closestIndex]
    ensures minDistance == geo.computeDistanceBetween(user, closestVertexOnPath)
    ensures forall j | 0 <= j < |path| :: minDistance <= geo.computeDistanceBetween(user, path[j])
  {
    ghost var ds := Distances(user, path, geo);
    closestIndex, closestVertexOnPath := 0, path[0];
    minDistance := geo.computeDistanceBetween(user, closestVertexOnPath);
    assert ds[..1] == [ds[0]];
    for i := 1 to |path|
      invariant closestIndex == FirstNearest(ds[..i])
      invariant closestIndex < i && closestVertexOnPath == path[closestIndex]
      invariant minDistance == ds[closestIndex]
    {
      var pathVertex := path[i];
      var distanceToVertex := geo.computeDistanceBetween(user, pathVertex);
      assert ds[..i + 1][..i] == ds[..i];
      if distanceToVertex < minDistance {
        minDistance := distanceToVertex;
        closestVertexOnPath := pathVertex;
        closestIndex := i;
      }
    }
    assert ds[..|path|] == ds;
  }

  // ---------------------------------------------------------------------------
  // The guidance decision

  /** `destinationName ?: "your destination"`. */
  function DestinationLabel(destinationName: Option<string>): string {
    if destinationName.Some? then destinationName.value else DEFAULT_DESTINATION
  }

  function StartedText(destination: string): string {
    "Navigation started to " + destination + "."
  }

  function ArrivalText(destination: string): string {
    "You are arriving at " + destination + ". Navigation ending."
  }

  /** `"Take %.0f meters to your %s"` with the distance and the clock-face direction. */
  function OffPathText(distance: Meters, bearingDegrees: real): string {
    "Take " + NatToDecimal(RoundHalfUp(distance)) + " meters to your " + ClockfaceDirection(bearingDegrees)
  }

  predicate OnPath(user: LatLng, path: seq<LatLng>, geo: Geometry) {
    geo.isLocationOnPath(user, path, true, POLYLINE_TOLERANCE_METERS)
  }

  /** On the path, with a last point closer than the arrival threshold. */
  predicate IsArrival(user: LatLng, path: seq<LatLng>, geo: Geometry) {
    OnPath(user, path, geo) && |path| > 0
    && geo.computeDistanceBetween(user, path[|path| - 1]) < ARRIVAL_THRESHOLD_METERS
  }

  /** The text `updateGuidanceForLocation` produces for a location on an armed route. */
  function GuidanceText(user: LatLng, path: seq<LatLng>, destination: string, geo: Geometry): string {
    if OnPath(user, path, geo) then
      if IsArrival(user, path, geo) then ArrivalText(destination) else CONTINUE_STRAIGHT
    else if |path| > 0 then
      var k := FirstNearest(Distances(user, path, geo));
      OffPathText(geo.computeDistanceBetween(user, path[k]), geo.computeHeading(user, path[k]))
    else OFF_PATH_NO_ROUTE
  }

  lemma NoVInOffPathText(distance: Meters, bearingDegrees: real)
    ensures 'v' !in OffPathText(distance, bearingDegrees)
  {
    var d := NatToDecimal(RoundHalfUp(distance));
    var h := NatToDecimal(ClockHour(bearingDegrees));
    assert 'v' !in d && 'v' !in h;
    assert OffPathText(distance, bearingDegrees) == "Take " + d + " meters to your " + (h + " o'clock");
  }

  /** Exactly the arrival text carries the word "arriving" that `stopGuidance` looks for,
      whatever the destination is called: only arrival suppresses "Navigation stopped.". */
  lemma {:induction false} ArrivingIffArrival(user: LatLng, path: seq<LatLng>, destination: string, geo: Geometry)
    ensures Contains(GuidanceText(user, path, destination, geo), "arriving") <==> IsArrival(user, path, geo)
  {
    var text := GuidanceText(user, path, destination, geo);
    if IsArrival(user, path, geo) {
      assert text[8..16] == "arriving";
      OccurrenceContained(text, "arriving", 8);
    } else if OnPath(user, path, geo) {
      MissingCharNotContained(text, "arriving", 'v');
    } else if |path| > 0 {
      var k := FirstNearest(Distances(user, path, geo));
      NoVInOffPathText(geo.computeDistanceBetween(user, path[k]), geo.computeHeading(user, path[k]));
      MissingCharNotContained(text, "arriving", 'v');
    } else {
      assert 'v' !in "You are off the path. " && 'v' !in "Please try to head back towards the route.";
      MissingCharNotContained(text, "arriving", 'v');
    }
  }

  /** Worked example: off a one-vertex route, 50 m from the vertex, which lies due east. */
  lemma OffPathExample(user: LatLng, vertex: LatLng, geo: Geometry)
    requires !OnPath(user, [vertex], geo)
    requires geo.computeDistanceBetween(user, vertex) == 50.0
    requires geo.computeHeading(user, vertex) == 90.0
    ensures GuidanceText(user, [vertex], "Dest", geo) == "Take 50 meters to your 3 o'clock"
  {
    assert FirstNearest(Distances(user, [vertex], geo)) == 0;
    assert GuidanceText(user, [vertex], "Dest", geo) == OffPathText(50.0, 90.0);
    OffPathTextExample();
  }

  /** 50 m at a heading of 90 degrees reads "Take 50 meters to your 3 o'clock". */
  lemma OffPathTextExample()
    ensures OffPathText(50.0, 90.0) == "Take 50 meters to your 3 o'clock"
  {
    assert RoundHalfUp(50.0) == 50;
    assert NatToDecimal(50) == "50";
    assert ClockHour(90.0) == 3;
    assert NatToDecimal(3) == "3";
  }

  // ---------------------------------------------------------------------------
  // The manager

  /** A coroutine launched on the manager's scope: speak the text, and for the arrival
      text stop guidance once the speech has finished. */
  datatype Launched = Announce(text: string) | AnnounceThenStop(text: string)

  class GuidanceManager {
    const guidanceState: GuidanceState
    var currentDecodedPath: Option<seq<LatLng>>
    var destinationName: Option<string>
    var lastReturnedGuidance: Option<string>
    var launched: seq<Launched>

    /** A route and its destination are set and cleared together. */
    ghost predicate Valid()
      reads this
    {
      currentDecodedPath.Some? <==> destinationName.Some?
    }

    constructor (guidanceState: GuidanceState)
      ensures Valid() && this.guidanceState == guidanceState
      ensures currentDecodedPath.None? && destinationName.None? && lastReturnedGuidance.None?
      ensures launched == []
    {
      this.guidanceState := guidanceState;
      currentDecodedPath, destinationName, lastReturnedGuidance := None, None, None;
      launched := [];
    }

    /** Arms guidance on `path` and announces the start. */
    method SetPolylinePath(path: seq<LatLng>, destinationName: string)
      modifies this, guidanceState
      ensures Valid()
      ensures currentDecodedPath == Some(path) && this.destinationName == Some(destinationName)
      ensures lastReturnedGuidance.None? && guidanceState.startGuiding
      ensures guidanceState.currentInstruction == StartedText(destinationName)
      ensures launched == old(launched) + [Announce(StartedText(destinationName))]
    {
      this.currentDecodedPath := Some(path);
      this.destinationName := Some(destinationName);
      guidanceState.SetStartGuiding(true);
      lastReturnedGuidance := None;
      var initialMessage := StartedText(DestinationLabel(this.destinationName));
      guidanceState.SetInstruction(initialMessage);
      launched := launched + [Announce(initialMessage)];
    }

    /** Handles a location fix: nothing happens unless guiding on a route; otherwise the
        text of `GuidanceText` is written to the shared state and returned. On arrival a
        coroutine that speaks and then stops guidance is launched; guiding stays on until
        that coroutine runs. */
    method UpdateGuidanceForLocation(currentUserLocation: LatLng, geo: Geometry)
      returns (r: Option<string>)
      requires Valid()
      modifies this, guidanceState
      ensures Valid()
      ensures !old(guidanceState.startGuiding) || old(currentDecodedPath).None? ==>
        r.None? && unchanged(this, guidanceState)
      ensures old(guidanceState.startGuiding) && old(currentDecodedPath).Some? ==>
        var path := old(currentDecodedPath).value;
        var text := GuidanceText(currentUserLocation, path, DestinationLabel(old(destinationName)), geo);
        && r == Some(text)
        && guidanceState.currentInstruction == text && guidanceState.startGuiding
        && currentDecodedPath == old(currentDecodedPath) && destinationName == old(destinationName)
        && (if IsArrival(currentUserLocation, path, geo)
            then launched == old(launched) + [AnnounceThenStop(text)] && lastReturnedGuidance == Some(text)
            else launched == old(launched) && lastReturnedGuidance == old(lastReturnedGuidance))
    {
      var guiding := guidanceState.GetStartGuiding();
      if !guiding || currentDecodedPath.None? {
        return None;
      }
      var path := currentDecodedPath.value;
      var destination := DestinationLabel(destinationName);
      var isOnPath := geo.isLocationOnPath(currentUserLocation, path, true, POLYLINE_TOLERANCE_METERS);
      var guidanceText := "";
      if isOnPath {
        if |path| > 0 {
          var endOfPath := path[|path| - 1];
          var distanceToEnd := geo.computeDistanceBetween(currentUserLocation, endOfPath);
          if distanceToEnd < ARRIVAL_THRESHOLD_METERS {
            guidanceText := ArrivalText(destination);
            guidanceState.SetInstruction(guidanceText);
            launched := launched + [AnnounceThenStop(guidanceText)];
            lastReturnedGuidance := Some(guidanceText);
            return Some(guidanceText);
          } else {
            guidanceText := CONTINUE_STRAIGHT;
          }
        } else {
          guidanceText := CONTINUE_STRAIGHT;
        }
      } else {
        if |path| > 0 {
          var _, closestVertexOnPath, minDistance := NearestVertex(currentUserLocation, path, geo);
          var bearingToPath := geo.computeHeading(currentUserLocation, closestVertexOnPath);
          guidanceText := OffPathText(minDistance, bearingToPath);
        } else {
          guidanceText := OFF_PATH_NO_ROUTE;
        }
      }
      guidanceState.SetInstruction(guidanceText);
      return Some(guidanceText);
    }

    /** Disarms guidance and clears the route. "Navigation stopped." is written and spoken
        only when guidance was on and the current instruction does not announce arrival,
        so a second call in a row changes nothing further. */
    method StopGuidance()
      modifies this, guidanceState
      ensures Valid()
      ensures currentDecodedPath.None? && destinationName.None? && lastReturnedGuidance.None?
      ensures !guidanceState.startGuiding
      ensures var announce := old(guidanceState.startGuiding)
                && !Contains(old(guidanceState.currentInstruction), "arriving");
        && guidanceState.currentInstruction
             == (if announce then STOP_MESSAGE else old(guidanceState.currentInstruction))
        && launched == old(launched) + (if announce then [Announce(STOP_MESSAGE)] else [])
    {
      var wasGuiding := guidanceState.GetStartGuiding();
      currentDecodedPath := None;
      guidanceState.SetStartGuiding(false);
      var stopMessage := STOP_MESSAGE;
      var instruction := guidanceState.GetInstruction();
      if wasGuiding && !Contains(instruction, "arriving") {
        guidanceState.SetInstruction(stopMessage);
        launched := launched + [Announce(stopMessage)];
      }
      destinationName := None;
      lastReturnedGuidance := None;
    }

    /** Runs the launched coroutine at index `i` to its end: the text is spoken, and for the
        arrival text guidance is stopped afterwards. */
    method RunLaunched(i: nat) returns (spoken: string)
      requires Valid() && i < |launched|
      modifies this, guidanceState
      ensures Valid()
      ensures spoken == old(launched[i]).text
      ensures old(launched[i]).Announce? ==>
        unchanged(guidanceState) && launched == old(launched[..i] + launched[i + 1..])
        && currentDecodedPath == old(currentDecodedPath) && destinationName == old(destinationName)
        && lastReturnedGuidance == old(lastReturnedGuidance)
      ensures old(launched[i]).AnnounceThenStop? ==>
        var announce := old(guidanceState.startGuiding)
          && !Contains(old(guidanceState.currentInstruction), "arriving");
        && currentDecodedPath.None? && destinationName.None? && lastReturnedGuidance.None?
        && !guidanceState.startGuiding
        && guidanceState.currentInstruction
             == (if announce then STOP_MESSAGE else old(guidanceState.currentInstruction))
        && launched == old(launched[..i] + launched[i + 1..]) + (if announce then [Announce(STOP_MESSAGE)] else [])
    {
      var job := launched[i];
      launched := launched[..i] + launched[i + 1..];
      spoken := job.text;
      if job.AnnounceThenStop? {
        StopGuidance();
      }
    }
  }
}
