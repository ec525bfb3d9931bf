/**
 * The movement gate of `src/components/Geo/LocationUpdater.tsx`: a position reading is
 * reported to the server only when there is no previously reported position or the reading
 * is at least 20 m away from it. The great-circle distance function is a parameter.
 */
module Location {
  import opened Wrappers

  datatype Coords = Coords(latitude: real, longitude: real)

  /** The `UpdateUser` request a report sends. */
  datatype LocationUpdate = LocationUpdate(id: int, latitude: real, longitude: real)

  const ThresholdMeters: real := 20.0

  /** `handlePosition`'s test: skip only a reading closer than the threshold. */
  predicate ShouldReport(last: Option<Coords>, reading: Coords, distance: (Coords, Coords) -> real)
    ensures last.None? ==> ShouldReport(last, reading, distance)
    ensures last.Some? ==> (ShouldReport(last, reading, distance) <==> distance(last.value, reading) >= ThresholdMeters)
  {
    last.None? || !(distance(last.value, reading) < ThresholdMeters)
  }

  /** The positions reported for a stream of readings, starting from `last`. */
  function ReportedPositions(last: Option<Coords>, readings: seq<Coords>, distance: (Coords, Coords) -> real): (r: seq<Coords>)
    ensures |r| <= |readings|
    ensures forall x :: x in r ==> x in readings
    ensures last.None? && readings != [] ==> r != [] && r[0] == readings[0]
    decreases |readings|
  {
    if readings == [] then []
    else if ShouldReport(last, readings[0], distance) then
      [readings[0]] + ReportedPositions(Some(readings[0]), readings[1..], distance)
    else
      ReportedPositions(last, readings[1..], distance)
  }

  /** Consecutive reports, and the first report and the starting position, are at least the
      threshold apart: movement below 20 m never produces an update. */
  lemma {:induction false} ReportsAreFarApart(last: Option<Coords>, readings: seq<Coords>, distance: (Coords, Coords) -> real)
    ensures var r := ReportedPositions(last, readings, distance);
      && (last.Some? && r != [] ==> distance(last.value, r[0]) >= ThresholdMeters)
      && forall i :: 0 < i < |r| ==> distance(r[i - 1], r[i]) >= ThresholdMeters
    decreases |readings|
  {
    if readings != [] {
      if ShouldReport(last, readings[0], distance) {
        ReportsAreFarApart(Some(readings[0]), readings[1..], distance);
      } else {
        ReportsAreFarApart(last, readings[1..], distance);
      }
    }
  }

  /** The last reported position after one reading. */
  function NextLast(last: Option<Coords>, reading: Coords, distance: (Coords, Coords) -> real): Option<Coords>
  {
    if ShouldReport(last, reading, distance) then Some(reading) else last
  }

  /** A stream of readings is handled one reading at a time: the reports for the first reading
      come first, and the rest start from the last position that reading leaves behind. This
      is how successive `LocationUpdater.HandlePosition` calls produce `ReportedPositions`. */
  lemma ReportedPositionsStep(last: Option<Coords>, reading: Coords, rest: seq<Coords>, distance: (Coords, Coords) -> real)
    ensures ReportedPositions(last, [reading] + rest, distance)
         == ReportedPositions(last, [reading], distance) + ReportedPositions(NextLast(last, reading, distance), rest, distance)
  {
    assert ([reading] + rest)[1..] == rest;
    assert [reading][1..] == [];
  }

  class LocationUpdater {
    /** The signed-in user's id; with no user no watcher is started. */
    const userId: Option<int>
    var lastPosition: Option<Coords>

    constructor (userId: Option<int>)
      ensures this.userId == userId && lastPosition == None
    {
      this.userId := userId;
      lastPosition := None;
    }

    /** `handlePosition`: a reported reading becomes the last position before the request is
        sent, so a failing request does not undo it. */
    method HandlePosition(reading: Coords, distance: (Coords, Coords) -> real) returns (report: Option<LocationUpdate>)
      modifies this`lastPosition
      ensures userId.None? ==> report == None
      ensures userId.Some? ==> (report.Some? <==> ShouldReport(old(lastPosition), reading, distance))
      ensures report.Some? ==>
        report.value == LocationUpdate(userId.value, reading.latitude, reading.longitude) && lastPosition == Some(reading)
      ensures report.None? ==> lastPosition == old(lastPosition)
      ensures userId.Some? ==>
        ReportedPositions(old(lastPosition), [reading], distance) == (if report.Some? then [reading] else [])
        && lastPosition == NextLast(old(lastPosition), reading, distance)
    {
      if userId.None? || !ShouldReport(lastPosition, reading, distance) {
        return None;
      }
      lastPosition := Some(reading);
      report := Some(LocationUpdate(userId.value, reading.latitude, reading.longitude));
    }
  }
}
