/**
 * The device state engine both location paths share: the classification of
 * a reading as moving, idling or parked, the conditional dwell timestamp
 * `state_start_time`, the columns a location or heartbeat update writes, and
 * the start time the broadcast reports.
 */
module StateEngine {
  import opened Wrappers
  import opened Numbers
  import opened Instants
  import opened Storage

  /** The values of `devices.current_state`; `offline` is never produced by a reading. */
  datatype DeviceState = Moving | Idling | Parked | Offline

  /** The text stored in `current_state` and sent as `state`. */
  function StateName(s: DeviceState): (n: string)
    ensures |n| >= 6
  {
    match s
    case Moving => "moving"
    case Idling => "idling"
    case Parked => "parked"
    case Offline => "offline"
  }

  /** `!acc ⇒ parked; speed && speed > 5 ⇒ moving; else idling`; undefined and NaN are falsy. */
  function Classify(acc: Option<bool>, speed: Option<JsNumber>): (s: DeviceState)
    ensures s != Offline
  {
    if acc != Some(true) then Parked
    else if speed.Some? && Truthy(speed.value) && speed.value.v > 5.0 then Moving
    else Idling
  }

  /** `x || null` and the truthiness test of an optional text: the empty string counts as absent. */
  function Present(x: Option<string>): (r: Option<string>)
    ensures r == x || r == None
    ensures r.Some? ==> r.value != ""
    ensures x.Some? && x.value != "" ==> r == x
  {
    if x.Some? && x.value != "" then x else None
  }

  /**
   * `CASE WHEN current_state != next THEN ts ELSE state_start_time END`.
   * Under SQL's three-valued logic a NULL `current_state` makes the test
   * unknown, which takes the ELSE branch.
   */
  function NextStartTime(current: Option<string>, start: Option<Instant>, next: DeviceState, ts: Instant): (r: Option<Instant>)
    ensures r == start || r == Some(ts)
  {
    if current.Some? && current.value != StateName(next) then Some(ts) else start
  }

  /**
   * The columns both location paths set. MySQL evaluates the assignments of
   * a single-table UPDATE from left to right, and `state_start_time` comes
   * before `current_state`, so the CASE compares against the stored state.
   */
  function LocationRow(row: DeviceRow, ts: Instant, next: DeviceState, alarm: Option<string>): (r: DeviceRow)
    ensures r.internetStatus == row.internetStatus && r.gpsStatus == row.gpsStatus
    ensures r.lastSeen == Some(ts) && r.status == "online" && r.currentState == Some(StateName(next))
    ensures r.stateStartTime == NextStartTime(row.currentState, row.stateStartTime, next, ts)
    ensures r.lastAlarm == if Present(alarm).Some? then alarm else row.lastAlarm
  {
    row.(lastSeen := Some(ts), status := "online",
         stateStartTime := NextStartTime(row.currentState, row.stateStartTime, next, ts),
         currentState := Some(StateName(next)),
         lastAlarm := if Present(alarm).Some? then alarm else row.lastAlarm)
  }

  /** `UPDATE devices SET last_seen = ts, status = 'online', internet_status = true`. */
  function HeartbeatRow(row: DeviceRow, ts: Instant): (r: DeviceRow)
    ensures r.currentState == row.currentState && r.stateStartTime == row.stateStartTime
    ensures r.lastAlarm == row.lastAlarm && r.gpsStatus == row.gpsStatus
    ensures r.lastSeen == Some(ts) && r.status == "online" && r.internetStatus
  {
    row.(lastSeen := Some(ts), status := "online", internetStatus := true)
  }

  /** `deviceRows[0]?.state_start_time || ts`: the stored start time, else the reading's time. */
  function ReportedStartTime(row: Option<DeviceRow>, ts: Instant): (r: Instant)
    ensures r == ts || (row.Some? && row.value.stateStartTime == Some(r))
    ensures row.Some? && row.value.stateStartTime.Some? ==> row.value.stateStartTime == Some(r)
  {
    if row.Some? && row.value.stateStartTime.Some? then row.value.stateStartTime.value else ts
  }

  // ---------------------------------------------------------------------
  // Classification.

  lemma StateNameInjective(a: DeviceState, b: DeviceState)
    ensures StateName(a) == StateName(b) <==> a == b
  {
  }

  /** The three outcomes of the classification, each with its exact condition. */
  lemma ClassifyCases(acc: Option<bool>, speed: Option<JsNumber>)
    ensures Classify(acc, speed) == Parked <==> acc != Some(true)
    ensures Classify(acc, speed) == Moving <==> acc == Some(true) && speed.Some? && speed.value.Finite? && speed.value.v > 5.0
    ensures Classify(acc, speed) == Idling <==> acc == Some(true) && !(speed.Some? && speed.value.Finite? && speed.value.v > 5.0)
  {
  }

  /** The threshold is strict: 5 with ACC on is idling, anything above is moving. */
  lemma SpeedThreshold(v: real)
    ensures Classify(Some(true), Some(Finite(v))) == if v > 5.0 then Moving else Idling
  {
  }

  /** With ACC on, a faster reading is never less moving. */
  lemma ClassifyMonotone(v1: real, v2: real)
    requires v1 <= v2 && Classify(Some(true), Some(Finite(v1))) == Moving
    ensures Classify(Some(true), Some(Finite(v2))) == Moving
  {
  }

  // ---------------------------------------------------------------------
  // Dwell time.

  /** The dwell timestamp is kept exactly when the stored state is not a different one. */
  lemma DwellKeptIff(current: Option<string>, start: Option<Instant>, next: DeviceState, ts: Instant)
    requires start != Some(ts)
    ensures NextStartTime(current, start, next, ts) == start <==> current.None? || current.value == StateName(next)
  {
  }

  /** A reading in the stored state keeps the dwell timestamp. */
  lemma DwellPreserved(row: DeviceRow, ts: Instant, next: DeviceState, alarm: Option<string>)
    requires row.currentState == Some(StateName(next))
    ensures LocationRow(row, ts, next, alarm).stateStartTime == row.stateStartTime
  {
  }

  /** A reading that changes the stored state starts the dwell at the reading's time. */
  lemma DwellReset(row: DeviceRow, ts: Instant, next: DeviceState, alarm: Option<string>)
    requires row.currentState.Some? && row.currentState.value != StateName(next)
    ensures LocationRow(row, ts, next, alarm).stateStartTime == Some(ts)
  {
  }

  /** The same reading applied twice leaves the row as applying it once does. */
  lemma LocationRowIdempotent(row: DeviceRow, ts: Instant, next: DeviceState, alarm: Option<string>)
    ensures LocationRow(LocationRow(row, ts, next, alarm), ts, next, alarm) == LocationRow(row, ts, next, alarm)
  {
  }

  /** A reading is a time and the state it classifies to. */
  datatype Reading = Reading(ts: Instant, state: DeviceState)

  /** The row after a series of location readings without alarm, oldest first. */
  function ApplyReadings(row: DeviceRow, readings: seq<Reading>): (r: DeviceRow)
    decreases |readings|
  {
    if readings == [] then row
    else ApplyReadings(LocationRow(row, readings[0].ts, readings[0].state, None), readings[1..])
  }

  predicate SameState(readings: seq<Reading>, s: DeviceState) {
    forall i :: 0 <= i < |readings| ==> readings[i].state == s
  }

  /**
   * After a run of readings that all classify to the same state, the dwell
   * timestamp is the one the first reading of the run left: later readings
   * of that state never move it, whatever their times.
   */
  lemma {:induction false} SameStateRun(row: DeviceRow, readings: seq<Reading>)
    requires |readings| > 0 && SameState(readings, readings[0].state)
    ensures ApplyReadings(row, readings).stateStartTime
         == LocationRow(row, readings[0].ts, readings[0].state, None).stateStartTime
    ensures ApplyReadings(row, readings).currentState == Some(StateName(readings[0].state))
    decreases |readings|
  {
    var first := LocationRow(row, readings[0].ts, readings[0].state, None);
    if |readings| > 1 {
      var rest := readings[1..];
      assert rest[0].state == readings[0].state;
      assert SameState(rest, rest[0].state) by {
        forall i | 0 <= i < |rest| ensures rest[i].state == rest[0].state {
          assert rest[i] == readings[i + 1];
        }
      }
      SameStateRun(first, rest);
      DwellPreserved(first, rest[0].ts, rest[0].state, None);
    }
  }

  /**
   * The dwell timestamp after any series of readings is the time of the
   * latest reading that changed a known stored state, or the original
   * timestamp when no reading did.
   */
  function LastChange(current: Option<string>, start: Option<Instant>, readings: seq<Reading>): (r: Option<Instant>)
    decreases |readings|
  {
    if readings == [] then start
    else
      var next := if current.Some? && current.value != StateName(readings[0].state) then Some(readings[0].ts) else start;
      LastChange(Some(StateName(readings[0].state)), next, readings[1..])
  }

  lemma {:induction false} ApplyReadingsStart(row: DeviceRow, readings: seq<Reading>)
    ensures ApplyReadings(row, readings).stateStartTime == LastChange(row.currentState, row.stateStartTime, readings)
    decreases |readings|
  {
    if readings != [] {
      ApplyReadingsStart(LocationRow(row, readings[0].ts, readings[0].state, None), readings[1..]);
    }
  }
}
