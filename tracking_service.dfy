/**
 * `processLocationUpdate`, the location path of the HTTP simulation route:
 * insert the position, classify, update the device, re-read its start time
 * and, when a socket server is attached, broadcast. The first store call
 * that throws ends the run and its error is rethrown to the caller.
 */
module TrackingService {
  import opened Wrappers
  import opened Numbers
  import opened Instants
  import opened Storage
  import opened StateEngine

  /** The `LocationUpdate` interface; an optional property left undefined is None. */
  datatype LocationUpdate = LocationUpdate(
    deviceId: string,
    lat: JsNumber,
    lng: JsNumber,
    speed: Option<JsNumber>,
    course: Option<JsNumber>,
    alarm: Option<string>,
    accStatus: Option<bool>,
    doorStatus: Option<bool>,
    timestamp: Instant,
    tripDistance: Option<JsNumber>)

  /** Which store calls throw during one update. */
  datatype Faults = Faults(positionInsert: bool, deviceUpdate: bool, deviceSelect: bool)

  /** The step whose error reaches the caller; `toISOString` of an invalid start time throws a RangeError. */
  datatype Failure = PositionInsert | DeviceUpdate | DeviceSelect | InvalidStartTime

  /** The stores after an update, and what the call returns or throws. */
  datatype Outcome = Outcome(state: StoreState, result: Result<DeviceState, Failure>)

  /**
   * The `positions` row; `internet_status` and `gps_status` are not in the
   * column list and take their default, false.
   */
  function PositionOf(d: LocationUpdate): (p: PositionRow)
    ensures p.deviceId == d.deviceId && p.lat == d.lat && p.lng == d.lng && p.timestamp == d.timestamp
    ensures p.speed == OrZero(d.speed) && p.course == OrZero(d.course) && p.alarm == Present(d.alarm)
    ensures p.accStatus == (d.accStatus == Some(true)) && p.doorStatus == (d.doorStatus == Some(true))
    ensures !p.internetStatus && !p.gpsStatus
  {
    PositionRow(d.deviceId, d.lat, d.lng, OrZero(d.speed), OrZero(d.course), Present(d.alarm),
                d.accStatus == Some(true), false, false, d.doorStatus == Some(true), d.timestamp)
  }

  /** The `position` event; it has no `internetStatus` or `gpsStatus` property. */
  function EventOf(d: LocationUpdate, next: DeviceState, start: Instant): (e: PositionEvent)
    ensures e.deviceId == d.deviceId && e.lat == d.lat && e.lng == d.lng && e.lastUpdate == d.timestamp
    ensures e.state == StateName(next) && e.stateStartTime == start && e.tripDistance == OrZero(d.tripDistance)
    ensures e.internetStatus.None? && e.gpsStatus.None?
  {
    PositionEvent(d.deviceId, d.lat, d.lng, OrZero(d.speed), OrZero(d.course), d.alarm, d.accStatus,
                  None, None, StateName(next), start, OrZero(d.tripDistance), d.timestamp)
  }

  /** The whole run on a snapshot of the stores; `io` says whether a socket server is attached. */
  function Track(s: StoreState, d: LocationUpdate, io: bool, f: Faults): Outcome {
    if f.positionInsert || d.deviceId !in s.devices then Outcome(s, Err(PositionInsert))
    else
      var s1 := s.(positions := s.positions + [PositionOf(d)]);
      var next := Classify(d.accStatus, d.speed);
      if f.deviceUpdate then Outcome(s1, Err(DeviceUpdate))
      else
        var s2 := s1.(devices := s1.devices[d.deviceId := LocationRow(s1.devices[d.deviceId], d.timestamp, next, d.alarm)]);
        if f.deviceSelect then Outcome(s2, Err(DeviceSelect))
        else
          var start := ReportedStartTime(Some(s2.devices[d.deviceId]), d.timestamp);
          if start.InvalidDate? then Outcome(s2, Err(InvalidStartTime))
          else if io then Outcome(s2.(emitted := s2.emitted + [EventOf(d, next, start)]), Ok(next))
          else Outcome(s2, Ok(next))
  }

  /** `processLocationUpdate`, store call by store call; the returned state is `{success: true, state}`. */
  method ProcessLocationUpdate(store: Store, d: LocationUpdate, io: bool, f: Faults)
    returns (r: Result<DeviceState, Failure>)
    modifies store
    ensures Outcome(store.State(), r) == Track(old(store.State()), d, io, f)
  {
    var inserted := store.InsertPosition(PositionOf(d), f.positionInsert);
    if !inserted {
      return Err(PositionInsert);
    }
    var next := Classify(d.accStatus, d.speed);
    var updated := store.UpdateDevice(d.deviceId, row => LocationRow(row, d.timestamp, next, d.alarm), f.deviceUpdate);
    if !updated {
      return Err(DeviceUpdate);
    }
    var rows := store.SelectDevice(d.deviceId, f.deviceSelect);
    if rows.Err? {
      return Err(DeviceSelect);
    }
    var start := ReportedStartTime(rows.value, d.timestamp);
    if start.InvalidDate? {
      return Err(InvalidStartTime);
    }
    if io {
      store.Emit(EventOf(d, next, start));
    }
    return Ok(next);
  }
}
