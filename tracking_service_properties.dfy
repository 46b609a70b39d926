/**
 * What `processLocationUpdate` returns and leaves in the stores, step by
 * step, and how it compares with the location branch of the TCP handler.
 */
module TrackingServiceProperties {
  import opened Wrappers
  import opened Numbers
  import opened Instants
  import opened Storage
  import opened StateEngine
  import opened TrackingService
  import Tk103
  import TcpServer
  import TcpServerProperties

  /** The start time the broadcast would carry once the device row is updated. */
  function StartAfterUpdate(row: DeviceRow, d: LocationUpdate): Instant {
    ReportedStartTime(Some(LocationRow(row, d.timestamp, Classify(d.accStatus, d.speed), d.alarm)), d.timestamp)
  }

  /**
   * The call succeeds exactly when every store call succeeds and the stored
   * start time converts to an ISO string, and it then returns the classified
   * state, which is never `offline`.
   */
  lemma TrackResult(s: StoreState, d: LocationUpdate, io: bool, f: Faults)
    ensures var r := Track(s, d, io, f).result;
      && (r.Ok? <==> !f.positionInsert && d.deviceId in s.devices && !f.deviceUpdate && !f.deviceSelect
                     && StartAfterUpdate(s.devices[d.deviceId], d).Time?)
      && (r.Ok? ==> r.value == Classify(d.accStatus, d.speed) && r.value != Offline)
  {
  }

  /** The position insert comes first: when it is refused (a throw, or no device row) nothing changes. */
  lemma InsertRefused(s: StoreState, d: LocationUpdate, io: bool, f: Faults)
    ensures Track(s, d, io, f).result == Err(PositionInsert) <==> f.positionInsert || d.deviceId !in s.devices
    ensures Track(s, d, io, f).result == Err(PositionInsert) ==> Track(s, d, io, f).state == s
  {
  }

  /** A failed device update keeps the inserted position: the steps are not one transaction. */
  lemma UpdateFailedKeepsPosition(s: StoreState, d: LocationUpdate, io: bool, f: Faults)
    requires Track(s, d, io, f).result == Err(DeviceUpdate)
    ensures Track(s, d, io, f).state == s.(positions := s.positions + [PositionOf(d)])
  {
  }

  /** The device row is updated only after the position is recorded. */
  lemma InsertBeforeUpdate(s: StoreState, d: LocationUpdate, io: bool, f: Faults)
    ensures var t := Track(s, d, io, f).state;
      t.devices != s.devices ==> t.positions == s.positions + [PositionOf(d)]
  {
  }

  /**
   * An event is broadcast exactly when the call succeeds with a socket server
   * attached; it carries the classified state and the start time now stored,
   * or the update's own time when that column is NULL.
   */
  lemma BroadcastIff(s: StoreState, d: LocationUpdate, io: bool, f: Faults)
    ensures var o := Track(s, d, io, f);
      && (o.state.emitted != s.emitted <==> io && o.result.Ok?)
      && (o.result.Err? ==> o.state.emitted == s.emitted)
      && (o.state.emitted != s.emitted ==>
            var stored := o.state.devices[d.deviceId].stateStartTime;
            && o.state.emitted == s.emitted + [o.state.emitted[|s.emitted|]]
            && o.state.emitted[|s.emitted|].state == StateName(o.result.value)
            && o.state.emitted[|s.emitted|].stateStartTime == (if stored.Some? then stored.value else d.timestamp)
            && o.state.emitted[|s.emitted|].tripDistance == OrZero(d.tripDistance))
  {
  }

  /**
   * The columns the update writes: `last_seen`, `status`, the dwell timestamp
   * per the CASE, `current_state`, and `last_alarm` only for a present alarm.
   * `internet_status` and `gps_status` are kept, and no other device changes.
   */
  lemma UpdatedRow(s: StoreState, d: LocationUpdate, io: bool, f: Faults)
    requires !f.positionInsert && d.deviceId in s.devices && !f.deviceUpdate
    ensures var t := Track(s, d, io, f).state;
      var before := s.devices[d.deviceId];
      var after := t.devices[d.deviceId];
      var next := Classify(d.accStatus, d.speed);
      && t.devices.Keys == s.devices.Keys
      && (forall id :: id in s.devices && id != d.deviceId ==> t.devices[id] == s.devices[id])
      && after.lastSeen == Some(d.timestamp) && after.status == "online"
      && after.currentState == Some(StateName(next))
      && after.stateStartTime == NextStartTime(before.currentState, before.stateStartTime, next, d.timestamp)
      && after.lastAlarm == (if Present(d.alarm).Some? then d.alarm else before.lastAlarm)
      && after.internetStatus == before.internetStatus && after.gpsStatus == before.gpsStatus
  {
  }

  /** Whatever happens, no update of this path changes `internet_status` or `gps_status`. */
  lemma LinkFlagsUntouched(s: StoreState, d: LocationUpdate, io: bool, f: Faults)
    ensures var t := Track(s, d, io, f).state;
      forall id :: id in s.devices ==>
        id in t.devices && t.devices[id].internetStatus == s.devices[id].internetStatus
        && t.devices[id].gpsStatus == s.devices[id].gpsStatus
  {
  }

  /** A second identical update leaves the device rows, the dwell timestamp included, as the first left them. */
  lemma RepeatedUpdate(s: StoreState, d: LocationUpdate, io: bool)
    ensures var t1 := Track(s, d, io, Faults(false, false, false));
      var t2 := Track(t1.state, d, io, Faults(false, false, false));
      t2.state.devices == t1.state.devices && t2.result == t1.result
  {
    if d.deviceId in s.devices {
      LocationRowIdempotent(s.devices[d.deviceId], d.timestamp, Classify(d.accStatus, d.speed), d.alarm);
    }
  }

  /** Whatever the outcome, the update keeps the foreign key and the invariant that every broadcast reports a recorded position. */
  lemma TrackKeepsInvariants(s: StoreState, d: LocationUpdate, io: bool, f: Faults)
    requires ForeignKeyHolds(s) && TcpServerProperties.EventsRecorded(s)
    ensures var t := Track(s, d, io, f).state;
      ForeignKeyHolds(t) && TcpServerProperties.EventsRecorded(t)
  {
    var t := Track(s, d, io, f).state;
    if t.emitted != s.emitted {
      var e := t.emitted[|s.emitted|];
      assert TcpServerProperties.Reports(e, PositionOf(d));
      assert PositionOf(d) in [PositionOf(d)];
      TcpServerProperties.RecordedExtend(s, t, [PositionOf(d)], [e]);
    } else if t.positions != s.positions {
      TcpServerProperties.RecordedExtend(s, t, [PositionOf(d)], []);
    } else {
      TcpServerProperties.RecordedExtend(s, t, [], []);
    }
  }

  // ---------------------------------------------------------------------
  // The TCP location branch and this path side by side.

  /** The update this path would receive for a decoded location reading. */
  function FromReading(g: Tk103.GpsData): (d: LocationUpdate)
    requires g.lat.Some? && g.lng.Some?
    ensures d.deviceId == g.deviceId && d.timestamp == g.timestamp && d.speed == g.speed && d.accStatus == g.accStatus
  {
    LocationUpdate(g.deviceId, g.lat.value, g.lng.value, g.speed, g.course, g.alarm, g.accStatus, g.doorStatus,
                   g.timestamp, g.tripDistance)
  }

  /**
   * The TCP branch and this path, given the same reading and the same
   * failures, record the same position and broadcast the same event in the
   * same state; their device rows differ only in the TCP branch clearing
   * `internet_status` and `gps_status`.
   */
  lemma SameAsTcp(s: StoreState, g: Tk103.GpsData, tf: TcpServer.Faults)
    requires TcpServerProperties.IsStoredLocation(g)
    ensures var a := TcpServer.StoreLocation(s, g, tf);
      var b := Track(s, FromReading(g), true, Faults(tf.positionInsert, tf.deviceUpdate, tf.deviceSelect)).state;
      && a.positions == b.positions && a.emitted == b.emitted
      && a.devices == if !tf.positionInsert && g.deviceId in s.devices && !tf.deviceUpdate
                      then b.devices[g.deviceId := b.devices[g.deviceId].(internetStatus := false, gpsStatus := false)]
                      else b.devices
  {
    var d := FromReading(g);
    assert TcpServer.PositionOf(g) == PositionOf(d);
    if g.deviceId in s.devices {
      var next := Classify(g.accStatus, g.speed);
      var row := s.devices[g.deviceId];
      assert TcpServer.TcpDeviceRow(row, g, next) == LocationRow(row, d.timestamp, next, d.alarm).(internetStatus := false, gpsStatus := false);
      forall start: Instant
        ensures TcpServer.EventOf(g, next, start) == EventOf(d, next, start)
      {
      }
    }
  }
}
