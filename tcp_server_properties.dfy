/**
 * What one `data` event does to the stores, stage by stage, and the
 * invariants the handler keeps across any sequence of events.
 */
module TcpServerProperties {
  import opened Wrappers
  import opened Strings
  import opened Instants
  import opened Tk103
  import opened Storage
  import opened StateEngine
  import opened TcpServer

  predicate IsHeartbeat(g: GpsData) {
    g.kind == HeartbeatSimple || g.kind == HeartbeatCommand
  }

  predicate IsStoredLocation(g: GpsData) {
    g.kind == LocationUpdate && g.lat.Some? && g.lng.Some?
  }

  /** The event reports the recorded position: same device, place, motion and time. */
  predicate Reports(e: PositionEvent, p: PositionRow) {
    && e.deviceId == p.deviceId && e.lat == p.lat && e.lng == p.lng
    && e.speed == p.speed && e.course == p.course && e.lastUpdate == p.timestamp
  }

  /** Some recorded position is the one the event reports. */
  predicate Recorded(positions: seq<PositionRow>, e: PositionEvent) {
    exists p :: p in positions && Reports(e, p)
  }

  /** Every event broadcast so far reports a position that was recorded. */
  predicate EventsRecorded(s: StoreState) {
    forall e :: e in s.emitted ==> Recorded(s.positions, e)
  }

  // ---------------------------------------------------------------------
  // The raw log and the reply, whatever the payload decoded to.

  /** The raw payload is logged with its receipt time unless that insert throws. */
  lemma RawLogFirst(s: StoreState, raw: string, receivedAt: Instant, parsed: Option<GpsData>, f: Faults)
    ensures Handle(s, raw, receivedAt, parsed, f).rawLogs
         == if f.rawLog then s.rawLogs else s.rawLogs + [RawLog(raw, receivedAt)]
  {
    if parsed.Some? {
      ProcessFrame(Logged(s, raw, receivedAt, f), parsed.value, f);
    }
  }

  /** Processing never reads the raw log, so a failed raw insert changes nothing else. */
  lemma ProcessIgnoresRawLogs(s: StoreState, logs: seq<RawLog>, g: GpsData, f: Faults)
    ensures Process(s.(rawLogs := logs), g, f) == Process(s, g, f).(rawLogs := logs)
  {
  }

  /** The outcome of an event is the same whether or not the raw-log insert throws, apart from the raw log. */
  lemma RawLogFailureHarmless(s: StoreState, raw: string, receivedAt: Instant, parsed: Option<GpsData>, f: Faults)
    ensures Handle(s, raw, receivedAt, parsed, f.(rawLog := true))
         == Handle(s, raw, receivedAt, parsed, f.(rawLog := false)).(rawLogs := s.rawLogs)
  {
    if parsed.Some? {
      ProcessIgnoresRawLogs(s, s.rawLogs + [RawLog(raw, receivedAt)], parsed.value, f.(rawLog := false));
      ProcessIgnoresRawLogs(s, s.rawLogs, parsed.value, f.(rawLog := true));
    }
  }

  /** `(AP05)` is written exactly when the payload contains `BP05`, decoded or not, whatever fails. */
  lemma LoginReplyIff(s: StoreState, raw: string, receivedAt: Instant, parsed: Option<GpsData>, f: Faults)
    ensures Handle(s, raw, receivedAt, parsed, f).socketWrites
         == s.socketWrites + (if Contains(raw, "BP05") then [LoginReply] else [])
  {
    if parsed.Some? {
      ProcessFrame(Logged(s, raw, receivedAt, f), parsed.value, f);
    }
  }

  /** A payload the decoder rejects is only logged (and answered when it contains `BP05`). */
  lemma UndecodedOnlyLogged(s: StoreState, raw: string, receivedAt: Instant, f: Faults)
    ensures var t := Handle(s, raw, receivedAt, None, f);
      t.positions == s.positions && t.devices == s.devices && t.emitted == s.emitted
  {
  }

  // ---------------------------------------------------------------------
  // What each kind of message may change.

  /** Processing writes only positions, device rows and events, and never adds or removes a device. */
  lemma ProcessFrame(s: StoreState, g: GpsData, f: Faults)
    ensures var t := Process(s, g, f);
      && t.rawLogs == s.rawLogs && t.socketWrites == s.socketWrites && t.devices.Keys == s.devices.Keys
      && (t.positions == s.positions || (IsStoredLocation(g) && t.positions == s.positions + [PositionOf(g)]))
  {
  }

  /**
   * No broadcast without a recorded position: an event is only emitted for
   * a location update of a known device, together with its position row,
   * and the event reports that row.
   */
  lemma NoBroadcastWithoutPosition(s: StoreState, g: GpsData, f: Faults)
    ensures var t := Process(s, g, f);
      t.emitted != s.emitted ==>
        && IsStoredLocation(g) && g.deviceId in s.devices
        && t.positions == s.positions + [PositionOf(g)]
        && t.emitted == s.emitted + [t.emitted[|s.emitted|]]
        && Reports(t.emitted[|s.emitted|], PositionOf(g))
  {
  }

  /** A heartbeat adds no position and emits nothing; it touches only its own device's row, keeping its state. */
  lemma HeartbeatNeverEmits(s: StoreState, g: GpsData, f: Faults)
    requires IsHeartbeat(g)
    ensures var t := Process(s, g, f);
      && t.emitted == s.emitted && t.positions == s.positions
      && t.devices.Keys == s.devices.Keys
      && (forall id :: id in s.devices && id != g.deviceId ==> t.devices[id] == s.devices[id])
      && (g.deviceId in s.devices && !f.heartbeatUpdate ==>
            var before := s.devices[g.deviceId];
            var after := t.devices[g.deviceId];
            && after.currentState == before.currentState && after.stateStartTime == before.stateStartTime
            && after.lastAlarm == before.lastAlarm && after.gpsStatus == before.gpsStatus
            && after.lastSeen == Some(g.timestamp) && after.status == "online" && after.internetStatus)
  {
  }

  /** The same for a whole event: a heartbeat never adds a position or an event. */
  lemma HeartbeatMessagesNeverEmit(s: StoreState, raw: string, receivedAt: Instant, parsed: Option<GpsData>, f: Faults)
    requires parsed.Some? && IsHeartbeat(parsed.value)
    ensures var t := Handle(s, raw, receivedAt, parsed, f);
      t.emitted == s.emitted && t.positions == s.positions
  {
    HeartbeatNeverEmits(Logged(s, raw, receivedAt, f), parsed.value, f);
  }

  /**
   * Alarm packets are decoded with coordinates but skipped by the location
   * branch: they record no position, write no device row and emit nothing.
   */
  lemma AlarmPacketsNotStored(s: StoreState, raw: string, receivedAt: Instant, parsed: Option<GpsData>, f: Faults)
    requires parsed.Some? && parsed.value.kind == Alarm
    ensures var t := Handle(s, raw, receivedAt, parsed, f);
      t.positions == s.positions && t.devices == s.devices && t.emitted == s.emitted
  {
  }

  /** The rows a location update leaves: only the reading's device changes, to the location row. */
  lemma LocationDevices(s: StoreState, g: GpsData, f: Faults)
    requires IsStoredLocation(g)
    ensures var t := StoreLocation(s, g, f);
      || t.devices == s.devices
      || (g.deviceId in s.devices
          && t.devices == s.devices[g.deviceId := TcpDeviceRow(s.devices[g.deviceId], g, Classify(g.accStatus, g.speed))])
  {
  }

  /**
   * `last_alarm` is written only by a location update that carries an alarm;
   * heartbeats keep it.
   */
  lemma LastAlarmKept(s: StoreState, raw: string, receivedAt: Instant, parsed: Option<GpsData>, f: Faults)
    requires parsed.Some? && IsStoredLocation(parsed.value) ==> parsed.value.alarm.None?
    ensures var t := Handle(s, raw, receivedAt, parsed, f);
      forall id :: id in s.devices ==> id in t.devices && t.devices[id].lastAlarm == s.devices[id].lastAlarm
  {
    HandleDevices(s, raw, receivedAt, parsed, f);
    if parsed.Some? {
      ProcessKeepsAlarm(s, parsed.value, f);
    }
  }

  /** The device rows after an event are those processing the decoded message leaves. */
  lemma HandleDevices(s: StoreState, raw: string, receivedAt: Instant, parsed: Option<GpsData>, f: Faults)
    ensures Handle(s, raw, receivedAt, parsed, f).devices
         == if parsed.Some? then Process(s, parsed.value, f).devices else s.devices
  {
    if parsed.Some? {
      ProcessIgnoresRawLogs(s, Logged(s, raw, receivedAt, f).rawLogs, parsed.value, f);
    }
  }

  /** Processing a message that is not a stored location with an alarm keeps every `last_alarm`. */
  lemma ProcessKeepsAlarm(s: StoreState, g: GpsData, f: Faults)
    requires IsStoredLocation(g) ==> g.alarm.None?
    ensures var t := Process(s, g, f);
      forall id :: id in s.devices ==> id in t.devices && t.devices[id].lastAlarm == s.devices[id].lastAlarm
  {
    if IsStoredLocation(g) {
      LocationDevices(s, g, f);
    } else if IsHeartbeat(g) {
      HeartbeatNeverEmits(s, g, f);
    }
  }

  // ---------------------------------------------------------------------
  // The stages of a location update, in order.

  /** A refused position insert (a throw, or no device row for the foreign key) ends the location update. */
  lemma InsertRefused(s: StoreState, g: GpsData, f: Faults)
    requires IsStoredLocation(g) && (f.positionInsert || g.deviceId !in s.devices)
    ensures StoreLocation(s, g, f) == s
  {
  }

  /** A failed device update keeps the recorded position and emits nothing. */
  lemma UpdateFailed(s: StoreState, g: GpsData, f: Faults)
    requires IsStoredLocation(g) && !f.positionInsert && g.deviceId in s.devices && f.deviceUpdate
    ensures StoreLocation(s, g, f) == s.(positions := s.positions + [PositionOf(g)])
  {
  }

  /** A failed re-read keeps the position and the device update and emits nothing. */
  lemma SelectFailed(s: StoreState, g: GpsData, f: Faults)
    requires IsStoredLocation(g) && !f.positionInsert && g.deviceId in s.devices && !f.deviceUpdate && f.deviceSelect
    ensures var t := StoreLocation(s, g, f);
      && t.emitted == s.emitted && t.positions == s.positions + [PositionOf(g)]
      && t.devices == s.devices[g.deviceId := TcpDeviceRow(s.devices[g.deviceId], g, Classify(g.accStatus, g.speed))]
  {
  }

  /**
   * The device row a stored location update leaves: online, seen at the
   * reading's time, in the classified state, dwell timestamp per the CASE,
   * and `internet_status` / `gps_status` cleared because the reading does
   * not carry them.
   */
  lemma LocationUpdateRow(s: StoreState, g: GpsData, f: Faults)
    requires IsStoredLocation(g) && !f.positionInsert && g.deviceId in s.devices && !f.deviceUpdate
    ensures var before := s.devices[g.deviceId];
      var after := StoreLocation(s, g, f).devices[g.deviceId];
      var next := Classify(g.accStatus, g.speed);
      && after.lastSeen == Some(g.timestamp) && after.status == "online"
      && after.currentState == Some(StateName(next))
      && after.stateStartTime == NextStartTime(before.currentState, before.stateStartTime, next, g.timestamp)
      && after.lastAlarm == (if Present(g.alarm).Some? then g.alarm else before.lastAlarm)
      && !after.internetStatus && !after.gpsStatus
  {
  }

  /**
   * When every store call succeeds and the times are valid, exactly one event
   * is emitted, in the classified state, with the start time now stored (the
   * reading's own time when the column is NULL).
   */
  lemma BroadcastOnSuccess(s: StoreState, g: GpsData, f: Faults)
    requires IsStoredLocation(g) && g.deviceId in s.devices && g.timestamp.Time?
    requires s.devices[g.deviceId].stateStartTime != Some(InvalidDate)
    requires !f.positionInsert && !f.deviceUpdate && !f.deviceSelect
    ensures var t := StoreLocation(s, g, f);
      var stored := t.devices[g.deviceId].stateStartTime;
      && |t.emitted| == |s.emitted| + 1 && t.emitted == s.emitted + [t.emitted[|s.emitted|]]
      && t.emitted[|s.emitted|].state == StateName(Classify(g.accStatus, g.speed))
      && t.emitted[|s.emitted|].stateStartTime == (if stored.Some? then stored.value else g.timestamp)
      && Reports(t.emitted[|s.emitted|], PositionOf(g))
  {
  }

  /**
   * An identical second reading leaves the device row as the first left it,
   * in particular its `state_start_time`, and broadcasts the same event again.
   */
  lemma RepeatedReading(s: StoreState, g: GpsData)
    requires IsStoredLocation(g)
    ensures var t1 := StoreLocation(s, g, NoFaults);
      var t2 := StoreLocation(t1, g, NoFaults);
      && t2.devices == t1.devices
      && (|t1.emitted| == |s.emitted| + 1 ==> |t2.emitted| == |t1.emitted| + 1 && t2.emitted[|t1.emitted|] == t1.emitted[|s.emitted|])
  {
    if g.deviceId in s.devices {
      var next := Classify(g.accStatus, g.speed);
      var row := s.devices[g.deviceId];
      LocationRowIdempotent(row, g.timestamp, next, g.alarm);
      assert TcpDeviceRow(TcpDeviceRow(row, g, next), g, next) == TcpDeviceRow(row, g, next);
    }
  }

  // ---------------------------------------------------------------------
  // Invariants over any sequence of events.

  /** Appending positions, and events that each report one of them, keeps every event recorded. */
  lemma RecordedExtend(s: StoreState, t: StoreState, extra: seq<PositionRow>, events: seq<PositionEvent>)
    requires EventsRecorded(s)
    requires t.positions == s.positions + extra && t.emitted == s.emitted + events
    requires forall e :: e in events ==> Recorded(extra, e)
    ensures EventsRecorded(t)
  {
    forall e | e in t.emitted
      ensures Recorded(t.positions, e)
    {
      var p :| (p in s.positions || p in extra) && Reports(e, p);
      assert p in t.positions;
    }
  }

  /** Every event broadcast reports a recorded position, before and after any event. */
  lemma EventsRecordedPreserved(s: StoreState, raw: string, receivedAt: Instant, parsed: Option<GpsData>, f: Faults)
    requires EventsRecorded(s)
    ensures EventsRecorded(Handle(s, raw, receivedAt, parsed, f))
  {
    var logged := Logged(s, raw, receivedAt, f);
    var t := if parsed.Some? then Process(logged, parsed.value, f) else logged;
    if parsed.Some? {
      var g := parsed.value;
      NoBroadcastWithoutPosition(logged, g, f);
      ProcessFrame(logged, g, f);
      if t.emitted == logged.emitted {
        if t.positions == logged.positions {
          RecordedExtend(s, t, [], []);
        } else {
          RecordedExtend(s, t, [PositionOf(g)], []);
        }
      } else {
        var e := t.emitted[|logged.emitted|];
        assert PositionOf(g) in [PositionOf(g)];
        RecordedExtend(s, t, [PositionOf(g)], [e]);
      }
    } else {
      RecordedExtend(s, t, [], []);
    }
    RecordedExtend(t, Handle(s, raw, receivedAt, parsed, f), [], []);
  }

  /** Every position keeps a device row: the foreign key holds after any event, and the device keys never change. */
  lemma ForeignKeyPreserved(s: StoreState, raw: string, receivedAt: Instant, parsed: Option<GpsData>, f: Faults)
    requires ForeignKeyHolds(s)
    ensures ForeignKeyHolds(Handle(s, raw, receivedAt, parsed, f))
    ensures Handle(s, raw, receivedAt, parsed, f).devices.Keys == s.devices.Keys
  {
    if parsed.Some? {
      ProcessFrame(Logged(s, raw, receivedAt, f), parsed.value, f);
    }
  }

  /**
   * The handler itself keeps both invariants and never writes `last_alarm`:
   * the decoder sets `alarm` only on alarm packets, which the location
   * branch skips.
   */
  lemma IngestInvariants(s: StoreState, raw: string, receivedAt: Instant, parsedAt: Instant, f: Faults)
    requires EventsRecorded(s) && ForeignKeyHolds(s)
    ensures var t := Ingest(s, raw, receivedAt, parsedAt, f);
      && EventsRecorded(t) && ForeignKeyHolds(t) && t.devices.Keys == s.devices.Keys
      && forall id :: id in s.devices ==> t.devices[id].lastAlarm == s.devices[id].lastAlarm
  {
    var parsed := Parse(Text(raw), parsedAt);
    EventsRecordedPreserved(s, raw, receivedAt, parsed, f);
    ForeignKeyPreserved(s, raw, receivedAt, parsed, f);
    LastAlarmKept(s, raw, receivedAt, parsed, f);
  }
}
