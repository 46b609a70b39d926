/**
 * The `data` handler of a device connection: log the raw payload, decode it
 * with the TypeScript decoder, store a location update (position row,
 * classified state, conditional device update, re-read, broadcast) or a
 * heartbeat, and answer `BP05` with `(AP05)`. Each store call can throw;
 * a throw ends the try block it is in and the handler goes on after it.
 */
module TcpServer {
  import opened Wrappers
  import opened Strings
  import opened Numbers
  import opened Instants
  import opened Tk103
  import opened Storage
  import opened StateEngine

  /** Which store calls throw while one message is handled. */
  datatype Faults = Faults(rawLog: bool, positionInsert: bool, deviceUpdate: bool, deviceSelect: bool,
                           heartbeatUpdate: bool)

  const NoFaults: Faults := Faults(false, false, false, false, false)

  /** The reply a payload containing `BP05` gets. */
  const LoginReply: string := "(AP05)"

  /**
   * The `positions` row of a location update. `GPSData` has no
   * `internetStatus` or `gpsStatus` property, so `|| false` always stores false.
   */
  function PositionOf(g: GpsData): (p: PositionRow)
    requires g.lat.Some? && g.lng.Some?
    ensures p.deviceId == g.deviceId && p.lat == g.lat.value && p.lng == g.lng.value && p.timestamp == g.timestamp
    ensures !p.internetStatus && !p.gpsStatus
  {
    PositionRow(g.deviceId, g.lat.value, g.lng.value, OrZero(g.speed), OrZero(g.course), Present(g.alarm),
                g.accStatus == Some(true), false, false, g.doorStatus == Some(true), g.timestamp)
  }

  /** The device row after the location UPDATE of this path, which also writes `internet_status` and `gps_status`. */
  function TcpDeviceRow(row: DeviceRow, g: GpsData, next: DeviceState): DeviceRow {
    LocationRow(row, g.timestamp, next, g.alarm).(internetStatus := false, gpsStatus := false)
  }

  /** The `position` event; `internetStatus` and `gpsStatus` are read from properties `GPSData` lacks. */
  function EventOf(g: GpsData, next: DeviceState, start: Instant): (e: PositionEvent)
    requires g.lat.Some? && g.lng.Some?
    ensures e.deviceId == g.deviceId && e.lastUpdate == g.timestamp && e.stateStartTime == start
    ensures e.state == StateName(next) && e.internetStatus.None? && e.gpsStatus.None?
  {
    PositionEvent(g.deviceId, g.lat.value, g.lng.value, OrZero(g.speed), OrZero(g.course), g.alarm, g.accStatus,
                  None, None, StateName(next), start, OrZero(g.tripDistance), g.timestamp)
  }

  /**
   * The try block of a location update: insert the position (refused by the
   * foreign key when the device has no row), classify, update the device,
   * re-read its start time and emit. `toISOString` throws on an invalid start
   * time, which also ends the block before the emit.
   */
  function StoreLocation(s: StoreState, g: GpsData, f: Faults): StoreState
    requires g.lat.Some? && g.lng.Some?
  {
    if f.positionInsert || g.deviceId !in s.devices then s
    else
      var s1 := s.(positions := s.positions + [PositionOf(g)]);
      var next := Classify(g.accStatus, g.speed);
      if f.deviceUpdate then s1
      else
        var s2 := s1.(devices := s1.devices[g.deviceId := TcpDeviceRow(s1.devices[g.deviceId], g, next)]);
        if f.deviceSelect then s2
        else
          var start := ReportedStartTime(Some(s2.devices[g.deviceId]), g.timestamp);
          if start.InvalidDate? then s2
          else s2.(emitted := s2.emitted + [EventOf(g, next, start)])
  }

  /** The try block of a heartbeat: the UPDATE touches the device's row when there is one. */
  function StoreHeartbeat(s: StoreState, g: GpsData, f: Faults): StoreState {
    if f.heartbeatUpdate || g.deviceId !in s.devices then s
    else s.(devices := s.devices[g.deviceId := HeartbeatRow(s.devices[g.deviceId], g.timestamp)])
  }

  /** What a decoded message does to the stores: location updates and heartbeats are stored, other kinds are not. */
  function Process(s: StoreState, g: GpsData, f: Faults): StoreState {
    if g.kind == LocationUpdate && g.lat.Some? && g.lng.Some? then StoreLocation(s, g, f)
    else if g.kind == HeartbeatSimple || g.kind == HeartbeatCommand then StoreHeartbeat(s, g, f)
    else s
  }

  /** The raw log entry, unless its insert throws. */
  function Logged(s: StoreState, raw: string, receivedAt: Instant, f: Faults): StoreState {
    if f.rawLog then s else s.(rawLogs := s.rawLogs + [RawLog(raw, receivedAt)])
  }

  /** A `data` event whose payload `raw` decoded to `parsed`. */
  function Handle(s: StoreState, raw: string, receivedAt: Instant, parsed: Option<GpsData>, f: Faults): StoreState {
    var logged := Logged(s, raw, receivedAt, f);
    var processed := if parsed.Some? then Process(logged, parsed.value, f) else logged;
    if Contains(raw, "BP05") then processed.(socketWrites := processed.socketWrites + [LoginReply]) else processed
  }

  /**
   * One `data` event: `raw` received at `receivedAt`, decoded with the
   * receipt time `parsedAt` of the decoder's own `new Date()`.
   */
  function Ingest(s: StoreState, raw: string, receivedAt: Instant, parsedAt: Instant, f: Faults): StoreState {
    Handle(s, raw, receivedAt, Parse(Text(raw), parsedAt), f)
  }

  /** The location branch, performed store call by store call. */
  method SaveLocation(store: Store, g: GpsData, f: Faults)
    requires g.lat.Some? && g.lng.Some?
    modifies store
    ensures store.State() == StoreLocation(old(store.State()), g, f)
  {
    var inserted := store.InsertPosition(PositionOf(g), f.positionInsert);
    if !inserted {
      return;
    }
    var next := Classify(g.accStatus, g.speed);
    var updated := store.UpdateDevice(g.deviceId, row => TcpDeviceRow(row, g, next), f.deviceUpdate);
    if !updated {
      return;
    }
    var rows := store.SelectDevice(g.deviceId, f.deviceSelect);
    if rows.Err? {
      return;
    }
    var start := ReportedStartTime(rows.value, g.timestamp);
    if start.InvalidDate? {
      return;
    }
    store.Emit(EventOf(g, next, start));
  }

  /** The `data` handler. */
  method HandleMessage(store: Store, raw: string, receivedAt: Instant, parsedAt: Instant, f: Faults)
    modifies store
    ensures store.State() == Ingest(old(store.State()), raw, receivedAt, parsedAt, f)
  {
    var logged := store.InsertRawLog(RawLog(raw, receivedAt), f.rawLog);
    var parsed := Parse(Text(raw), parsedAt);
    if parsed.Some? {
      var g := parsed.value;
      if g.kind == LocationUpdate && g.lat.Some? && g.lng.Some? {
        SaveLocation(store, g, f);
      } else if g.kind == HeartbeatSimple || g.kind == HeartbeatCommand {
        var updated := store.UpdateDevice(g.deviceId, row => HeartbeatRow(row, g.timestamp), f.heartbeatUpdate);
      }
    }
    if Contains(raw, "BP05") {
      store.WriteSocket(LoginReply);
    }
  }
}
