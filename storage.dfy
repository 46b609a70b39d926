/**
 * The stores the ingestion pipeline writes: the `raw_logs`, `positions` and
 * `devices` tables, the real-time `position` events and the bytes written
 * back on the device's socket. A store operation either succeeds or, when
 * its fault flag says so, throws and changes nothing.
 */
module Storage {
  import opened Wrappers
  import opened Numbers
  import opened Instants

  /** A row of `raw_logs`. */
  datatype RawLog = RawLog(payload: string, receivedAt: Instant)

  /** A row of `positions`; `battery_level` keeps its default and is not modelled. */
  datatype PositionRow = PositionRow(
    deviceId: string,
    lat: JsNumber,
    lng: JsNumber,
    speed: real,
    course: real,
    alarm: Option<string>,
    accStatus: bool,
    internetStatus: bool,
    gpsStatus: bool,
    doorStatus: bool,
    timestamp: Instant)

  /**
   * A row of `devices`, keyed by `device_id`. Nullable columns are options;
   * `name`, `tenant_id` and `created_at` are never written here and are not
   * modelled.
   */
  datatype DeviceRow = DeviceRow(
    status: string,
    currentState: Option<string>,
    stateStartTime: Option<Instant>,
    lastAlarm: Option<string>,
    lastSeen: Option<Instant>,
    internetStatus: bool,
    gpsStatus: bool)

  /** The payload of a `position` event; a property the emitter leaves undefined is None. */
  datatype PositionEvent = PositionEvent(
    deviceId: string,
    lat: JsNumber,
    lng: JsNumber,
    speed: real,
    course: real,
    alarm: Option<string>,
    accStatus: Option<bool>,
    internetStatus: Option<bool>,
    gpsStatus: Option<bool>,
    state: string,
    stateStartTime: Instant,
    tripDistance: real,
    lastUpdate: Instant)

  /** Everything the pipeline can change, as one value. */
  datatype StoreState = StoreState(
    rawLogs: seq<RawLog>,
    positions: seq<PositionRow>,
    devices: map<string, DeviceRow>,
    emitted: seq<PositionEvent>,
    socketWrites: seq<string>)

  /** The foreign key of `positions.device_id`: every position belongs to a device row. */
  predicate ForeignKeyHolds(s: StoreState) {
    forall j :: 0 <= j < |s.positions| ==> s.positions[j].deviceId in s.devices
  }

  /** The store operations the pipeline performs, with the effect each has on the stores. */
  class Store {
    var rawLogs: seq<RawLog>
    var positions: seq<PositionRow>
    var devices: map<string, DeviceRow>
    var emitted: seq<PositionEvent>
    var socketWrites: seq<string>

    function State(): StoreState
      reads this
    {
      StoreState(rawLogs, positions, devices, emitted, socketWrites)
    }

    /** A store holding the given device rows and nothing else. */
    constructor (initial: map<string, DeviceRow>)
      ensures State() == StoreState([], [], initial, [], [])
    {
      rawLogs := [];
      positions := [];
      devices := initial;
      emitted := [];
      socketWrites := [];
    }

    /** `INSERT INTO raw_logs`; any failure of it, such as a payload too long for the column, is the fault flag. */
    method InsertRawLog(entry: RawLog, fail: bool) returns (ok: bool)
      modifies this
      ensures ok == !fail
      ensures State() == if ok then old(State()).(rawLogs := old(rawLogs) + [entry]) else old(State())
    {
      ok := !fail;
      if ok {
        rawLogs := rawLogs + [entry];
      }
    }

    /** `INSERT INTO positions`: refused by the foreign key when the device has no row. */
    method InsertPosition(row: PositionRow, fail: bool) returns (ok: bool)
      modifies this
      ensures ok <==> !fail && row.deviceId in old(devices)
      ensures State() == if ok then old(State()).(positions := old(positions) + [row]) else old(State())
    {
      ok := !fail && row.deviceId in devices;
      if ok {
        positions := positions + [row];
      }
    }

    /**
     * `UPDATE devices SET ... WHERE device_id = id`, its SET list given as the
     * new row it makes of the stored one; a missing row makes it a no-op, not
     * an error.
     */
    method UpdateDevice(id: string, assign: DeviceRow -> DeviceRow, fail: bool) returns (ok: bool)
      modifies this
      ensures ok == !fail
      ensures State() == if ok && id in old(devices) then old(State()).(devices := old(devices)[id := assign(old(devices)[id])])
                         else old(State())
    {
      ok := !fail;
      if ok && id in devices {
        devices := devices[id := assign(devices[id])];
      }
    }

    /** `SELECT ... FROM devices WHERE device_id = id`: the row, or None when there is none. */
    method SelectDevice(id: string, fail: bool) returns (r: Result<Option<DeviceRow>, ()>)
      ensures fail <==> r.Err?
      ensures r.Ok? ==> r.value == if id in devices then Some(devices[id]) else None
    {
      if fail {
        r := Err(());
      } else {
        r := Ok(if id in devices then Some(devices[id]) else None);
      }
    }

    /** `io.emit('position', event)`. */
    method Emit(event: PositionEvent)
      modifies this
      ensures State() == old(State()).(emitted := old(emitted) + [event])
    {
      emitted := emitted + [event];
    }

    /** `socket.write(text)`. */
    method WriteSocket(text: string)
      modifies this
      ensures State() == old(State()).(socketWrites := old(socketWrites) + [text])
    {
      socketWrites := socketWrites + [text];
    }
  }
}
