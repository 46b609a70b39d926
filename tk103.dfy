/**
 * The TypeScript TK103 decoder: a total, pure function from a raw payload to
 * an optional reading. It tries five dialects in a fixed order: the
 * simulator frame `(id,CMD,lat,lng,speed,acc,trip)`, the standard packet
 * `imei:...`, the HQ packet `*HQ,...`, the 15-digit simple heartbeat and the
 * command heartbeat `##,imei:...`.
 */
module Tk103 {
  import opened Wrappers
  import opened Strings
  import opened Numbers
  import opened Instants

  /** The `type` of a reading. */
  datatype Kind = LocationUpdate | HeartbeatSimple | HeartbeatCommand | Other | Alarm

  /** The dialect a reading was decoded from. */
  datatype Format = Standard | Hq | Simulator | Unknown

  /** The decoded reading; an optional property that is left unset is None. */
  datatype GpsData = GpsData(
    deviceId: string,
    lat: Option<JsNumber>,
    lng: Option<JsNumber>,
    speed: Option<JsNumber>,
    course: Option<JsNumber>,
    timestamp: Instant,
    raw: string,
    kind: Kind,
    format: Format,
    alarm: Option<string>,
    accStatus: Option<bool>,
    doorStatus: Option<bool>,
    tripDistance: Option<JsNumber>)

  /** The shape every decoded reading has. */
  predicate WellShaped(g: GpsData, now: Instant) {
    && g.kind != Other && g.format != Unknown
    && (g.alarm.Some? <==> g.kind == Alarm)
    && ((g.kind == LocationUpdate || g.kind == Alarm) <==> (g.lat.Some? && g.lng.Some?))
    && ((g.kind == LocationUpdate || g.kind == Alarm) ==> g.speed.Some? && g.accStatus.Some?)
    && (g.kind == HeartbeatSimple || g.kind == HeartbeatCommand ==>
          g.format == Standard && g.timestamp == now && g.speed.None? && g.accStatus.None?
          && g.doorStatus.None? && g.tripDistance.None?)
    && (g.format == Hq || g.format == Simulator ==> g.kind == LocationUpdate)
    && (g.format == Simulator ==> g.timestamp == now)
    && (g.kind == HeartbeatSimple ==> |g.deviceId| == 15 && forall i :: 0 <= i < 15 ==> IsDigit(g.deviceId[i]))
  }

  // ---------------------------------------------------------------------
  // Field helpers.

  /** `field ? parseFloat(field) : 0`. */
  function FloatOrZero(field: string): JsNumber {
    if field != "" then JsParseFloat(field) else Finite(0.0)
  }

  /** `n > 0` for a JavaScript number (false for NaN). */
  predicate Positive(n: JsNumber) {
    n.Finite? && n.v > 0.0
  }

  /** `x - 1` where NaN stays NaN. */
  function MinusOne(x: Option<int>): Option<int> {
    if x.None? then None else Some(x.value - 1)
  }

  /** Degrees and minutes `DDDMM.MMMM` read as decimal degrees. */
  function DdmmToDegrees(v: real): real {
    var deg := (v / 100.0).Floor;
    deg as real + (v - deg as real * 100.0) / 60.0
  }

  /** `convertDDMMToDecimal(coord, dir)`: 0 when either text is empty, NaN when the number is. */
  function ConvertDdmm(coord: string, dir: string): JsNumber {
    if coord == "" || dir == "" then Finite(0.0)
    else
      match JsParseFloat(coord)
      case NaN => NaN
      case Finite(v) =>
        var dec := DdmmToDegrees(v);
        Finite(if SouthOrWest(dir) then -dec else dec)
  }

  // ---------------------------------------------------------------------
  // Simulator frames.

  /** `m.startsWith('(') && m.endsWith(')')`. */
  predicate IsFrame(m: string) {
    |m| >= 1 && m[0] == '(' && m[|m| - 1] == ')'
  }

  /** The inside of a frame, `m.slice(1, -1)`. */
  function FrameContent(m: string): string
    requires IsFrame(m)
  {
    m[1..|m| - 1]
  }

  /** A simulator frame with at least four fields; None lets the other dialects try. */
  function ParseSimulator(m: string, now: Instant): (r: Option<GpsData>)
    requires IsFrame(m)
    ensures r.Some? ==> WellShaped(r.value, now) && r.value.raw == m
  {
    var parts := Split(FrameContent(m), ',');
    if |parts| < 4 then None
    else
      var speedText := At(parts, 4);
      var acc := if At(parts, 5) != "" then At(parts, 5) == "1"
                 else speedText != "" && Positive(JsParseFloat(speedText));
      Some(GpsData(parts[0], Some(JsParseFloat(parts[2])), Some(JsParseFloat(parts[3])),
                   Some(FloatOrZero(speedText)), None, now, m, LocationUpdate, Simulator,
                   None, Some(acc), None, Some(FloatOrZero(At(parts, 6)))))
  }

  // ---------------------------------------------------------------------
  // Standard packets.

  /** `imei:` followed by a digit starts at offset i of s. */
  predicate ImeiAt(s: string, i: int) {
    0 <= i && i + 5 < |s| && s[i..i + 5] == "imei:" && IsDigit(s[i + 5])
  }

  /** The group of the first match of the unanchored pattern `imei:(\d+)` in s. */
  function FindImei(s: string): (r: Option<string>)
    decreases |s|
  {
    if ImeiAt(s, 0) then Some(Leading(s[5..], Decimal))
    else if |s| == 0 then None
    else FindImei(s[1..])
  }

  /** The alarm a lower-cased trigger word raises. */
  function AlarmOf(trigger: string): Option<string> {
    if trigger == "help me" then Some("sos")
    else if trigger == "low battery" then Some("low_battery")
    else if trigger == "move" then Some("movement")
    else if trigger == "speed" then Some("overspeed")
    else if trigger == "stockade" then Some("geofence")
    else if trigger == "accalarm" then Some("acc_alarm")
    else None
  }

  /**
   * The date field `YYMMDDHHMM[SS]` as a UTC date in the years 2000 onwards;
   * its length and offsets count UTF-16 code units.
   */
  function StandardDate(d: string): Instant
    requires |Utf16(d)| >= 10
  {
    var u := Utf16(d);
    DateUtc(JsParseInt("20" + Pair(u, 0), false), MinusOne(JsParseInt(Pair(u, 2), false)),
            JsParseInt(Pair(u, 4), false), JsParseInt(Pair(u, 6), false), JsParseInt(Pair(u, 8), false),
            if |u| >= 12 then JsParseInt(Pair(u, 10), false) else Some(0))
  }

  /** `parseStandardData(message)`. */
  function ParseStandard(m: string, now: Instant): (r: Option<GpsData>)
    ensures r.Some? ==> WellShaped(r.value, now) && r.value.raw == m && r.value.format == Standard
  {
    var parts := Split(RemoveFirst(m, ';'), ',');
    var imei := FindImei(parts[0]);
    if imei.None? || |parts| < 12 then None
    else
      var dateStr := parts[2];
      var alarm := AlarmOf(ToLower(parts[1]));
      Some(GpsData(imei.value, Some(ConvertDdmm(parts[7], parts[8])), Some(ConvertDdmm(parts[9], parts[10])),
                   Some(FloatOrZero(parts[11])), None,
                   if |Utf16(dateStr)| >= 10 then StandardDate(dateStr) else now,
                   m, if alarm.Some? then Alarm else LocationUpdate, Standard, alarm,
                   Some(Contains(m, "State:ACC=1") || Contains(m, "acc on")), Some(Contains(m, "Door=1")), None))
  }

  // ---------------------------------------------------------------------
  // HQ packets.

  /** The date `DDMMYY` and time `HHMMSS` fields as a UTC date, at offsets in UTF-16 code units. */
  function HqDate(d: string, t: string): Instant {
    var du := Utf16(d);
    var tu := Utf16(t);
    DateUtc(JsParseInt("20" + Pair(du, 4), false), MinusOne(JsParseInt(Pair(du, 2), false)),
            JsParseInt(Pair(du, 0), false), JsParseInt(Pair(tu, 0), false),
            JsParseInt(Pair(tu, 2), false), JsParseInt(Pair(tu, 4), false))
  }

  /**
   * The ACC and door flags of the hex status word: bits 0 and 1 of its value
   * (`&` works on the 32-bit two's complement, whose low bits are those of
   * the Euclidean remainder); both false for a word shorter than two UTF-16
   * code units or one that is not hex.
   */
  function StatusBits(word: string): (bool, bool) {
    if |Utf16(word)| >= 2 then
      match JsParseInt(word, true)
      case None => (false, false)
      case Some(v) => (v % 2 == 1, v % 4 >= 2)
    else (false, false)
  }

  /** `parseHQData(message)`. */
  function ParseHq(m: string, now: Instant): (r: Option<GpsData>)
    ensures r.Some? ==> WellShaped(r.value, now) && r.value.raw == m && r.value.format == Hq
  {
    var parts := Split(DropHash(m), ',');
    if |parts| < 10 then None
    else
      var timeStr := parts[3];
      var dateStr := At(parts, 11);
      var status := StatusBits(At(parts, 12));
      Some(GpsData(parts[1], Some(ConvertDdmm(parts[5], parts[6])), Some(ConvertDdmm(parts[7], parts[8])),
                   Some(FloatOrZero(parts[9])), Some(FloatOrZero(At(parts, 10))),
                   if dateStr != "" && timeStr != "" then HqDate(dateStr, timeStr) else now,
                   m, LocationUpdate, Hq, None, Some(status.0), Some(status.1), None))
  }

  // ---------------------------------------------------------------------
  // Heartbeats and dispatch.

  /** Removing the first `;` of a simple heartbeat leaves its 15 digits. */
  lemma HeartbeatId(m: string)
    requires IsSimpleHeartbeat(m)
    ensures RemoveFirst(m, ';') == m[..15]
  {
    if |m| == 16 {
      assert ';' in m by { assert m[15] == ';'; }
      var i := IndexOf(m, ';');
      assert i == 15 by {
        assert forall k :: 0 <= k < 15 ==> m[k] != ';';
      }
    } else {
      assert ';' !in m by {
        assert forall k :: 0 <= k < |m| ==> m[k] != ';';
      }
      assert m[..15] == m;
    }
  }

  function Heartbeat(deviceId: string, m: string, kind: Kind, now: Instant): GpsData {
    GpsData(deviceId, None, None, None, None, now, m, kind, Standard, None, None, None, None)
  }

  /** The command heartbeat branch: the device id follows the first `:` of field 1. */
  function ParseCommandHeartbeat(m: string, now: Instant): (r: Option<GpsData>)
    ensures r.Some? ==> WellShaped(r.value, now) && r.value.raw == m && r.value.kind == HeartbeatCommand
  {
    var parts := Split(m, ',');
    if |parts| > 1 && StartsWith(parts[1], "imei:") then
      Some(Heartbeat(At(Split(parts[1], ':'), 1), m, HeartbeatCommand, now))
    else None
  }

  /** The decoder on an already trimmed message. */
  function ParseMessage(m: string, now: Instant): (r: Option<GpsData>)
    ensures r.Some? ==> WellShaped(r.value, now) && r.value.raw == m
  {
    var sim := if IsFrame(m) then ParseSimulator(m, now) else None;
    if sim.Some? then sim
    else if StartsWith(m, "imei:") then ParseStandard(m, now)
    else if StartsWith(m, "*HQ,") then ParseHq(m, now)
    else if IsSimpleHeartbeat(m) then
      HeartbeatId(m);
      Some(Heartbeat(RemoveFirst(m, ';'), m, HeartbeatSimple, now))
    else if StartsWith(m, "##,imei:") then ParseCommandHeartbeat(m, now)
    else None
  }

  /**
   * `parseTK103(inputRaw)`: null for a missing, non-string or empty argument,
   * otherwise the decoding of the trimmed text. `now` is the receipt time
   * `new Date()` supplies.
   */
  function Parse(input: Payload, now: Instant): (r: Option<GpsData>)
    ensures r.Some? ==> input.Text? && input.s != "" && r.value.raw == JsTrim(input.s) && WellShaped(r.value, now)
  {
    if !input.Text? || input.s == "" then None
    else ParseMessage(JsTrim(input.s), now)
  }
}
