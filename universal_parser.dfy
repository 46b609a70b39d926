/**
 * The Python decoder `UniversalGPSParser`: a pure function from a message to
 * an optional record. It knows four dialects, tried in the order standard
 * packet `imei:...`, simple heartbeat of fifteen digits, command heartbeat
 * `##,imei:...` and HQ packet `*HQ,...`; simulator frames are not among
 * them. Every exception a dialect parser raises (a malformed number, a
 * missing field) is caught and turns the whole message into None.
 */
module UniversalParser {
  import opened Wrappers
  import opened Strings
  import opened Numbers

  /**
   * The dictionary a dialect parser returns. A key the parser leaves out is
   * None; `latitude` and `longitude` hold None when the coordinate conversion
   * returns None.
   */
  datatype Reading =
    | Standard(imei: string, timestamp: string, simNumber: string, gpsStatus: string, raw: string,
               latitude: Option<real>, longitude: Option<real>, speed: real,
               direction: Option<real>, altitude: Option<real>,
               fuelTank1: Option<real>, fuelTank2: Option<real>)
    | Hq(imei: string, timestamp: string, gpsStatus: string, raw: string,
         latitude: Option<real>, longitude: Option<real>, speed: real)
    | SimpleHeartbeat(imei: string)
    | CommandHeartbeat(imei: string, status: Option<string>, raw: string)

  /** The `type` key of a record. */
  function TypeName(r: Reading): (t: string)
    ensures t == "location_update" <==> r.Standard? || r.Hq?
  {
    match r
    case Standard(_, _, _, _, _, _, _, _, _, _, _, _) => "location_update"
    case Hq(_, _, _, _, _, _, _) => "location_update"
    case SimpleHeartbeat(_) => "heartbeat_simple"
    case CommandHeartbeat(_, _, _) => "heartbeat_command"
  }

  /** The `format` key, which only location records carry. */
  function FormatName(r: Reading): (f: Option<string>)
    ensures f.Some? <==> TypeName(r) == "location_update"
  {
    match r
    case Standard(_, _, _, _, _, _, _, _, _, _, _, _) => Some("standard")
    case Hq(_, _, _, _, _, _, _) => Some("hq")
    case SimpleHeartbeat(_) => None
    case CommandHeartbeat(_, _, _) => None
  }

  /** The layout `YYYY-MM-DD HH:MM:SS` of a timestamp built from date fields, with a year of the 2000s. */
  predicate TimestampLayout(t: string) {
    && |t| == 19 && t[0] == '2' && t[1] == '0'
    && t[4] == '-' && t[7] == '-' && t[10] == ' ' && t[13] == ':' && t[16] == ':'
  }

  /** The shape every record has; `now` is the text of the receipt time. */
  predicate WellFormed(r: Reading, now: string) {
    && (r.Standard? ==>
          && |r.imei| > 0 && AllDigits(r.imei)
          && (r.timestamp == now || TimestampLayout(r.timestamp))
          && (r.altitude.Some? ==> r.direction.Some?))
    && (r.Hq? ==> |r.timestamp| >= 2 && r.timestamp[..2] == "20")
    && (r.SimpleHeartbeat? ==> |r.imei| == 15 && AllDigits(r.imei))
  }

  // ---------------------------------------------------------------------
  // Field helpers.

  /** `float(f) if f else 0.0`; None stands for the ValueError of a malformed number. */
  function FloatOrZero(f: string): (r: Option<real>)
    ensures r.Some? <==> f == "" || PyFloat(f).Some?
    ensures PyFloat(f).Some? ==> r == PyFloat(f)
  {
    if f == "" then Some(0.0) else PyFloat(f)
  }

  /** Python `int(x)` on a float: the integer part, rounding toward zero. */
  function Truncate(x: real): (n: int)
    ensures 0.0 <= x ==> n as real <= x < n as real + 1.0
    ensures x < 0.0 ==> n as real - 1.0 < x <= n as real
  {
    if x >= 0.0 then x.Floor else -((-x).Floor)
  }

  /** Degrees and minutes `DDDMM.MMMM` read as decimal degrees, the degrees truncated toward zero. */
  function DdmmToDegrees(v: real): real {
    var deg := Truncate(v / 100.0);
    deg as real + (v - deg as real * 100.0) / 60.0
  }

  /**
   * The magnitude from which `float` rounds a decimal literal to an
   * infinity: 2^1024 - 2^970, halfway between the largest double
   * 2^1024 - 2^971 and 2^1024, where the tie goes to the even 2^1024.
   */
  const FloatOverflow: real := 179769313486231580793728971405303415079934132710037826936173778980444968292764750946649017977587207096330286416692887910946555547851940402630657488671505820681908902000708383676273854845817711531764475730270069855571366959622842914819860834936475292719074168444365510704342711559699508093042880177904174497792.0

  /** `float` reads a literal of exact value v as an infinity. */
  predicate Infinite(v: real) {
    v <= -FloatOverflow || FloatOverflow <= v
  }

  /** A call of `_convert_ddmm_to_decimal` returns a value (None or a number) or raises OverflowError. */
  datatype Outcome = Returns(value: Option<real>) | Overflows

  /**
   * `_convert_ddmm_to_decimal(coord, direction)`: None for an empty
   * coordinate or direction and for a coordinate `float` rejects; negative
   * for a south or west direction; OverflowError for a coordinate `float`
   * reads as an infinity.
   */
  function ConvertDdmm(coord: string, dir: string): (r: Outcome)
    ensures r.Overflows? <==> coord != "" && dir != "" && PyFloat(coord).Some? && Infinite(PyFloat(coord).value)
    ensures r.Returns? && r.value.Some? <==>
      coord != "" && dir != "" && PyFloat(coord).Some? && !Infinite(PyFloat(coord).value)
  {
    if coord == "" || dir == "" then Returns(None)
    else
      match PyFloat(coord)
      case None => Returns(None)
      case Some(v) =>
        // `int(val / 100)` raises on an infinite `val`, and `except ValueError` lets that through.
        if Infinite(v) then Overflows
        else
          var dec := DdmmToDegrees(v);
          Returns(Some(if SouthOrWest(dir) then -dec else dec))
  }

  // ---------------------------------------------------------------------
  // Standard packets.

  /**
   * The group of `re.match(r'imei:(\d+)', field)`: the pattern is anchored
   * at the start of the field and the digit run is as long as possible.
   */
  function MatchImei(field: string): (r: Option<string>)
    ensures r.Some? ==> |r.value| > 0 && AllDigits(r.value) && StartsWith(field, "imei:" + r.value)
  {
    if StartsWith(field, "imei:") then
      var digits := Leading(field[5..], Decimal);
      LeadingSpec(field[5..], Decimal);
      if |digits| == 0 then None
      else
        assert field[..5 + |digits|] == field[..5] + digits;
        Some(digits)
    else None
  }

  /**
   * The timestamp of a standard packet: `20YY-MM-DD HH:MM:SS` from a date
   * field `YYMMDDHHMM[SS]` of ten characters or more (seconds `00` when the
   * field has fewer than twelve), else the receipt time.
   */
  function StandardTimestamp(dt: string, now: string): (r: string)
    ensures |dt| < 10 ==> r == now
    ensures |dt| >= 10 ==>
      && TimestampLayout(r)
      && r[2..4] == dt[0..2] && r[5..7] == dt[2..4] && r[8..10] == dt[4..6]
      && r[11..13] == dt[6..8] && r[14..16] == dt[8..10]
      && r[17..19] == (if |dt| >= 12 then dt[10..12] else "00")
  {
    if |dt| >= 10 then
      "20" + Pair(dt, 0) + "-" + Pair(dt, 2) + "-" + Pair(dt, 4) + " " + Pair(dt, 6) + ":" + Pair(dt, 8)
      + ":" + (if |dt| >= 12 then Pair(dt, 10) else "00")
    else now
  }

  /** `float(parts[i]) if parts[i] else 0.0` when the packet has field i; absent otherwise. */
  function OptionalNumber(parts: seq<string>, i: nat): Option<real> {
    if i < |parts| then FloatOrZero(parts[i]) else None
  }

  /** Field i is present and holds a `%`: a fuel level. */
  predicate HasFuel(parts: seq<string>, i: nat) {
    i < |parts| && '%' in parts[i]
  }

  /** `float(parts[i].strip('%'))` when field i is a fuel level; absent otherwise. */
  function Fuel(parts: seq<string>, i: nat): Option<real> {
    if HasFuel(parts, i) then PyFloat(PyStripChar(parts[i], '%')) else None
  }

  /** Every `float` call of a standard packet succeeds: speed, direction, altitude and fuel levels. */
  predicate StandardNumbersValid(parts: seq<string>)
    requires |parts| >= 12
  {
    && FloatOrZero(parts[11]).Some?
    && (|parts| > 12 ==> FloatOrZero(parts[12]).Some?)
    && (|parts| > 13 ==> FloatOrZero(parts[13]).Some?)
    && (HasFuel(parts, 16) ==> Fuel(parts, 16).Some?)
    && (HasFuel(parts, 17) ==> Fuel(parts, 17).Some?)
  }

  /** `parse_standard_data(message)`. */
  function ParseStandard(m: string, now: string): (r: Option<Reading>)
    ensures r.Some? ==> r.value.Standard? && r.value.raw == m && WellFormed(r.value, now)
  {
    var parts := Split(PyStripChar(m, ';'), ',');
    var imei := MatchImei(parts[0]);
    if imei.None? || |parts| < 12 || !StandardNumbersValid(parts) then None
    else
      var latitude := ConvertDdmm(parts[7], parts[8]);
      var longitude := ConvertDdmm(parts[9], parts[10]);
      // An OverflowError of either conversion is caught by `except Exception`.
      if latitude.Overflows? || longitude.Overflows? then None
      else
        Some(Standard(imei.value, StandardTimestamp(parts[2], now), parts[3], parts[4], m,
                      latitude.value, longitude.value,
                      FloatOrZero(parts[11]).value, OptionalNumber(parts, 12), OptionalNumber(parts, 13),
                      Fuel(parts, 16), Fuel(parts, 17)))
  }

  // ---------------------------------------------------------------------
  // Command heartbeats.

  /** `parse_command_heartbeat(message)`: the device id follows the first `:` of field 1. */
  function ParseCommandHeartbeat(m: string): (r: Option<Reading>)
    ensures r.Some? ==> r.value.CommandHeartbeat? && r.value.raw == m
  {
    var parts := Split(PyStrip(m), ',');
    if |parts| < 2 || !StartsWith(parts[1], "imei:") then None
    else
      var pieces := Split(parts[1], ':');
      // `split(':')[1]` raises IndexError only when field 1 has no `:`, which `imei:` rules out.
      if |pieces| < 2 then None
      else Some(CommandHeartbeat(pieces[1], if |parts| > 2 then Some(PyStripChar(parts[2], ';')) else None, m))
  }

  // ---------------------------------------------------------------------
  // HQ packets.

  /**
   * The timestamp of an HQ packet: `20YY-MM-DD HH:MM:SS` from the date
   * `DDMMYY` and the time `HHMMSS`, each piece clipped at the end of its field.
   */
  function HqTimestamp(d: string, t: string): (r: string)
    ensures |r| >= 2 && r[..2] == "20"
    ensures |d| >= 6 && |t| >= 6 ==>
      && TimestampLayout(r)
      && r[2..4] == d[4..6] && r[5..7] == d[2..4] && r[8..10] == d[0..2]
      && r[11..13] == t[0..2] && r[14..16] == t[2..4] && r[17..19] == t[4..6]
  {
    "20" + Pair(d, 4) + "-" + Pair(d, 2) + "-" + Pair(d, 0) + " " + Pair(t, 0) + ":" + Pair(t, 2) + ":" + Pair(t, 4)
  }

  /** `parse_hq_data(message)`. */
  function ParseHq(m: string): (r: Option<Reading>)
    ensures r.Some? ==> r.value.Hq? && r.value.raw == m && WellFormed(r.value, "")
  {
    var parts := Split(DropHash(PyStrip(m)), ',');
    if |parts| < 10 then None
    // Reading the date `parts[11]` raises IndexError for ten or eleven fields.
    else if |parts| < 12 then None
    else
      var speed := FloatOrZero(parts[9]);
      var latitude := ConvertDdmm(parts[5], parts[6]);
      var longitude := ConvertDdmm(parts[7], parts[8]);
      if speed.None? || latitude.Overflows? || longitude.Overflows? then None
      else Some(Hq(parts[1], HqTimestamp(parts[11], parts[3]), parts[4], m, latitude.value, longitude.value, speed.value))
  }

  // ---------------------------------------------------------------------
  // Dispatch.

  /** A simple heartbeat without its `;` is its fifteen digits. */
  lemma HeartbeatImei(m: string)
    requires IsSimpleHeartbeat(m)
    ensures PyStripChar(m, ';') == m[..15]
  {
    TrimLeftNoop(m, Exactly(';'));
    if |m| == 16 {
      assert m[..15][14] == m[14];
      TrimRightNoop(m[..15], Exactly(';'));
      assert TrimRight(m, Exactly(';')) == TrimRight(m[..15], Exactly(';'));
    } else {
      TrimRightNoop(m, Exactly(';'));
      assert m[..15] == m;
    }
  }

  /**
   * `parse_message(message)`: None for a missing, non-string or empty
   * argument, otherwise the first dialect the stripped text starts with.
   * `now` is the text `datetime.now()` formats.
   */
  function ParseMessage(input: Payload, now: string): (r: Option<Reading>)
    ensures r.Some? ==> input.Text? && input.s != "" && WellFormed(r.value, now)
    ensures r.Some? && !r.value.SimpleHeartbeat? ==> r.value.raw == PyStrip(input.s)
  {
    if !input.Text? || input.s == "" then None
    else
      var m := PyStrip(input.s);
      if StartsWith(m, "imei:") then ParseStandard(m, now)
      else if IsSimpleHeartbeat(m) then
        HeartbeatImei(m);
        Some(SimpleHeartbeat(PyStripChar(m, ';')))
      else if StartsWith(m, "##,imei:") then ParseCommandHeartbeat(m)
      else if StartsWith(m, "*HQ,") then ParseHq(m)
      else None
  }
}
