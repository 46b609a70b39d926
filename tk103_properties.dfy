/**
 * Properties of the TypeScript TK103 decoder: the dispatch order, the
 * decoding of each dialect from its comma-separated fields, the two date
 * layouts, the alarm table, the coordinate conversion and the status word.
 */
module Tk103Properties {
  import opened Wrappers
  import opened Strings
  import opened Numbers
  import opened Instants
  import opened Tk103

  /** Value of the two decimal digits of s at offset i. */
  function Two(s: string, i: nat): int
    requires i + 1 < |s|
  {
    10 * HexDigitValue(s[i]) + HexDigitValue(s[i + 1])
  }

  // ---------------------------------------------------------------------
  // Rejection and dispatch.

  /** A missing, non-string or empty argument is rejected. */
  lemma ParseRejectsNonText(now: Instant)
    ensures Parse(Absent, now) == None
    ensures Parse(NonText, now) == None
    ensures Parse(Text(""), now) == None
  {
  }

  /** Text that is white space only trims to "" and matches no dialect. */
  lemma ParseBlank(s: string, now: Instant)
    requires JsTrim(s) == ""
    ensures Parse(Text(s), now) == None
  {
  }

  /**
   * The dialects are tried in the order simulator, standard, HQ, simple
   * heartbeat, command heartbeat; text matching none of them gives null.
   */
  lemma DispatchOrder(m: string, now: Instant)
    requires m != "" && JsTrim(m) == m
    ensures IsFrame(m) && |Split(FrameContent(m), ',')| >= 4 ==> Parse(Text(m), now) == ParseSimulator(m, now)
    ensures StartsWith(m, "imei:") ==> Parse(Text(m), now) == ParseStandard(m, now)
    ensures StartsWith(m, "*HQ,") ==> Parse(Text(m), now) == ParseHq(m, now)
    ensures IsSimpleHeartbeat(m) ==> Parse(Text(m), now) == Some(Heartbeat(m[..15], m, HeartbeatSimple, now))
    ensures StartsWith(m, "##,imei:") ==> Parse(Text(m), now) == ParseCommandHeartbeat(m, now)
    ensures (&& !IsFrame(m) && !StartsWith(m, "imei:") && !StartsWith(m, "*HQ,")
             && !IsSimpleHeartbeat(m) && !StartsWith(m, "##,imei:")) ==> Parse(Text(m), now) == None
  {
    if StartsWith(m, "imei:") {
      PrefixHead(m, "imei:");
    }
    if StartsWith(m, "*HQ,") {
      PrefixHead(m, "*HQ,");
    }
    if StartsWith(m, "##,imei:") {
      PrefixHead(m, "##,imei:");
    }
    if IsSimpleHeartbeat(m) {
      HeartbeatId(m);
      assert IsDigit(m[0]);
    }
  }

  /** A text that starts with p starts with p's first character. */
  lemma PrefixHead(m: string, p: string)
    requires |p| > 0 && StartsWith(m, p)
    ensures m[0] == p[0]
  {
    assert m[0] == m[..|p|][0];
  }

  /** A frame with fewer than four fields falls through every dialect and gives null. */
  lemma ShortFrameRejected(m: string, now: Instant)
    requires m != "" && JsTrim(m) == m
    requires IsFrame(m) && |Split(FrameContent(m), ',')| < 4
    ensures Parse(Text(m), now) == None
  {
    DispatchOrder(m, now);
    assert !StartsWith(m, "imei:") by { assert |m| >= 5 ==> m[..5][0] == m[0]; }
    assert !StartsWith(m, "*HQ,") by { assert |m| >= 4 ==> m[..4][0] == m[0]; }
    assert !StartsWith(m, "##,imei:") by { assert |m| >= 8 ==> m[..8][0] == m[0]; }
  }

  // ---------------------------------------------------------------------
  // Simulator frames.

  /** The frame `(f0,f1,...)` holds the fields it was built from. */
  lemma FrameFields(fields: seq<string>)
    requires |fields| >= 1 && forall k :: 0 <= k < |fields| ==> ',' !in fields[k]
    ensures var m := "(" + Join(fields, ',') + ")";
      m != "" && JsTrim(m) == m && IsFrame(m) && Split(FrameContent(m), ',') == fields
  {
    var j := Join(fields, ',');
    var m := "(" + j + ")";
    TrimNoop(m, JsSpace);
    assert FrameContent(m) == j;
    JoinSplit(fields, ',');
  }

  /**
   * A simulator frame with at least four fields is a location update whose
   * latitude and longitude are `parseFloat` of fields 2 and 3 (no
   * degree-minute conversion), whose speed and trip distance default to 0,
   * and whose ACC is field 5 == "1" when field 5 is present, else speed > 0.
   */
  lemma SimulatorFrame(fields: seq<string>, now: Instant)
    requires |fields| >= 4 && forall k :: 0 <= k < |fields| ==> ',' !in fields[k]
    ensures var r := Parse(Text("(" + Join(fields, ',') + ")"), now);
      && r.Some? && r.value.kind == LocationUpdate && r.value.format == Simulator
      && r.value.deviceId == fields[0]
      && r.value.lat == Some(JsParseFloat(fields[2])) && r.value.lng == Some(JsParseFloat(fields[3]))
      && r.value.speed == Some(FloatOrZero(At(fields, 4)))
      && r.value.tripDistance == Some(FloatOrZero(At(fields, 6)))
      && r.value.accStatus == Some(if At(fields, 5) != "" then At(fields, 5) == "1"
                                   else At(fields, 4) != "" && Positive(JsParseFloat(At(fields, 4))))
      && r.value.timestamp == now
  {
    var m := "(" + Join(fields, ',') + ")";
    FrameFields(fields);
    DispatchOrder(m, now);
  }

  // ---------------------------------------------------------------------
  // The imei pattern.

  lemma ImeiShift(s: string, i: int)
    requires |s| > 0 && i >= 0
    ensures ImeiAt(s[1..], i) <==> ImeiAt(s, i + 1)
  {
    if i + 5 < |s| - 1 {
      assert s[1..][i..i + 5] == s[i + 1..i + 6];
      assert s[1..][i + 5] == s[i + 6];
    }
  }

  /**
   * FindImei finds the leftmost `imei:` followed by a digit and returns the
   * run of digits there; it finds nothing exactly when there is no such place.
   */
  lemma {:induction false} FindImeiSpec(s: string)
    ensures FindImei(s).None? <==> forall i :: !ImeiAt(s, i)
    ensures forall i :: ImeiAt(s, i) && (forall j :: 0 <= j < i ==> !ImeiAt(s, j)) ==>
              FindImei(s) == Some(Leading(s[i + 5..], Decimal))
    decreases |s|
  {
    if ImeiAt(s, 0) {
      forall i | ImeiAt(s, i) && (forall j :: 0 <= j < i ==> !ImeiAt(s, j))
        ensures i == 0
      {
      }
    } else if |s| > 0 {
      FindImeiSpec(s[1..]);
      forall i | i >= 0
        ensures ImeiAt(s[1..], i) <==> ImeiAt(s, i + 1)
      {
        ImeiShift(s, i);
      }
      forall i | ImeiAt(s, i) && (forall j :: 0 <= j < i ==> !ImeiAt(s, j))
        ensures FindImei(s) == Some(Leading(s[i + 5..], Decimal))
      {
        assert i >= 1;
        assert forall j :: 0 <= j < i - 1 ==> !ImeiAt(s[1..], j);
        assert ImeiAt(s[1..], i - 1);
        assert s[1..][i - 1 + 5..] == s[i + 5..];
      }
      if FindImei(s).None? {
        forall i | true ensures !ImeiAt(s, i) {
          if i >= 1 {
            assert !ImeiAt(s[1..], i - 1);
          }
        }
      }
    }
  }

  /** An `imei:` followed by a digit at the start is the match. */
  lemma FindImeiHere(s: string)
    requires ImeiAt(s, 0)
    ensures FindImei(s) == Some(Leading(s[5..], Decimal))
  {
  }

  /** `imei:` and a run of digits, followed by a non-digit or nothing, yield those digits. */
  lemma FindImeiOf(digits: string, rest: string)
    requires |digits| > 0 && AllDigits(digits)
    requires rest == [] || !IsDigit(rest[0])
    ensures FindImei("imei:" + digits + rest) == Some(digits)
  {
    var t := digits + rest;
    var s := "imei:" + t;
    assert "imei:" + digits + rest == s;
    assert ImeiAt(s, 0) by {
      assert s[..5] == "imei:" && s[5] == t[0] == digits[0];
    }
    assert s[5..] == t;
    FindImeiHere(s);
    assert Leading(t, Decimal) == digits by {
      LeadingOf(digits, rest, Decimal);
    }
  }

  /** The group FindImei returns is a non-empty run of digits. */
  lemma FindImeiDigits(s: string)
    requires FindImei(s).Some?
    ensures |FindImei(s).value| > 0 && AllDigits(FindImei(s).value)
    decreases |s|
  {
    if ImeiAt(s, 0) {
      LeadingSpec(s[5..], Decimal);
    } else {
      FindImeiDigits(s[1..]);
    }
  }

  // ---------------------------------------------------------------------
  // Standard packets.

  /** Expanding the join of a standard packet's fields and its optional `;` terminator. */
  lemma StandardPacketText(fields: seq<string>, term: string)
    requires |fields| >= 1 && forall k :: 0 <= k < |fields| ==> ',' !in fields[k] && ';' !in fields[k]
    requires term == "" || term == ";"
    ensures var m := Join(fields, ',') + term;
      RemoveFirst(m, ';') == Join(fields, ',') && Split(Join(fields, ','), ',') == fields && StartsWith(m, fields[0])
  {
    var j := Join(fields, ',');
    var m := j + term;
    assert Split(j, ',') == fields by {
      JoinSplit(fields, ',');
    }
    assert StartsWith(m, fields[0]) by {
      JoinFirst(fields, ',');
      assert m[..|fields[0]|] == j[..|fields[0]|];
    }
    assert RemoveFirst(m, ';') == j by {
      JoinFree(fields, ',', ';');
      if term == ";" {
        RemoveTerminator(j);
      } else {
        assert m == j;
      }
    }
  }

  /** Removing the first `;` of a text that holds none before its final `;` drops that one. */
  lemma RemoveTerminator(j: string)
    requires ';' !in j
    ensures RemoveFirst(j + ";", ';') == j
  {
    var m := j + ";";
    assert forall k :: 0 <= k < |j| ==> m[k] == j[k];
    var i := IndexOf(m, ';');
    assert i == |j|;
    assert m[..i] == j;
  }

  /**
   * A standard packet `imei:<digits>,trigger,date,...` with at least twelve
   * fields, with or without its `;` terminator, decodes to: the digits as
   * device id, fields 7/8 and 9/10 as degree-minute coordinates, field 11 as
   * speed (0 when empty), the alarm of the lower-cased trigger (and type
   * alarm exactly when there is one), the date of field 2 when it has ten
   * characters or more and the receipt time otherwise, and ACC/door from the
   * markers anywhere in the text.
   */
  lemma StandardPacket(fields: seq<string>, imei: string, semicolon: bool, now: Instant)
    requires |fields| >= 12 && fields[0] == "imei:" + imei && |imei| > 0 && AllDigits(imei)
    requires forall k :: 0 <= k < |fields| ==> ',' !in fields[k] && ';' !in fields[k]
    requires var m := Join(fields, ',') + (if semicolon then ";" else ""); JsTrim(m) == m
    ensures var m := Join(fields, ',') + (if semicolon then ";" else "");
      StandardReading(Parse(Text(m), now), fields, imei, m, now)
  {
    var term := if semicolon then ";" else "";
    var m := Join(fields, ',') + term;
    assert Split(RemoveFirst(m, ';'), ',') == fields && StartsWith(m, "imei:") by {
      StandardPacketText(fields, term);
      ImeiPrefix(m, imei);
    }
    assert FindImei(fields[0]) == Some(imei) by {
      assert fields[0] == "imei:" + imei + "";
      FindImeiOf(imei, "");
    }
    StandardDispatch(m, fields, imei, now);
  }

  /** Text starting with `imei:<id>` starts with `imei:`. */
  lemma ImeiPrefix(m: string, imei: string)
    requires StartsWith(m, "imei:" + imei)
    ensures StartsWith(m, "imei:")
  {
    assert m[..5] == m[..5 + |imei|][..5];
  }

  /** What a standard packet `m` with the given fields and device id decodes to. */
  predicate StandardReading(r: Option<GpsData>, fields: seq<string>, imei: string, m: string, now: Instant)
    requires |fields| >= 12
  {
    && r.Some? && r.value.format == Standard && r.value.deviceId == imei && r.value.raw == m
    && r.value.lat == Some(ConvertDdmm(fields[7], fields[8]))
    && r.value.lng == Some(ConvertDdmm(fields[9], fields[10]))
    && r.value.speed == Some(FloatOrZero(fields[11]))
    && r.value.alarm == AlarmOf(ToLower(fields[1]))
    && (r.value.kind == Alarm <==> AlarmOf(ToLower(fields[1])).Some?)
    && (r.value.kind == LocationUpdate <==> AlarmOf(ToLower(fields[1])).None?)
    && r.value.timestamp == (if |Utf16(fields[2])| >= 10 then StandardDate(fields[2]) else now)
    && r.value.accStatus == Some(Contains(m, "State:ACC=1") || Contains(m, "acc on"))
    && r.value.doorStatus == Some(Contains(m, "Door=1"))
  }

  /** A trimmed message starting `imei:` whose fields, after its first `;` is removed, are `fields`. */
  lemma StandardDispatch(m: string, fields: seq<string>, imei: string, now: Instant)
    requires m != "" && JsTrim(m) == m && StartsWith(m, "imei:")
    requires |fields| >= 12 && Split(RemoveFirst(m, ';'), ',') == fields && FindImei(fields[0]) == Some(imei)
    ensures StandardReading(Parse(Text(m), now), fields, imei, m, now)
  {
    DispatchOrder(m, now);
  }

  /** A standard packet with fewer than twelve fields is rejected. */
  lemma StandardTooShort(m: string, now: Instant)
    requires m != "" && JsTrim(m) == m && StartsWith(m, "imei:")
    requires |Split(RemoveFirst(m, ';'), ',')| < 12
    ensures Parse(Text(m), now) == None
  {
    DispatchOrder(m, now);
  }

  /** Without `imei:` and a digit somewhere in field 0 a standard packet is rejected. */
  lemma StandardNeedsImei(m: string, now: Instant)
    requires FindImei(Split(RemoveFirst(m, ';'), ',')[0]).None?
    ensures ParseStandard(m, now) == None
  {
  }

  /** Two decimal digits at offset i read as their value. */
  lemma DigitPair(d: string, i: nat)
    requires i + 1 < |d| && IsDigit(d[i]) && IsDigit(d[i + 1])
    ensures JsParseInt(Pair(d, i), false) == Some(Two(d, i))
  {
    TwoChars(d[i], d[i + 1]);
  }

  /** Two decimal digits at offset i after "20" read as a year of this century. */
  lemma CenturyPair(d: string, i: nat)
    requires i + 1 < |d| && IsDigit(d[i]) && IsDigit(d[i + 1])
    ensures JsParseInt("20" + Pair(d, i), false) == Some(2000 + Two(d, i))
  {
    CenturyChars(d[i], d[i + 1]);
  }

  /** A standard date whose six fields read as the given integers is Date.UTC of them. */
  lemma StandardDateOf(d: string, y: int, mo: int, da: int, h: int, mi: int, sec: int)
    requires |Utf16(d)| >= 10
    requires var u := Utf16(d);
      && JsParseInt("20" + Pair(u, 0), false) == Some(y) && JsParseInt(Pair(u, 2), false) == Some(mo + 1)
      && JsParseInt(Pair(u, 4), false) == Some(da) && JsParseInt(Pair(u, 6), false) == Some(h)
      && JsParseInt(Pair(u, 8), false) == Some(mi)
      && (if |u| >= 12 then JsParseInt(Pair(u, 10), false) else Some(0)) == Some(sec)
    ensures StandardDate(d) == Utc(y, mo, da, h, mi, sec)
  {
  }

  /** Inside a leading run of n digits, the two code units at offset i are the two characters there. */
  lemma PairUnits(d: string, n: nat, i: nat)
    requires n <= |d| && forall k :: 0 <= k < n ==> IsDigit(d[k])
    requires i + 1 < n
    ensures Pair(Utf16(d), i) == Pair(d, i)
  {
    Utf16Prefix(d, n);
  }

  /** `YYMMDDHHMMSS` is the UTC date 20YY-MM-DD HH:MM:SS (month counted from 0 by Date.UTC), and it is valid. */
  lemma StandardDateDigits(d: string)
    requires |d| >= 12 && forall i :: 0 <= i < 12 ==> IsDigit(d[i])
    ensures StandardDate(d) == Utc(2000 + Two(d, 0), Two(d, 2) - 1, Two(d, 4), Two(d, 6), Two(d, 8), Two(d, 10))
    ensures StandardDate(d).Time?
  {
    var y, mo, da, h, mi, sec := 2000 + Two(d, 0), Two(d, 2) - 1, Two(d, 4), Two(d, 6), Two(d, 8), Two(d, 10);
    UtcValid(y, mo, da, h, mi, sec);
    StandardDateFields(d);
  }

  /** The six two-digit fields of a twelve-digit date, read in code units. */
  lemma StandardDateFields(d: string)
    requires |d| >= 12 && forall i :: 0 <= i < 12 ==> IsDigit(d[i])
    ensures StandardDate(d) == Utc(2000 + Two(d, 0), Two(d, 2) - 1, Two(d, 4), Two(d, 6), Two(d, 8), Two(d, 10))
  {
    PairUnits(d, 12, 0);
    PairUnits(d, 12, 2);
    PairUnits(d, 12, 4);
    PairUnits(d, 12, 6);
    PairUnits(d, 12, 8);
    PairUnits(d, 12, 10);
    var u := Utf16(d);
    assert Pair(u, 0) == Pair(d, 0) && Pair(u, 2) == Pair(d, 2) && Pair(u, 4) == Pair(d, 4)
        && Pair(u, 6) == Pair(d, 6) && Pair(u, 8) == Pair(d, 8) && Pair(u, 10) == Pair(d, 10);
    CenturyPair(d, 0);
    DigitPair(d, 2);
    DigitPair(d, 4);
    DigitPair(d, 6);
    DigitPair(d, 8);
    DigitPair(d, 10);
    StandardDateOf(d, 2000 + Two(d, 0), Two(d, 2) - 1, Two(d, 4), Two(d, 6), Two(d, 8), Two(d, 10));
  }

  /** A date `YYMMDDHHMM` of ten or eleven code units in all has second 0. */
  lemma StandardDateNoSeconds(d: string)
    requires |d| >= 10 && forall i :: 0 <= i < 10 ==> IsDigit(d[i])
    requires |Utf16(d)| < 12
    ensures StandardDate(d) == Utc(2000 + Two(d, 0), Two(d, 2) - 1, Two(d, 4), Two(d, 6), Two(d, 8), 0)
  {
    PairUnits(d, 10, 0);
    PairUnits(d, 10, 2);
    PairUnits(d, 10, 4);
    PairUnits(d, 10, 6);
    PairUnits(d, 10, 8);
    var u := Utf16(d);
    assert Pair(u, 0) == Pair(d, 0) && Pair(u, 2) == Pair(d, 2) && Pair(u, 4) == Pair(d, 4)
        && Pair(u, 6) == Pair(d, 6) && Pair(u, 8) == Pair(d, 8);
    CenturyPair(d, 0);
    DigitPair(d, 2);
    DigitPair(d, 4);
    DigitPair(d, 6);
    DigitPair(d, 8);
    StandardDateOf(d, 2000 + Two(d, 0), Two(d, 2) - 1, Two(d, 4), Two(d, 6), Two(d, 8), 0);
  }

  /**
   * Ten digits and a character above U+FFFF are twelve code units: the
   * surrogate pair is read as the seconds, which gives an invalid date.
   */
  lemma StandardDateAstralSeconds(d: string)
    requires d == "2310231235\U{1F600}"
    ensures |d| == 11 && |Utf16(d)| == 12 && StandardDate(d) == InvalidDate
  {
    Utf16Split(d, 10);
    Utf16Bmp(d[..10]);
    assert d[10..] == [d[10]];
    Utf16Astral(d[10]);
    assert Utf16(d) == d[..10] + [SurrogateHalf, SurrogateHalf];
    assert Pair(Utf16(d), 10) == [SurrogateHalf, SurrogateHalf];
    assert JsParseInt([SurrogateHalf, SurrogateHalf], false) == None;
  }

  /**
   * Five characters above U+FFFF have ten code units, so the date branch is
   * taken, and its surrogate halves read as no number: an invalid date.
   */
  lemma StandardDateAstral(d: string)
    requires d == "\U{1F600}\U{1F600}\U{1F600}\U{1F600}\U{1F600}"
    ensures |d| == 5 && |Utf16(d)| == 10 && StandardDate(d) == InvalidDate
  {
    Utf16AllAstral(d);
    assert Pair(Utf16(d), 2) == [SurrogateHalf, SurrogateHalf];
    assert JsParseInt([SurrogateHalf, SurrogateHalf], false) == None;
  }

  // ---------------------------------------------------------------------
  // Alarm table.

  const Triggers: set<string> := {"help me", "low battery", "move", "speed", "stockade", "accalarm"}

  /** Exactly the six trigger words raise an alarm. */
  lemma AlarmTable(trigger: string)
    ensures AlarmOf(trigger).Some? <==> trigger in Triggers
  {
  }

  /** Different triggers raise different alarms. */
  lemma AlarmInjective(t1: string, t2: string)
    requires AlarmOf(t1).Some? && AlarmOf(t1) == AlarmOf(t2)
    ensures t1 == t2
  {
  }

  // ---------------------------------------------------------------------
  // Degree-minute coordinates.

  /** `convertDDMMToDecimal` reads degrees and minutes: 100·deg + min becomes deg + min/60 for 0 <= min < 100. */
  lemma DdmmRoundTrip(deg: int, minutes: real)
    requires 0.0 <= minutes < 100.0
    ensures DdmmToDegrees(deg as real * 100.0 + minutes) == deg as real + minutes / 60.0
  {
    var v := deg as real * 100.0 + minutes;
    assert v / 100.0 == deg as real + minutes / 100.0;
    assert (v / 100.0).Floor == deg;
  }

  /** Decimal degrees written as degrees and minutes. */
  function DegreesToDdmm(x: real): real {
    x.Floor as real * 100.0 + (x - x.Floor as real) * 60.0
  }

  /** Writing decimal degrees as degree-minutes and reading them back gives the same value. */
  lemma DegreesRoundTrip(x: real)
    ensures DdmmToDegrees(DegreesToDdmm(x)) == x
  {
    DdmmRoundTrip(x.Floor, (x - x.Floor as real) * 60.0);
  }

  function Negate(n: JsNumber): JsNumber {
    match n
    case NaN => NaN
    case Finite(v) => Finite(-v)
  }

  /** A south or west direction gives the negation of any other non-empty direction. */
  lemma ConvertDdmmSign(coord: string, southWest: string, other: string)
    requires SouthOrWest(southWest) && other != "" && !SouthOrWest(other)
    ensures ConvertDdmm(coord, southWest) == Negate(ConvertDdmm(coord, other))
  {
  }

  /** North and east (any direction but S/W) give a non-negative value for a non-negative coordinate. */
  lemma ConvertDdmmNonNegative(coord: string, dir: string)
    requires !SouthOrWest(dir)
    requires JsParseFloat(coord).Finite? && JsParseFloat(coord).v >= 0.0
    ensures ConvertDdmm(coord, dir).Finite? && ConvertDdmm(coord, dir).v >= 0.0
  {
    if coord != "" && dir != "" {
      var v := JsParseFloat(coord).v;
      assert (v / 100.0).Floor >= 0;
      assert v - (v / 100.0).Floor as real * 100.0 >= 0.0;
    }
  }

  /** An empty coordinate or direction gives 0. */
  lemma ConvertDdmmMissing(coord: string, dir: string)
    requires coord == "" || dir == ""
    ensures ConvertDdmm(coord, dir) == Finite(0.0)
  {
  }

  /** A coordinate that parses as v is converted from v. */
  lemma ConvertDdmmOf(coord: string, dir: string, v: real)
    requires coord != "" && dir != "" && JsParseFloat(coord) == Finite(v)
    ensures ConvertDdmm(coord, dir) == Finite(if SouthOrWest(dir) then -DdmmToDegrees(v) else DdmmToDegrees(v))
  {
  }

  /** A coordinate `whole.frac` of decimal digits is converted from the value those digits spell. */
  lemma ConvertDdmmFixedPoint(whole: string, frac: string, dir: string)
    requires |whole| > 0 && AllDigits(whole) && AllDigits(frac) && dir != ""
    ensures ConvertDdmm(whole + "." + frac, dir)
         == Finite(if SouthOrWest(dir) then -DdmmToDegrees(DecimalValue(whole, frac)) else DdmmToDegrees(DecimalValue(whole, frac)))
  {
    ParseFixedPoint(whole, frac);
    assert |whole + "." + frac| > 0;
    ConvertDdmmOf(whole + "." + frac, dir, DecimalValue(whole, frac));
  }

  /** `3124.5678` north is 31 degrees 24.5678 minutes, about 31.4094633; south is its negation. */
  lemma ConvertDdmmExample()
    ensures ConvertDdmm("3124" + "." + "5678", "N") == Finite(31.0 + 24.5678 / 60.0)
    ensures ConvertDdmm("3124" + "." + "5678", "S") == Finite(-(31.0 + 24.5678 / 60.0))
  {
    assert AllDigits("3124") && AllDigits("5678");
    ConvertDdmmFixedPoint("3124", "5678", "N");
    ConvertDdmmFixedPoint("3124", "5678", "S");
    DecimalValueExample();
    DdmmRoundTrip(31, 24.5678);
  }

  // ---------------------------------------------------------------------
  // HQ packets.

  /** Expanding an HQ packet `f0,f1,...#`. */
  lemma HqPacketText(fields: seq<string>)
    requires |fields| >= 1 && fields[0] == "*HQ" && forall k :: 0 <= k < |fields| ==> ',' !in fields[k]
    ensures var m := Join(fields, ',') + "#";
      m != "" && JsTrim(m) == m && DropHash(m) == Join(fields, ',') && Split(DropHash(m), ',') == fields
      && m[0] == '*'
  {
    var j := Join(fields, ',');
    var m := j + "#";
    JoinFirst(fields, ',');
    assert m[0] == j[..3][0] == '*';
    TrimNoop(m, JsSpace);
    assert DropHash(m) == j;
    JoinSplit(fields, ',');
  }

  /**
   * An HQ packet `*HQ,id,V1,time,A,lat,N,lng,E,speed[,course,date,status]#`
   * with at least ten fields decodes to a location update with no alarm:
   * field 1 as device id, fields 5/6 and 7/8 as degree-minute coordinates,
   * speed and course defaulting to 0, the date from fields 11 and 3 when both
   * are present (else the receipt time) and ACC/door from the status word.
   */
  lemma HqPacket(fields: seq<string>, now: Instant)
    requires |fields| >= 10 && fields[0] == "*HQ" && forall k :: 0 <= k < |fields| ==> ',' !in fields[k]
    ensures var r := Parse(Text(Join(fields, ',') + "#"), now);
      && r.Some? && r.value.format == Hq && r.value.kind == LocationUpdate && r.value.alarm.None?
      && r.value.deviceId == fields[1]
      && r.value.lat == Some(ConvertDdmm(fields[5], fields[6]))
      && r.value.lng == Some(ConvertDdmm(fields[7], fields[8]))
      && r.value.speed == Some(FloatOrZero(fields[9]))
      && r.value.course == Some(FloatOrZero(At(fields, 10)))
      && r.value.timestamp == (if At(fields, 11) != "" && fields[3] != "" then HqDate(At(fields, 11), fields[3]) else now)
      && r.value.accStatus == Some(StatusBits(At(fields, 12)).0)
      && r.value.doorStatus == Some(StatusBits(At(fields, 12)).1)
  {
    var m := Join(fields, ',') + "#";
    HqPacketText(fields);
    HqPrefix(fields);
    HqDispatch(m, now);
    HqOfFields(m, fields, now);
  }

  /** An HQ packet of fewer than ten fields before its `#` gives null. */
  lemma HqTooShort(fields: seq<string>, now: Instant)
    requires 2 <= |fields| < 10 && fields[0] == "*HQ" && forall k :: 0 <= k < |fields| ==> ',' !in fields[k]
    ensures Parse(Text(Join(fields, ',') + "#"), now) == None
  {
    var m := Join(fields, ',') + "#";
    HqPacketText(fields);
    HqPrefix(fields);
    HqDispatch(m, now);
  }

  /** A field list headed `*HQ` joins to a message with the HQ prefix. */
  lemma HqPrefix(fields: seq<string>)
    requires |fields| >= 2 && fields[0] == "*HQ"
    ensures StartsWith(Join(fields, ',') + "#", "*HQ,")
  {
    var m := Join(fields, ',') + "#";
    assert m == "*HQ" + [','] + Join(fields[1..], ',') + "#";
  }

  /** A trimmed message with the HQ prefix goes to `parseHQData`. */
  lemma HqDispatch(m: string, now: Instant)
    requires m != "" && JsTrim(m) == m && StartsWith(m, "*HQ,")
    ensures Parse(Text(m), now) == ParseHq(m, now)
  {
    DispatchOrder(m, now);
  }

  /** `parseHQData` on a message whose fields, after the trailing `#`, are `fields`. */
  lemma HqOfFields(m: string, fields: seq<string>, now: Instant)
    requires |fields| >= 10 && Split(DropHash(m), ',') == fields
    ensures var r := ParseHq(m, now);
      && r.Some? && r.value.format == Hq && r.value.kind == LocationUpdate && r.value.alarm.None?
      && r.value.deviceId == fields[1]
      && r.value.lat == Some(ConvertDdmm(fields[5], fields[6]))
      && r.value.lng == Some(ConvertDdmm(fields[7], fields[8]))
      && r.value.speed == Some(FloatOrZero(fields[9]))
      && r.value.course == Some(FloatOrZero(At(fields, 10)))
      && r.value.timestamp == (if At(fields, 11) != "" && fields[3] != "" then HqDate(At(fields, 11), fields[3]) else now)
      && r.value.accStatus == Some(StatusBits(At(fields, 12)).0)
      && r.value.doorStatus == Some(StatusBits(At(fields, 12)).1)
  {
  }

  /** The flags of a status word that parses as v are bits 0 and 1 of v. */
  lemma StatusBitsOf(word: string, v: int)
    requires |word| >= 2 && JsParseInt(word, true) == Some(v)
    ensures StatusBits(word) == (v % 2 == 1, v % 4 >= 2)
  {
  }

  /** The low two bits of a hex numeral are those of its last digit. */
  lemma LowBits(high: nat, d: nat)
    requires d < 16
    ensures (16 * high + d) % 2 == d % 2 && (16 * high + d) % 4 == d % 4
  {
    var x := 16 * high + d;
    OddOf(x, 8 * high + d / 2, d % 2);
    QuarterOf(x, 4 * high + d / 4, d % 4);
  }

  /** The remainder modulo 2 of a number written as twice q plus r. */
  lemma OddOf(x: int, q: int, r: int)
    requires x == 2 * q + r && 0 <= r < 2
    ensures x % 2 == r
  {
  }

  /** The remainder modulo 4 of a number written as four times q plus r. */
  lemma QuarterOf(x: int, q: int, r: int)
    requires x == 4 * q + r && 0 <= r < 4
    ensures x % 4 == r
  {
  }

  /** With at least two hex digits, ACC is bit 0 and door bit 1 of the last digit. */
  lemma StatusBitsLastDigit(word: string)
    requires |word| >= 2 && forall i :: 0 <= i < |word| ==> IsHexDigit(word[i])
    ensures StatusBits(word) == (HexDigitValue(word[|word| - 1]) % 2 == 1, HexDigitValue(word[|word| - 1]) % 4 >= 2)
  {
    JsParseIntHexDigits(word);
    var last := HexDigitValue(word[|word| - 1]);
    var high := NumeralValue(word[..|word| - 1], true);
    assert NumeralValue(word, true) == 16 * high + last;
    LowBits(high, last);
    StatusBitsOf(word, 16 * high + last);
  }

  /** `00000001` is ACC only. */
  lemma StatusBitsAccOnly(word: string)
    requires word == "00000001"
    ensures StatusBits(word) == (true, false)
  {
    StatusBitsLastDigit(word);
  }

  /** `00000003` and `FFFFFFFF` are ACC and door. */
  lemma StatusBitsAccDoor(word: string)
    requires word == "00000003" || word == "FFFFFFFF"
    ensures StatusBits(word) == (true, true)
  {
    StatusBitsLastDigit(word);
  }

  /** A status word shorter than two characters leaves ACC and door false. */
  lemma StatusBitsShort(word: string)
    requires |word| < 2
    ensures StatusBits(word) == (false, false)
  {
  }

  /** An HQ date whose six fields read as the given integers is Date.UTC of them. */
  lemma HqDateOf(d: string, t: string, y: int, mo: int, da: int, h: int, mi: int, sec: int)
    requires var du := Utf16(d); var tu := Utf16(t);
      && JsParseInt("20" + Pair(du, 4), false) == Some(y) && JsParseInt(Pair(du, 2), false) == Some(mo + 1)
      && JsParseInt(Pair(du, 0), false) == Some(da) && JsParseInt(Pair(tu, 0), false) == Some(h)
      && JsParseInt(Pair(tu, 2), false) == Some(mi) && JsParseInt(Pair(tu, 4), false) == Some(sec)
    ensures HqDate(d, t) == Utc(y, mo, da, h, mi, sec)
  {
  }

  /** `DDMMYY` and `HHMMSS` are the UTC date 20YY-MM-DD HH:MM:SS. */
  lemma HqDateDigits(d: string, t: string)
    requires |d| >= 6 && forall i :: 0 <= i < 6 ==> IsDigit(d[i])
    requires |t| >= 6 && forall i :: 0 <= i < 6 ==> IsDigit(t[i])
    ensures HqDate(d, t) == Utc(2000 + Two(d, 4), Two(d, 2) - 1, Two(d, 0), Two(t, 0), Two(t, 2), Two(t, 4))
  {
    PairUnits(d, 6, 4);
    PairUnits(d, 6, 2);
    PairUnits(d, 6, 0);
    PairUnits(t, 6, 0);
    PairUnits(t, 6, 2);
    PairUnits(t, 6, 4);
    var du, tu := Utf16(d), Utf16(t);
    assert Pair(du, 0) == Pair(d, 0) && Pair(du, 2) == Pair(d, 2) && Pair(du, 4) == Pair(d, 4);
    assert Pair(tu, 0) == Pair(t, 0) && Pair(tu, 2) == Pair(t, 2) && Pair(tu, 4) == Pair(t, 4);
    CenturyPair(d, 4);
    DigitPair(d, 2);
    DigitPair(d, 0);
    DigitPair(t, 0);
    DigitPair(t, 2);
    DigitPair(t, 4);
    HqDateOf(d, t, 2000 + Two(d, 4), Two(d, 2) - 1, Two(d, 0), Two(t, 0), Two(t, 2), Two(t, 4));
  }

  /** An HQ date and time of digits always give a valid date. */
  lemma HqDateValid(d: string, t: string)
    requires |d| >= 6 && forall i :: 0 <= i < 6 ==> IsDigit(d[i])
    requires |t| >= 6 && forall i :: 0 <= i < 6 ==> IsDigit(t[i])
    ensures HqDate(d, t).Time?
  {
    HqDateDigits(d, t);
    UtcValid(2000 + Two(d, 4), Two(d, 2) - 1, Two(d, 0), Two(t, 0), Two(t, 2), Two(t, 4));
  }

  /** The date `231023` and time `123519` are 2023-10-23T12:35:19Z. */
  lemma HqDateExample(d: string, t: string)
    requires d == "231023" && t == "123519"
    ensures HqDate(d, t) == Time(1698064519000)
  {
    assert forall i :: 0 <= i < 6 ==> IsDigit(d[i]);
    assert forall i :: 0 <= i < 6 ==> IsDigit(t[i]);
    HqDateDigits(d, t);
    assert Two(d, 4) == 23 && Two(d, 2) == 10 && Two(d, 0) == 23;
    assert Two(t, 0) == 12 && Two(t, 2) == 35 && Two(t, 4) == 19;
    UtcExample();
  }

  /** A time field of four code units or fewer has no seconds: the date is invalid. */
  lemma HqDateShortTime(d: string, t: string)
    requires |Utf16(t)| <= 4
    ensures HqDate(d, t) == InvalidDate
  {
    assert Pair(Utf16(t), 4) == "";
    assert JsParseInt("", false) == None;
  }

  /**
   * The time `1`, U+1F600, `2345` splits the surrogate pair between the hour
   * and the minute, so the minute reads as no number: the date is invalid.
   */
  lemma HqDateSplitPair(d: string, t: string)
    requires d == "231023" && t == "1\U{1F600}2345"
    ensures |t| == 6 && HqDate(d, t) == InvalidDate
  {
    Utf16Split(t, 1);
    Utf16Split(t[1..], 1);
    Utf16Astral(t[1]);
    assert t[1..][..1] == [t[1]];
    Utf16Bmp(t[..1]);
    Utf16Bmp(t[2..]);
    assert t[1..][1..] == t[2..];
    assert Utf16(t) == t[..1] + [SurrogateHalf, SurrogateHalf] + t[2..];
    assert Pair(Utf16(t), 2) == [SurrogateHalf, '2'];
    assert JsParseInt([SurrogateHalf, '2'], false) == None;
  }

  // ---------------------------------------------------------------------
  // Heartbeats.

  /** Fifteen digits, with or without a `;`, are a simple heartbeat of that device with no position. */
  lemma SimpleHeartbeat(id: string, semicolon: bool, now: Instant)
    requires |id| == 15 && AllDigits(id)
    ensures var m := if semicolon then id + ";" else id;
      Parse(Text(m), now) == Some(Heartbeat(id, m, HeartbeatSimple, now))
  {
    var m := if semicolon then id + ";" else id;
    assert m[..15] == id;
    assert IsSimpleHeartbeat(m);
    TrimNoop(m, JsSpace);
    DispatchOrder(m, now);
  }

  /** Field `imei:<id>` starts with `imei:` and its second `:`-separated piece is id. */
  lemma CommandField(field: string, id: string)
    requires field == "imei:" + id && ':' !in id
    ensures StartsWith(field, "imei:") && At(Split(field, ':'), 1) == id
  {
    assert field == "imei" + [':'] + id;
    SplitAt("imei", id, ':');
    SplitNone(id, ':');
  }

  /**
   * A command heartbeat `##,imei:<id>,...` whose second field is `imei:`
   * followed by an id without `:` is a heartbeat of that device.
   */
  lemma CommandHeartbeat(m: string, fields: seq<string>, id: string, now: Instant)
    requires m != "" && JsTrim(m) == m && StartsWith(m, "##,imei:")
    requires Split(m, ',') == fields && |fields| > 1 && fields[1] == "imei:" + id && ':' !in id
    ensures Parse(Text(m), now) == Some(Heartbeat(id, m, HeartbeatCommand, now))
  {
    CommandField(fields[1], id);
    DispatchOrder(m, now);
  }
}
