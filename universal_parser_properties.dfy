/**
 * Properties of the Python decoder: the dispatch, the decoding of each
 * dialect from its comma-separated fields, the rule that a malformed number
 * rejects the whole packet, the timestamp texts, the fuel levels and the
 * degree-minute conversion with its truncation toward zero.
 */
module UniversalParserProperties {
  import opened Wrappers
  import opened Strings
  import opened Numbers
  import opened UniversalParser

  // ---------------------------------------------------------------------
  // Rejection and dispatch.

  /** A missing, non-string or empty argument is rejected. */
  lemma ParseRejectsNonText(now: string)
    ensures ParseMessage(Absent, now) == None
    ensures ParseMessage(NonText, now) == None
    ensures ParseMessage(Text(""), now) == None
  {
  }

  /** Text that is white space only strips to "" and matches no dialect. */
  lemma ParseBlank(s: string, now: string)
    requires PyStrip(s) == ""
    ensures ParseMessage(Text(s), now) == None
  {
  }

  /**
   * Text that starts with none of `imei:`, fifteen digits, `##,imei:` and
   * `*HQ,` is no dialect and gives None.
   */
  lemma DispatchNone(m: string, now: string)
    requires m != "" && PyStrip(m) == m
    requires !StartsWith(m, "imei:") && !IsSimpleHeartbeat(m) && !StartsWith(m, "##,imei:") && !StartsWith(m, "*HQ,")
    ensures ParseMessage(Text(m), now) == None
  {
  }

  /** A trimmed message starting `imei:` goes to `parse_standard_data`. */
  lemma DispatchStandard(m: string, now: string)
    requires m != "" && PyStrip(m) == m && StartsWith(m, "imei:")
    ensures ParseMessage(Text(m), now) == ParseStandard(m, now)
  {
  }

  /** Fifteen digits and an optional `;` are a simple heartbeat; no other dialect starts with a digit. */
  lemma DispatchSimpleHeartbeat(m: string, now: string)
    requires PyStrip(m) == m && IsSimpleHeartbeat(m)
    ensures ParseMessage(Text(m), now) == Some(SimpleHeartbeat(m[..15]))
  {
    HeartbeatImei(m);
    assert IsDigit(m[0]);
    assert !StartsWith(m, "imei:") by { assert m[..5][0] == m[0]; }
  }

  /** A trimmed message starting `##,imei:` goes to `parse_command_heartbeat`. */
  lemma DispatchCommandHeartbeat(m: string, now: string)
    requires PyStrip(m) == m && StartsWith(m, "##,imei:")
    ensures ParseMessage(Text(m), now) == ParseCommandHeartbeat(m)
  {
    assert m[0] == m[..8][0] == '#';
    assert !StartsWith(m, "imei:") by { assert m[..5][0] == m[0]; }
  }

  /** A trimmed message starting `*HQ,` goes to `parse_hq_data`. */
  lemma DispatchHq(m: string, now: string)
    requires PyStrip(m) == m && StartsWith(m, "*HQ,")
    ensures ParseMessage(Text(m), now) == ParseHq(m)
  {
    assert m[0] == m[..4][0] == '*';
    assert !StartsWith(m, "imei:") by { assert |m| >= 5 ==> m[..5][0] == m[0]; }
    assert !StartsWith(m, "##,imei:") by { assert |m| >= 8 ==> m[..8][0] == m[0]; }
  }

  /** Text that starts with no dialect's first character, such as `garbage_data`, is rejected. */
  lemma GarbageRejected(m: string, now: string)
    requires m != "" && PyStrip(m) == m
    requires m[0] != 'i' && m[0] != '#' && m[0] != '*' && !IsDigit(m[0])
    ensures ParseMessage(Text(m), now) == None
  {
    assert !StartsWith(m, "imei:") by { assert |m| >= 5 ==> m[..5][0] == m[0]; }
    assert !StartsWith(m, "*HQ,") by { assert |m| >= 4 ==> m[..4][0] == m[0]; }
    assert !StartsWith(m, "##,imei:") by { assert |m| >= 8 ==> m[..8][0] == m[0]; }
    assert !IsSimpleHeartbeat(m);
    DispatchNone(m, now);
  }

  /** The text `garbage_data` is rejected. */
  lemma GarbageExample(m: string, now: string)
    requires m == "garbage_data"
    ensures ParseMessage(Text(m), now) == None
  {
    TrimNoop(m, PySpace);
    GarbageRejected(m, now);
  }

  /** A frame `(...)` is no dialect of this decoder. */
  lemma FrameRejected(content: string, now: string)
    ensures ParseMessage(Text("(" + content + ")"), now) == None
  {
    var m := "(" + content + ")";
    TrimNoop(m, PySpace);
    GarbageRejected(m, now);
  }

  // ---------------------------------------------------------------------
  // Simple and command heartbeats.

  /** Fifteen digits, with or without a `;`, are a simple heartbeat of that device. */
  lemma SimpleHeartbeatOf(id: string, semicolon: bool, now: string)
    requires |id| == 15 && AllDigits(id)
    ensures var m := if semicolon then id + ";" else id;
      ParseMessage(Text(m), now) == Some(SimpleHeartbeat(id))
  {
    var m := if semicolon then id + ";" else id;
    assert m[..15] == id;
    assert IsSimpleHeartbeat(m);
    TrimNoop(m, PySpace);
    DispatchSimpleHeartbeat(m, now);
  }

  /**
   * A command heartbeat `##,imei:<id>,...` whose second field is `imei:`
   * followed by an id without `:` is a heartbeat of that device, with field 2
   * less its `;` as status when there is a field 2.
   */
  lemma CommandHeartbeatOf(m: string, fields: seq<string>, id: string, now: string)
    requires m != "" && PyStrip(m) == m && StartsWith(m, "##,imei:")
    requires Split(m, ',') == fields && |fields| > 1 && fields[1] == "imei:" + id && ':' !in id
    ensures ParseMessage(Text(m), now)
         == Some(CommandHeartbeat(id, if |fields| > 2 then Some(PyStripChar(fields[2], ';')) else None, m))
  {
    ImeiField(id);
    DispatchCommandHeartbeat(m, now);
    CommandHeartbeatOfFields(m, fields, id);
  }

  /** `imei:<id>` with no `:` in the id splits at `:` into `imei` and the id. */
  lemma ImeiField(id: string)
    requires ':' !in id
    ensures StartsWith("imei:" + id, "imei:") && Split("imei:" + id, ':') == ["imei", id]
  {
    assert "imei:" + id == "imei" + [':'] + id;
    SplitAt("imei", id, ':');
    SplitNone(id, ':');
  }

  /** `parse_command_heartbeat` when field 1 splits at `:` into `imei` and the id. */
  lemma CommandHeartbeatOfFields(m: string, fields: seq<string>, id: string)
    requires Split(PyStrip(m), ',') == fields && |fields| > 1 && StartsWith(fields[1], "imei:")
    requires Split(fields[1], ':') == ["imei", id]
    ensures ParseCommandHeartbeat(m)
         == Some(CommandHeartbeat(id, if |fields| > 2 then Some(PyStripChar(fields[2], ';')) else None, m))
  {
  }

  /** `##,imei:<id>,A` is a command heartbeat of that device with status `A`. */
  lemma CommandHeartbeatExample(id: string, now: string)
    requires |id| == 15 && AllDigits(id)
    ensures var m := "##,imei:" + id + ",A";
      ParseMessage(Text(m), now) == Some(CommandHeartbeat(id, Some("A"), m))
  {
    var m := "##,imei:" + id + ",A";
    assert ':' !in id by { assert forall k :: 0 <= k < |id| ==> IsDigit(id[k]); }
    CommandExampleText(id, "##,imei:" + id + ",A");
    CommandHeartbeatOf(m, ["##", "imei:" + id, "A"], id, now);
  }

  /** The text facts `CommandHeartbeatExample` needs about `##,imei:<id>,A`. */
  lemma CommandExampleText(id: string, m: string)
    requires |id| == 15 && AllDigits(id) && m == "##,imei:" + id + ",A"
    ensures m != "" && PyStrip(m) == m && StartsWith(m, "##,imei:")
    ensures Split(m, ',') == ["##", "imei:" + id, "A"] && PyStripChar("A", ';') == "A"
  {
    var f1 := "imei:" + id;
    assert ',' !in f1 by { assert forall k :: 5 <= k < |f1| ==> f1[k] == id[k - 5]; }
    CommandExampleSplit(f1, m);
    assert m[0] == '#' && m[|m| - 1] == 'A';
    TrimNoop(m, PySpace);
    TrimNoop("A", Exactly(';'));
    assert m[..8] == "##,imei:";
  }

  /** `##,<f1>,A` splits at commas into its three fields when `f1` has no comma. */
  lemma CommandExampleSplit(f1: string, m: string)
    requires ',' !in f1 && m == "##," + f1 + ",A"
    ensures Split(m, ',') == ["##", f1, "A"]
  {
    assert m == "##" + [','] + (f1 + [','] + "A");
    SplitAt("##", f1 + [','] + "A", ',');
    SplitAt(f1, "A", ',');
    SplitNone("A", ',');
  }

  // ---------------------------------------------------------------------
  // Standard packets.

  /** `re.match(r'imei:(\d+)', field)` captures the whole digit run right after `imei:`. */
  lemma MatchImeiOf(digits: string, rest: string)
    requires |digits| > 0 && AllDigits(digits) && (rest == [] || !IsDigit(rest[0]))
    ensures MatchImei("imei:" + digits + rest) == Some(digits)
  {
    var field := "imei:" + digits + rest;
    assert field[..5] == "imei:";
    assert field[5..] == digits + rest;
    LeadingOf(digits, rest, Decimal);
  }

  /** Expanding the join of a standard packet's fields, which ends with `;`. */
  lemma StandardPacketText(fields: seq<string>)
    requires |fields| >= 1 && StartsWith(fields[0], "imei:")
    requires forall k :: 0 <= k < |fields| ==> ',' !in fields[k] && ';' !in fields[k]
    ensures var m := Join(fields, ',') + ";";
      && m != "" && PyStrip(m) == m && StartsWith(m, "imei:")
      && PyStripChar(m, ';') == Join(fields, ',')
  {
    var j := Join(fields, ',');
    var m := j + ";";
    JoinFirst(fields, ',');
    JoinFree(fields, ',', ';');
    assert m[..5] == j[..|fields[0]|][..5];
    TrimNoop(m, PySpace);
    TrimLeftNoop(m, Exactly(';'));
    assert m[..|m| - 1] == j;
    assert j[|j| - 1] in j;
    TrimRightNoop(j, Exactly(';'));
  }

  /**
   * A standard packet `imei:<digits>,trigger,date,sim,status,...;` with at
   * least twelve fields decodes exactly when all of its numbers are well
   * formed and neither coordinate overflows, and then to: the digits as imei, the timestamp text of field 2,
   * fields 3 and 4 as SIM number and GPS status, fields 7/8 and 9/10 as
   * degree-minute coordinates, field 11 as speed (0 when empty), direction and
   * altitude exactly when the packet has fields 12 and 13, and a fuel level
   * exactly when field 16 or 17 holds a `%`.
   */
  lemma StandardPacket(fields: seq<string>, imei: string, now: string)
    requires |fields| >= 12 && fields[0] == "imei:" + imei && |imei| > 0 && AllDigits(imei)
    requires forall k :: 0 <= k < |fields| ==> ',' !in fields[k] && ';' !in fields[k]
    ensures var m := Join(fields, ',') + ";";
      StandardDecoding(ParseMessage(Text(m), now), fields, imei, m, now)
  {
    var m := Join(fields, ',') + ";";
    assert StartsWith(fields[0], "imei:");
    StandardPacketText(fields);
    JoinSplit(fields, ',');
    assert fields[0] == "imei:" + imei + "";
    MatchImeiOf(imei, "");
    DispatchStandard(m, now);
    StandardOfFields(m, fields, imei, now);
  }

  /** What a standard packet `m` with the given fields and imei decodes to. */
  predicate StandardDecoding(r: Option<Reading>, fields: seq<string>, imei: string, m: string, now: string)
    requires |fields| >= 12
  {
    && (r.Some? <==>
          StandardNumbersValid(fields) && ConvertDdmm(fields[7], fields[8]).Returns? && ConvertDdmm(fields[9], fields[10]).Returns?)
    && (r.Some? ==>
          && r.value.Standard? && r.value.imei == imei && r.value.raw == m
          && r.value.timestamp == StandardTimestamp(fields[2], now)
          && r.value.simNumber == fields[3] && r.value.gpsStatus == fields[4]
          && ConvertDdmm(fields[7], fields[8]) == Returns(r.value.latitude)
          && ConvertDdmm(fields[9], fields[10]) == Returns(r.value.longitude)
          && FloatOrZero(fields[11]) == Some(r.value.speed)
          && (r.value.direction.Some? <==> |fields| > 12) && (r.value.altitude.Some? <==> |fields| > 13)
          && (r.value.fuelTank1.Some? <==> HasFuel(fields, 16))
          && (r.value.fuelTank2.Some? <==> HasFuel(fields, 17))
          && r.value.direction == OptionalNumber(fields, 12) && r.value.altitude == OptionalNumber(fields, 13)
          && r.value.fuelTank1 == Fuel(fields, 16) && r.value.fuelTank2 == Fuel(fields, 17))
  }

  /** `parse_standard_data` on a message whose fields, after its `;`, are `fields`. */
  lemma StandardOfFields(m: string, fields: seq<string>, imei: string, now: string)
    requires |fields| >= 12 && Split(PyStripChar(m, ';'), ',') == fields && MatchImei(fields[0]) == Some(imei)
    ensures StandardDecoding(ParseStandard(m, now), fields, imei, m, now)
  {
  }

  /** A standard packet with fewer than twelve fields is rejected. */
  lemma StandardTooShort(m: string, now: string)
    requires m != "" && PyStrip(m) == m && StartsWith(m, "imei:")
    requires |Split(PyStripChar(m, ';'), ',')| < 12
    ensures ParseMessage(Text(m), now) == None
  {
    DispatchStandard(m, now);
  }

  /** A standard packet `imei:<digits>,<word>` of two fields is rejected. */
  lemma TwoFieldStandard(id: string, word: string, now: string)
    requires |id| > 0 && AllDigits(id) && word != "" && ',' !in word
    requires word[|word| - 1] != ';' && !IsPySpace(word[|word| - 1])
    ensures ParseMessage(Text("imei:" + id + "," + word), now) == None
  {
    var f0 := "imei:" + id;
    var m := f0 + "," + word;
    assert ',' !in f0 by { assert forall k :: 5 <= k < |f0| ==> f0[k] == id[k - 5]; }
    assert m == f0 + [','] + word;
    SplitAt(f0, word, ',');
    SplitNone(word, ',');
    TrimNoop(m, PySpace);
    TrimNoop(m, Exactly(';'));
    assert m[..5] == "imei:";
    StandardTooShort(m, now);
  }

  /** `imei:1234567,tracker` has two fields and is rejected. */
  lemma StandardTooShortExample(id: string, word: string, now: string)
    requires id == "1234567" && word == "tracker"
    ensures ParseMessage(Text("imei:" + id + "," + word), now) == None
  {
    assert AllDigits(id);
    TwoFieldStandard(id, word, now);
  }

  /** Field 0 must begin with `imei:` and a digit: `re.match` is anchored at the start. */
  lemma StandardNeedsImei(m: string, now: string)
    requires MatchImei(Split(PyStripChar(m, ';'), ',')[0]).None?
    ensures ParseStandard(m, now) == None
  {
  }

  /** A non-empty speed field that is not a number rejects the whole packet. */
  lemma MalformedSpeedRejected(m: string, now: string)
    requires |Split(PyStripChar(m, ';'), ',')| >= 12
    requires var f := Split(PyStripChar(m, ';'), ',')[11]; f != "" && PyFloat(f).None?
    ensures ParseStandard(m, now) == None
  {
  }

  /** A fuel field of digits followed by `%` is the level those digits spell. */
  lemma FuelLevel(parts: seq<string>, i: nat, digits: string)
    requires i < |parts| && parts[i] == digits + "%" && |digits| > 0 && AllDigits(digits)
    ensures HasFuel(parts, i) && Fuel(parts, i) == Some(NumeralValue(digits, false) as real)
  {
    var f := digits + "%";
    assert f[|digits|] == '%';
    TrimLeftNoop(f, Exactly(';'));
    assert f[0] == digits[0];
    TrimLeftNoop(f, Exactly('%'));
    assert f[..|f| - 1] == digits;
    TrimRightNoop(digits, Exactly('%'));
    PyFloatDigits(digits);
  }

  /** The fuel field `80%` is the level 80. */
  lemma FuelExample(parts: seq<string>, i: nat)
    requires i < |parts| && parts[i] == "80%"
    ensures Fuel(parts, i) == Some(80.0)
  {
    assert "80%" == "80" + "%";
    NumeralSnoc("8", '0', false);
    assert "80" == "8" + ['0'];
    NumeralSingle('8', false);
    FuelLevel(parts, i, "80");
  }

  /** A field of ten or eleven characters gives seconds `00`; fewer than ten give the receipt time. */
  lemma StandardTimestampNoSeconds(dt: string, now: string)
    ensures |dt| < 10 ==> StandardTimestamp(dt, now) == now
    ensures 10 <= |dt| < 12 ==> StandardTimestamp(dt, now)[17..19] == "00"
  {
  }

  /** The date field `230520120000` gives `2023-05-20 12:00:00`. */
  lemma StandardTimestampExample(dt: string, now: string)
    requires dt == "230520120000"
    ensures StandardTimestamp(dt, now) == "2023-05-20 12:00:00"
  {
    assert Pair(dt, 0) == "23" && Pair(dt, 2) == "05" && Pair(dt, 4) == "20";
    assert Pair(dt, 6) == "12" && Pair(dt, 8) == "00" && Pair(dt, 10) == "00";
  }

  // ---------------------------------------------------------------------
  // HQ packets.

  /** Expanding an HQ packet `*HQ,f1,...#`. */
  lemma HqPacketText(fields: seq<string>)
    requires |fields| >= 2 && fields[0] == "*HQ" && forall k :: 0 <= k < |fields| ==> ',' !in fields[k]
    ensures var m := Join(fields, ',') + "#";
      m != "" && PyStrip(m) == m && StartsWith(m, "*HQ,") && Split(DropHash(PyStrip(m)), ',') == fields
  {
    var j := Join(fields, ',');
    var m := j + "#";
    HqJoinPrefix(fields);
    assert m[..4] == j[..4];
    HqEnds(m);
    assert m[..|m| - 1] == j;
    JoinSplit(fields, ',');
  }

  /** Fields `*HQ`, ... joined at commas begin `*HQ,`. */
  lemma HqJoinPrefix(fields: seq<string>)
    requires |fields| >= 2 && fields[0] == "*HQ"
    ensures |Join(fields, ',')| >= 4 && Join(fields, ',')[..4] == "*HQ,"
  {
    assert Join(fields, ',') == "*HQ" + ([','] + Join(fields[1..], ','));
  }

  /** A text from `*HQ,` to `#` has no white space to strip. */
  lemma HqEnds(m: string)
    requires |m| >= 4 && m[..4] == "*HQ," && m[|m| - 1] == '#'
    ensures m != "" && PyStrip(m) == m && StartsWith(m, "*HQ,")
  {
    assert m[0] == m[..4][0];
    TrimNoop(m, PySpace);
  }

  /**
   * An HQ packet `*HQ,id,V1,time,status,lat,N,lng,E,speed,course,date,...#`
   * with at least twelve fields decodes exactly when its speed is empty or a
   * number and neither coordinate overflows, and then to: field 1 as imei, the timestamp text of the date in
   * field 11 and the time in field 3, field 4 as GPS status and fields 5/6
   * and 7/8 as degree-minute coordinates.
   */
  lemma HqPacket(fields: seq<string>, now: string)
    requires |fields| >= 12 && fields[0] == "*HQ" && forall k :: 0 <= k < |fields| ==> ',' !in fields[k]
    ensures var m := Join(fields, ',') + "#"; var r := ParseMessage(Text(m), now);
      && (r.Some? <==>
            FloatOrZero(fields[9]).Some? && ConvertDdmm(fields[5], fields[6]).Returns? && ConvertDdmm(fields[7], fields[8]).Returns?)
      && (r.Some? ==>
            && r.value.Hq? && r.value.imei == fields[1] && r.value.raw == m
            && r.value.timestamp == HqTimestamp(fields[11], fields[3]) && r.value.gpsStatus == fields[4]
            && ConvertDdmm(fields[5], fields[6]) == Returns(r.value.latitude)
            && ConvertDdmm(fields[7], fields[8]) == Returns(r.value.longitude)
            && FloatOrZero(fields[9]) == Some(r.value.speed))
  {
    var m := Join(fields, ',') + "#";
    HqPacketText(fields);
    DispatchHq(m, now);
  }

  /** An HQ packet without a date field (fewer than twelve fields) is rejected. */
  lemma HqTooShort(fields: seq<string>, now: string)
    requires 2 <= |fields| < 12 && fields[0] == "*HQ" && forall k :: 0 <= k < |fields| ==> ',' !in fields[k]
    ensures ParseMessage(Text(Join(fields, ',') + "#"), now) == None
  {
    var m := Join(fields, ',') + "#";
    HqPacketText(fields);
    DispatchHq(m, now);
  }

  /** The date `231023` and time `123519` give `2023-10-23 12:35:19`. */
  lemma HqTimestampExample(d: string, t: string)
    requires d == "231023" && t == "123519"
    ensures HqTimestamp(d, t) == "2023-10-23 12:35:19"
  {
    assert Pair(d, 4) == "23" && Pair(d, 2) == "10" && Pair(d, 0) == "23";
    assert Pair(t, 0) == "12" && Pair(t, 2) == "35" && Pair(t, 4) == "19";
  }

  // ---------------------------------------------------------------------
  // Degree-minute coordinates.

  /** `int` truncates symmetrically: the integer part of -x is minus that of x. */
  lemma TruncateOdd(x: real)
    ensures Truncate(-x) == -Truncate(x)
  {
  }

  /** The conversion commutes with negation. */
  lemma DdmmOdd(v: real)
    ensures DdmmToDegrees(-v) == -DdmmToDegrees(v)
  {
    TruncateOdd(v / 100.0);
    assert -v / 100.0 == -(v / 100.0);
  }

  /** 100·deg + min becomes deg + min/60 for 0 <= min < 100. */
  lemma DdmmRoundTrip(deg: nat, minutes: real)
    requires 0.0 <= minutes < 100.0
    ensures DdmmToDegrees(deg as real * 100.0 + minutes) == deg as real + minutes / 60.0
  {
    var v := deg as real * 100.0 + minutes;
    assert v / 100.0 == deg as real + minutes / 100.0;
    assert Truncate(v / 100.0) == deg;
  }

  /** -(100·deg + min) becomes -(deg + min/60): the degrees are truncated toward zero, not floored. */
  lemma DdmmRoundTripNegative(deg: nat, minutes: real)
    requires 0.0 <= minutes < 100.0
    ensures DdmmToDegrees(-(deg as real * 100.0 + minutes)) == -(deg as real + minutes / 60.0)
  {
    DdmmOdd(deg as real * 100.0 + minutes);
    DdmmRoundTrip(deg, minutes);
  }

  /** Decimal degrees written as degree-minutes with the degrees truncated toward zero. */
  function DegreesToDdmm(x: real): real {
    Truncate(x) as real * 100.0 + (x - Truncate(x) as real) * 60.0
  }

  /** Writing decimal degrees of either sign as degree-minutes and reading them back gives the same value. */
  lemma DegreesRoundTrip(x: real)
    ensures DdmmToDegrees(DegreesToDdmm(x)) == x
  {
    var n := Truncate(x);
    if x >= 0.0 {
      DdmmRoundTrip(n, (x - n as real) * 60.0);
    } else {
      var minutes := (n as real - x) * 60.0;
      assert DegreesToDdmm(x) == -((-n) as real * 100.0 + minutes);
      DdmmRoundTripNegative(-n, minutes);
    }
  }

  /** A south or west direction gives the negation of any other non-empty direction; both overflow alike. */
  lemma ConvertDdmmSign(coord: string, southWest: string, other: string)
    requires SouthOrWest(southWest) && other != "" && !SouthOrWest(other)
    ensures ConvertDdmm(coord, southWest).Overflows? <==> ConvertDdmm(coord, other).Overflows?
    ensures ConvertDdmm(coord, southWest).Returns? ==>
      && ConvertDdmm(coord, other).Returns?
      && (ConvertDdmm(coord, southWest).value.Some? <==> ConvertDdmm(coord, other).value.Some?)
      && (ConvertDdmm(coord, southWest).value.Some? ==>
            ConvertDdmm(coord, southWest).value.value == -ConvertDdmm(coord, other).value.value)
  {
  }

  /** An empty coordinate or direction gives None. */
  lemma ConvertDdmmMissing(coord: string, dir: string)
    requires coord == "" || dir == ""
    ensures ConvertDdmm(coord, dir) == Returns(None)
  {
  }

  /**
   * A coordinate `whole.frac` of decimal digits is converted from the value
   * those digits spell, or raises OverflowError when that value reaches the
   * overflow bound.
   */
  lemma ConvertDdmmFixedPoint(whole: string, frac: string, dir: string)
    requires |whole| > 0 && AllDigits(whole) && AllDigits(frac) && dir != ""
    ensures var v := DecimalValue(whole, frac); var deg := DdmmToDegrees(v);
      ConvertDdmm(whole + "." + frac, dir)
        == if v >= FloatOverflow then Overflows else Returns(Some(if SouthOrWest(dir) then -deg else deg))
  {
    var c := whole + "." + frac;
    assert PyFloat(c) == Some(DecimalValue(whole, frac)) by { ParseFixedPoint(whole, frac); }
    assert |c| > 0;
    ConvertDdmmOf(c, dir, DecimalValue(whole, frac));
  }

  /** A coordinate `float` reads as v converts to v's degrees, or overflows when v is infinite to `float`. */
  lemma ConvertDdmmOf(coord: string, dir: string, v: real)
    requires coord != "" && dir != "" && PyFloat(coord) == Some(v)
    ensures ConvertDdmm(coord, dir)
      == if Infinite(v) then Overflows else Returns(Some(if SouthOrWest(dir) then -DdmmToDegrees(v) else DdmmToDegrees(v)))
  {
  }

  /** `3124.5678` north is 31 degrees 24.5678 minutes, about 31.4094633; south is its negation. */
  lemma ConvertDdmmExample()
    ensures ConvertDdmm("3124" + "." + "5678", "N") == Returns(Some(31.0 + 24.5678 / 60.0))
    ensures ConvertDdmm("3124" + "." + "5678", "S") == Returns(Some(-(31.0 + 24.5678 / 60.0)))
  {
    assert AllDigits("3124") && AllDigits("5678");
    ConvertDdmmFixedPoint("3124", "5678", "N");
    ConvertDdmmFixedPoint("3124", "5678", "S");
    DecimalValueExample();
    DdmmRoundTrip(31, 24.5678);
  }

  /** `2e308` is read by `float` as an infinity, so its conversion raises OverflowError. */
  lemma ConvertDdmmOverflowExample()
    ensures PyFloat("2e308") == Some(Scaled(2.0, 308)) && Infinite(Scaled(2.0, 308))
    ensures ConvertDdmm("2e308", "N") == Overflows
  {
    PyFloatExponentExample();
    assert Scaled(2.0, 308) >= FloatOverflow by { Pow10Of308(); }
  }

  /** `float("2e308")` is 2 times 10^308. */
  lemma PyFloatExponentExample()
    ensures PyFloat("2e308") == Some(Scaled(2.0, 308))
  {
    assert "2e308" == ['2'] + "e" + "308";
    Numeral308();
    PyFloatScientific('2', "308");
  }

  /** The digits 308 spell 308. */
  lemma Numeral308()
    ensures NumeralValue("308", false) == 308
  {
    assert "308" == "30" + ['8'] && "30" == "3" + ['0'];
    NumeralSnoc("30", '8', false);
    NumeralSnoc("3", '0', false);
    NumeralSingle('3', false);
  }

  /** 10^308 written out. */
  lemma Pow10Of308()
    ensures Pow10(308) == 100000000000000000000000000000000000000000000000000000000000000000000000000000000000000000000000000000000000000000000000000000000000000000000000000000000000000000000000000000000000000000000000000000000000000000000000000000000000000000000000000000000000000000000000000000000000000000000000000000000000000000000
  {
    assert Pow10(4) == 10000;
    Pow10Add(4, 4);
    assert Pow10(8) == 100000000;
    Pow10Add(8, 8);
    assert Pow10(16) == 10000000000000000;
    Pow10Add(16, 16);
    assert Pow10(32) == 100000000000000000000000000000000;
    Pow10Add(32, 32);
    assert Pow10(64) == 10000000000000000000000000000000000000000000000000000000000000000;
    Pow10Add(64, 64);
    assert Pow10(128) == 100000000000000000000000000000000000000000000000000000000000000000000000000000000000000000000000000000000000000000000000000000000;
    Pow10Add(128, 128);
    assert Pow10(256) == 10000000000000000000000000000000000000000000000000000000000000000000000000000000000000000000000000000000000000000000000000000000000000000000000000000000000000000000000000000000000000000000000000000000000000000000000000000000000000000000000000000000000000000;
    Pow10Add(256, 32);
    assert Pow10(288) == 1000000000000000000000000000000000000000000000000000000000000000000000000000000000000000000000000000000000000000000000000000000000000000000000000000000000000000000000000000000000000000000000000000000000000000000000000000000000000000000000000000000000000000000000000000000000000000000000000;
    Pow10Add(288, 16);
    assert Pow10(304) == 10000000000000000000000000000000000000000000000000000000000000000000000000000000000000000000000000000000000000000000000000000000000000000000000000000000000000000000000000000000000000000000000000000000000000000000000000000000000000000000000000000000000000000000000000000000000000000000000000000000000000000;
    Pow10Add(304, 4);
    assert Pow10(308) == 100000000000000000000000000000000000000000000000000000000000000000000000000000000000000000000000000000000000000000000000000000000000000000000000000000000000000000000000000000000000000000000000000000000000000000000000000000000000000000000000000000000000000000000000000000000000000000000000000000000000000000000;
  }
}
