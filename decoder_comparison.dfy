/**
 * The TypeScript decoder and the Python decoder side by side: where they
 * read a message the same way and where they part.
 */
module DecoderComparison {
  import opened Wrappers
  import opened Strings
  import opened Numbers
  import opened Instants
  import Tk103
  import Tk103Properties
  import UniversalParser
  import UniversalParserProperties

  /** On non-negative values the two degree-minute conversions agree: truncation is the floor there. */
  lemma DdmmAgreeNonNegative(v: real)
    requires v >= 0.0
    ensures UniversalParser.DdmmToDegrees(v) == Tk103.DdmmToDegrees(v)
  {
    assert UniversalParser.Truncate(v / 100.0) == (v / 100.0).Floor;
  }

  /**
   * On negative values they part: -150 is read as -1 degree and -50 minutes
   * by Python (truncation) and as -2 degrees and +50 minutes by TypeScript
   * (`Math.floor`).
   */
  lemma DdmmDivergeNegative()
    ensures Tk103.DdmmToDegrees(-150.0) == -2.0 + 50.0 / 60.0
    ensures UniversalParser.DdmmToDegrees(-150.0) == -1.0 - 50.0 / 60.0
  {
    assert (-150.0 / 100.0).Floor == -2;
    assert UniversalParser.Truncate(-150.0 / 100.0) == -1;
  }

  /** A missing coordinate or direction reads as 0 in TypeScript and as None in Python. */
  lemma MissingCoordinate(coord: string, dir: string)
    requires coord == "" || dir == ""
    ensures Tk103.ConvertDdmm(coord, dir) == Finite(0.0)
    ensures UniversalParser.ConvertDdmm(coord, dir) == UniversalParser.Returns(None)
  {
  }

  /**
   * A coordinate `whole.frac` of decimal digits with a direction is read as
   * the same value by both, unless it reaches the bound where Python's
   * `float` gives an infinity and the conversion raises.
   */
  lemma FixedPointAgree(whole: string, frac: string, dir: string)
    requires |whole| > 0 && AllDigits(whole) && AllDigits(frac) && dir != ""
    ensures var c := whole + "." + frac;
      var deg := Tk103.DdmmToDegrees(DecimalValue(whole, frac));
      var v := if SouthOrWest(dir) then -deg else deg;
      && Tk103.ConvertDdmm(c, dir) == Finite(v)
      && UniversalParser.ConvertDdmm(c, dir)
           == if DecimalValue(whole, frac) >= UniversalParser.FloatOverflow then UniversalParser.Overflows
              else UniversalParser.Returns(Some(v))
  {
    Tk103Properties.ConvertDdmmFixedPoint(whole, frac, dir);
    FixedPointPython(whole, frac, dir);
  }

  /** The Python half: below the overflow bound its conversion of a non-negative `whole.frac` is TypeScript's degree value. */
  lemma FixedPointPython(whole: string, frac: string, dir: string)
    requires |whole| > 0 && AllDigits(whole) && AllDigits(frac) && dir != ""
    ensures var deg := Tk103.DdmmToDegrees(DecimalValue(whole, frac));
      UniversalParser.ConvertDdmm(whole + "." + frac, dir)
        == if DecimalValue(whole, frac) >= UniversalParser.FloatOverflow then UniversalParser.Overflows
           else UniversalParser.Returns(Some(if SouthOrWest(dir) then -deg else deg))
  {
    UniversalParserProperties.ConvertDdmmFixedPoint(whole, frac, dir);
    DdmmAgreeNonNegative(DecimalValue(whole, frac));
  }

  /** A simulator frame `(f0,...)` of four fields or more is decoded only by TypeScript. */
  lemma FramesOnlyInTypeScript(fields: seq<string>, now: Instant, pyNow: string)
    requires |fields| >= 4 && forall k :: 0 <= k < |fields| ==> ',' !in fields[k]
    ensures var m := "(" + Join(fields, ',') + ")";
      Tk103.Parse(Text(m), now).Some? && UniversalParser.ParseMessage(Text(m), pyNow) == None
  {
    Tk103Properties.SimulatorFrame(fields, now);
    UniversalParserProperties.FrameRejected(Join(fields, ','), pyNow);
  }

  /**
   * An HQ packet of ten or eleven fields, which has no date field, is decoded
   * by TypeScript with the receipt time and rejected by Python.
   */
  lemma ShortHqOnlyInTypeScript(fields: seq<string>, now: Instant, pyNow: string)
    requires 10 <= |fields| < 12 && fields[0] == "*HQ" && forall k :: 0 <= k < |fields| ==> ',' !in fields[k]
    ensures var m := Join(fields, ',') + "#";
      && Tk103.Parse(Text(m), now).Some? && Tk103.Parse(Text(m), now).value.timestamp == now
      && UniversalParser.ParseMessage(Text(m), pyNow) == None
  {
    Tk103Properties.HqPacket(fields, now);
    UniversalParserProperties.HqTooShort(fields, pyNow);
  }

  /** Both read a simple heartbeat as the same fifteen-digit device id. */
  lemma SimpleHeartbeatAgree(id: string, semicolon: bool, now: Instant, pyNow: string)
    requires |id| == 15 && AllDigits(id)
    ensures var m := if semicolon then id + ";" else id;
      && Tk103.Parse(Text(m), now).Some? && Tk103.Parse(Text(m), now).value.deviceId == id
      && UniversalParser.ParseMessage(Text(m), pyNow) == Some(UniversalParser.SimpleHeartbeat(id))
  {
    Tk103Properties.SimpleHeartbeat(id, semicolon, now);
    UniversalParserProperties.SimpleHeartbeatOf(id, semicolon, pyNow);
  }

  /**
   * A date field of five characters above U+FFFF: TypeScript counts ten code
   * units, takes the date branch and gets an invalid date; Python counts five
   * characters and keeps the receipt time.
   */
  lemma AstralDateDiverges(d: string, pyNow: string)
    requires d == "\U{1F600}\U{1F600}\U{1F600}\U{1F600}\U{1F600}"
    ensures |Utf16(d)| >= 10 && Tk103.StandardDate(d) == InvalidDate
    ensures UniversalParser.StandardTimestamp(d, pyNow) == pyNow
  {
    Tk103Properties.StandardDateAstral(d);
  }
}
