# GPS tracker ingestion, modelled in Dafny

This project models how the GPS tracking platform takes in messages from TK103-family
trackers:

- **Decoding.** The TypeScript decoder `parseTK103` reads a text message in one of five
  dialects:
  - a simulator frame `(id,...)`;
  - a standard packet `imei:...`;
  - an HQ packet `*HQ,...#`;
  - a simple heartbeat of fifteen digits;
  - a command heartbeat `##,imei:...`.

  The result is a `GPSData` reading.
- **The TCP `data` handler.** It handles one received payload in this order:
  1. log the raw payload;
  2. decode it;
  3. for a location update: insert the position, classify the device state (parked, idling
     or moving), update the device row, re-read its dwell start time, and broadcast a
     `position` event;
  4. for a heartbeat: mark the device online;
  5. answer `BP05` with `(AP05)`.
- **`processLocationUpdate`.** The same location pipeline, run for updates that arrive over
  HTTP.
- **The Python decoder.** The stand-alone `universal_gps_parser.py` is modelled on its own,
  and `DecoderComparison` sets it side by side with the TypeScript decoder.

Modules, in dependency order:

- `Wrappers`: `Option` and `Result`.
- `Strings`: split, join, trim, strip, substring search.
- `Numbers`:
  - JavaScript numbers as a finite value or NaN;
  - `parseFloat` and `parseInt`;
  - Python `float`.
- `Instants`: `Date` values and ECMAScript `Date.UTC`.
- `Tk103` and `Tk103Properties`: the TypeScript decoder.
- `UniversalParser` and `UniversalParserProperties`: the Python decoder.
- `DecoderComparison`: the two decoders compared.
- `Storage`: the three tables, the event stream and the socket. The class `Store` holds
  them; each of its store calls can throw, as its fault flag says.
- `StateEngine`: the classification, the dwell-time `CASE`, and the device-row updates.
- `TcpServer` and `TcpServerProperties`: the `data` handler.
- `TrackingService` and `TrackingServiceProperties`: the HTTP location path.

**How each pipeline is modelled.** Each pipeline is a `method` that calls `Store` one
store call at a time. Each method is proved equal to a pure function of the old store
state and the fault flags:

| method | function |
|---|---|
| `HandleMessage` | `Ingest` |
| `SaveLocation` | `StoreLocation` |
| `ProcessLocationUpdate` | `Track` |

The properties are lemmas about those functions.

**The invariants proved.** Across any sequence of events, over every combination of store
failures:

- Every broadcast event reports a recorded position.
- Every position belongs to a device row (the foreign key).
- Heartbeats never emit.

**Behaviour of the source the model follows:**

- **The dwell-time `CASE`.** `state_start_time` is assigned before `current_state`, and
  MySQL evaluates the assignments of a single-table `UPDATE` from left to right. So the
  `CASE` compares the new state with the *stored* state. A reading in the stored state keeps
  the dwell timestamp.
- **A NULL `current_state`.** The comparison is unknown, which also keeps the timestamp.
- **East and north coordinates are positive.** `convertDDMMToDecimal` negates only for
  S and W, so an `E` longitude and an `N` latitude stay positive.
- **Alarm packets on the TCP path.** Alarm packets decode with type `alarm`. The TCP
  location branch accepts only `location_update`, so on that path an alarm packet is only
  logged, and `last_alarm` is never written there.
- **String lengths in TypeScript.** JavaScript's `length` and `substring` count UTF-16
  code units, and Python's `len` and slices count characters. The TypeScript date fields
  and status word are measured and cut in code units through `Strings.Utf16`, where a
  character above U+FFFF is two units. Separators, prefixes and patterns are all below
  U+FFFF, so splitting, trimming and matching give the same pieces either way.
- **Python coordinate overflow.** Python's `float` rounds a literal whose value reaches
  2^1024 - 2^970 in magnitude (`UniversalParser.FloatOverflow`) to an infinity. In the
  coordinate conversion `int(val / 100)` then raises OverflowError. The handler there
  catches only ValueError, so the error reaches the dialect parser's `except Exception`
  and the whole packet gives None. `UniversalParser.ConvertDdmm` returns an `Outcome`
  for this: `Returns` a value or None, or `Overflows`.
- **Link flags on the TCP path.** `GPSData` has no `internetStatus` or `gpsStatus`
  property. So the TCP path always writes `false` to both columns, and its events carry
  neither.

## Model

| member | source | states |
|---|---|---|
| Strings.ContainsIff | backend/src/parser/tk103.ts:141-142 | `includes` holds exactly when the pattern occurs at some offset of the text |
| Strings.SplitCount | backend/src/parser/tk103.ts:98 | `split` of a one-character separator gives one piece more than there are separators |
| Strings.SplitFree | backend/src/parser/tk103.ts:98 | no piece of a split holds the separator |
| Strings.SplitJoin | backend/src/parser/tk103.ts:98 | joining the pieces of a split restores the text |
| Strings.JoinSplit | backend/universal_gps_parser.py:61 | splitting a join of separator-free pieces gives back those pieces |
| Strings.TrimLeftSpec | backend/src/parser/tk103.ts:29 | trimming at the start removes exactly the leading run of white space |
| Strings.TrimRightSpec | backend/universal_gps_parser.py:21 | trimming at the end removes exactly the trailing run |
| Strings.DropHashRoundTrip | backend/src/parser/tk103.ts:167 | dropping the `#` of a text with `#` appended gives back the text, and text not ending in `#` is kept |
| Strings.PairSlice | backend/src/parser/tk103.ts:111-119 | a two-character `substring` is the slice clipped to the text |
| Strings.Utf16 | backend/src/parser/tk103.ts:112 | a text has at least one and at most two UTF-16 code units per character |
| Strings.Utf16Bmp | backend/src/parser/tk103.ts:112 | text without characters above U+FFFF has as many UTF-16 code units as characters, and they are its characters |
| Strings.Utf16Prefix | backend/src/parser/tk103.ts:113-118 | a leading run of characters up to U+FFFF sits at the same code-unit offsets |
| Strings.Utf16Astral | backend/src/parser/tk103.ts:112 | a character above U+FFFF is two code units, a surrogate pair |
| Strings.Utf16AllAstral | backend/src/parser/tk103.ts:112 | text of characters above U+FFFF only has twice as many code units as characters, all surrogate halves |
| Strings.Utf16Split | backend/src/parser/tk103.ts:113-118 | the code units of a text are those of its first part followed by those of the rest |
| Numbers.LeadingSpec | backend/src/parser/tk103.ts:122 | the scanned prefix is the longest run of the character class |
| Numbers.JsParseIntDigits | backend/src/parser/tk103.ts:111-119 | `parseInt` of a run of decimal digits is the number they spell |
| Numbers.JsParseIntHexDigits | backend/src/parser/tk103.ts:199 | `parseInt(s, 16)` of hex digits is the number they spell; the program agrees only while that number is below 2^53, at most 13 hex digits (see the number line under "Left out") |
| Numbers.PyFloatDigits | backend/universal_gps_parser.py:130 | `float` of decimal digits is the number they spell, exactly (no IEEE rounding, see "Left out") |
| Numbers.PyFloatScientific | backend/universal_gps_parser.py:227 | `float` of `<digit>e<digits>` is the digit times ten to the power the digits spell |
| Numbers.ScanScientific | backend/universal_gps_parser.py:227 | a literal `<digit>e<digits>` is consumed whole, as a one-digit mantissa and an exponent |
| Numbers.OrZero | backend/src/tcpServer.ts:42-43 | a number defaulted to 0 when falsy is non-zero exactly for a present, truthy number, and then it is that number |
| Numbers.ScanFixedPoint | backend/src/parser/tk103.ts:236 | a `whole.frac` literal is consumed whole and yields its value |
| Numbers.ParseFixedPoint | backend/universal_gps_parser.py:227 | `parseFloat` and `float` both read a `whole.frac` text as the exact value of its digits (no IEEE rounding, see "Left out") |
| Numbers.DecimalValueExample | backend/universal_gps_parser.py:227 | the digits `3124` and `5678` spell 3124.5678 |
| Instants.TimeClip | backend/src/parser/tk103.ts:119 | a time value within 8.64e15 ms of the epoch is a valid date, and any other gives the invalid date |
| Instants.UtcValid | backend/src/parser/tk103.ts:119 | `Date.UTC` of fields of bounded size, such as any the decoders build from digits, is a valid date |
| Instants.UtcTimeCalendar | backend/src/parser/tk103.ts:119 | for a year of 100 or more and a month 0..11, the time value is the day number times 86400000 plus the time of day |
| Instants.TwoDigitYear | backend/src/parser/tk103.ts:119 | a year 0..99 is read as 1900 plus the year |
| Instants.MonthCarry | backend/src/parser/tk103.ts:119 | month 12 + m is month m of the next year |
| Instants.SecondStep | backend/src/parser/tk103.ts:119 | one second more is 1000 ms later |
| Instants.SixtySeconds | backend/src/parser/tk103.ts:119 | sixty seconds are one minute |
| Instants.DayCarry | backend/src/parser/tk103.ts:119 | the day after a month's last day is the 1st of the next month |
| Instants.YearLength | backend/src/parser/tk103.ts:119 | a year has 366 days exactly when it is a Gregorian leap year |
| Instants.YearCarry | backend/src/parser/tk103.ts:119 | the day after December 31 is January 1 of the next year |
| Instants.UtcExample | backend/src/parser/tk103.ts:119 | 2023-10-23T12:35:19Z is 1698064519000 ms |
| Tk103.Parse | backend/src/parser/tk103.ts:27-31 | a result exists only for non-empty text, and it holds the trimmed text and has the shape of a valid reading |
| Tk103.ParseMessage | backend/src/parser/tk103.ts:33-91 | every decoded reading has that shape: for example, an alarm exactly for type alarm, and coordinates exactly for locations and alarms |
| Tk103.ParseSimulator | backend/src/parser/tk103.ts:33-53 | a decoded frame is a well-shaped reading that holds the frame text |
| Tk103.ParseStandard | backend/src/parser/tk103.ts:96-162 | a decoded standard packet is a well-shaped reading of the standard dialect that holds the message |
| Tk103.ParseHq | backend/src/parser/tk103.ts:164-231 | a decoded HQ packet is a location update without an alarm |
| Tk103.ParseCommandHeartbeat | backend/src/parser/tk103.ts:78-89 | a command heartbeat has no position, speed or ACC and is stamped with the receipt time |
| Tk103.HeartbeatId | backend/src/parser/tk103.ts:66-75 | with its first `;` removed, a simple heartbeat is its fifteen digits |
| Tk103Properties.ParseRejectsNonText | backend/src/parser/tk103.ts:28 | a missing, non-string or empty argument gives null |
| Tk103Properties.ParseBlank | backend/src/parser/tk103.ts:29 | white space alone trims to nothing and gives null |
| Tk103Properties.DispatchOrder | backend/src/parser/tk103.ts:33-91 | the dialects are tried in the source's order, each on its own prefix; anything else gives null |
| Tk103Properties.ShortFrameRejected | backend/src/parser/tk103.ts:36 | a frame of fewer than four fields gives null |
| Tk103Properties.SimulatorFrame | backend/src/parser/tk103.ts:38-50 | the fields of a frame: id, plain `parseFloat` coordinates, speed and trip distance defaulting to 0, and ACC from field 5 or from speed > 0 |
| Tk103Properties.FindImeiSpec | backend/src/parser/tk103.ts:99 | the unanchored match finds the leftmost `imei:` followed by a digit and takes its digit run; it fails exactly when there is none |
| Tk103Properties.FindImeiOf | backend/src/parser/tk103.ts:99 | `imei:` followed by digits and a non-digit gives those digits |
| Tk103Properties.FindImeiDigits | backend/src/parser/tk103.ts:101 | the device id taken from the match is all digits |
| Tk103Properties.StandardPacket | backend/src/parser/tk103.ts:96-157 | every field of a standard packet of twelve fields or more, with or without its `;` terminator: id, degree-minute coordinates, speed, alarm exactly for a trigger word, the date when the date field has ten UTF-16 code units or more and the receipt time otherwise, ACC and door markers |
| Tk103Properties.StandardDispatch | backend/src/parser/tk103.ts:56-58 | a trimmed `imei:` message is decoded field by field from its split after the first `;` is removed |
| Tk103Properties.RemoveTerminator | backend/src/parser/tk103.ts:98 | `replace(';', '')` on a packet whose only `;` is its terminator removes the terminator |
| Tk103Properties.StandardTooShort | backend/src/parser/tk103.ts:103 | fewer than twelve fields give null |
| Tk103Properties.StandardNeedsImei | backend/src/parser/tk103.ts:100 | no `imei:` followed by a digit in field 0 gives null |
| Tk103Properties.StandardDateDigits | backend/src/parser/tk103.ts:110-120 | `YYMMDDHHMMSS` is the valid UTC date 20YY-MM-DD HH:MM:SS |
| Tk103Properties.StandardDateNoSeconds | backend/src/parser/tk103.ts:118 | a date of ten digits and ten or eleven UTF-16 code units in all has second 0 |
| Tk103Properties.StandardDateAstral | backend/src/parser/tk103.ts:112-119 | five characters above U+FFFF are ten code units, so the date branch is taken, and it gives an invalid date |
| Tk103Properties.StandardDateAstralSeconds | backend/src/parser/tk103.ts:118 | ten digits and one character above U+FFFF are twelve code units; the surrogate pair is read as the seconds and the date is invalid |
| Tk103Properties.AlarmTable | backend/src/parser/tk103.ts:128-137 | exactly the six trigger words raise an alarm |
| Tk103Properties.AlarmInjective | backend/src/parser/tk103.ts:128-137 | different trigger words raise different alarms |
| Tk103Properties.DdmmRoundTrip | backend/src/parser/tk103.ts:236-239 | 100·deg + min is read as deg + min/60 |
| Tk103Properties.DegreesRoundTrip | backend/src/parser/tk103.ts:236-239 | decimal degrees written as degree-minutes read back unchanged, for either sign |
| Tk103Properties.ConvertDdmmSign | backend/src/parser/tk103.ts:241-243 | S and W negate what any other direction gives |
| Tk103Properties.ConvertDdmmNonNegative | backend/src/parser/tk103.ts:241-243 | N and E with a non-negative coordinate give a non-negative value |
| Tk103Properties.ConvertDdmmMissing | backend/src/parser/tk103.ts:234 | an empty coordinate or direction gives 0 |
| Tk103Properties.ConvertDdmmFixedPoint | backend/src/parser/tk103.ts:233-245 | a `whole.frac` coordinate is converted from the value of its digits |
| Tk103Properties.ConvertDdmmExample | backend/src/parser/tk103.ts:233-245 | `3124.5678` N is 31 + 24.5678/60, and S is its negation |
| Tk103Properties.HqPacket | backend/src/parser/tk103.ts:164-229 | every field of an HQ packet of ten fields or more: id, coordinates, speed, course, the date read at UTF-16 code-unit offsets or the receipt time, ACC and door from the status word |
| Tk103Properties.HqTooShort | backend/src/parser/tk103.ts:167-169 | an HQ packet of fewer than ten fields before its `#` gives null |
| Tk103Properties.StatusBitsOf | backend/src/parser/tk103.ts:198-210 | ACC and door are bits 0 and 1 of the parsed status word |
| Tk103Properties.StatusBitsLastDigit | backend/src/parser/tk103.ts:198-210 | those bits are the bits of the word's last hex digit; the program agrees only while the word's value is below 2^53, at most 13 hex digits (see the number line under "Left out") |
| Tk103Properties.StatusBitsAccOnly | backend/src/parser/tk103.ts:198-210 | `00000001` is ACC on and door closed |
| Tk103Properties.StatusBitsAccDoor | backend/src/parser/tk103.ts:198-210 | `00000003` and `FFFFFFFF` are ACC on and door open |
| Tk103Properties.StatusBitsShort | backend/src/parser/tk103.ts:198 | a status word of fewer than two characters leaves both false, including one character above U+FFFF, whose two code units pass the length test and do not parse |
| Tk103Properties.HqDateDigits | backend/src/parser/tk103.ts:183-192 | `DDMMYY` and `HHMMSS` are the UTC date 20YY-MM-DD HH:MM:SS |
| Tk103Properties.HqDateValid | backend/src/parser/tk103.ts:183-192 | a digit date and time always give a valid date |
| Tk103Properties.HqDateExample | backend/src/parser/tk103.ts:183-192 | `231023` and `123519` are 2023-10-23T12:35:19Z |
| Tk103Properties.HqDateShortTime | backend/src/parser/tk103.ts:190-191 | a time of four UTF-16 code units or fewer has no seconds and gives an invalid date |
| Tk103Properties.HqDateSplitPair | backend/src/parser/tk103.ts:185-191 | the time `1`, U+1F600, `2345` splits the surrogate pair between hour and minute, so the minute does not parse and the date is invalid |
| Tk103Properties.SimpleHeartbeat | backend/src/parser/tk103.ts:66-75 | fifteen digits, with or without `;`, are a heartbeat of that device without position |
| Tk103Properties.CommandHeartbeat | backend/src/parser/tk103.ts:78-89 | `##,imei:<id>,...` is a heartbeat of device id |
| UniversalParser.ParseMessage | backend/universal_gps_parser.py:14-47 | a record exists only for non-empty text and is well formed, and every record but a simple heartbeat holds the stripped message |
| UniversalParser.ParseStandard | backend/universal_gps_parser.py:50-138 | a decoded standard packet is a standard record of the raw message |
| UniversalParser.FloatOrZero | backend/universal_gps_parser.py:118 | `float(f) if f else 0.0` succeeds exactly for an empty field or a float literal, and agrees with `float` wherever `float` succeeds |
| UniversalParser.ParseHq | backend/universal_gps_parser.py:161-216 | a decoded HQ packet is an HQ record of the raw message |
| UniversalParser.ParseCommandHeartbeat | backend/universal_gps_parser.py:141-158 | a decoded command heartbeat is a command-heartbeat record of the raw message |
| UniversalParser.ConvertDdmm | backend/universal_gps_parser.py:219-244 | it returns a value exactly when the coordinate and direction are both non-empty, the coordinate is a Python float literal, and that literal is below the overflow bound. It raises OverflowError exactly when the literal reaches the bound: `float` gives an infinity, `int(val / 100)` raises, and `except ValueError` does not catch it |
| UniversalParser.MatchImei | backend/universal_gps_parser.py:64-67 | the anchored match gives a non-empty digit run found right after a leading `imei:` |
| UniversalParser.StandardTimestamp | backend/universal_gps_parser.py:75-86 | a field of ten characters or more gives `20YY-MM-DD HH:MM:SS`, otherwise the receipt time |
| UniversalParser.HqTimestamp | backend/universal_gps_parser.py:191-199 | the date and time fields give `20YY-MM-DD HH:MM:SS` |
| UniversalParser.Truncate | backend/universal_gps_parser.py:230 | `int` rounds toward zero: within 1 of the value, on its side of zero |
| UniversalParser.HeartbeatImei | backend/universal_gps_parser.py:31-35 | removing the optional `;` of a simple heartbeat leaves its fifteen digits |
| UniversalParserProperties.ParseRejectsNonText | backend/universal_gps_parser.py:18 | a missing, non-string or empty argument gives None |
| UniversalParserProperties.ParseBlank | backend/universal_gps_parser.py:21 | white space alone strips to nothing and gives None |
| UniversalParserProperties.DispatchNone | backend/universal_gps_parser.py:25-47 | text with no dialect's prefix gives None |
| UniversalParserProperties.DispatchStandard | backend/universal_gps_parser.py:25-26 | `imei:` goes to `parse_standard_data` |
| UniversalParserProperties.DispatchSimpleHeartbeat | backend/universal_gps_parser.py:31-35 | fifteen digits and an optional `;` are a simple heartbeat |
| UniversalParserProperties.DispatchCommandHeartbeat | backend/universal_gps_parser.py:39-40 | `##,imei:` goes to `parse_command_heartbeat` |
| UniversalParserProperties.DispatchHq | backend/universal_gps_parser.py:44-45 | `*HQ,` goes to `parse_hq_data` |
| UniversalParserProperties.GarbageRejected | backend/universal_gps_parser.py:25-47 | text starting with no dialect's first character gives None |
| UniversalParserProperties.GarbageExample | backend/test_universal_parser.py:56-59 | `garbage_data` gives None |
| UniversalParserProperties.FrameRejected | backend/universal_gps_parser.py:25-47 | a `(...)` frame is no dialect here |
| UniversalParserProperties.SimpleHeartbeatOf | backend/test_universal_parser.py:24-36 | fifteen digits, with or without `;`, are a simple heartbeat with that imei |
| UniversalParserProperties.CommandHeartbeatOf | backend/universal_gps_parser.py:141-158 | `##,imei:<id>,...` is a command heartbeat of id, with field 2 less its `;` as status when the packet has one |
| UniversalParserProperties.CommandHeartbeatExample | backend/test_universal_parser.py:38-44 | `##,imei:<id>,A` is a command heartbeat of id with status `A` |
| UniversalParserProperties.StandardPacket | backend/universal_gps_parser.py:50-136 | a `;`-terminated standard packet of twelve fields or more decodes exactly when its numbers parse and neither coordinate raises OverflowError. It then decodes to: imei, timestamp, SIM number, GPS status, the coordinates the conversion returns, speed, direction and altitude as `float` of fields 12 and 13 when present, and fuel levels as `float` of fields 16 and 17 less their `%` when they hold one |
| UniversalParserProperties.StandardOfFields | backend/universal_gps_parser.py:61-136 | the same decoding, field by field and with every value, including the rejection when a coordinate overflows, stated on the split fields of the message |
| UniversalParserProperties.StandardTooShort | backend/universal_gps_parser.py:70-71 | fewer than twelve fields give None |
| UniversalParserProperties.TwoFieldStandard | backend/universal_gps_parser.py:70-71 | `imei:<digits>,<word>` gives None |
| UniversalParserProperties.StandardTooShortExample | backend/test_universal_parser.py:61-64 | `imei:1234567,tracker` gives None |
| UniversalParserProperties.StandardNeedsImei | backend/universal_gps_parser.py:64-67 | field 0 must begin with `imei:` and a digit |
| UniversalParserProperties.MalformedSpeedRejected | backend/universal_gps_parser.py:117-138 | a non-empty speed field that is not a number rejects the packet |
| UniversalParserProperties.FuelLevel | backend/universal_gps_parser.py:128-133 | a fuel field of digits and `%` is the level those digits spell |
| UniversalParserProperties.FuelExample | backend/test_universal_parser.py:22 | `80%` is the level 80, so with StandardPacket a packet whose field 16 is `80%` has fuel tank 1 at 80.0 |
| UniversalParserProperties.StandardTimestampNoSeconds | backend/universal_gps_parser.py:75-86 | a field of fewer than ten characters gives the receipt time; a ten- or eleven-character field gives seconds `00` |
| UniversalParserProperties.StandardTimestampExample | backend/test_universal_parser.py:9-22 | `230520120000` gives `2023-05-20 12:00:00` |
| UniversalParserProperties.HqPacket | backend/universal_gps_parser.py:161-216 | an HQ packet of twelve fields or more decodes exactly when its speed parses and neither coordinate raises OverflowError, with imei, timestamp, GPS status and the returned coordinates from their fields |
| UniversalParserProperties.HqTooShort | backend/universal_gps_parser.py:174-187 | fewer than twelve fields give None (fewer than ten by the length test, ten or eleven by the IndexError of `parts[11]`) |
| UniversalParserProperties.HqTimestampExample | backend/test_universal_parser.py:46-54 | `231023` and `123519` give `2023-10-23 12:35:19` |
| UniversalParserProperties.TruncateOdd | backend/universal_gps_parser.py:230 | `int(-x) == -int(x)` |
| UniversalParserProperties.DdmmOdd | backend/universal_gps_parser.py:227-236 | the conversion commutes with negation |
| UniversalParserProperties.DdmmRoundTrip | backend/universal_gps_parser.py:227-236 | 100·deg + min is read as deg + min/60 |
| UniversalParserProperties.DdmmRoundTripNegative | backend/universal_gps_parser.py:230 | a negative value has its degrees truncated toward zero |
| UniversalParserProperties.DegreesRoundTrip | backend/universal_gps_parser.py:227-236 | decimal degrees written as degree-minutes read back unchanged |
| UniversalParserProperties.ConvertDdmmSign | backend/universal_gps_parser.py:239-240 | S and W negate what any other direction gives, and both directions overflow alike |
| UniversalParserProperties.ConvertDdmmMissing | backend/universal_gps_parser.py:224-225 | an empty coordinate or direction gives None |
| UniversalParserProperties.ConvertDdmmOf | backend/universal_gps_parser.py:227-242 | a coordinate `float` reads as v gives v in degrees, negated for S and W, or raises OverflowError when `float` makes v an infinity |
| UniversalParserProperties.ConvertDdmmFixedPoint | backend/universal_gps_parser.py:219-244 | a `whole.frac` coordinate is converted from the exact value of its digits below the overflow bound (no IEEE rounding, see "Left out"), and raises OverflowError from the bound on |
| UniversalParserProperties.ConvertDdmmExample | backend/universal_gps_parser.py:219-244 | `3124.5678` N is 31 + 24.5678/60, and S is its negation |
| UniversalParserProperties.ConvertDdmmOverflowExample | backend/universal_gps_parser.py:227-230 | `float("2e308")` is an infinity, so the conversion of `2e308` raises OverflowError |
| UniversalParserProperties.PyFloatExponentExample | backend/universal_gps_parser.py:227 | `float("2e308")` reads 2 times 10^308 |
| DecoderComparison.DdmmAgreeNonNegative | backend/universal_gps_parser.py:230 | on non-negative values `int` truncation and `Math.floor` give the same conversion |
| DecoderComparison.DdmmDivergeNegative | backend/src/parser/tk103.ts:236-239 | on -150 the decoders part: TypeScript gives -2 + 50/60, Python -1 - 50/60 |
| DecoderComparison.MissingCoordinate | backend/universal_gps_parser.py:224-225 | a missing coordinate is 0 in TypeScript and None in Python |
| DecoderComparison.FixedPointAgree | backend/universal_gps_parser.py:219-244 | a `whole.frac` coordinate with a direction is read as the same value by both below the overflow bound; from the bound on Python raises OverflowError |
| DecoderComparison.FixedPointPython | backend/universal_gps_parser.py:219-244 | below the overflow bound, Python reads a `whole.frac` coordinate as the degree value TypeScript computes for it, negated for S and W; from the bound on the conversion raises |
| DecoderComparison.FramesOnlyInTypeScript | backend/src/parser/tk103.ts:33-53 | a simulator frame decodes in TypeScript and not in Python |
| DecoderComparison.ShortHqOnlyInTypeScript | backend/universal_gps_parser.py:187 | an HQ packet of ten or eleven fields decodes in TypeScript with the receipt time and not in Python |
| DecoderComparison.SimpleHeartbeatAgree | backend/universal_gps_parser.py:31-35 | both decoders read a simple heartbeat as the same fifteen-digit id |
| DecoderComparison.AstralDateDiverges | backend/universal_gps_parser.py:78 | five characters above U+FFFF are a date of ten code units for TypeScript, which gives an invalid date, and of five characters for Python, which keeps the receipt time |
| Storage.Store.constructor | backend/src/db.ts:79-122 | a new store holds the given devices and nothing else |
| Storage.Store.InsertRawLog | backend/src/tcpServer.ts:11-25 | the entry is appended unless the insert throws |
| Storage.Store.InsertPosition | backend/src/db.ts:96-113 | the row is appended exactly when the insert does not throw and the device row exists (the foreign key) |
| Storage.Store.UpdateDevice | backend/src/tcpServer.ts:66-91 | the SET list is applied to the device's row when there is one; a missing row changes nothing and is no error |
| Storage.Store.SelectDevice | backend/src/tcpServer.ts:96-99 | the device's row is returned, or none, unless the query throws |
| Storage.Store.Emit | backend/src/tcpServer.ts:107-124 | one event is appended |
| Storage.Store.WriteSocket | backend/src/tcpServer.ts:146-150 | one reply is appended |
| StateEngine.Classify | backend/src/tcpServer.ts:54-61 | a reading never classifies as offline |
| StateEngine.Present | backend/src/tcpServer.ts:44 | an alarm defaulted to `null` when falsy is the alarm itself or absent, never the empty text, and any non-empty alarm is kept |
| StateEngine.ReportedStartTime | backend/src/tcpServer.ts:101 | the reported start time is the reading's time or the stored start time, and a stored start time always wins |
| StateEngine.NextStartTime | backend/src/tcpServer.ts:73 | the `CASE` either keeps the stored start time or takes the reading's time |
| StateEngine.LocationRow | backend/src/tcpServer.ts:66-88 | the location `UPDATE` sets `last_seen`, `online`, the state, the `CASE` start time, and `last_alarm` only for a present alarm |
| StateEngine.HeartbeatRow | backend/src/tcpServer.ts:129-139 | a heartbeat sets `last_seen`, `online` and `internet_status` and keeps the state, dwell time, alarm and GPS flag |
| StateEngine.StateNameInjective | backend/src/tcpServer.ts:54-61 | different states are stored as different texts |
| StateEngine.ClassifyCases | backend/src/tcpServer.ts:54-61 | parked exactly without ACC; moving exactly with ACC and a speed above 5; idling otherwise |
| StateEngine.SpeedThreshold | backend/src/tcpServer.ts:57 | the threshold is strict: 5 is idling and anything above moving |
| StateEngine.ClassifyMonotone | backend/src/tcpServer.ts:57 | with ACC on, a faster reading is never less moving |
| StateEngine.DwellKeptIff | backend/src/tcpServer.ts:73 | the start time is kept exactly when the stored state is NULL or equals the new state |
| StateEngine.DwellPreserved | backend/src/services/trackingService.ts:51 | a reading in the stored state keeps the dwell timestamp |
| StateEngine.DwellReset | backend/src/services/trackingService.ts:51 | a reading that changes a known state restarts the dwell at the reading's time |
| StateEngine.LocationRowIdempotent | backend/src/tcpServer.ts:66-88 | applying the same reading twice is the same as applying it once |
| StateEngine.SameStateRun | backend/src/tcpServer.ts:73-74 | after a run of readings in one state, the dwell timestamp is the one the first reading of the run left |
| StateEngine.ApplyReadingsStart | backend/src/tcpServer.ts:73-74 | after any series of readings the dwell timestamp is the time of the latest reading that changed a known state, or the original |
| TcpServer.PositionOf | backend/src/tcpServer.ts:36-51 | the position row holds the reading's device, place and time, and false link flags |
| TcpServer.EventOf | backend/src/tcpServer.ts:107-124 | the event holds the reading's device and time, the classified state and the re-read start time, and no link flags |
| TcpServer.SaveLocation | backend/src/tcpServer.ts:33-128 | the location branch, store call by store call, leaves the stores as `StoreLocation` says |
| TcpServer.HandleMessage | backend/src/tcpServer.ts:11-151 | the handler, store call by store call, leaves the stores as `Ingest` says: log, decode, process, reply |
| TcpServerProperties.RawLogFirst | backend/src/tcpServer.ts:11-25 | the payload is logged with its receipt time unless the insert throws |
| TcpServerProperties.ProcessIgnoresRawLogs | backend/src/tcpServer.ts:11-25 | what a message does does not depend on the raw log |
| TcpServerProperties.RawLogFailureHarmless | backend/src/tcpServer.ts:22-24 | a failed raw-log insert changes nothing but the raw log |
| TcpServerProperties.LoginReplyIff | backend/src/tcpServer.ts:146-150 | `(AP05)` is written exactly when the payload contains `BP05`, whatever it decoded to and whatever failed |
| TcpServerProperties.UndecodedOnlyLogged | backend/src/tcpServer.ts:28-31 | an undecodable payload changes no position, device or event |
| TcpServerProperties.ProcessFrame | backend/src/tcpServer.ts:28-140 | a message changes only positions, devices and events; it adds at most its own position and never adds or removes a device |
| TcpServerProperties.NoBroadcastWithoutPosition | backend/src/tcpServer.ts:36-124 | an event is emitted only for a location update of a known device, together with its position row, which the event reports |
| TcpServerProperties.HeartbeatNeverEmits | backend/src/tcpServer.ts:129-139 | a heartbeat adds no position and no event; it touches only its own device row and keeps that row's state and dwell time |
| TcpServerProperties.HeartbeatMessagesNeverEmit | backend/src/tcpServer.ts:129-139 | a whole heartbeat event adds no position and no broadcast |
| TcpServerProperties.AlarmPacketsNotStored | backend/src/tcpServer.ts:33 | an alarm packet records no position, writes no device and emits nothing |
| TcpServerProperties.LocationDevices | backend/src/tcpServer.ts:66-91 | only the reading's device row changes, and it changes to the location row |
| TcpServerProperties.LastAlarmKept | backend/src/tcpServer.ts:75 | without a stored alarm location, every `last_alarm` is kept |
| TcpServerProperties.HandleDevices | backend/src/tcpServer.ts:28-140 | the device rows after an event are those that processing the decoded message leaves |
| TcpServerProperties.ProcessKeepsAlarm | backend/src/tcpServer.ts:75 | a message that is not a location with an alarm keeps every `last_alarm` |
| TcpServerProperties.InsertRefused | backend/src/tcpServer.ts:36-51 | a refused position insert, because it throws or because the device is unknown, ends the update with nothing changed |
| TcpServerProperties.UpdateFailed | backend/src/tcpServer.ts:91 | a failed device update keeps the recorded position and emits nothing |
| TcpServerProperties.SelectFailed | backend/src/tcpServer.ts:96-99 | a failed re-read keeps the position and the device update and emits nothing |
| TcpServerProperties.LocationUpdateRow | backend/src/tcpServer.ts:66-91 | the row a stored update leaves: online, seen now, the classified state, the `CASE` start time, an alarm only when present, link flags false |
| TcpServerProperties.BroadcastOnSuccess | backend/src/tcpServer.ts:96-124 | with every call succeeding, one event is emitted, in the classified state, with the stored start time or the reading's time |
| TcpServerProperties.RepeatedReading | backend/src/tcpServer.ts:64-73 | an identical second reading leaves the device rows, and so the dwell timestamp, unchanged, and broadcasts the same event again |
| TcpServerProperties.RecordedExtend | backend/src/tcpServer.ts:36-124 | adding positions, and events that each report one, keeps every event recorded |
| TcpServerProperties.EventsRecordedPreserved | backend/src/tcpServer.ts:11-151 | every broadcast reports a recorded position, before and after any event |
| TcpServerProperties.ForeignKeyPreserved | backend/src/db.ts:111 | every position keeps a device row after any event, and the device keys never change |
| TcpServerProperties.IngestInvariants | backend/src/tcpServer.ts:11-151 | the handler keeps both invariants and never writes `last_alarm` |
| TrackingService.PositionOf | backend/src/services/trackingService.ts:16-32 | the position row holds the update's device, place, motion and time; the link flags take their default, false |
| TrackingService.EventOf | backend/src/services/trackingService.ts:80-95 | the event holds the update's values, the classified state, the start time and the trip distance or 0, and no link flags |
| TrackingService.ProcessLocationUpdate | backend/src/services/trackingService.ts:16-102 | the service, store call by store call, leaves the stores and returns what `Track` says |
| TrackingServiceProperties.TrackResult | backend/src/services/trackingService.ts:16-102 | success exactly when every store call succeeds and the start time is valid, and then the classified state, never offline |
| TrackingServiceProperties.InsertRefused | backend/src/services/trackingService.ts:16-32 | the insert error is raised exactly when the insert throws or the device is unknown, and then nothing changes |
| TrackingServiceProperties.UpdateFailedKeepsPosition | backend/src/services/trackingService.ts:46-66 | a failed device update keeps the inserted position |
| TrackingServiceProperties.InsertBeforeUpdate | backend/src/services/trackingService.ts:16-66 | the device row changes only once the position is recorded |
| TrackingServiceProperties.BroadcastIff | backend/src/services/trackingService.ts:80-95 | an event is broadcast exactly on success with a socket server attached, in the returned state with the stored start time |
| TrackingServiceProperties.UpdatedRow | backend/src/services/trackingService.ts:46-66 | the columns the update writes, the link flags kept, and no other device changed |
| TrackingServiceProperties.LinkFlagsUntouched | backend/src/services/trackingService.ts:46-66 | `internet_status` and `gps_status` never change on this path |
| TrackingServiceProperties.RepeatedUpdate | backend/src/services/trackingService.ts:51 | an identical second update leaves the device rows, including the dwell timestamp, and the result unchanged |
| TrackingServiceProperties.TrackKeepsInvariants | backend/src/services/trackingService.ts:16-95 | the foreign key and the recorded-broadcast invariant hold after any update |
| TrackingServiceProperties.FromReading | backend/src/services/trackingService.ts:3-14 | the update built from a reading keeps its device, time, speed and ACC |
| TrackingServiceProperties.SameAsTcp | backend/src/services/trackingService.ts:16-95 | the TCP branch and this path record the same position and broadcast the same event; their device rows differ only in the TCP path clearing the link flags |

## Left out

- JavaScript numbers are modelled as exact reals or NaN. IEEE rounding, precision limits and Infinity are not modelled; `parseFloat("Infinity")` reads as NaN here.
- Python `float` accepts decimal literals with an optional exponent. `inf`, `nan` and underscore separators are not modelled.
- Numbers.PyFloat, UniversalParser.ConvertDdmm: Python `float` values and the arithmetic on them (`val / 100`, `int(...)`, `/ 60`) are exact reals; IEEE-754 rounding is not modelled, only the overflow bound is. Rounding can move the truncation: `float("9999.999999999999999")` is 10000.0, so Python gives 100.0 degrees for that coordinate with `N`, where the model gives 99 + 99.999999999999999/60, about 100.667. The rows for `Numbers.PyFloatDigits`, `Numbers.ParseFixedPoint` and `UniversalParserProperties.ConvertDdmmFixedPoint` state values in these exact reals.
- UniversalParser.FloatOrZero: a speed, direction, altitude or fuel level whose literal reaches `UniversalParser.FloatOverflow` keeps its exact value, where Python stores `inf` and raises nothing. Only the coordinate conversion models that bound, because there the infinity makes `int(val / 100)` raise.
- DecoderComparison.FixedPointAgree: its TypeScript half gives the exact value for every literal. From the same bound on, `parseFloat` really gives `Infinity`, which the JavaScript number model above leaves out.
- Python's `\d`, `str.isspace` and `float` also accept non-ASCII characters: `\d` and `float` take any Unicode decimal digit (`float("٥")` is 5.0), and `str.isspace` more spaces. The model takes ASCII digits only, and the ASCII and Unicode spaces listed in `Strings.IsPySpace`. So a packet whose speed field is `٥` is rejected by the model, where Python keeps it with speed 5.0.
- A `Date` is its epoch milliseconds, or the invalid date. `toISOString` is modelled only as the throw on an invalid date, and its text layout is not modelled.
- Every time column (`devices.state_start_time`, `devices.last_seen`, `positions.timestamp`, `raw_logs.received_at`) is a MySQL `TIMESTAMP`. Its range (1970 to 2038), its whole-second precision, the time-zone conversion of the driver and type validation are not modelled. A `NaN` or out-of-range date that MySQL would refuse is covered only because every store call can fail by its fault flag.
- Storage.Store.UpdateDevice, Storage.Store.InsertPosition, StateEngine.NextStartTime: the model compares device ids and state names exactly. Under a case-insensitive `_ci` collation, MySQL's `WHERE device_id = ?`, the foreign-key match and the `CASE` test `current_state != ?` equate case variants: `Parked` equals `parked`, and the id `ABC` finds the row `abc`. The collation of the schema is not modelled.
- Storage.Store.UpdateDevice: stores an `Instant` with its milliseconds, where the `TIMESTAMP` column keeps whole seconds. So `Storage.Store.SelectDevice`, `TcpServerProperties.BroadcastOnSuccess` and `TrackingServiceProperties.BroadcastIff` give back the exact start time, where the real re-read at tcpServer.ts:96-103 and trackingService.ts:71-77 returns it rounded to the second.
- The database, the socket and the event emitter are the `Store` class. Its failures are parameters. Connection handling, concurrency, interleaving of socket events, TCP framing and the UTF-8 decoding of `data.toString()` are not modelled.
- `positions.battery_level`, and the device columns `name`, `tenant_id` and `created_at`, are never written by the handler or the service and are not modelled.
- Console logging and the `__main__` demonstration block of the Python decoder are not modelled.
- TcpServer.HandleMessage: assumes the socket server `ioInstance` is attached. The case where it is not, so the emit is skipped, is modelled only in `TrackingService`, through its `io` parameter.
- A surrogate half is written U+FFFD in `Strings.Utf16`, not as its own code unit. Only lengths and `parseInt` read those units, and `parseInt` treats U+FFFD as it treats a lone surrogate: neither is white space, a sign or a digit.
- The decoders' `try/catch` blocks in `tk103.ts` have no counterpart: no statement they guard can throw on a string input.
- The `catch` blocks of the TCP handler and of the tracking service (log, or rethrow) are modelled by their effect only: the block ends, and the tracking service returns the failing step as an `Err`.
- The server set-up, `pool` creation and schema creation in `db.ts` are not part of this model. Only the tables' keys and columns are used.

