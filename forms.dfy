/** The flight-entry form shared by the create page and the edit dialog: the values of its
    inputs, `validate` (first failing rule wins), `parseInt` for the landing count, and the
    record each save handler builds from the form. */
module Forms {
  import opened Options
  import opened JsStrings
  import opened Backend
  import FlightTime

  /** The values of the form's inputs. `flightType` holds `'solo'` or `'dual'` and
      `landingType` `'day'` or `'night'`, as the selects set them. */
  datatype Form = Form(
    date: string,
    student: string,
    instructor: string,
    aircraft: string,
    exercise: string,
    flightType: string,
    takeoffTime: string,
    landingTime: string,
    landingType: string,
    landingCount: string)

  /** The inputs as each form starts out (and as the edit dialog resets them on close). */
  function DefaultForm(date: string): Form {
    Form(date, "", "", "", "", "dual", "", "", "day", "1")
  }

  /** The inputs that hold typed text; editing one of them also clears the error line. The
      flight type and landing type are set by buttons instead. */
  datatype TextField =
    | DateField | StudentField | InstructorField | AircraftField | ExerciseField
    | TakeoffField | LandingField | CountField

  function TextOf(f: Form, field: TextField): string {
    match field
    case DateField => f.date
    case StudentField => f.student
    case InstructorField => f.instructor
    case AircraftField => f.aircraft
    case ExerciseField => f.exercise
    case TakeoffField => f.takeoffTime
    case LandingField => f.landingTime
    case CountField => f.landingCount
  }

  /** The form after the input `field` is set to `value`: that input reads `value`, every
      other input reads as before. */
  function WithText(f: Form, field: TextField, value: string): (g: Form)
    ensures TextOf(g, field) == value
    ensures forall other: TextField | other != field :: TextOf(g, other) == TextOf(f, other)
    ensures g.flightType == f.flightType && g.landingType == f.landingType
  {
    match field
    case DateField => f.(date := value)
    case StudentField => f.(student := value)
    case InstructorField => f.(instructor := value)
    case AircraftField => f.(aircraft := value)
    case ExerciseField => f.(exercise := value)
    case TakeoffField => f.(takeoffTime := value)
    case LandingField => f.(landingTime := value)
    case CountField => f.(landingCount := value)
  }

  /** The two selects only ever hold one of their buttons' values. */
  predicate ChoicesSet(f: Form) {
    (f.flightType == "solo" || f.flightType == "dual")
    && (f.landingType == "day" || f.landingType == "night")
  }

  /** How the awaited store mutation ended: saved, or rejected with an `Error` carrying a
      message (`Some`) or with some other thrown value (`None`). */
  datatype Outcome = Saved | Rejected(error: Option<string>)

  /** The message a save handler shows for a rejected mutation. */
  function FailureMessage(error: Option<string>, fallback: string): (m: string)
    ensures error.Some? ==> m == error.value
    ensures error.None? ==> m == fallback
  {
    if error.Some? then error.value else fallback
  }

  // `parseInt(s)` (ECMAScript section 19.2.5) with no radix: leading white space is
  // skipped, one sign is read, a `0x` or `0X` prefix selects base 16, and the longest run of
  // digits of the base that follows is the value; no digit at all is NaN.

  predicate IsRadixDigit(c: char, radix: nat) {
    if radix == 16 then IsDigit(c) || 'a' <= c <= 'f' || 'A' <= c <= 'F' else IsDigit(c)
  }

  function RadixDigitValue(c: char, radix: nat): (d: nat)
    requires IsRadixDigit(c, radix)
    ensures d < (if radix == 16 then 16 else 10)
  {
    if IsDigit(c) then DigitValue(c)
    else if 'a' <= c <= 'f' then c as int - 'a' as int + 10
    else c as int - 'A' as int + 10
  }

  /** The length of the run of digits of the base at the front of `t`. */
  function DigitRun(t: string, radix: nat): (k: nat)
    ensures k <= |t|
    ensures forall i | 0 <= i < k :: IsRadixDigit(t[i], radix)
    ensures k < |t| ==> !IsRadixDigit(t[k], radix)
    decreases |t|
  {
    if t == [] || !IsRadixDigit(t[0], radix) then 0 else 1 + DigitRun(t[1..], radix)
  }

  /** The value of a run of digits of the base. */
  function RadixValue(s: string, radix: nat): nat
    requires forall i | 0 <= i < |s| :: IsRadixDigit(s[i], radix)
    decreases |s|
  {
    if s == [] then 0
    else RadixValue(s[..|s| - 1], radix) * (if radix == 16 then 16 else 10)
         + RadixDigitValue(s[|s| - 1], radix)
  }

  /** The number a run of digits of the base at the front of `body` spells, NaN when
      there is none. */
  function ReadRun(body: string, radix: nat): (n: FlightTime.JsNumber)
    ensures n.NaN? <==> DigitRun(body, radix) == 0
  {
    var k := DigitRun(body, radix);
    if k == 0 then FlightTime.NaN else FlightTime.Finite(RadixValue(body[..k], radix))
  }

  predicate HexPrefix(u: string) {
    |u| >= 2 && u[0] == '0' && (u[1] == 'x' || u[1] == 'X')
  }

  /** The number after the sign: hexadecimal behind `0x` or `0X`, decimal otherwise. */
  function ReadUnsigned(u: string): FlightTime.JsNumber {
    if HexPrefix(u) then ReadRun(u[2..], 16) else ReadRun(u, 10)
  }

  /** The number at the front of text with no leading white space, with its sign. */
  function ReadSigned(t: string): FlightTime.JsNumber {
    if t != [] && (t[0] == '-' || t[0] == '+') then
      var n := ReadUnsigned(t[1..]);
      if n.Finite? && t[0] == '-' then FlightTime.Finite(-n.value) else n
    else ReadUnsigned(t)
  }

  /** `parseInt(s)`; a negative zero is 0 here. */
  function ParseInt(s: string): FlightTime.JsNumber {
    ReadSigned(TrimStart(s))
  }

  /** In base 10 the run's value is its decimal value. */
  lemma {:induction false} DecimalRun(s: string)
    requires AllDigits(s)
    ensures forall i | 0 <= i < |s| :: IsRadixDigit(s[i], 10)
    ensures RadixValue(s, 10) == DecimalValue(s)
    decreases |s|
  {
    if s != [] {
      DecimalRun(s[..|s| - 1]);
    }
  }

  lemma {:induction false} RunOfDigits(digits: string, rest: string)
    requires AllDigits(digits)
    requires rest == [] || !IsDigit(rest[0])
    ensures DigitRun(digits + rest, 10) == |digits|
    decreases |digits|
  {
    if digits == [] {
      assert digits + rest == rest;
    } else {
      assert (digits + rest)[1..] == digits[1..] + rest;
      RunOfDigits(digits[1..], rest);
    }
  }

  /** Text that starts with a digit other than a leading `0x` is read in base 10 as it
      stands. */
  lemma ParseIntFromDigit(s: string)
    requires s != [] && IsDigit(s[0]) && !HexPrefix(s)
    ensures ParseInt(s) == ReadRun(s, 10)
  {
    DigitStartIsTrimmed(s);
    UnsignedDigitStart(s);
  }

  lemma DigitStartIsTrimmed(s: string)
    requires s != [] && IsDigit(s[0])
    ensures TrimStart(s) == s
  {
    DigitIsNotWhitespace(s[0]);
  }

  lemma UnsignedDigitStart(s: string)
    requires s != [] && IsDigit(s[0]) && !HexPrefix(s)
    ensures ReadSigned(s) == ReadRun(s, 10)
  {
    assert s[0] != '-' && s[0] != '+';
  }

  lemma DigitIsNotWhitespace(c: char)
    requires IsDigit(c)
    ensures !IsJsWhitespace(c)
  {
  }

  /** `parseInt` reads a decimal number up to the first character that is not a digit:
      `parseInt("3 landings")` is 3. */
  lemma ParseIntStopsAtNonDigit(digits: string, rest: string)
    requires |digits| >= 1 && AllDigits(digits) && !HexPrefix(digits + rest)
    requires rest == [] || !IsDigit(rest[0])
    ensures ParseInt(digits + rest) == FlightTime.Finite(DecimalValue(digits))
  {
    var s := digits + rest;
    assert s[0] == digits[0];
    ParseIntFromDigit(s);
    RunOfDigits(digits, rest);
    assert s[..|digits|] == digits;
    DecimalRun(digits);
  }

  /** A string of decimal digits only, leading zeros included, reads as its decimal value:
      `parseInt("07")` is 7. */
  lemma ParseIntOfDigits(s: string)
    requires s != [] && AllDigits(s)
    ensures ParseInt(s) == FlightTime.Finite(DecimalValue(s))
  {
    assert |s| >= 2 ==> IsDigit(s[1]);
    ParseIntStopsAtNonDigit(s, []);
    assert s + [] == s;
  }

  /** `parseInt(String(n))` is `n`: the landing count survives the edit dialog's load. */
  lemma ParseIntOfString(n: nat)
    ensures ParseInt(IntToString(n)) == FlightTime.Finite(n)
  {
    assert IntToString(n) == NatToDecimal(n);
    ParseIntOfDigits(NatToDecimal(n));
    DecimalRoundTrip(n);
  }

  /** Text with no digit of its own is NaN; in particular the empty landing count. */
  lemma ParseIntEmpty()
    ensures ParseInt("").NaN?
  {
    assert TrimStart("") == "";
  }

  /** `/^\d{1,2}:\d{2}$/.test(s)`: one or two ASCII digits, a colon, two ASCII digits, and
      nothing else. */
  predicate MatchesClock(s: string) {
    || (|s| == 4 && IsDigit(s[0]) && s[1] == ':' && IsDigit(s[2]) && IsDigit(s[3]))
    || (|s| == 5 && IsDigit(s[0]) && IsDigit(s[1]) && s[2] == ':' && IsDigit(s[3]) && IsDigit(s[4]))
  }

  /** The language of the pattern, stated as the pattern reads: an hours field of one or
      two digits, `:`, a minutes field of two digits. */
  predicate ClockShape(s: string, h: string, m: string) {
    s == h + ":" + m && 1 <= |h| <= 2 && |m| == 2 && AllDigits(h) && AllDigits(m)
  }

  lemma MatchesClockShape(s: string)
    ensures MatchesClock(s) <==> exists h, m :: ClockShape(s, h, m)
  {
    if MatchesClock(s) {
      var h, m := s[..|s| - 3], s[|s| - 2..];
      assert s == h + ":" + m;
      assert ClockShape(s, h, m);
    }
    if exists h, m :: ClockShape(s, h, m) {
      var h, m :| ClockShape(s, h, m);
      assert s[|h|] == ':' && s[|h| + 1] == m[0] && s[|h| + 2] == m[1] && s[0] == h[0];
      if |h| == 2 {
        assert s[1] == h[1];
      }
    }
  }

  /** The hours and minutes fields of a string that matches the pattern. */
  function ClockHours(s: string): string
    requires MatchesClock(s)
  {
    s[..|s| - 3]
  }

  function ClockMinutes(s: string): string
    requires MatchesClock(s)
  {
    s[|s| - 2..]
  }

  /** The duration of a pair of times that match the pattern, read off their digits as
      written: landing minus takeoff minutes, plus a day when that is negative. */
  function ClockDuration(t: string, l: string): string
    requires MatchesClock(t) && MatchesClock(l)
  {
    ClockParts(t);
    ClockParts(l);
    FlightTime.FormatDuration(FlightTime.ElapsedMinutes(
      DecimalValue(ClockHours(t)), DecimalValue(ClockMinutes(t)),
      DecimalValue(ClockHours(l)), DecimalValue(ClockMinutes(l))))
  }

  /** A validated pair of times never falls back to the `"0:00"` sentinel for want of a
      number: `calcFlightTime` gives the duration of the digits as written. */
  lemma ValidTimesDuration(t: string, l: string)
    ensures MatchesClock(t) && MatchesClock(l) ==>
      FlightTime.CalcFlightTime(t, l) == ClockDuration(t, l)
  {
    if MatchesClock(t) && MatchesClock(l) {
      ClockParts(t);
      ClockParts(l);
      FlightTime.DurationOfDigitTimes(ClockHours(t), ClockMinutes(t), ClockHours(l), ClockMinutes(l));
    }
  }

  lemma ClockParts(s: string)
    requires MatchesClock(s)
    ensures ClockShape(s, ClockHours(s), ClockMinutes(s))
  {
    assert s == ClockHours(s) + ":" + ClockMinutes(s);
  }

  /** The pattern counts digits only: `"99:99"` passes, although it is no time of day. */
  lemma NinetyNineMatches()
    ensures MatchesClock("99:99")
  {
  }

  /** The messages of `validate`, in the order the rules are tried. */
  const DateRequired := "Date is required"
  const StudentRequired := "Student is required"
  const InstructorRequired := "Instructor is required"
  const AircraftRequired := "Aircraft is required"
  const ExerciseRequired := "Exercise is required"
  const TakeoffRequired := "Takeoff time is required"
  const LandingRequired := "Landing time is required"
  const TakeoffFormat := "Takeoff time must be HH:MM"
  const LandingFormat := "Landing time must be HH:MM"
  const CountTooLow := "Landing count must be at least 1"

  const Messages: seq<string> := [
    DateRequired, StudentRequired, InstructorRequired, AircraftRequired, ExerciseRequired,
    TakeoffRequired, LandingRequired, TakeoffFormat, LandingFormat, CountTooLow
  ]

  /** `isNaN(count) || count < 1` fails the last rule. */
  predicate CountValid(s: string) {
    ParseInt(s).Finite? && ParseInt(s).value >= 1
  }

  /** `validate()`: the message of the first rule the form breaks, or none. */
  function Validate(f: Form): (m: Option<string>)
    ensures m == None <==> Valid(f)
  {
    if f.date == "" then Some(DateRequired)
    else if f.student == "" then Some(StudentRequired)
    else if f.instructor == "" then Some(InstructorRequired)
    else if f.aircraft == "" then Some(AircraftRequired)
    else if f.exercise == "" then Some(ExerciseRequired)
    else if f.takeoffTime == "" then Some(TakeoffRequired)
    else if f.landingTime == "" then Some(LandingRequired)
    else if !MatchesClock(f.takeoffTime) then Some(TakeoffFormat)
    else if !MatchesClock(f.landingTime) then Some(LandingFormat)
    else if !CountValid(f.landingCount) then Some(CountTooLow)
    else None
  }

  /** The rules, in order, each true when the form keeps it. */
  function Rules(f: Form): (rules: seq<bool>)
    ensures |rules| == |Messages|
  {
    [ f.date != "", f.student != "", f.instructor != "", f.aircraft != "", f.exercise != "",
      f.takeoffTime != "", f.landingTime != "",
      MatchesClock(f.takeoffTime), MatchesClock(f.landingTime), CountValid(f.landingCount) ]
  }

  /** What a valid form is, independently of the order of the rules: all seven text fields
      filled in, both times of the `H:MM` shape, and a landing count `parseInt` reads as at
      least 1. */
  predicate Valid(f: Form) {
    && f.date != "" && f.student != "" && f.instructor != "" && f.aircraft != ""
    && f.exercise != "" && f.takeoffTime != "" && f.landingTime != ""
    && MatchesClock(f.takeoffTime) && MatchesClock(f.landingTime)
    && CountValid(f.landingCount)
  }

  /** `validate()` returns null exactly for valid forms. */
  lemma ValidateNoneIffValid(f: Form)
    ensures Validate(f) == None <==> Valid(f)
  {
  }

  /** Rule `k` is the first one the form breaks. */
  predicate FirstBroken(f: Form, k: nat)
    requires k < |Messages|
  {
    !Rules(f)[k] && forall j | 0 <= j < k :: Rules(f)[j]
  }

  /** The first broken rule decides the message. */
  lemma ValidateReportsFirstBroken(f: Form, k: nat)
    requires k < |Messages| && FirstBroken(f, k)
    ensures Validate(f) == Some(Messages[k])
  {
    var r := Rules(f);
    if k >= 1 { assert r[0]; }
    if k >= 2 { assert r[1]; }
    if k >= 3 { assert r[2]; }
    if k >= 4 { assert r[3]; }
    if k >= 5 { assert r[4]; }
    if k >= 6 { assert r[5]; }
    if k >= 7 { assert r[6]; }
    if k >= 8 { assert r[7]; }
    if k >= 9 { assert r[8]; }
  }

  /** Every message `validate` returns is that of the first broken rule. */
  lemma ValidateMessageIsFirstBroken(f: Form)
    requires Validate(f).Some?
    ensures exists k | 0 <= k < |Messages| :: FirstBroken(f, k) && Validate(f).value == Messages[k]
  {
    var r := Rules(f);
    var k := if !r[0] then 0 else if !r[1] then 1 else if !r[2] then 2 else if !r[3] then 3
      else if !r[4] then 4 else if !r[5] then 5 else if !r[6] then 6 else if !r[7] then 7
      else if !r[8] then 8 else 9;
    assert FirstBroken(f, k);
    ValidateReportsFirstBroken(f, k);
  }

  /** A form that is complete apart from its times, with `"99:99"` as both, validates. */
  lemma NinetyNineValidates(f: Form)
    requires f.date != "" && f.student != "" && f.instructor != "" && f.aircraft != ""
    requires f.exercise != "" && CountValid(f.landingCount)
    requires f.takeoffTime == "99:99" && f.landingTime == "99:99"
    ensures Validate(f) == None
  {
    NinetyNineMatches();
  }

  /** `flightType === 'solo' ? solo : dual` and `landingType === 'night' ? night : day`. */
  function FlightTypeOf(choice: string): (t: FlightType)
    ensures t == Solo <==> choice == "solo"
  {
    if choice == "solo" then Solo else Dual
  }

  function LandingTypeOf(choice: string): (t: LandingType)
    ensures t == Night <==> choice == "night"
  {
    if choice == "night" then Night else Day
  }

  /** The select values the edit dialog loads for a stored record's types. */
  function FlightChoice(t: FlightType): string {
    if t == Solo then "solo" else "dual"
  }

  function LandingChoice(t: LandingType): string {
    if t == Night then "night" else "day"
  }

  /** Loading a type into its select and mapping it back gives the type; mapping a select
      value and loading it back gives the value. */
  lemma ChoicesRoundTrip(t: FlightType, u: LandingType, choice: string, landing: string)
    ensures FlightTypeOf(FlightChoice(t)) == t && LandingTypeOf(LandingChoice(u)) == u
    ensures choice in {"solo", "dual"} ==> FlightChoice(FlightTypeOf(choice)) == choice
    ensures landing in {"day", "night"} ==> LandingChoice(LandingTypeOf(landing)) == landing
  {
  }

  /** The record both save handlers build from a valid form under the key `dateEpoch`: the
      texts as typed, the derived `totalFlightTime`, the mapped types and the parsed
      landing count. */
  function Record(f: Form, dateEpoch: int): (e: FlightEntry)
    requires Valid(f)
    ensures e.dateEpoch == dateEpoch && e.landingCount >= 1
  {
    FlightEntry(
      f.date, dateEpoch, f.student, f.instructor, f.aircraft, f.exercise,
      FlightTypeOf(f.flightType), f.takeoffTime, f.landingTime,
      FlightTime.CalcFlightTime(f.takeoffTime, f.landingTime),
      LandingTypeOf(f.landingType), ParseInt(f.landingCount).value)
  }

  /** The create page's record: keyed by the clock reading in milliseconds times 10^6, the
      nanoseconds the store keys records by. */
  function NewEntry(f: Form, nowMs: nat): (e: FlightEntry)
    requires Valid(f)
    ensures e.dateEpoch % 1_000_000 == 0 && e.dateEpoch / 1_000_000 == nowMs
    ensures e.landingCount >= 1
  {
    MillisToNanos(nowMs, nowMs * 1_000_000);
    Record(f, nowMs * 1_000_000)
  }

  /** A clock reading in milliseconds, scaled to nanoseconds, is a whole number of
      milliseconds and scales back. */
  lemma MillisToNanos(ms: nat, ns: int)
    requires ns == ms * 1_000_000
    ensures ns % 1_000_000 == 0 && ns / 1_000_000 == ms
  {
  }

  /** The edit dialog's record: the original's key, everything else from the form. */
  function UpdatedEntry(f: Form, original: FlightEntry): (e: FlightEntry)
    requires Valid(f)
    ensures e.dateEpoch == original.dateEpoch && e.landingCount >= 1
  {
    Record(f, original.dateEpoch)
  }

  /** The record carries the duration of the times it was built from and the landing count
      the form's text parses to, whatever its key. */
  lemma RecordDerivedFields(f: Form, key: int)
    requires Valid(f)
    ensures Record(f, key).totalFlightTime == ClockDuration(f.takeoffTime, f.landingTime)
    ensures FlightTime.Finite(Record(f, key).landingCount) == ParseInt(f.landingCount)
  {
    ValidTimesDuration(f.takeoffTime, f.landingTime);
  }

  /** The inputs the edit dialog loads for a record: its texts, its types as select values
      and its landing count as `String(n)`. */
  function LoadForm(e: FlightEntry): (f: Form)
    ensures ChoicesSet(f)
    ensures FlightTypeOf(f.flightType) == e.flightType && LandingTypeOf(f.landingType) == e.landingType
  {
    Form(e.date, e.student, e.instructor, e.aircraft, e.exercise, FlightChoice(e.flightType),
         e.takeoffTime, e.landingTime, LandingChoice(e.landingType), IntToString(e.landingCount))
  }

  /** Saving a loaded record without touching the inputs gives the record back, except that
      `totalFlightTime` is recomputed from its times. */
  lemma SaveUnchanged(e: FlightEntry)
    requires Valid(LoadForm(e))
    ensures UpdatedEntry(LoadForm(e), e)
            == e.(totalFlightTime := FlightTime.CalcFlightTime(e.takeoffTime, e.landingTime))
  {
    ChoicesRoundTrip(e.flightType, e.landingType, "", "");
    if e.landingCount >= 0 {
      ParseIntOfString(e.landingCount);
    } else {
      NegativeCountInvalid(e.landingCount);
      assert false;
    }
  }

  /** `String(n)` of a negative count reads back below 1. */
  lemma NegativeCountInvalid(n: int)
    requires n < 0
    ensures !CountValid(IntToString(n))
  {
    var s := IntToString(n);
    assert s[0] == '-';
    assert TrimStart(s) == s;
  }
}
