/** Flight-duration arithmetic: `calcFlightTime` turns a takeoff and a landing clock
    string into an elapsed `H:MM` string, with a landing earlier than the takeoff read as
    crossing midnight once. */
module FlightTime {
  import opened JsStrings
  import opened Options

  /** What JavaScript's `Number(s)` gives a string, as far as the model follows it. */
  datatype JsNumber = NaN | Finite(value: int)

  const MinutesPerDay := 24 * 60
  const Sentinel := "0:00"

  /** `Number(s)`: surrounding white space is ignored, the empty string is 0, and an
      optional sign followed by decimal digits is that integer. Every other text is NaN
      here (see the README for the JavaScript literals this leaves out). */
  function ToNumber(s: string): (n: JsNumber)
    ensures AllDigits(s) ==> n == Finite(DecimalValue(s))
  {
    assert AllDigits(s) ==> Trim(s) == s by {
      if AllDigits(s) {
        TrimDigits(s);
      }
    }
    NumericText(Trim(s))
  }

  /** `Number` of a string with no surrounding white space. */
  function NumericText(t: string): (n: JsNumber)
    ensures AllDigits(t) ==> n == Finite(DecimalValue(t))
  {
    if t == [] then Finite(0)
    else if t[0] == '-' && |t| > 1 && AllDigits(t[1..]) then Finite(-(DecimalValue(t[1..]) as int))
    else if t[0] == '+' && |t| > 1 && AllDigits(t[1..]) then Finite(DecimalValue(t[1..]))
    else if AllDigits(t) then Finite(DecimalValue(t))
    else NaN
  }

  /** `Number(String(n)) == n` for every non-negative integer. */
  lemma NumberOfString(n: nat)
    ensures ToNumber(IntToString(n)) == Finite(n)
  {
    assert IntToString(n) == NatToDecimal(n);
    DecimalRoundTrip(n);
  }

  /** The first two `:`-separated fields of a clock string, through `Number`; a missing
      second field is `undefined`, which is NaN for `isNaN`. */
  function ClockFields(s: string): (JsNumber, JsNumber) {
    var parts := Split(s, ':');
    (ToNumber(parts[0]), if |parts| >= 2 then ToNumber(parts[1]) else NaN)
  }

  /** JavaScript's `a % 60`: the sign of the remainder follows the dividend. */
  function JsRemainder60(a: int): (r: int)
    ensures a >= 0 ==> 0 <= r < 60
    ensures a < 0 ==> -60 < r <= 0
    ensures (a - r) % 60 == 0
  {
    if a >= 0 then a % 60 else -((-a) % 60)
  }

  /** `${Math.floor(m / 60)}:${String(m % 60).padStart(2, '0')}`. */
  function FormatDuration(total: int): string {
    IntToString(total / 60) + ":" + PadStart(IntToString(JsRemainder60(total)), 2, '0')
  }

  /** `calcFlightTime(takeoff, landing)`. */
  function CalcFlightTime(takeoff: string, landing: string): (r: string)
    ensures takeoff == "" || landing == "" ==> r == Sentinel
    ensures (|| ClockFields(takeoff).0.NaN? || ClockFields(takeoff).1.NaN?
             || ClockFields(landing).0.NaN? || ClockFields(landing).1.NaN?) ==> r == Sentinel
  {
    if takeoff == "" || landing == "" then Sentinel
    else
      var (th, tm) := ClockFields(takeoff);
      var (lh, lm) := ClockFields(landing);
      if th.NaN? || tm.NaN? || lh.NaN? || lm.NaN? then Sentinel
      else FormatDuration(ElapsedMinutes(th.value, tm.value, lh.value, lm.value))
  }

  /** The `totalMinutes` of `calcFlightTime`: landing minus takeoff, one day added once
      when that is negative. */
  function ElapsedMinutes(th: int, tm: int, lh: int, lm: int): (e: int)
    ensures e == FieldMinutes(lh, lm) - FieldMinutes(th, tm)
            || e == FieldMinutes(lh, lm) - FieldMinutes(th, tm) + MinutesPerDay
    ensures FieldMinutes(lh, lm) - FieldMinutes(th, tm) >= -MinutesPerDay ==> e >= 0
  {
    var totalMinutes := (lh * 60 + lm) - (th * 60 + tm);
    if totalMinutes < 0 then totalMinutes + MinutesPerDay else totalMinutes
  }

  /** Reads an `H:MM` duration back into minutes: hours as a canonical decimal, then
      exactly two digits of minutes below 60. */
  function ParseDuration(s: string): Option<nat> {
    var parts := Split(s, ':');
    if |parts| == 2 && Canonical(parts[0]) && |parts[1]| == 2 && AllDigits(parts[1])
       && DecimalValue(parts[1]) < 60
    then Some(DecimalValue(parts[0]) * 60 + DecimalValue(parts[1]))
    else None
  }

  /** A non-negative total formats as canonical hours, `:`, and two minute digits below
      60, and reading that back gives the total. */
  lemma FormatDurationRoundTrip(total: nat)
    ensures ParseDuration(FormatDuration(total)).Some?
    ensures ParseDuration(FormatDuration(total)).value == total
  {
    var h := NatToDecimal(total / 60);
    var m := PadStart(NatToDecimal(total % 60), 2, '0');
    assert FormatDuration(total) == h + ":" + m;
    MinutesField(total % 60);
    SplitPair(h, m);
    DecimalRoundTrip(total / 60);
    ParseFields(h + ":" + m, h, m, total / 60, total % 60);
  }

  lemma ParseFields(s: string, h: string, m: string, hours: nat, minutes: nat)
    requires Split(s, ':') == [h, m]
    requires Canonical(h) && |m| == 2 && AllDigits(m) && minutes < 60
    requires DecimalValue(h) == hours && DecimalValue(m) == minutes
    ensures ParseDuration(s).Some? && ParseDuration(s).value == hours * 60 + minutes
  {
    var parts := Split(s, ':');
    assert parts[0] == h && parts[1] == m && |parts| == 2;
  }

  /** The minutes of a duration, padded to two digits, read back as themselves. */
  lemma MinutesField(n: nat)
    requires n < 60
    ensures var m := PadStart(NatToDecimal(n), 2, '0');
            |m| == 2 && AllDigits(m) && DecimalValue(m) == n
  {
    var digits := NatToDecimal(n);
    var m := PadStart(digits, 2, '0');
    if n < 10 {
      assert m == ['0', DigitChar(n)];
      assert m[..1] == ['0'] && ['0'][..0] == [];
      assert DecimalValue(m) == DecimalValue(['0']) * 10 + DigitValue(m[1]);
    } else {
      assert digits == NatToDecimal(n / 10) + [DigitChar(n % 10)];
      assert m == digits;
      DecimalRoundTrip(n);
    }
  }

  lemma SplitPair(a: string, b: string)
    requires ':' !in a && ':' !in b
    ensures Split(a + ":" + b, ':') == [a, b]
  {
    JoinPair(a, b);
    JoinSplit([a, b], ':');
  }

  lemma JoinPair(a: string, b: string)
    requires ':' !in a && ':' !in b
    ensures a + ":" + b == Join([a, b], ':')
    ensures forall k | 0 <= k < |[a, b]| :: ':' !in [a, b][k]
  {
    assert [a, b][1..] == [b];
  }

  /** The minutes since midnight of a clock time with these hours and minutes. */
  function FieldMinutes(hours: int, minutes: int): int {
    hours * 60 + minutes
  }

  lemma DigitFields(hours: string, minutes: string)
    requires AllDigits(hours) && AllDigits(minutes)
    ensures ClockFields(hours + ":" + minutes)
         == (Finite(DecimalValue(hours)), Finite(DecimalValue(minutes)))
  {
    assert ':' !in hours && ':' !in minutes;
    SplitPair(hours, minutes);
  }

  /** Times whose fields are digit strings (what the forms' `HH:MM` check admits, and
      more): the result is the landing minus the takeoff minutes, plus one day when that
      is negative, with no range check on either field. */
  lemma {:induction false} DurationOfDigitTimes(th: string, tm: string, lh: string, lm: string)
    requires AllDigits(th) && AllDigits(tm) && AllDigits(lh) && AllDigits(lm)
    ensures CalcFlightTime(th + ":" + tm, lh + ":" + lm)
            == FormatDuration(ElapsedMinutes(DecimalValue(th), DecimalValue(tm),
                                             DecimalValue(lh), DecimalValue(lm)))
  {
    var t := th + ":" + tm;
    var l := lh + ":" + lm;
    DigitFields(th, tm);
    DigitFields(lh, lm);
    assert t != "" && l != "";
    CalcOfNumbers(t, l, DecimalValue(th), DecimalValue(tm), DecimalValue(lh), DecimalValue(lm));
  }

  lemma CalcOfNumbers(t: string, l: string, th: int, tm: int, lh: int, lm: int)
    requires t != "" && l != ""
    requires ClockFields(t) == (Finite(th), Finite(tm)) && ClockFields(l) == (Finite(lh), Finite(lm))
    ensures CalcFlightTime(t, l) == FormatDuration(ElapsedMinutes(th, tm, lh, lm))
  {
  }

  /** Clock times of one day (hours below 24, minutes below 60): reading the result back
      gives the landing minus the takeoff modulo one day: below 1440, exactly the difference
      when the landing is not earlier, and the difference plus one day when it is. */
  lemma ClockTimesGiveElapsedModuloDay(th: string, tm: string, lh: string, lm: string)
    requires AllDigits(th) && AllDigits(tm) && AllDigits(lh) && AllDigits(lm)
    requires DecimalValue(th) < 24 && DecimalValue(tm) < 60
    requires DecimalValue(lh) < 24 && DecimalValue(lm) < 60
    ensures ParseDuration(CalcFlightTime(th + ":" + tm, lh + ":" + lm)).Some?
    ensures ParseDuration(CalcFlightTime(th + ":" + tm, lh + ":" + lm)).value < MinutesPerDay
    ensures FieldMinutes(DecimalValue(lh), DecimalValue(lm)) >= FieldMinutes(DecimalValue(th), DecimalValue(tm))
            ==> ParseDuration(CalcFlightTime(th + ":" + tm, lh + ":" + lm)).value
                == FieldMinutes(DecimalValue(lh), DecimalValue(lm)) - FieldMinutes(DecimalValue(th), DecimalValue(tm))
    ensures FieldMinutes(DecimalValue(lh), DecimalValue(lm)) < FieldMinutes(DecimalValue(th), DecimalValue(tm))
            ==> ParseDuration(CalcFlightTime(th + ":" + tm, lh + ":" + lm)).value
                == FieldMinutes(DecimalValue(lh), DecimalValue(lm)) - FieldMinutes(DecimalValue(th), DecimalValue(tm))
                   + MinutesPerDay
  {
    ParsedElapsed(th, tm, lh, lm);
    ElapsedWithinDay(DecimalValue(th), DecimalValue(tm), DecimalValue(lh), DecimalValue(lm));
  }

  lemma ParsedElapsed(th: string, tm: string, lh: string, lm: string)
    requires AllDigits(th) && AllDigits(tm) && AllDigits(lh) && AllDigits(lm)
    requires DecimalValue(th) < 24 && DecimalValue(tm) < 60
    requires DecimalValue(lh) < 24 && DecimalValue(lm) < 60
    ensures ParseDuration(CalcFlightTime(th + ":" + tm, lh + ":" + lm))
            == Some(ElapsedMinutes(DecimalValue(th), DecimalValue(tm), DecimalValue(lh), DecimalValue(lm)))
  {
    DurationOfDigitTimes(th, tm, lh, lm);
    var elapsed := ElapsedMinutes(DecimalValue(th), DecimalValue(tm), DecimalValue(lh), DecimalValue(lm));
    ElapsedWithinDay(DecimalValue(th), DecimalValue(tm), DecimalValue(lh), DecimalValue(lm));
    FormatDurationRoundTrip(elapsed);
  }

  /** For clock times of one day the elapsed minutes are the difference modulo a day. */
  lemma ElapsedWithinDay(th: nat, tm: nat, lh: nat, lm: nat)
    requires th < 24 && tm < 60 && lh < 24 && lm < 60
    ensures 0 <= ElapsedMinutes(th, tm, lh, lm) < MinutesPerDay
    ensures ElapsedMinutes(th, tm, lh, lm) == (FieldMinutes(lh, lm) - FieldMinutes(th, tm)) % MinutesPerDay
    ensures FieldMinutes(lh, lm) >= FieldMinutes(th, tm)
            ==> ElapsedMinutes(th, tm, lh, lm) == FieldMinutes(lh, lm) - FieldMinutes(th, tm)
    ensures FieldMinutes(lh, lm) < FieldMinutes(th, tm)
            ==> ElapsedMinutes(th, tm, lh, lm) == FieldMinutes(lh, lm) - FieldMinutes(th, tm) + MinutesPerDay
  {
  }

  /** Equal times give the sentinel-looking "0:00", as a genuine zero duration. */
  lemma EqualTimesGiveZero(h: string, m: string)
    requires AllDigits(h) && AllDigits(m)
    ensures CalcFlightTime(h + ":" + m, h + ":" + m) == "0:00"
  {
    DurationOfDigitTimes(h, m, h, m);
    NoTimeElapsed(DecimalValue(h), DecimalValue(m));
  }

  lemma NoTimeElapsed(h: nat, m: nat)
    ensures FormatDuration(ElapsedMinutes(h, m, h, m)) == "0:00"
  {
    assert ElapsedMinutes(h, m, h, m) == 0;
    FormattedAs(0, "0", "00");
  }

  /** `FormatDuration(total)` spelled out for a total whose hours and minutes are given. */
  lemma FormattedAs(total: int, hours: string, minutes: string)
    requires IntToString(total / 60) == hours
    requires PadStart(IntToString(JsRemainder60(total)), 2, '0') == minutes
    ensures FormatDuration(total) == hours + ":" + minutes
  {
  }

  /** Crossing midnight adds one day once: 23:30 to 00:15 is 45 minutes. */
  lemma MidnightCrossing()
    ensures CalcFlightTime("23:30", "00:15") == "0:45"
  {
    MidnightCrossingFields();
    MidnightCrossingFormat();
    DurationOfDigitTimes("23", "30", "00", "15");
    assert ElapsedMinutes(23, 30, 0, 15) == 45;
  }

  lemma MidnightCrossingFields()
    ensures "23:30" == "23" + ":" + "30" && "00:15" == "00" + ":" + "15"
    ensures AllDigits("23") && AllDigits("30") && AllDigits("00") && AllDigits("15")
    ensures DecimalValue("23") == 23 && DecimalValue("30") == 30
    ensures DecimalValue("00") == 0 && DecimalValue("15") == 15
  {
  }

  lemma MidnightCrossingFormat()
    ensures FormatDuration(45) == "0:45"
  {
    assert IntToString(45 / 60) == "0";
    assert PadStart(IntToString(JsRemainder60(45)), 2, '0') == "45";
    FormattedAs(45, "0", "45");
  }

  /** A one-digit minute field is not rejected: "9:5" is 9:05. */
  lemma SingleDigitMinutesAccepted()
    ensures CalcFlightTime("9:5", "10:00") == "0:55"
  {
    SingleDigitMinutesAcceptedFields();
    SingleDigitMinutesAcceptedFormat();
    DurationOfDigitTimes("9", "5", "10", "00");
    assert ElapsedMinutes(9, 5, 10, 0) == 55;
  }

  lemma SingleDigitMinutesAcceptedFields()
    ensures "9:5" == "9" + ":" + "5" && "10:00" == "10" + ":" + "00"
    ensures AllDigits("9") && AllDigits("5") && AllDigits("10") && AllDigits("00")
    ensures DecimalValue("9") == 9 && DecimalValue("5") == 5
    ensures DecimalValue("10") == 10 && DecimalValue("00") == 0
  {
  }

  lemma SingleDigitMinutesAcceptedFormat()
    ensures FormatDuration(55) == "0:55"
  {
    assert IntToString(55 / 60) == "0";
    assert PadStart(IntToString(JsRemainder60(55)), 2, '0') == "55";
    FormattedAs(55, "0", "55");
  }

  /** An empty minutes field is `Number("") == 0`, not NaN: "12:" reads as 12:00. */
  lemma EmptyMinutesFieldIsZero()
    ensures CalcFlightTime("12:", "13:30") == "1:30"
  {
    EmptyMinutesFieldIsZeroFields();
    EmptyMinutesFieldIsZeroFormat();
    DurationOfDigitTimes("12", "", "13", "30");
    assert ElapsedMinutes(12, 0, 13, 30) == 90;
  }

  lemma EmptyMinutesFieldIsZeroFields()
    ensures "12:" == "12" + ":" + "" && "13:30" == "13" + ":" + "30"
    ensures AllDigits("12") && AllDigits("") && AllDigits("13") && AllDigits("30")
    ensures DecimalValue("12") == 12 && DecimalValue("") == 0
    ensures DecimalValue("13") == 13 && DecimalValue("30") == 30
  {
  }

  lemma EmptyMinutesFieldIsZeroFormat()
    ensures FormatDuration(90) == "1:30"
  {
    assert IntToString(90 / 60) == "1";
    assert PadStart(IntToString(JsRemainder60(90)), 2, '0') == "30";
    FormattedAs(90, "1", "30");
  }

  /** No range check: 0:00 to 99:99 is 6039 minutes, more than a day. */
  lemma OutOfRangeExceedsDay()
    ensures CalcFlightTime("0:00", "99:99") == "100:39"
  {
    OutOfRangeExceedsDayFields();
    DurationOfDigitTimes("0", "00", "99", "99");
    OutOfRangeExceedsDayFormat(ElapsedMinutes(0, 0, 99, 99));
  }

  lemma OutOfRangeExceedsDayFields()
    ensures "0:00" == "0" + ":" + "00" && "99:99" == "99" + ":" + "99"
    ensures AllDigits("0") && AllDigits("00") && AllDigits("99") && AllDigits("99")
    ensures DecimalValue("0") == 0 && DecimalValue("00") == 0
    ensures DecimalValue("99") == 99 && DecimalValue("99") == 99
  {
  }

  lemma OutOfRangeExceedsDayFormat(total: int)
    requires total == 6039
    ensures FormatDuration(total) == "100:39"
  {
    OutOfRangeExceedsDayParts(total);
    HundredAndThirtyNine("100", "39");
  }

  lemma OutOfRangeExceedsDayParts(total: int)
    requires total == 6039
    ensures FormatDuration(total) == "100" + ":" + "39"
  {
    assert total / 60 == 100 && JsRemainder60(total) == 39;
    HundredText();
    ThirtyNineText();
    FormattedAs(total, "100", "39");
  }

  lemma HundredAndThirtyNine(hours: string, minutes: string)
    requires hours == "100" && minutes == "39"
    ensures hours + ":" + minutes == "100:39"
  {
  }

  lemma HundredText()
    ensures IntToString(100) == "100"
  {
    assert NatToDecimal(1) == "1";
    assert NatToDecimal(10) == "10";
  }

  lemma ThirtyNineText()
    ensures PadStart(IntToString(39), 2, '0') == "39"
  {
    assert NatToDecimal(3) == "3";
    assert NatToDecimal(39) == "39";
  }

  /** No range check: 99:99 to 0:00 stays negative after the single added day, and the
      JavaScript remainder makes both fields negative. */
  lemma OutOfRangeStaysNegative()
    ensures CalcFlightTime("99:99", "0:00") == "-77:-39"
  {
    OutOfRangeStaysNegativeFields();
    OutOfRangeStaysNegativeFormat();
    DurationOfDigitTimes("99", "99", "0", "00");
    assert ElapsedMinutes(99, 99, 0, 0) == -4599;
  }

  lemma OutOfRangeStaysNegativeFields()
    ensures "99:99" == "99" + ":" + "99" && "0:00" == "0" + ":" + "00"
    ensures AllDigits("99") && AllDigits("99") && AllDigits("0") && AllDigits("00")
    ensures DecimalValue("99") == 99 && DecimalValue("99") == 99
    ensures DecimalValue("0") == 0 && DecimalValue("00") == 0
  {
  }

  lemma OutOfRangeStaysNegativeFormat()
    ensures FormatDuration(-4599) == "-77:-39"
  {
    assert IntToString(-4599 / 60) == "-77";
    assert PadStart(IntToString(JsRemainder60(-4599)), 2, '0') == "-39";
    FormattedAs(-4599, "-77", "-39");
  }
}
