/**
 * The garage forms of the frontend (routes AddGarage.tsx and EditGarage.tsx, which share their
 * validators and time helpers): field validation, the validate-all loop, the charging-station
 * list handlers and the request a submit sends. A validator answers with a translation key, or
 * "" when the value passes; translation itself is not modelled. A numeric field is given as what
 * `Number` makes of it, None standing for NaN.
 */
module GarageForms {
  import opened Wrappers
  import opened Text
  import GaragesRoute

  const NameRequired := "route_add_garage.errors.name_required"
  const SpotsNegative := "route_add_garage.errors.number_parking_spots_positive"
  const PriceNegative := "route_add_garage.errors.price_per_hour_positive"
  const OpeningInvalid := "route_add_garage.errors.opening_time_invalid"
  const ClosingInvalid := "route_add_garage.errors.closing_time_invalid"
  const ClosingNotAfterOpening := "route_add_garage.errors.closing_after_opening"

  /** `/^(\d{1,2}):(\d{2})$/`: one or two digits, a colon, two digits, nothing else. */
  predicate TimeFormat(t: string) {
    || (|t| == 4 && IsDigit(t[0]) && t[1] == ':' && IsDigit(t[2]) && IsDigit(t[3]))
    || (|t| == 5 && IsDigit(t[0]) && IsDigit(t[1]) && t[2] == ':' && IsDigit(t[3]) && IsDigit(t[4]))
  }

  /** The hours part of a well-formed time. */
  function HoursPart(t: string): nat
    requires TimeFormat(t)
  {
    DecimalValue(t[..|t| - 3])
  }

  /** The minutes part of a well-formed time. */
  function MinutesPart(t: string): nat
    requires TimeFormat(t)
  {
    DecimalValue(t[|t| - 2..])
  }

  /**
   * `Number(s)` for the text of a time part: white space around it is ignored, the empty string
   * is 0, and an optionally signed run of decimal digits is its value. Anything else is NaN
   * (None); fractions, exponents and the other numeric literals `Number` reads are not modelled.
   */
  function NumberOf(s: string): Option<int> {
    var t := Trim(s);
    if t == [] then Some(0)
    else
      var u := if t[0] == '-' || t[0] == '+' then t[1..] else t;
      if u == [] || !AllDigits(u) then None
      else if t[0] == '-' then Some(-(DecimalValue(u) as int))
      else Some(DecimalValue(u))
  }

  /** The text before the first ':' of `s`, or all of it. */
  function FirstPart(s: string): string {
    var k := IndexOf(s, ':');
    if k == -1 then s else s[..k]
  }

  /** `hours * 60 + minutes` on numbers that may be NaN (None). */
  function Minutes(hours: Option<int>, minutes: Option<int>): (m: Option<int>)
    ensures m.Some? <==> hours.Some? && minutes.Some?
  {
    if hours.None? || minutes.None? then None else Some(hours.value * 60 + minutes.value)
  }

  /**
   * `convertToMinutes`: `time.split(":").map(Number)` gives the hours and the minutes as the
   * first two parts, whatever follows them; hours times sixty plus minutes. Without a ':' the
   * minutes are undefined, and NaN (None) results, as it does when either part is NaN.
   */
  function ConvertToMinutes(t: string): (m: Option<int>)
    ensures ':' !in t ==> m.None?
  {
    var k := IndexOf(t, ':');
    if k == -1 then None else Minutes(NumberOf(t[..k]), NumberOf(FirstPart(t[k + 1..])))
  }

  /** A digit string is read by `Number` as the number it writes. */
  lemma NumberOfDigits(d: string)
    requires d != [] && AllDigits(d)
    ensures NumberOf(d) == Some(DecimalValue(d) as int)
  {
    TrimNoSpace(d);
  }

  /** Empty text, or text of white space only, is read by `Number` as zero. */
  lemma NumberOfBlank(s: string)
    requires Trim(s) == []
    ensures NumberOf(s) == Some(0)
  {
  }

  /** A run of digits holds neither a ':' nor white space. */
  lemma DigitsOnly(d: string)
    requires AllDigits(d)
    ensures ':' !in d && ' ' !in d
  {
  }

  /** A well-formed time is its two digit runs around its ':', each read as the number it writes. */
  lemma FormatParts(t: string) returns (h: string, m: string)
    requires TimeFormat(t)
    ensures t == h + ":" + m && ':' !in h && ':' !in m
    ensures NumberOf(h) == Some(HoursPart(t)) && NumberOf(m) == Some(MinutesPart(t))
  {
    h, m := t[..|t| - 3], t[|t| - 2..];
    assert t == h + ":" + m;
    DigitsOnly(h);
    DigitsOnly(m);
    NumberOfDigits(h);
    NumberOfDigits(m);
  }

  /** On the format `isValidTime` demands, the conversion is hours times sixty plus minutes. */
  lemma ConvertFormatted(t: string)
    requires TimeFormat(t)
    ensures ConvertToMinutes(t) == Some(HoursPart(t) * 60 + MinutesPart(t))
  {
    var h, m := FormatParts(t);
    ConvertJoined(t, h, m, HoursPart(t), MinutesPart(t));
  }

  /** Two parts joined by a ':' convert by their numbers. */
  lemma ConvertJoined(t: string, h: string, m: string, hours: int, minutes: int)
    requires t == h + ":" + m && ':' !in h && ':' !in m
    requires NumberOf(h) == Some(hours) && NumberOf(m) == Some(minutes)
    ensures ConvertToMinutes(t) == Some(hours * 60 + minutes)
  {
    FirstPartWhole(m);
    ConvertParts(h, m, hours, minutes);
  }

  /**
   * `isValidTime`: the format holds and the minutes count lies within one day. On the format
   * the count is never negative and is hours times sixty plus minutes (ValidTimeConverts).
   */
  function IsValidTime(t: string): (ok: bool)
    ensures ok ==> TimeFormat(t) && HoursPart(t) < 24
  {
    TimeFormat(t) && HoursPart(t) * 60 + MinutesPart(t) < 24 * 60
  }

  /** The validator as the source states it: the format, then the converted count within a day. */
  lemma ValidTimeConverts(t: string)
    ensures IsValidTime(t) <==> TimeFormat(t) && ConvertToMinutes(t).Some? && 0 <= ConvertToMinutes(t).value < 24 * 60
  {
    if TimeFormat(t) {
      ConvertFormatted(t);
    }
  }

  /** JavaScript `a >= b` on numbers that may be NaN (None): false whenever either is NaN. */
  predicate AtLeast(a: Option<int>, b: Option<int>) {
    a.Some? && b.Some? && a.value >= b.value
  }

  /** Two digits for a number below one hundred. */
  function TwoDigits(n: nat): (s: string)
    requires n < 100
    ensures |s| == 2 && IsDigit(s[0]) && IsDigit(s[1])
  {
    [('0' as int + n / 10) as char, ('0' as int + n % 10) as char]
  }

  lemma TwoDigitsValue(n: nat)
    requires n < 100
    ensures DecimalValue(TwoDigits(n)) == n
  {
    var s := TwoDigits(n);
    assert s[..1][..0] == [];
    assert DecimalValue(s[..1]) == n / 10;
  }

  /** A clock reading "HH:MM" with any two-digit parts. */
  function Clock(h: nat, m: nat): string
    requires h < 100 && m < 100
  {
    TwoDigits(h) + ":" + TwoDigits(m)
  }

  /**
   * Every two-digit reading converts back to its minutes, and it is valid exactly when that
   * count is below a day: a minutes part of sixty or more is not rejected by itself.
   */
  lemma ClockRoundTrip(h: nat, m: nat)
    requires h < 100 && m < 100
    ensures TimeFormat(Clock(h, m)) && HoursPart(Clock(h, m)) == h && MinutesPart(Clock(h, m)) == m
    ensures IsValidTime(Clock(h, m)) <==> h * 60 + m < 24 * 60
  {
    var t := Clock(h, m);
    assert t[..2] == TwoDigits(h) && t[3..] == TwoDigits(m);
    TwoDigitsValue(h);
    TwoDigitsValue(m);
  }

  /** A two-digit reading converts to its minutes. */
  lemma ClockConverts(h: nat, m: nat)
    requires h < 100 && m < 100
    ensures ConvertToMinutes(Clock(h, m)) == Some(h * 60 + m)
  {
    ClockRoundTrip(h, m);
    ConvertFormatted(Clock(h, m));
  }

  /** The readings that mark the edges of the rule. */
  lemma TimeEdges()
    ensures IsValidTime("12:75")
    ensures !IsValidTime("24:00") && IsValidTime("23:59") && IsValidTime("6:00")
    ensures !IsValidTime("6:0") && !IsValidTime("123:00")
  {
    ClockRoundTrip(12, 75);
    ClockRoundTrip(24, 0);
    ClockRoundTrip(23, 59);
    assert "12:75" == Clock(12, 75);
    assert "24:00" == Clock(24, 0);
    assert "23:59" == Clock(23, 59);
    SixOClock();
  }

  lemma SixOClock()
    ensures IsValidTime("6:00")
  {
    var six := "6:00";
    assert six[..|six| - 3] == ['6'];
    assert ['6'][..0] == [];
    assert HoursPart(six) == 6;
    assert six[2..] == TwoDigits(0);
    TwoDigitsValue(0);
  }

  /** The name must not be empty. */
  function NameError(v: string): (e: string)
    ensures e == "" <==> |v| >= 1
  {
    if |v| < 1 then NameRequired else ""
  }

  /** Parking spots: only a negative number is refused; NaN passes, since `NaN < 0` is false. */
  function SpotsError(v: Option<real>): (e: string)
    ensures e == "" <==> v.None? || v.value >= 0.0
  {
    if v.Some? && v.value < 0.0 then SpotsNegative else ""
  }

  /** Price per hour: only a negative number is refused, so zero passes. */
  function PriceError(v: Option<real>): (e: string)
    ensures e == "" <==> v.None? || v.value >= 0.0
  {
    if v.Some? && v.value < 0.0 then PriceNegative else ""
  }

  function OpeningTimeError(v: string): (e: string)
    ensures e == "" <==> IsValidTime(v)
  {
    if !IsValidTime(v) then OpeningInvalid else ""
  }

  /**
   * The closing time must be valid and come strictly after the form's opening time, both read
   * by the conversion. An opening time that converts to NaN compares false, and the closing
   * time then passes.
   */
  function ClosingTimeError(opening: string, v: string): (e: string)
    ensures e == "" <==> IsValidTime(v) && !AtLeast(ConvertToMinutes(opening), ConvertToMinutes(v))
    ensures e == ClosingNotAfterOpening <==> IsValidTime(v) && AtLeast(ConvertToMinutes(opening), ConvertToMinutes(v))
  {
    if !IsValidTime(v) then ClosingInvalid
    else if AtLeast(ConvertToMinutes(opening), ConvertToMinutes(v)) then ClosingNotAfterOpening
    else ""
  }

  /** Splitting at the first ':' of a reading whose hours part holds none. */
  lemma SplitAt(h: string, rest: string)
    requires ':' !in h
    ensures var t := h + ":" + rest;
      IndexOf(t, ':') == |h| && t[..|h|] == h && t[|h| + 1..] == rest
  {
    IndexOfAfter(h, ":" + rest, ':');
    assert h + ":" + rest == h + (":" + rest);
  }

  /** A reading is converted from its text before the first ':' and the part after it. */
  lemma ConvertSplit(h: string, rest: string)
    requires ':' !in h
    ensures ConvertToMinutes(h + ":" + rest) == Minutes(NumberOf(h), NumberOf(FirstPart(rest)))
  {
    SplitAt(h, rest);
  }

  lemma MinutesOfNumbers(hours: Option<int>, minutes: Option<int>, h: int, m: int)
    requires hours == Some(h) && minutes == Some(m)
    ensures Minutes(hours, minutes) == Some(h * 60 + m)
  {
  }

  /** A reading converts by its first two parts read as numbers. */
  lemma ConvertParts(h: string, rest: string, hours: int, minutes: int)
    requires ':' !in h
    requires NumberOf(h) == Some(hours) && NumberOf(FirstPart(rest)) == Some(minutes)
    ensures ConvertToMinutes(h + ":" + rest) == Some(hours * 60 + minutes)
  {
    ConvertSplit(h, rest);
    MinutesOfNumbers(NumberOf(h), NumberOf(FirstPart(rest)), hours, minutes);
  }

  /** A part with no ':' is its own first part. */
  lemma FirstPartWhole(m: string)
    requires ':' !in m
    ensures FirstPart(m) == m
  {
  }

  /** Parts after the second are dropped, whatever they hold: "12:00:00" converts as "12:00". */
  lemma ExtraPartsIgnored(h: string, m: string, tail: string, hours: int, minutes: int)
    requires ':' !in h && ':' !in m
    requires NumberOf(h) == Some(hours) && NumberOf(m) == Some(minutes)
    ensures ConvertToMinutes(h + ":" + m + ":" + tail) == Some(hours * 60 + minutes)
  {
    var rest := m + ":" + tail;
    SplitAt(m, tail);
    assert h + ":" + m + ":" + tail == h + ":" + rest;
    ConvertParts(h, rest, hours, minutes);
  }

  /** An empty minutes part reads as zero: "6:" converts as six hours. */
  lemma EmptyMinutesZero(h: string, hours: int)
    requires ':' !in h && NumberOf(h) == Some(hours)
    ensures ConvertToMinutes(h + ":") == Some(hours * 60)
  {
    EmptyMinutesSplit(h, hours);
    assert h + ":" + [] == h + ":";
  }

  lemma EmptyMinutesSplit(h: string, hours: int)
    requires ':' !in h && NumberOf(h) == Some(hours)
    ensures ConvertToMinutes(h + ":" + []) == Some(hours * 60)
  {
    NumberOfEmpty();
    ConvertParts(h, [], hours, 0);
  }

  /** Empty text is its own first part and is read by `Number` as zero. */
  lemma NumberOfEmpty()
    ensures FirstPart([]) == [] && NumberOf([]) == Some(0)
  {
  }

  /** A run of digits with a space before it is read as the digits. */
  lemma LeadingSpaceRead(d: string)
    requires d != [] && AllDigits(d)
    ensures NumberOf(" " + d) == Some(DecimalValue(d) as int) && ':' !in " " + d
  {
    DigitsOnly(d);
    TrimNoSpace(d);
    var before := " " + d;
    assert before[1..] == d;
    assert TrimStart(before) == d;
    NumberOfDigits(d);
  }

  /** A run of digits with a space after it is read as the digits. */
  lemma TrailingSpaceRead(d: string)
    requires d != [] && AllDigits(d)
    ensures NumberOf(d + " ") == Some(DecimalValue(d) as int) && ':' !in d + " "
  {
    DigitsOnly(d);
    TrimNoSpace(d);
    var after := d + " ";
    assert after[..|after| - 1] == d;
    assert TrimStart(after) == after;
    NumberOfDigits(d);
  }

  /**
   * An opening time with seconds, which the format refuses, is still read by the conversion and
   * still orders the closing time: "12:00:00" before "10:00" is refused as not after opening.
   */
  lemma SecondsOpeningOrdersClosing(t: string, secs: string, v: string)
    requires TimeFormat(t) && IsValidTime(v)
    ensures !TimeFormat(t + ":" + secs)
    ensures ClosingTimeError(t + ":" + secs, v) == "" <==> HoursPart(t) * 60 + MinutesPart(t) < HoursPart(v) * 60 + MinutesPart(v)
  {
    SecondsDropped(t, secs);
    ConvertFormatted(t);
    ConvertFormatted(v);
  }

  /** A well-formed time with a further part converts as the time alone. */
  lemma SecondsDropped(t: string, secs: string)
    requires TimeFormat(t)
    ensures ConvertToMinutes(t + ":" + secs) == ConvertToMinutes(t)
  {
    var h, m := FormatSplit(t);
    PartDropped(t, secs, h, m);
  }

  /** A well-formed time is two parts without a ':' joined by one. */
  lemma FormatSplit(t: string) returns (h: string, m: string)
    requires TimeFormat(t)
    ensures t == h + ":" + m && ':' !in h && ':' !in m
  {
    h, m := t[..|t| - 3], t[|t| - 2..];
    assert t == h + ":" + m;
    DigitsOnly(h);
    DigitsOnly(m);
  }

  /** A third part after two ':'-free parts does not change the conversion. */
  lemma PartDropped(t: string, secs: string, h: string, m: string)
    requires t == h + ":" + m && ':' !in h && ':' !in m
    ensures ConvertToMinutes(t + ":" + secs) == ConvertToMinutes(t)
  {
    SplitAt(m, secs);
    assert t + ":" + secs == h + ":" + (m + ":" + secs);
    ConvertSplit(h, m + ":" + secs);
    ConvertSplit(h, m);
    FirstPartWhole(m);
  }

  /** The fields the validators read, shared by both forms. */
  datatype GarageFields = GarageFields(
    name: string, isOpen: bool, numberParkingSpots: Option<real>, pricePerHour: Option<real>,
    openingTime: string, closingTime: string)

  datatype StationInput = StationInput(name: string, chargingSpeedInKw: real, pricePerKwh: real)

  /** The keys of the form data, in the order `for ... in` visits them. */
  datatype FormKey = Name | IsOpen | NumberParkingSpots | PricePerHour | OpeningTime | ClosingTime | ChargingStations

  const AddGarageKeys: seq<FormKey> := [Name, IsOpen, NumberParkingSpots, PricePerHour, OpeningTime, ClosingTime, ChargingStations]
  const EditGarageKeys: seq<FormKey> := [Name, IsOpen, NumberParkingSpots, PricePerHour, OpeningTime, ClosingTime]

  /** The keys the validation map has an entry for. */
  predicate HasValidator(k: FormKey) {
    k != IsOpen && k != ChargingStations
  }

  /** The validator's answer for a key, or None for a key without a validator. */
  function Check(f: GarageFields, k: FormKey): (r: Option<string>)
    ensures r.Some? <==> HasValidator(k)
  {
    match k
    case Name => Some(NameError(f.name))
    case NumberParkingSpots => Some(SpotsError(f.numberParkingSpots))
    case PricePerHour => Some(PriceError(f.pricePerHour))
    case OpeningTime => Some(OpeningTimeError(f.openingTime))
    case ClosingTime => Some(ClosingTimeError(f.openingTime, f.closingTime))
    case _ => None
  }

  /** Every validated field passes. */
  predicate AllValid(f: GarageFields) {
    && NameError(f.name) == "" && SpotsError(f.numberParkingSpots) == "" && PriceError(f.pricePerHour) == ""
    && OpeningTimeError(f.openingTime) == "" && ClosingTimeError(f.openingTime, f.closingTime) == ""
  }

  /** No validated key in the list reports an error. */
  predicate KeysPass(f: GarageFields, keys: seq<FormKey>) {
    forall i :: 0 <= i < |keys| && Check(f, keys[i]).Some? ==> Check(f, keys[i]).value == ""
  }

  lemma KeysPassStep(f: GarageFields, keys: seq<FormKey>, x: FormKey)
    ensures KeysPass(f, keys + [x]) <==> KeysPass(f, keys) && (Check(f, x).Some? ==> Check(f, x).value == "")
  {
    assert forall i :: 0 <= i < |keys| ==> (keys + [x])[i] == keys[i];
    assert (keys + [x])[|keys|] == x;
  }

  datatype FormErrors = FormErrors(
    name: string, numberParkingSpots: string, pricePerHour: string, openingTime: string, closingTime: string)

  const NoErrors := FormErrors("", "", "", "", "")

  function ErrorOf(errors: FormErrors, k: FormKey): string {
    match k
    case Name => errors.name
    case NumberParkingSpots => errors.numberParkingSpots
    case PricePerHour => errors.pricePerHour
    case OpeningTime => errors.openingTime
    case ClosingTime => errors.closingTime
    case _ => ""
  }

  function WithError(errors: FormErrors, k: FormKey, e: string): (r: FormErrors)
    ensures HasValidator(k) ==> ErrorOf(r, k) == e
    ensures forall j :: j != k ==> ErrorOf(r, j) == ErrorOf(errors, j)
  {
    match k
    case Name => errors.(name := e)
    case NumberParkingSpots => errors.(numberParkingSpots := e)
    case PricePerHour => errors.(pricePerHour := e)
    case OpeningTime => errors.(openingTime := e)
    case ClosingTime => errors.(closingTime := e)
    case _ => errors
  }

  /** The error recorded for a key once the keys `ks` have been visited. */
  function Recorded(f: GarageFields, ks: seq<FormKey>, k: FormKey): string {
    if k in ks && HasValidator(k) then Check(f, k).value else ""
  }

  lemma RecordedStep(f: GarageFields, ks: seq<FormKey>, x: FormKey, k: FormKey)
    ensures Recorded(f, ks + [x], k) == if k == x && HasValidator(k) then Check(f, k).value else Recorded(f, ks, k)
  {
    assert k in ks + [x] <==> k in ks || k == x;
  }

  /**
   * `validateAllFields`: runs each key's validator, records its answer, and is true exactly when
   * no validated key reports an error. Keys without a validator are skipped.
   */
  method ValidateAllFields(f: GarageFields, keys: seq<FormKey>) returns (isValid: bool, errors: FormErrors)
    ensures isValid <==> KeysPass(f, keys)
    ensures forall k :: ErrorOf(errors, k) == Recorded(f, keys, k)
  {
    errors := NoErrors;
    isValid := true;
    for i := 0 to |keys|
      invariant isValid <==> KeysPass(f, keys[..i])
      invariant forall k :: ErrorOf(errors, k) == Recorded(f, keys[..i], k)
    {
      assert keys[..i + 1] == keys[..i] + [keys[i]];
      KeysPassStep(f, keys[..i], keys[i]);
      var check := Check(f, keys[i]);
      if check.Some? {
        var error := check.value;
        if error != "" {
          isValid := false;
        }
        errors := WithError(errors, keys[i], error);
      }
      forall k | true
        ensures ErrorOf(errors, k) == Recorded(f, keys[..i + 1], k)
      {
        RecordedStep(f, keys[..i], keys[i], k);
      }
    }
    assert keys[..|keys|] == keys;
  }

  /** Both forms validate exactly the five fields: passing means every validator passes. */
  lemma KeysCoverValidators(f: GarageFields)
    ensures KeysPass(f, AddGarageKeys) <==> AllValid(f)
    ensures KeysPass(f, EditGarageKeys) <==> AllValid(f)
  {
    assert AddGarageKeys[0] == Name && AddGarageKeys[2] == NumberParkingSpots && AddGarageKeys[3] == PricePerHour;
    assert AddGarageKeys[4] == OpeningTime && AddGarageKeys[5] == ClosingTime;
    assert EditGarageKeys[0] == Name && EditGarageKeys[2] == NumberParkingSpots && EditGarageKeys[3] == PricePerHour;
    assert EditGarageKeys[4] == OpeningTime && EditGarageKeys[5] == ClosingTime;
  }

  /** A form that passes has a non-empty name and two valid times, the closing one strictly later. */
  lemma ValidFormOrdersTimes(f: GarageFields)
    requires AllValid(f)
    ensures |f.name| >= 1 && IsValidTime(f.openingTime) && IsValidTime(f.closingTime)
    ensures ConvertToMinutes(f.openingTime).Some? && ConvertToMinutes(f.closingTime).Some?
    ensures ConvertToMinutes(f.openingTime).value < ConvertToMinutes(f.closingTime).value
  {
    ValidTimeConverts(f.openingTime);
    ValidTimeConverts(f.closingTime);
  }

  /** A price of zero passes the form, yet the garage setter refuses it when the request arrives. */
  lemma ZeroPricePassesFormNotServer(req: GaragesRoute.CreateGarageRequest)
    requires req.pricePerHourInEuros == 0.0
    ensures PriceError(Some(req.pricePerHourInEuros)) == ""
    ensures GaragesRoute.RequestError(req).Some?
  {
  }

  /** `addChargingStation`: a blank station at the end. */
  function AddChargingStation(stations: seq<StationInput>): (r: seq<StationInput>)
    ensures |r| == |stations| + 1 && r[..|stations|] == stations && r[|stations|] == StationInput("", 0.0, 0.0)
  {
    stations + [StationInput("", 0.0, 0.0)]
  }

  /** `handleChargingStationChange`: every station with the name gets the speed and price; names never change. */
  function ChangeChargingStation(stations: seq<StationInput>, name: string, speed: real, price: real): (r: seq<StationInput>)
    ensures |r| == |stations|
    ensures forall i :: 0 <= i < |r| ==> r[i].name == stations[i].name
    ensures forall i :: 0 <= i < |r| ==>
      r[i] == if stations[i].name == name then stations[i].(chargingSpeedInKw := speed, pricePerKwh := price) else stations[i]
  {
    seq(|stations|, i requires 0 <= i < |stations| =>
      if stations[i].name == name then stations[i].(chargingSpeedInKw := speed, pricePerKwh := price) else stations[i])
  }

  /** `removeChargingStation`: drops every station with the name and keeps the rest in order. */
  function RemoveChargingStation(stations: seq<StationInput>, name: string): (r: seq<StationInput>)
    ensures |r| <= |stations|
    ensures forall s :: s in r ==> s in stations && s.name != name
  {
    if stations == [] then []
    else RemoveChargingStation(stations[..|stations| - 1], name)
         + (if stations[|stations| - 1].name == name then [] else [stations[|stations| - 1]])
  }

  /** No station with another name is lost by a removal. */
  lemma {:induction false} RemoveKeepsOthers(stations: seq<StationInput>, name: string)
    ensures forall s :: s in stations && s.name != name ==> s in RemoveChargingStation(stations, name)
  {
    if stations != [] {
      var init := stations[..|stations| - 1];
      RemoveKeepsOthers(init, name);
      assert stations == init + [stations[|stations| - 1]];
    }
  }

  /** What the station inputs can do: add, edit speed and price (through any name), remove. */
  datatype StationEdit = AddStation | EditStation(name: string, speed: real, price: real) | RemoveStation(name: string)

  function ApplyEdit(stations: seq<StationInput>, e: StationEdit): seq<StationInput> {
    match e
    case AddStation => AddChargingStation(stations)
    case EditStation(name, speed, price) => ChangeChargingStation(stations, name, speed, price)
    case RemoveStation(name) => RemoveChargingStation(stations, name)
  }

  function ApplyEdits(stations: seq<StationInput>, edits: seq<StationEdit>): seq<StationInput>
    decreases |edits|
  {
    if edits == [] then stations else ApplyEdits(ApplyEdit(stations, edits[0]), edits[1..])
  }

  predicate AllBlank(stations: seq<StationInput>) {
    forall s :: s in stations ==> s.name == ""
  }

  /**
   * No handler ever writes a station's name (typing a name only edits the stations already
   * bearing the typed name), so starting from the empty list every station stays unnamed.
   */
  lemma {:induction false} NamesStayBlank(stations: seq<StationInput>, edits: seq<StationEdit>)
    requires AllBlank(stations)
    ensures AllBlank(ApplyEdits(stations, edits))
    decreases |edits|
  {
    if edits != [] {
      var next := ApplyEdit(stations, edits[0]);
      assert AllBlank(next) by {
        forall s | s in next ensures s.name == "" {
          match edits[0]
          case AddStation =>
            assert s in stations || s == StationInput("", 0.0, 0.0);
          case EditStation(name, speed, price) =>
            var i :| 0 <= i < |next| && next[i] == s;
            assert stations[i] in stations;
          case RemoveStation(name) =>
        }
      }
      NamesStayBlank(next, edits[1..]);
    }
  }

  lemma {:induction false} RemoveBlank(stations: seq<StationInput>)
    requires AllBlank(stations)
    ensures RemoveChargingStation(stations, "") == []
  {
    if stations != [] {
      assert stations[|stations| - 1] in stations;
      RemoveBlank(stations[..|stations| - 1]);
    }
  }

  /** So removing any one station removes them all. */
  lemma RemoveOneRemovesAll(edits: seq<StationEdit>)
    ensures RemoveChargingStation(ApplyEdits([], edits), "") == []
  {
    NamesStayBlank([], edits);
    RemoveBlank(ApplyEdits([], edits));
  }

  /**
   * The station handlers as evidently intended: each input addresses its station by its position
   * in the rendered list, and the name field writes the station's name.
   */
  datatype IndexedEdit =
    | AddStationAt
    | RenameStationAt(index: nat, name: string)
    | EditStationAt(index: nat, speed: real, price: real)
    | RemoveStationAt(index: nat)

  function ApplyIndexedEdit(stations: seq<StationInput>, e: IndexedEdit): seq<StationInput> {
    match e
    case AddStationAt => AddChargingStation(stations)
    case RenameStationAt(i, name) =>
      if i < |stations| then stations[i := stations[i].(name := name)] else stations
    case EditStationAt(i, speed, price) =>
      if i < |stations| then stations[i := stations[i].(chargingSpeedInKw := speed, pricePerKwh := price)] else stations
    case RemoveStationAt(i) =>
      if i < |stations| then stations[..i] + stations[i + 1..] else stations
  }

  function ApplyIndexedEdits(stations: seq<StationInput>, edits: seq<IndexedEdit>): seq<StationInput>
    decreases |edits|
  {
    if edits == [] then stations else ApplyIndexedEdits(ApplyIndexedEdit(stations, edits[0]), edits[1..])
  }

  /** Removing the station at a position removes that one only and keeps the others in order. */
  lemma RemoveStationAtRemovesOne(stations: seq<StationInput>, i: nat)
    requires i < |stations|
    ensures var r := ApplyIndexedEdit(stations, RemoveStationAt(i));
      && |r| == |stations| - 1
      && (forall j :: 0 <= j < i ==> r[j] == stations[j])
      && (forall j :: i <= j < |r| ==> r[j] == stations[j + 1])
      && multiset(r) + multiset{stations[i]} == multiset(stations)
  {
    assert stations == stations[..i] + [stations[i]] + stations[i + 1..];
  }

  /** Naming the station at a position names that one only; the edit of speed and price likewise. */
  lemma IndexedEditsTouchOne(stations: seq<StationInput>, i: nat, name: string, speed: real, price: real)
    requires i < |stations|
    ensures var r := ApplyIndexedEdit(stations, RenameStationAt(i, name));
      |r| == |stations| && r[i].name == name && (forall j :: 0 <= j < |r| && j != i ==> r[j] == stations[j])
    ensures var r := ApplyIndexedEdit(stations, EditStationAt(i, speed, price));
      && |r| == |stations| && r[i].name == stations[i].name
      && r[i].chargingSpeedInKw == speed && r[i].pricePerKwh == price
      && (forall j :: 0 <= j < |r| && j != i ==> r[j] == stations[j])
  {
  }

  /** Two stations added, then the first one's remove button: as written none is left, as intended one. */
  lemma RemoveFirstOfTwo()
    ensures ApplyEdits([], [AddStation, AddStation, RemoveStation("")]) == []
    ensures ApplyIndexedEdits([], [AddStationAt, AddStationAt, RemoveStationAt(0)]) == [StationInput("", 0.0, 0.0)]
  {
    var blank := StationInput("", 0.0, 0.0);
    var asWritten := [AddStation, AddStation, RemoveStation("")];
    assert asWritten[1..] == [AddStation, RemoveStation("")] && asWritten[1..][1..] == [RemoveStation("")];
    assert ApplyEdit([], AddStation) == [blank];
    assert ApplyEdit([blank], AddStation) == [blank, blank];
    RemoveBlank([blank, blank]);
    assert ApplyEdits([blank, blank], [RemoveStation("")]) == ApplyEdits([], []);
    var intended := [AddStationAt, AddStationAt, RemoveStationAt(0)];
    assert intended[1..] == [AddStationAt, RemoveStationAt(0)] && intended[1..][1..] == [RemoveStationAt(0)];
    assert [blank, blank][1..] == [blank];
  }

  /** GarageRequestObject. */
  datatype GarageRequest = GarageRequest(
    name: string, isOpen: bool, numberParkingSpots: Option<real>, pricePerHourInEuros: Option<real>,
    openingTime: string, closingTime: string, chargingStations: seq<StationInput>)

  /** AddGarage's submit: nothing is sent unless every field passes; the request carries the stations. */
  method AddGarageSubmit(f: GarageFields, stations: seq<StationInput>) returns (request: Option<GarageRequest>)
    ensures request.Some? <==> AllValid(f)
    ensures request.Some? ==> request.value == GarageRequest(f.name, f.isOpen, f.numberParkingSpots, f.pricePerHour,
                                                            f.openingTime, f.closingTime, stations)
  {
    var isValid, _ := ValidateAllFields(f, AddGarageKeys);
    KeysCoverValidators(f);
    if !isValid {
      return None;
    }
    request := Some(GarageRequest(f.name, f.isOpen, f.numberParkingSpots, f.pricePerHour, f.openingTime, f.closingTime, stations));
  }

  /** EditGarage's submit: nothing is sent unless every field passes; the stations are always empty. */
  method EditGarageSubmit(f: GarageFields) returns (request: Option<GarageRequest>)
    ensures request.Some? <==> AllValid(f)
    ensures request.Some? ==> request.value == GarageRequest(f.name, f.isOpen, f.numberParkingSpots, f.pricePerHour,
                                                            f.openingTime, f.closingTime, [])
  {
    var isValid, _ := ValidateAllFields(f, EditGarageKeys);
    KeysCoverValidators(f);
    if !isValid {
      return None;
    }
    request := Some(GarageRequest(f.name, f.isOpen, f.numberParkingSpots, f.pricePerHour, f.openingTime, f.closingTime, []));
  }
}
