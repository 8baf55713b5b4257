/** The console's reading of a click limit and of a lifetime such as "24ч", "3д" or "12 часов",
    and the Russian words it prints after a number of hours or days (`UrlShortenerApp`). Each
    reading starts from the line as typed; `scanner.nextLine()` itself is not modelled. */
module ConsoleInput {
  import opened Wrappers
  import opened JavaInt
  import opened JavaText

  const DEFAULT_CLICK_LIMIT: int32 := 10
  const DEFAULT_LIFETIME_HOURS: int32 := 24
  const HOURS_PER_DAY: int := 24

  /** Why an input is refused; each ends the dialogue with its message. */
  datatype InputError =
    | NotANumber           // "Неверный формат числа"
    | LimitNotPositive     // "Лимит должен быть больше 0"
    | NoDigits             // "Неверный формат времени жизни"
    | UnknownFormat        // "Неверный формат времени жизни. Используйте формат: число + единица (ч/д)"
    | LifetimeNotPositive  // "Время жизни должно быть больше 0"
    | DigitsOutOfRange     // parseInt of the digits throws; the menu loop reports the exception
    | LifetimeTooLong      // only in the corrected reading: the hours do not fit an int

  // ---------------------------------------------------------------------------------------
  // Click limit

  /** A trimmed, non-empty limit: a positive `int`. */
  function ParseLimit(t: string): (r: Result<int32, InputError>)
    ensures r.Success? ==> r.value > 0 && ParseInt(t) == Some(r.value)
    ensures r == Failure(NotANumber) <==> ParseInt(t).None?
    ensures r == Failure(LimitNotPositive) <==> ParseInt(t).Some? && ParseInt(t).value <= 0
  {
    match ParseInt(t)
    case None => Failure(NotANumber)
    case Some(v) => if v <= 0 then Failure(LimitNotPositive) else Success(v)
  }

  /** The limit asked for when a link is created: an empty answer means ten clicks. */
  function CreateLimit(line: string): (r: Result<int32, InputError>)
    ensures IsBlank(line) ==> r == Success(DEFAULT_CLICK_LIMIT)
    ensures !IsBlank(line) ==> r == ParseLimit(Trim(line))
    ensures r.Success? ==> r.value > 0
  {
    var t := Trim(line);
    if t == [] then Success(DEFAULT_CLICK_LIMIT) else ParseLimit(t)
  }

  /** The limit asked for when a link is edited: an empty answer keeps the current one. */
  function EditLimit(line: string): (r: Result<Option<int32>, InputError>)
    ensures IsBlank(line) ==> r == Success(None)
    ensures !IsBlank(line) ==> r.Success? == ParseLimit(Trim(line)).Success?
    ensures r.Success? && r.value.Some? ==> Success(r.value.value) == ParseLimit(Trim(line))
  {
    var t := Trim(line);
    if t == [] then Success(None)
    else match ParseLimit(t)
      case Failure(e) => Failure(e)
      case Success(v) => Success(Some(v))
  }

  /** Characters that trimming and lower-casing both leave in place. */
  predicate Plain(c: char) {
    IsDigit(c) || 'a' <= c <= 'z' || '\U{0430}' <= c <= '\U{045F}'
  }

  lemma ToLowerCasePlain(s: string)
    requires forall i | 0 <= i < |s| :: Plain(s[i]) || IsTrimmed(s[i])
    ensures ToLowerCase(s) == s
  {
  }

  /** Every positive limit, typed as `Integer.toString` writes it, is read back. */
  lemma LimitRoundTrip(v: int32)
    requires v > 0
    ensures CreateLimit(IntToString(v)) == Success(v)
    ensures EditLimit(IntToString(v)) == Success(Some(v))
  {
    var s := IntToString(v);
    TrimUnchanged(s);
    ParseIntOfIntToString(v);
  }

  // ---------------------------------------------------------------------------------------
  // Lifetime

  predicate DaySuffix(s: string) {
    EndsWith(s, "д") || EndsWith(s, "день") || EndsWith(s, "дней")
    || EndsWith(s, "d") || EndsWith(s, "day") || EndsWith(s, "days")
  }

  predicate HourSuffix(s: string) {
    EndsWith(s, "ч") || EndsWith(s, "час") || EndsWith(s, "часов")
    || EndsWith(s, "h") || EndsWith(s, "hour") || EndsWith(s, "hours")
  }

  datatype Unit = Days | Hours

  /** A number of days or hours, before the check that it is positive. */
  datatype Amount = Amount(unit: Unit, value: int32)

  /** The number in a lower-cased, trimmed, non-empty lifetime. With a unit word at the end
      the number is every ASCII digit of the text, wherever it stands; without one the whole
      text must be an `int`, counted in hours. The unit words are tested days first. */
  function ReadAmount(s: string, days: bool, hours: bool): (r: Result<Amount, InputError>)
    ensures (days || hours) && r.Success? ==>
      r.value.value as int == DigitsValue(KeepDigits(s)) && (r.value.unit == Days <==> days)
    ensures !(days || hours) ==>
      (r.Success? <==> ParseInt(s).Some?) && (r.Success? ==> r.value == Amount(Hours, ParseInt(s).value))
    ensures r == Failure(NoDigits) <==> (days || hours) && KeepDigits(s) == []
    ensures (days || hours) && KeepDigits(s) != [] ==> (r.Success? <==> DigitsValue(KeepDigits(s)) <= INT_MAX)
    ensures r == Failure(DigitsOutOfRange) <==>
      (days || hours) && KeepDigits(s) != [] && DigitsValue(KeepDigits(s)) > INT_MAX
    ensures r == Failure(UnknownFormat) <==> !(days || hours) && ParseInt(s).None?
  {
    if days || hours then
      var digits := KeepDigits(s);
      if digits == [] then Failure(NoDigits)
      else match ParseInt(digits)
        case None => Failure(DigitsOutOfRange)
        case Some(v) => Success(Amount(if days then Days else Hours, v))
    else
      match ParseInt(s)
      case None => Failure(UnknownFormat)
      case Some(v) => Success(Amount(Hours, v))
  }

  /** Lines 138-183: the hours of a lower-cased, trimmed, non-empty lifetime, as written. A
      number of days is multiplied by 24 in `int` arithmetic, which wraps. */
  function ParseLifetime(s: string): (r: Result<int32, InputError>)
    ensures r.Success? && !DaySuffix(s) ==> r.value > 0
    ensures var a := ReadAmount(s, DaySuffix(s), HourSuffix(s));
      && (a.Failure? ==> r == Failure(a.error))
      && (r == Failure(LifetimeNotPositive) <==> a.Success? && a.value.value <= 0)
      && (r.Success? && !DaySuffix(s) ==> r.value == a.value.value)
  {
    match ReadAmount(s, DaySuffix(s), HourSuffix(s))
    case Failure(e) => Failure(e)
    case Success(a) =>
      if a.value <= 0 then Failure(LifetimeNotPositive)
      else if a.unit == Days then Success(Wrap32(a.value * HOURS_PER_DAY))
      else Success(a.value)
  }

  /** With a day word, the hours are 24 times the digits, wrapped to an `int`. */
  lemma ParseLifetimeDays(s: string)
    requires ParseLifetime(s).Success? && DaySuffix(s)
    ensures ParseLifetime(s).value == Wrap32(HOURS_PER_DAY * DigitsValue(KeepDigits(s)))
  {
    var a := ReadAmount(s, DaySuffix(s), HourSuffix(s));
    assert a.Success? && a.value.unit == Days;
  }

  /** The lifetime asked for when a link is created: an empty answer means 24 hours. */
  function CreateLifetime(line: string): (r: Result<int32, InputError>)
    ensures IsBlank(line) ==> r == Success(DEFAULT_LIFETIME_HOURS)
    ensures !IsBlank(line) ==> r == ParseLifetime(Trim(ToLowerCase(Trim(line))))
  {
    var t := Trim(line);
    if t == [] then Success(DEFAULT_LIFETIME_HOURS) else ParseLifetime(Trim(ToLowerCase(t)))
  }

  /** The lifetime asked for when a link is edited (lines 375-419): an empty answer keeps the
      current one. */
  function EditLifetime(line: string): (r: Result<Option<int32>, InputError>)
    ensures IsBlank(line) ==> r == Success(None)
    ensures !IsBlank(line) ==> r.Success? == CreateLifetime(line).Success?
    ensures r.Success? && r.value.Some? ==> Success(r.value.value) == CreateLifetime(line)
  {
    var t := Trim(line);
    if t == [] then Success(None)
    else match ParseLifetime(Trim(ToLowerCase(t)))
      case Failure(e) => Failure(e)
      case Success(h) => Success(Some(h))
  }

  /** The unit words the prompt's own examples need: "дня" and "часа" as well. */
  predicate DaySuffixFixed(s: string) {
    DaySuffix(s) || EndsWith(s, "дня")
  }

  predicate HourSuffixFixed(s: string) {
    HourSuffix(s) || EndsWith(s, "часа")
  }

  /** The corrected reading: "2 дня" and "2 часа" are understood, and a number of days whose
      hours do not fit an `int` is refused instead of wrapping. */
  function ParseLifetimeFixed(s: string): (r: Result<int32, InputError>)
    ensures r.Success? ==> r.value > 0
    ensures r.Success? && DaySuffixFixed(s) ==> r.value == HOURS_PER_DAY * DigitsValue(KeepDigits(s))
    ensures r.Success? && !DaySuffixFixed(s) && HourSuffixFixed(s) ==> r.value == DigitsValue(KeepDigits(s))
  {
    match ReadAmount(s, DaySuffixFixed(s), HourSuffixFixed(s))
    case Failure(e) => Failure(e)
    case Success(a) =>
      if a.value <= 0 then Failure(LifetimeNotPositive)
      else if a.unit == Days then
        if a.value > INT_MAX / HOURS_PER_DAY then Failure(LifetimeTooLong)
        else Success(a.value * HOURS_PER_DAY)
      else Success(a.value)
  }

  function CreateLifetimeFixed(line: string): (r: Result<int32, InputError>)
    ensures IsBlank(line) ==> r == Success(DEFAULT_LIFETIME_HOURS)
    ensures !IsBlank(line) ==> r == ParseLifetimeFixed(Trim(ToLowerCase(Trim(line))))
    ensures r.Success? ==> r.value > 0
  {
    var t := Trim(line);
    if t == [] then Success(DEFAULT_LIFETIME_HOURS) else ParseLifetimeFixed(Trim(ToLowerCase(t)))
  }

  /** Wherever the reading as written accepts a lifetime, the corrected reading gives the same
      hours, except for a number of days whose hours do not fit an `int`. */
  lemma FixedAgreesUnlessWrapped(s: string)
    requires ParseLifetime(s).Success?
    ensures ParseLifetimeFixed(s) ==
      if DaySuffix(s) && DigitsValue(KeepDigits(s)) > INT_MAX / HOURS_PER_DAY then Failure(LifetimeTooLong)
      else ParseLifetime(s)
  {
    if !DaySuffix(s) && !HourSuffix(s) {
      ParseIntEndsWithDigit(s);
      SuffixLast(s);
    }
  }

  /** A lower-cased word of letters that are not digits. */
  predicate Word(u: string) {
    u != [] && forall i | 0 <= i < |u| :: Plain(u[i]) && !IsDigit(u[i])
  }

  /** A number followed by a unit word, as typed. */
  lemma Typed(d: string, u: string)
    requires d != [] && AllDigits(d) && Word(u)
    ensures var s := d + u;
      && Trim(ToLowerCase(Trim(s))) == s && KeepDigits(s) == d && !IsBlank(s)
      && s[|s| - 1] == u[|u| - 1]
  {
    TypedTrimmed(d, u);
    TypedPlain(d, u);
    TypedDigits(d, u);
  }

  lemma TypedDigits(d: string, u: string)
    requires AllDigits(d) && Word(u)
    ensures KeepDigits(d + u) == d
  {
    KeepDigitsAppend(d, u);
    NoDigitsKept(u);
    assert d + [] == d;
  }

  lemma TypedTrimmed(d: string, u: string)
    requires d != [] && AllDigits(d) && Word(u)
    ensures var s := d + u; Trim(s) == s && !IsBlank(s) && s[|s| - 1] == u[|u| - 1]
  {
    var s := d + u;
    assert s[0] == d[0] && s[|s| - 1] == u[|u| - 1];
    TrimUnchanged(s);
  }

  lemma TypedPlain(d: string, u: string)
    requires AllDigits(d) && Word(u)
    ensures ToLowerCase(d + u) == d + u
  {
    var s := d + u;
    forall i | 0 <= i < |s|
      ensures Plain(s[i]) || IsTrimmed(s[i])
    {
      if i >= |d| {
        assert s[i] == u[i - |d|];
      }
    }
    ToLowerCasePlain(s);
  }

  lemma {:induction false} NoDigitsKept(u: string)
    requires forall i | 0 <= i < |u| :: !IsDigit(u[i])
    ensures KeepDigits(u) == []
  {
    if u != [] {
      NoDigitsKept(u[1..]);
    }
  }

  lemma EndsWithLast(s: string, suffix: string)
    requires suffix != [] && EndsWith(s, suffix)
    ensures s[|s| - 1] == suffix[|suffix| - 1]
  {
    assert s[|s| - |suffix|..][|suffix| - 1] == s[|s| - 1];
  }

  /** A unit word is recognized by its last letter at least. */
  lemma SuffixLast(s: string)
    requires s != []
    ensures DaySuffix(s) ==> s[|s| - 1] in {'д', 'ь', 'й', 'd', 'y', 's'}
    ensures HourSuffix(s) ==> s[|s| - 1] in {'ч', 'с', 'в', 'h', 'r', 's'}
    ensures EndsWith(s, "дня") ==> s[|s| - 1] == 'я'
    ensures EndsWith(s, "часа") ==> s[|s| - 1] == 'а'
  {
    DaySuffixLast(s);
    HourSuffixLast(s);
  }

  lemma DaySuffixLast(s: string)
    requires s != []
    ensures DaySuffix(s) ==> s[|s| - 1] in {'д', 'ь', 'й', 'd', 'y', 's'}
    ensures EndsWith(s, "дня") ==> s[|s| - 1] == 'я'
  {
    if EndsWith(s, "д") { EndsWithLast(s, "д"); }
    if EndsWith(s, "день") { EndsWithLast(s, "день"); }
    if EndsWith(s, "дней") { EndsWithLast(s, "дней"); }
    if EndsWith(s, "d") { EndsWithLast(s, "d"); }
    if EndsWith(s, "day") { EndsWithLast(s, "day"); }
    if EndsWith(s, "days") { EndsWithLast(s, "days"); }
    if EndsWith(s, "дня") { EndsWithLast(s, "дня"); }
  }

  lemma HourSuffixLast(s: string)
    requires s != []
    ensures HourSuffix(s) ==> s[|s| - 1] in {'ч', 'с', 'в', 'h', 'r', 's'}
    ensures EndsWith(s, "часа") ==> s[|s| - 1] == 'а'
  {
    if EndsWith(s, "ч") { EndsWithLast(s, "ч"); }
    if EndsWith(s, "час") { EndsWithLast(s, "час"); }
    if EndsWith(s, "часов") { EndsWithLast(s, "часов"); }
    if EndsWith(s, "h") { EndsWithLast(s, "h"); }
    if EndsWith(s, "hour") { EndsWithLast(s, "hour"); }
    if EndsWith(s, "hours") { EndsWithLast(s, "hours"); }
    if EndsWith(s, "часа") { EndsWithLast(s, "часа"); }
  }

  /** The amount read from digits followed by a unit word. */
  lemma ReadDigits(d: string, u: string, days: bool, hours: bool)
    requires d != [] && AllDigits(d) && Word(u) && (days || hours) && DigitsValue(d) <= INT_MAX
    ensures ReadAmount(d + u, days, hours) == Success(Amount(if days then Days else Hours, DigitsValue(d)))
  {
    TypedDigits(d, u);
  }

  /** The amount read from a number followed by a unit word. */
  lemma ReadTyped(n: nat, u: string, days: bool, hours: bool)
    requires 0 < n <= INT_MAX && Word(u) && (days || hours)
    ensures ReadAmount(NatToString(n) + u, days, hours) == Success(Amount(if days then Days else Hours, n))
  {
    DigitsValueOfNatToString(n);
    ReadDigits(NatToString(n), u, days, hours);
  }

  /** A line that is already trimmed and in lower case is read as it stands. */
  lemma ReadAsTyped(line: string)
    requires !IsBlank(line) && Trim(ToLowerCase(Trim(line))) == line
    ensures CreateLifetime(line) == ParseLifetime(line)
    ensures CreateLifetimeFixed(line) == ParseLifetimeFixed(line)
  {
  }

  /** Digits followed by a unit word are read as they stand. */
  lemma DigitsLine(d: string, u: string)
    requires d != [] && AllDigits(d) && Word(u)
    ensures var s := d + u;
      && CreateLifetime(s) == ParseLifetime(s) && CreateLifetimeFixed(s) == ParseLifetimeFixed(s)
      && s != [] && s[|s| - 1] == u[|u| - 1]
  {
    Typed(d, u);
    ReadAsTyped(d + u);
  }

  /** A number followed by a unit word is read as the number in that unit. */
  lemma TypedLine(n: nat, u: string)
    requires Word(u)
    ensures var s := NatToString(n) + u;
      && CreateLifetime(s) == ParseLifetime(s) && CreateLifetimeFixed(s) == ParseLifetimeFixed(s)
      && s != [] && s[|s| - 1] == u[|u| - 1]
  {
    DigitsLine(NatToString(n), u);
  }

  /** "Nч" for a positive `int` N is N hours. */
  lemma HoursRoundTrip(n: nat)
    requires 0 < n <= INT_MAX
    ensures CreateLifetime(NatToString(n) + "ч") == Success(n)
    ensures CreateLifetimeFixed(NatToString(n) + "ч") == Success(n)
  {
    var s := NatToString(n) + "ч";
    TypedLine(n, "ч");
    SuffixLast(s);
    assert EndsWith(s, "ч");
    ReadTyped(n, "ч", false, true);
  }

  /** A lifetime ending in a day word whose digits make `n` days. */
  lemma ParseDays(s: string, n: nat)
    requires 0 < n <= INT_MAX && DaySuffix(s)
    requires ReadAmount(s, true, false) == Success(Amount(Days, n))
    ensures ParseLifetime(s) == Success(Wrap32(n * HOURS_PER_DAY))
    ensures ParseLifetimeFixed(s) ==
      if n <= INT_MAX / HOURS_PER_DAY then Success(n * HOURS_PER_DAY) else Failure(LifetimeTooLong)
  {
  }

  lemma DayWordTyped(n: nat)
    requires 0 < n <= INT_MAX
    ensures DaySuffix(NatToString(n) + "д")
    ensures ReadAmount(NatToString(n) + "д", true, false) == Success(Amount(Days, n))
  {
    assert EndsWith(NatToString(n) + "д", "д");
    ReadTyped(n, "д", true, false);
  }

  /** "Nд" is N days: 24 * N hours in `int` arithmetic as written, and exactly 24 * N hours,
      or a refusal when that does not fit an `int`, in the corrected reading. */
  lemma DaysRoundTrip(n: nat)
    requires 0 < n <= INT_MAX
    ensures CreateLifetime(NatToString(n) + "д") == Success(Wrap32(n * HOURS_PER_DAY))
    ensures CreateLifetimeFixed(NatToString(n) + "д") ==
      if n <= INT_MAX / HOURS_PER_DAY then Success(n * HOURS_PER_DAY) else Failure(LifetimeTooLong)
  {
    TypedLine(n, "д");
    DayWordTyped(n);
    ParseDays(NatToString(n) + "д", n);
  }

  /** As written, 89478486 days wrap to a negative number of hours, which is then passed on as
      the link's lifetime: the link is created already expired. */
  lemma DaysOverflowWraps()
    ensures CreateLifetime(NatToString(89478486) + "д") == Success(-2147483632)
    ensures CreateLifetimeFixed(NatToString(89478486) + "д") == Failure(LifetimeTooLong)
  {
    DaysRoundTrip(89478486);
  }

  /** As written, "2 дня", one of the prompt's own examples, is refused; the corrected reading
      takes it as two days. */
  lemma TwoDaysRefused()
    ensures CreateLifetime("2 дня") == Failure(UnknownFormat)
    ensures CreateLifetimeFixed("2 дня") == Success(48)
  {
    var s := "2 дня";
    TwoDaysTyped();
    ReadAsTyped(s);
    SuffixLast(s);
    TwoDaysRead();
    assert !DaySuffix(s) && !HourSuffix(s) && DaySuffixFixed(s);
  }

  lemma TwoDaysTyped()
    ensures !IsBlank("2 дня") && Trim(ToLowerCase(Trim("2 дня"))) == "2 дня"
  {
    TwoDaysTrimmed();
    TwoDaysLower();
  }

  lemma TwoDaysTrimmed()
    ensures !IsBlank("2 дня") && Trim("2 дня") == "2 дня"
  {
    TrimUnchanged("2 дня");
  }

  lemma TwoDaysLower()
    ensures ToLowerCase("2 дня") == "2 дня"
  {
    var s := "2 дня";
    forall i | 0 <= i < |s|
      ensures Plain(s[i]) || IsTrimmed(s[i])
    {
    }
    ToLowerCasePlain(s);
  }

  lemma TwoDaysRead()
    ensures ReadAmount("2 дня", false, false) == Failure(UnknownFormat)
    ensures EndsWith("2 дня", "дня")
    ensures ReadAmount("2 дня", true, false) == Success(Amount(Days, 2))
  {
    var s := "2 дня";
    assert s[1] == ' ';
    assert ParseInt(s).None?;
    assert KeepDigits(s) == "2";
  }

  /** "12 часов", a number, a space and an hour word, is twelve hours in both readings. */
  lemma TwelveHours()
    ensures CreateLifetime("12 часов") == Success(12)
    ensures CreateLifetimeFixed("12 часов") == Success(12)
  {
    var s := "12 часов";
    TwelveHoursTyped();
    ReadAsTyped(s);
    SuffixLast(s);
    TwelveHoursRead();
    assert !DaySuffix(s) && HourSuffix(s) && !DaySuffixFixed(s) && HourSuffixFixed(s);
  }

  lemma TwelveHoursTyped()
    ensures !IsBlank("12 часов") && Trim(ToLowerCase(Trim("12 часов"))) == "12 часов"
  {
    TwelveHoursTrimmed();
    TwelveHoursLower();
  }

  lemma TwelveHoursTrimmed()
    ensures !IsBlank("12 часов") && Trim("12 часов") == "12 часов"
  {
    TrimUnchanged("12 часов");
  }

  lemma TwelveHoursLower()
    ensures ToLowerCase("12 часов") == "12 часов"
  {
    var s := "12 часов";
    forall i | 0 <= i < |s|
      ensures Plain(s[i]) || IsTrimmed(s[i])
    {
    }
    ToLowerCasePlain(s);
  }

  lemma TwelveHoursRead()
    ensures EndsWith("12 часов", "часов")
    ensures ReadAmount("12 часов", false, true) == Success(Amount(Hours, 12))
  {
    var s := "12 часов";
    assert s[3..] == "часов";
    TwelveDigits();
    assert "12"[..1] == "1";
    assert DigitsValue("12") == 12;
  }

  lemma TwelveDigits()
    ensures KeepDigits("12 часов") == "12"
  {
    var u := " часов";
    NoDigitsKept(u);
    KeepDigitsAppend("12", u);
    assert "12" + u == "12 часов";
  }

  // ---------------------------------------------------------------------------------------
  // Showing a lifetime

  /** Lines 191-196: hours that make whole days, at least one, are shown as days. */
  predicate ShownInDays(hours: int) {
    hours >= HOURS_PER_DAY && hours % HOURS_PER_DAY == 0
  }

  /** `formatHours`. */
  function FormatHours(hours: int): string {
    if hours == 1 then "час" else if 2 <= hours <= 4 then "часа" else "часов"
  }

  /** `formatDays`. */
  function FormatDays(days: int): string {
    if days == 1 then "день" else if 2 <= days <= 4 then "дня" else "дней"
  }

  /** What the dialogue prints for the lifetime of the new link. */
  function LifetimeText(hours: int32): (r: string)
    ensures ShownInDays(hours) ==>
      r == NatToString(hours / HOURS_PER_DAY) + " " + FormatDays(hours / HOURS_PER_DAY)
    ensures !ShownInDays(hours) ==> r == IntToString(hours) + " " + FormatHours(hours)
  {
    if ShownInDays(hours) then IntToString(hours / HOURS_PER_DAY) + " " + FormatDays(hours / HOURS_PER_DAY)
    else IntToString(hours) + " " + FormatHours(hours)
  }

  /** A lifetime typed in days is shown back in the same number of days. */
  lemma DaysShownAsTyped(n: nat)
    requires 0 < n <= INT_MAX / HOURS_PER_DAY
    ensures CreateLifetimeFixed(NatToString(n) + "д") == Success(n * HOURS_PER_DAY)
    ensures LifetimeText(n * HOURS_PER_DAY) == NatToString(n) + " " + FormatDays(n)
  {
    DaysRoundTrip(n);
    WholeDays(n);
  }

  lemma WholeDays(n: nat)
    ensures ShownInDays(n * HOURS_PER_DAY) == (n > 0) && n * HOURS_PER_DAY / HOURS_PER_DAY == n
  {
  }

  /** A lifetime typed in hours that are not whole days is shown back in hours. */
  lemma HoursShownAsTyped(n: nat)
    requires 0 < n <= INT_MAX && !ShownInDays(n)
    ensures CreateLifetime(NatToString(n) + "ч") == Success(n)
    ensures LifetimeText(n) == NatToString(n) + " " + FormatHours(n)
  {
    HoursRoundTrip(n);
  }

  /** The grammatical number Russian puts on a noun after `n`: one for 1, 21, 31, ... but not
      11; few for 2-4, 22-24, ... but not 12-14; many otherwise. */
  datatype PluralForm = One | Few | Many

  function RussianPlural(n: nat): PluralForm {
    var d, t := n % 10, n % 100;
    if d == 1 && t != 11 then One
    else if 2 <= d <= 4 && !(12 <= t <= 14) then Few
    else Many
  }

  function HourNoun(f: PluralForm): string {
    match f
    case One => "час"
    case Few => "часа"
    case Many => "часов"
  }

  function DayNoun(f: PluralForm): string {
    match f
    case One => "день"
    case Few => "дня"
    case Many => "дней"
  }

  /** `formatHours` and `formatDays` follow the Russian rule up to 20, and from 21 on trust only
      the ones for which it gives "many" (for example "21 часов" instead of "21 час"). */
  lemma FormatAgreesUpTo20(n: nat)
    requires n <= 20
    ensures FormatHours(n) == HourNoun(RussianPlural(n))
    ensures FormatDays(n) == DayNoun(RussianPlural(n))
  {
  }

  lemma FormatAgreesOnMany(n: nat)
    requires RussianPlural(n) == Many
    ensures FormatHours(n) == HourNoun(Many) && FormatDays(n) == DayNoun(Many)
  {
  }

  lemma FormatDiffersFrom21(n: nat)
    requires n >= 21 && RussianPlural(n) != Many
    ensures FormatHours(n) != HourNoun(RussianPlural(n))
    ensures FormatDays(n) != DayNoun(RussianPlural(n))
  {
  }
}
