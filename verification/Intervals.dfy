/** Intervals: Arrow values sent as PostgreSQL intervals, and parameters coerced back. */
module Intervals {
  import opened Wrappers

  newtype i32 = x: int | -0x8000_0000 <= x < 0x8000_0000
  newtype i64 = x: int | -0x8000_0000_0000_0000 <= x < 0x8000_0000_0000_0000

  datatype PgInterval = PgInterval(months: i32, days: i32, microseconds: i64)

  datatype Unit = YearMonthUnit | DayTimeUnit | MonthDayNanoUnit

  datatype ArrowInterval =
    | YearMonth(months: i32)
    | DayTime(days: i32, millis: i32)
    | MonthDayNano(months: i32, days: i32, nanos: i64)

  datatype CoerceError = DaysOrTime | Months | SubMillisecond

  function UnitOf(v: ArrowInterval): Unit {
    match v case YearMonth(_) => YearMonthUnit case DayTime(_, _) => DayTimeUnit case MonthDayNano(_, _,
      _) => MonthDayNanoUnit
  }

  /** Division and remainder toward zero. */
  function Quot(a: int, b: nat): (q: int)
    requires b > 0
    ensures a >= 0 ==> q >= 0 && q * b <= a < (q + 1) * b
    ensures a <= 0 ==> q <= 0 && (q - 1) * b < a <= q * b
  {
    if a >= 0 then a / b else -((-a) / b)
  }

  function Rem(a: int, b: nat): int
    requires b > 0
  {
    a - Quot(a, b) * b
  }

  /** `as i32`, and wrapping i64 arithmetic. */
  function WrapI32(x: int): i32 {
    var r := x % 0x1_0000_0000;
    (if r >= 0x8000_0000 then r - 0x1_0000_0000 else r) as i32
  }

  function WrapI64(x: int): i64 {
    var r := x % 0x1_0000_0000_0000_0000;
    (if r >= 0x8000_0000_0000_0000 then r - 0x1_0000_0000_0000_0000 else r) as i64
  }

  function Encode(v: ArrowInterval): PgInterval {
    match v
    case YearMonth(months) => PgInterval(months, 0, 0)
    case DayTime(days, millis) => PgInterval(0, days, WrapI64(millis as int * 1000))
    case MonthDayNano(months, days, nanos) => PgInterval(months, days, Quot(nanos as int, 1000) as i64)
  }

  function Coerce(i: PgInterval, target: Unit): Result<ArrowInterval, CoerceError> {
    match target
    case YearMonthUnit =>
      if i.days != 0 || i.microseconds != 0 then Err(DaysOrTime) else Ok(YearMonth(i.months))
    case DayTimeUnit =>
      if i.months != 0 then Err(Months)
      else if Rem(i.microseconds as int, 1000) != 0 then Err(SubMillisecond)
      else Ok(DayTime(i.days, WrapI32(Quot(i.microseconds as int, 1000))))
    case MonthDayNanoUnit => Ok(MonthDayNano(i.months, i.days, WrapI64(i.microseconds as int * 1000)))
  }

  predicate FitsI32(x: int) { -0x8000_0000 <= x < 0x8000_0000 }
  predicate FitsI64(x: int) { -0x8000_0000_0000_0000 <= x < 0x8000_0000_0000_0000 }

  /** What a round trip makes of a value: nanoseconds cut toward zero to whole microseconds, the rest kept. */
  function Kept(v: ArrowInterval): ArrowInterval {
    if v.MonthDayNano? then v.(nanos := (v.nanos as int - Rem(v.nanos as int, 1000)) as i64) else v
  }

  lemma WrapFits(x: int)
    ensures (WrapI32(x) as int == x) == FitsI32(x)
    ensures (WrapI64(x) as int == x) == FitsI64(x)
  {
  }

  lemma QuotRem(a: int)
    ensures a == 1000 * Quot(a, 1000) + Rem(a, 1000) && -1000 < Rem(a, 1000) < 1000
    ensures Rem(a, 1000) == 0 <==> a % 1000 == 0
  {
  }

  lemma CutExactly(nanos: i64)
    ensures var q := Quot(nanos as int, 1000);
            WrapI64(1000 * q) as int == 1000 * q == nanos as int - Rem(nanos as int, 1000)
    ensures if nanos >= 0 then 0 <= Rem(nanos as int, 1000) < 1000 else -1000 < Rem(nanos as int, 1000) <= 0
  {
    QuotRem(nanos as int);
    WrapFits(1000 * Quot(nanos as int, 1000));
  }

  lemma ThousandsBack(m: int)
    ensures Quot(m * 1000, 1000) == m && Rem(m * 1000, 1000) == 0
  {
    QuotRem(m * 1000);
  }

  lemma DayTimeBack(v: ArrowInterval)
    requires v.DayTime?
    ensures Coerce(Encode(v), DayTimeUnit) == Ok(v)
  {
    WrapFits(v.millis as int * 1000);
    ThousandsBack(v.millis as int);
    WrapFits(v.millis as int);
    hide Quot, Rem, WrapI64, WrapI32;
  }

  lemma MonthDayNanoBack(v: ArrowInterval)
    requires v.MonthDayNano?
    ensures Coerce(Encode(v), MonthDayNanoUnit) == Ok(Kept(v))
    ensures var kept := Kept(v);
            kept.MonthDayNano? && kept.months == v.months && kept.days == v.days && kept.nanos as int % 1000 == 0 &&
            if v.nanos >= 0 then 0 <= v.nanos as int - kept.nanos as int < 1000
            else -1000 < v.nanos as int - kept.nanos as int <= 0
    ensures Kept(v) == v <==> v.nanos as int % 1000 == 0
  {
    CutExactly(v.nanos);
    QuotRem(v.nanos as int);
    hide Quot, Rem, WrapI64;
  }

  /** Sent and coerced back to its own unit every value returns, exact unless it holds part of a microsecond;
      nothing overflows on the way. */
  lemma RoundTripExactly(v: ArrowInterval)
    ensures Coerce(Encode(v), UnitOf(v)) == Ok(Kept(v))
    ensures v.MonthDayNano? ==>
            var kept := Kept(v);
            kept.MonthDayNano? && kept.months == v.months && kept.days == v.days && kept.nanos as int % 1000 == 0 &&
            if v.nanos >= 0 then 0 <= v.nanos as int - kept.nanos as int < 1000
            else -1000 < v.nanos as int - kept.nanos as int <= 0
    ensures Kept(v) == v <==> (v.MonthDayNano? ==> v.nanos as int % 1000 == 0)
  {
    if v.DayTime? { DayTimeBack(v); }
    if v.MonthDayNano? { MonthDayNanoBack(v); }
    hide Quot, Rem, WrapI64, WrapI32;
  }

  /** The room the Arrow unit has for the interval's time part. */
  predicate HasRoom(i: PgInterval, target: Unit) {
    match target
    case YearMonthUnit => true
    case DayTimeUnit => FitsI32(Quot(i.microseconds as int, 1000))
    case MonthDayNanoUnit => FitsI64(i.microseconds as int * 1000)
  }

  /** A parameter that is accepted is sent back unchanged exactly when its time part fits the Arrow field. */
  lemma AcceptedExactly(i: PgInterval, target: Unit)
    requires Coerce(i, target).Ok?
    ensures Encode(Coerce(i, target).value) == i <==> HasRoom(i, target)
  {
    var us := i.microseconds as int;
    QuotRem(us);
    match target
    case YearMonthUnit =>
    case DayTimeUnit =>
      var ms := WrapI32(Quot(us, 1000)) as int;
      WrapFits(Quot(us, 1000));
      WrapFits(ms * 1000);
    case MonthDayNanoUnit =>
      var nanos := WrapI64(us * 1000) as int;
      WrapFits(us * 1000);
      WrappedMicros(us);
  }

  /** A product that wrapped no longer divides back. */
  lemma WrappedMicros(us: int)
    requires FitsI64(us)
    ensures Quot(WrapI64(us * 1000) as int, 1000) == us <==> FitsI64(us * 1000)
  {
    var nanos := WrapI64(us * 1000) as int;
    QuotRem(nanos);
    WrapFits(us * 1000);
    if FitsI64(us * 1000) {
      QuotRem(us * 1000);
    }
  }
}
