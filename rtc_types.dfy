/**
 * Data types of the RTC driver interface (library/include/rtc.h): the chip
 * families, the calendar record `rtc_time_t`, the square-wave, alarm and
 * trigger selectors and the month and weekday constants.
 */
module RtcTypes {

  /** An `uint8_t` used as a number: the fields of a time record. */
  type uint8 = x: int | 0 <= x < 256

  /** An `uint8_t` used as a bit pattern: a register of a chip. */
  type byte = bv8

  /** An `int8_t`, the type of the time-zone offset. */
  newtype int8 = x: int | -128 <= x < 128

  datatype Option<T> = None | Some(value: T)

  /** `rtc_type_t`: the four supported chip families, in declaration order. */
  datatype RtcType = PCF8583 | DS1307 | BQ32000 | MCP7941X
  {
    /** The enumerator's integer value. */
    function Code(): (n: nat)
      ensures n <= 3
    {
      match this
      case PCF8583 => 0
      case DS1307 => 1
      case BQ32000 => 2
      case MCP7941X => 3
    }
  }

  /** The chip family an `rtc_type_t` value denotes, if any. */
  function TypeFromCode(n: nat): (t: Option<RtcType>)
    ensures t.Some? <==> n <= 3
    ensures t.Some? ==> t.value.Code() == n
  {
    if n == 0 then Some(PCF8583)
    else if n == 1 then Some(DS1307)
    else if n == 2 then Some(BQ32000)
    else if n == 3 then Some(MCP7941X)
    else None
  }

  /** `rtc_time_t`: seven `uint8_t` fields; `year` counts from 2000. */
  datatype Time = Time(seconds: uint8, minutes: uint8, hours: uint8, weekday: uint8,
                       monthday: uint8, month: uint8, year: uint8)

  /** A record with every field zero (`{0}`, or a zero-initialised static). */
  const ZERO_TIME := Time(0, 0, 0, 0, 0, 0, 0)

  /** `rtc_swo_t`: square-wave output frequencies. */
  datatype Swo = Swo1Hz | Swo4096Hz | Swo8192Hz | Swo32768Hz

  /** `rtc_alarm_t`: there are exactly two alarms. */
  datatype AlarmId = Alarm0 | Alarm1

  /** `rtc_alarm_trigger_t`, in declaration order. */
  datatype Trigger =
    | AlarmSeconds | AlarmMinutes | AlarmHours | AlarmDay | AlarmDate
    | AlarmSecMinHourDayDateMonth | AlarmWeekday

  /** `rtc_month_t`: JANUARY = 1 ... DECEMBER = 12. */
  const JANUARY: uint8 := 1
  const FEBRUARY: uint8 := 2
  const MARCH: uint8 := 3
  const APRIL: uint8 := 4
  const MAY: uint8 := 5
  const JUNE: uint8 := 6
  const JULY: uint8 := 7
  const AUGUST: uint8 := 8
  const SEPTEMBER: uint8 := 9
  const OCTOBER: uint8 := 10
  const NOVEMBER: uint8 := 11
  const DECEMBER: uint8 := 12

  /** `rtc_day_t`: MONDAY = 1 ... SUNDAY = 7. */
  const MONDAY: uint8 := 1
  const TUESDAY: uint8 := 2
  const WEDNESDAY: uint8 := 3
  const THURSDAY: uint8 := 4
  const FRIDAY: uint8 := 5
  const SATURDAY: uint8 := 6
  const SUNDAY: uint8 := 7

  /** Whether a value is one of the seven `rtc_day_t` enumerators. */
  predicate IsWeekday(d: uint8)
  {
    MONDAY <= d <= SUNDAY
  }

  /** Whether a value is one of the twelve `rtc_month_t` enumerators. */
  predicate IsMonth(m: uint8)
  {
    JANUARY <= m <= DECEMBER
  }

  /** The `uint8_t` a C integer becomes when it is stored into one. */
  function ToUint8(x: int): (b: uint8)
    ensures 0 <= x < 256 ==> b == x
  {
    x % 256
  }
}
