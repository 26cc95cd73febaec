/**
 * Register-level encodings of library/src/rtc.c: the time and date
 * registers with their `*_MASK` / `*_CLEAR` pairs (rtc.c:35-60), the
 * PCF8583 layout, the MCP7941X alarm and trigger registers, the control
 * bits the facade sets and clears, and the MCP7941X power-fail stamp.
 */
module Registers {
  import opened RtcTypes
  import opened Bcd

  /*
   * Addresses (rtc.c:34-98)
   */

  const SECONDS_ADDR: uint8 := 0x00
  const CONFIG_ADDR: uint8 := 0x07
  const START_OSC_MASK: byte := 0x80
  const TIMEDATE_BYTES := 7

  const PCF8583_SLAVE: uint8 := 0x50
  const DS1307_SLAVE: uint8 := 0x68
  const BQ32000_SLAVE: uint8 := 0x68
  const MCP7941X_SLAVE: uint8 := 0x6F
  const MCP7941X_SRAM_SLAVE: uint8 := 0xDE
  const MCP7941X_EEPROM_SLAVE: uint8 := 0xAE

  /** The slave address rtc_init selects for each chip (rtc.c:299-314). */
  function SlaveOf(t: RtcType): uint8
  {
    match t
    case PCF8583 => PCF8583_SLAVE
    case DS1307 => DS1307_SLAVE
    case BQ32000 => BQ32000_SLAVE
    case MCP7941X => MCP7941X_SLAVE
  }

  /*
   * Time and date registers, common to DS1307, BQ32000 and MCP7941X
   */

  /** The seven time-keeping registers 0x00-0x06, in address order. */
  datatype Field = Seconds | Minutes | Hours | Day | Date | Month | Year

  /** `RTC_*_MASK`: the bits of a register that hold its BCD value. */
  function Mask(f: Field): byte
  {
    match f
    case Seconds => 0x7f
    case Minutes => 0x7f
    case Hours => 0x3f
    case Day => 0x07
    case Date => 0x3f
    case Month => 0x1f
    case Year => 0xff
  }

  /** `RTC_*_CLEAR`: the bits of a register a write keeps (oscillator, mode
      and control bits). */
  function Clear(f: Field): byte
  {
    match f
    case Seconds => 0x80
    case Minutes => 0x80
    case Hours => 0xc0
    case Day => 0xf8
    case Date => 0xc0
    case Month => 0xe0
    case Year => 0x00
  }

  /** The largest value whose BCD code stays within the register's mask. */
  function Limit(f: Field): (n: uint8)
    ensures n <= 99
  {
    match f
    case Seconds => 79
    case Minutes => 79
    case Hours => 39
    case Day => 7
    case Date => 39
    case Month => 19
    case Year => 99
  }

  /** rtc.c:35-60: each MASK / CLEAR pair splits the byte in two. */
  lemma MaskClearComplement(f: Field)
    ensures Mask(f) == !Clear(f)
    ensures Mask(f) & Clear(f) == 0 && Mask(f) | Clear(f) == 0xff
  {
  }

  /** A value 0-99 has a BCD code clear of the CLEAR bits exactly when it is
      at most the register's limit. */
  lemma {:induction false} FitsMask(f: Field, v: uint8)
    requires v <= 99
    ensures Bin2Bcd(v) & Clear(f) == 0 <==> v <= Limit(f)
  {
    Bin2BcdNibbles(v);
    var b := Bin2Bcd(v);
    assert b == (Nibble(v / 10) << 4) | Nibble(v % 10);
  }

  /** `buffer[i] = *_CLEAR(buffer[i]); buffer[i] |= BIN2BCD(v);`: keep the
      control bits, put in the value. */
  function SetField(prior: byte, f: Field, v: uint8): byte
  {
    (prior & Clear(f)) | Bin2Bcd(v)
  }

  /** `BCD2BIN(*_MASK(b))`: the value of a register. */
  function GetField(b: byte, f: Field): uint8
  {
    Bcd2Bin(b & Mask(f))
  }

  /** Bits kept from one byte and bits put in from another, when the
      second is clear of the kept bits, come apart again. */
  lemma Combine(p: byte, c: byte, b: byte)
    requires b & c == 0
    ensures ((p & c) | b) & c == p & c
    ensures ((p & c) | b) & !c == b
  {
  }

  /** A value within the limit reads back from the register it is set
      into, and the register's CLEAR bits are kept. */
  lemma SetGetField(prior: byte, f: Field, v: uint8)
    requires v <= Limit(f)
    ensures SetField(prior, f, v) & Clear(f) == prior & Clear(f)
    ensures GetField(SetField(prior, f, v), f) == v
  {
    SetKeepsClear(prior, f, v);
    SetGetsValue(prior, f, v);
  }

  lemma SetKeepsClear(prior: byte, f: Field, v: uint8)
    requires v <= Limit(f)
    ensures SetField(prior, f, v) & Clear(f) == prior & Clear(f)
  {
    FitsMask(f, v);
    KeepAndPut(prior, f, Bin2Bcd(v));
  }

  lemma SetGetsValue(prior: byte, f: Field, v: uint8)
    requires v <= Limit(f)
    ensures GetField(SetField(prior, f, v), f) == v
  {
    FitsMask(f, v);
    KeepAndPut(prior, f, Bin2Bcd(v));
    BcdRoundTrip(v);
  }

  /** A code clear of a field's CLEAR bits, put into a register, is what
      MASK then selects, and the CLEAR bits are kept. */
  lemma KeepAndPut(prior: byte, f: Field, b: byte)
    requires b & Clear(f) == 0
    ensures ((prior & Clear(f)) | b) & Clear(f) == prior & Clear(f)
    ensures ((prior & Clear(f)) | b) & Mask(f) == b
  {
    var c := Clear(f);
    assert Mask(f) == !c by { MaskClearComplement(f); }
    Combine(prior, c, b);
  }

  /** The field of a record stored in a given register. */
  function FieldOf(t: Time, f: Field): uint8
  {
    match f
    case Seconds => t.seconds
    case Minutes => t.minutes
    case Hours => t.hours
    case Day => t.weekday
    case Date => t.monthday
    case Month => t.month
    case Year => t.year
  }

  /** The registers 0x00-0x06 in address order. */
  const TIME_FIELDS: seq<Field> := [Seconds, Minutes, Hours, Day, Date, Month, Year]

  /** The guard of rtc_set_gmt_time (rtc.c:562-569): the record it accepts. */
  predicate Settable(t: Time)
  {
    !(t.seconds > 59 || t.minutes > 59 || t.hours > 24 || t.weekday > 7 ||
      t.monthday > 31 || t.month > 12 || t.year > 99)
  }

  /** The seven bytes rtc_set_gmt_time writes back over the seven it read
      (rtc.c:604-623 and 633-652). */
  function EncodeTime(prior: seq<byte>, t: Time): (r: seq<byte>)
    requires |prior| == TIMEDATE_BYTES
    ensures |r| == TIMEDATE_BYTES
  {
    [SetField(prior[0], Seconds, t.seconds), SetField(prior[1], Minutes, t.minutes),
     SetField(prior[2], Hours, t.hours), SetField(prior[3], Day, t.weekday),
     SetField(prior[4], Date, t.monthday), SetField(prior[5], Month, t.month),
     SetField(prior[6], Year, t.year)]
  }

  /** The record rtc_get_gmt_time decodes from registers 0x00-0x06 on
      DS1307, BQ32000 and MCP7941X (rtc.c:468-485). */
  function DecodeTime(b: seq<byte>): Time
    requires |b| == TIMEDATE_BYTES
  {
    Time(GetField(b[0], Seconds), GetField(b[1], Minutes), GetField(b[2], Hours),
         GetField(b[3], Day), GetField(b[4], Date), GetField(b[5], Month),
         GetField(b[6], Year))
  }

  /** Every record the guard accepts fits its registers. */
  lemma SettableFits(t: Time)
    requires Settable(t)
    ensures forall i :: 0 <= i < 7 ==> FieldOf(t, TIME_FIELDS[i]) <= Limit(TIME_FIELDS[i])
  {
  }

  /** Register i is written with field i of the record. */
  lemma EncodeTimeAt(prior: seq<byte>, t: Time, i: nat)
    requires |prior| == TIMEDATE_BYTES && i < TIMEDATE_BYTES
    ensures EncodeTime(prior, t)[i] == SetField(prior[i], TIME_FIELDS[i], FieldOf(t, TIME_FIELDS[i]))
  {
  }

  /** Writing an accepted record keeps the CLEAR bits of each register, and
      decoding the registers gives the record back. */
  lemma TimeRoundTrip(prior: seq<byte>, t: Time)
    requires |prior| == TIMEDATE_BYTES && Settable(t)
    ensures forall i :: 0 <= i < 7 ==> EncodeTime(prior, t)[i] & Clear(TIME_FIELDS[i]) == prior[i] & Clear(TIME_FIELDS[i])
    ensures DecodeTime(EncodeTime(prior, t)) == t
  {
    var e := EncodeTime(prior, t);
    forall i | 0 <= i < 7
      ensures e[i] & Clear(TIME_FIELDS[i]) == prior[i] & Clear(TIME_FIELDS[i])
      ensures GetField(e[i], TIME_FIELDS[i]) == FieldOf(t, TIME_FIELDS[i])
    {
      EncodeTimeAt(prior, t, i);
      SetGetField(prior[i], TIME_FIELDS[i], FieldOf(t, TIME_FIELDS[i]));
    }
    assert GetField(e[0], Seconds) == t.seconds && GetField(e[1], Minutes) == t.minutes
      && GetField(e[2], Hours) == t.hours && GetField(e[3], Day) == t.weekday
      && GetField(e[4], Date) == t.monthday && GetField(e[5], Month) == t.month
      && GetField(e[6], Year) == t.year by {
      assert TIME_FIELDS[0] == Seconds && TIME_FIELDS[1] == Minutes && TIME_FIELDS[2] == Hours;
      assert TIME_FIELDS[3] == Day && TIME_FIELDS[4] == Date && TIME_FIELDS[5] == Month && TIME_FIELDS[6] == Year;
    }
  }

  /*
   * PCF8583 (rtc.c:456-464, 573-599)
   */

  /** `(weekday - 1) << 5` ORed into a `uint8_t`: the low three bits of
      weekday - 1 in bits 7-5 of the month register; weekday 0 gives -32,
      whose low byte is 0xE0. */
  function PcfWeekdayBits(w: uint8): byte
  {
    Nibble(2 * ((w + 7) % 8)) << 4
  }

  /** PcfWeekdayBits is the low byte of the C value (weekday - 1) * 32. */
  lemma PcfWeekdayBitsValue(w: uint8)
    ensures ByteValue(PcfWeekdayBits(w)) == ((w - 1) * 32) % 256
  {
    var k := (w + 7) % 8;
    assert ((w - 1) * 32) % 256 == 16 * (2 * k);
    var n := Nibble(2 * k);
    assert (n << 4) >> 4 == n;
    NibbleInverse(2 * k);
    assert NibbleValue(n << 4) == 0;
  }

  /** The bytes rtc_set_gmt_time writes, one at a time, to PCF8583 registers
      0x02-0x06: seconds, minutes, hours, day (whose year bits become 0) and
      month with the weekday in its top bits. */
  function EncodePcf(t: Time): (r: seq<byte>)
    ensures |r| == 5
  {
    [Bin2Bcd(t.seconds), Bin2Bcd(t.minutes), Bin2Bcd(t.hours), Bin2Bcd(t.monthday),
     Bin2Bcd(t.month) | PcfWeekdayBits(t.weekday)]
  }

  /** The record rtc_get_gmt_time decodes from PCF8583 registers 0x02-0x06;
      the chip keeps no year, so the year is 0. */
  function DecodePcf(b: seq<byte>): Time
    requires |b| == 5
  {
    Time(Bcd2Bin(b[0]), Bcd2Bin(b[1]), GetField(b[2], Hours),
         ToUint8(ByteValue(b[4] >> 5) + 1),
         GetField(b[3], Date), GetField(b[4], Month), 0)
  }

  /** The weekday 1-7 lands in bits 7-5, as weekday - 1. */
  lemma PcfWeekdayShift(w: uint8)
    requires 1 <= w <= 7
    ensures PcfWeekdayBits(w) & 0x1f == 0
    ensures ByteValue(PcfWeekdayBits(w) >> 5) == w - 1
  {
    assert w == 1 || w == 2 || w == 3 || w == 4 || w == 5 || w == 6 || w == 7;
  }

  /** The weekday bits and the month code do not overlap, and the weekday
      reads back through `>> 5`. */
  lemma PcfMonthRegister(w: uint8, m: uint8)
    requires 1 <= w <= 7 && m <= 19
    ensures ByteValue((Bin2Bcd(m) | PcfWeekdayBits(w)) >> 5) == w - 1
    ensures (Bin2Bcd(m) | PcfWeekdayBits(w)) & 0x1f == Bin2Bcd(m)
  {
    FitsMask(Month, m);
    PcfWeekdayShift(w);
    var b, x := Bin2Bcd(m), PcfWeekdayBits(w);
    assert b & 0xe0 == 0 && x & 0x1f == 0;
    assert (b | x) >> 5 == x >> 5;
    assert (b | x) & 0x1f == b;
  }

  /** On PCF8583 an accepted record with weekday 1-7 reads back as written,
      except that the year is 0. */
  lemma PcfRoundTrip(t: Time)
    requires Settable(t) && IsWeekday(t.weekday)
    ensures DecodePcf(EncodePcf(t)) == t.(year := 0)
  {
    var b := EncodePcf(t);
    BcdRoundTrip(t.seconds);
    BcdRoundTrip(t.minutes);
    SetGetField(0, Hours, t.hours);
    SetGetField(0, Date, t.monthday);
    assert b[2] & Mask(Hours) == SetField(0, Hours, t.hours) & Mask(Hours);
    assert b[3] & Mask(Date) == SetField(0, Date, t.monthday) & Mask(Date);
    PcfMonthRegister(t.weekday, t.month);
    BcdRoundTrip(t.month);
  }

  /** The guard lets weekday 0 through; on PCF8583 it reads back as 8. */
  lemma PcfWeekdayZero(t: Time)
    requires Settable(t) && t.weekday == 0
    ensures DecodePcf(EncodePcf(t)).weekday == 8
  {
    assert PcfWeekdayBits(0) == 0xE0;
    assert (Bin2Bcd(t.month) | 0xE0) >> 5 == 7;
  }

  /*
   * MCP7941X alarms (rtc.c:845-983, 1049-1070)
   */

  /** Base register of each alarm's six time registers. */
  function AlarmBase(a: AlarmId): uint8
  {
    match a
    case Alarm0 => 0x0A
    case Alarm1 => 0x11
  }

  /** The alarm's weekday register, which also holds its trigger bits. */
  function TriggerAddr(a: AlarmId): (r: uint8)
    ensures r == AlarmBase(a) + 3
  {
    match a
    case Alarm0 => 0x0D
    case Alarm1 => 0x14
  }

  /** The six bytes rtc_set_alarm writes back over the six alarm registers
      it read: seconds, minutes, hours, weekday, date, month. */
  function EncodeAlarm(prior: seq<byte>, t: Time): (r: seq<byte>)
    requires |prior| == 6
    ensures |r| == 6
  {
    [SetField(prior[0], Seconds, t.seconds), SetField(prior[1], Minutes, t.minutes),
     SetField(prior[2], Hours, t.hours), SetField(prior[3], Day, t.weekday),
     SetField(prior[4], Date, t.monthday), SetField(prior[5], Month, t.month)]
  }

  /** rtc_read_alarm on MCP7941X: six fields of the static record decoded,
      its year left as it was. */
  function DecodeAlarm(b: seq<byte>, prev: Time): Time
    requires |b| == 6
  {
    prev.(seconds := GetField(b[0], Seconds), minutes := GetField(b[1], Minutes),
          hours := GetField(b[2], Hours), weekday := GetField(b[3], Day),
          monthday := GetField(b[4], Date), month := GetField(b[5], Month))
  }

  /** An alarm time whose six fields fit their registers. */
  predicate AlarmFits(t: Time)
  {
    t.seconds <= Limit(Seconds) && t.minutes <= Limit(Minutes) && t.hours <= Limit(Hours)
    && t.weekday <= Limit(Day) && t.monthday <= Limit(Date) && t.month <= Limit(Month)
  }

  /** The mask bits 6-4 each non-weekday trigger selects (rtc.c:877-899). */
  function TriggerBits(trig: Trigger): byte
  {
    match trig
    case AlarmSeconds => 0x00
    case AlarmMinutes => 0x10
    case AlarmHours => 0x20
    case AlarmDay => 0x30
    case AlarmDate => 0x40
    case AlarmSecMinHourDayDateMonth => 0x70
    case AlarmWeekday => 0x00
  }

  /** The trigger register after rtc_set_alarm: for every trigger but
      RTC_ALARM_WEEKDAY bits 6-3 are cleared and the trigger's bits ORed in;
      bit 7 (polarity) is always set (rtc.c:874-904). */
  function TriggerByte(prior: byte, trig: Trigger): byte
  {
    (if trig == AlarmWeekday then prior else (prior & !0x78) | TriggerBits(trig)) | 0x80
  }

  /** The six non-weekday triggers have pairwise distinct patterns. */
  lemma TriggerBitsDistinct(a: Trigger, b: Trigger)
    requires a != AlarmWeekday && b != AlarmWeekday
    ensures TriggerBits(a) == TriggerBits(b) <==> a == b
  {
  }

  /** What the trigger register holds: the pattern in bits 6-4 with bit 3
      (the interrupt flag) cleared, or bits 6-3 as they were for
      RTC_ALARM_WEEKDAY; bit 7 set; the weekday in bits 2-0 untouched. */
  lemma TriggerRegister(prior: byte, trig: Trigger)
    ensures trig != AlarmWeekday ==> TriggerByte(prior, trig) & 0x78 == TriggerBits(trig)
    ensures trig == AlarmWeekday ==> TriggerByte(prior, trig) & 0x78 == prior & 0x78
    ensures TriggerByte(prior, trig) & 0x80 == 0x80
    ensures TriggerByte(prior, trig) & 0x07 == prior & 0x07
  {
  }

  /** An alarm that fits its registers reads back as set, even though its
      weekday register is rewritten by the trigger update. */
  lemma AlarmRoundTrip(prior: seq<byte>, t: Time, trig: Trigger, prev: Time)
    requires |prior| == 6 && AlarmFits(t)
    ensures var e := EncodeAlarm(prior, t);
      DecodeAlarm(e[3 := TriggerByte(e[3], trig)], prev)
      == prev.(seconds := t.seconds, minutes := t.minutes, hours := t.hours,
               weekday := t.weekday, monthday := t.monthday, month := t.month)
  {
    var e := EncodeAlarm(prior, t);
    SetGetField(prior[0], Seconds, t.seconds);
    SetGetField(prior[1], Minutes, t.minutes);
    SetGetField(prior[2], Hours, t.hours);
    SetGetField(prior[3], Day, t.weekday);
    SetGetField(prior[4], Date, t.monthday);
    SetGetField(prior[5], Month, t.month);
    TriggerRegister(e[3], trig);
    assert TriggerByte(e[3], trig) & Mask(Day) == e[3] & Mask(Day);
  }

  /** Control register 0x07 after rtc_set_alarm: square wave off, the
      alarm's enable bit on (rtc.c:909-913, 976-980). */
  function AlarmEnable(prior: byte, a: AlarmId): byte
  {
    (prior & !0x40) | (if a == Alarm0 then 0x10 else 0x20)
  }

  /** Control register 0x07 after rtc_disable_alarm (rtc.c:1006-1016). */
  function AlarmDisable(prior: byte, a: AlarmId): byte
  {
    prior & !(if a == Alarm0 then 0x10 else 0x20)
  }

  /** Enabling and disabling an alarm touch only that alarm's bit (and
      enabling, the square-wave bit): the bit ends up set, then clear. */
  lemma AlarmEnableBits(prior: byte, a: AlarmId)
    ensures var bit: byte := if a == Alarm0 then 0x10 else 0x20;
      AlarmEnable(prior, a) & bit == bit && AlarmEnable(prior, a) & 0x40 == 0
      && AlarmEnable(prior, a) & !(bit | 0x40) == prior & !(bit | 0x40)
      && AlarmDisable(prior, a) & bit == 0 && AlarmDisable(prior, a) & !bit == prior & !bit
  {
  }

  /*
   * PCF8583 alarm (rtc.c:809-842, 1030-1038)
   */

  /** The raw binary bytes rtc_set_alarm writes to PCF8583 registers
      0x10-0x14: no BCD coding, and no weekday. */
  function PcfAlarmBytes(t: Time): (r: seq<byte>)
    ensures |r| == 5
  {
    [ByteOf(t.seconds), ByteOf(t.minutes), ByteOf(t.hours), ByteOf(t.monthday), ByteOf(t.month)]
  }

  /** The PCF8583 alarm-control register 8 after rtc_set_alarm: bits 5-4
      cleared, bit 7 set, then day / weekday / date bits per trigger. */
  function PcfAlarmControl(prior: byte, trig: Trigger): byte
  {
    var temp := (prior & !0x30) | 0x80;
    match trig
    case AlarmDay => temp | 0x10
    case AlarmWeekday => temp | 0x20
    case AlarmDate => temp | 0x30
    case _ => temp
  }

  /** The alarm-control byte sets bit 7, puts 01 / 10 / 11 / 00 in bits 5-4
      and keeps bits 6 and 3-0. */
  lemma PcfAlarmControlBits(prior: byte, trig: Trigger)
    ensures PcfAlarmControl(prior, trig) & 0x80 == 0x80
    ensures PcfAlarmControl(prior, trig) & 0x4F == prior & 0x4F
    ensures PcfAlarmControl(prior, trig) & 0x30
            == (match trig
                case AlarmDay => 0x10
                case AlarmWeekday => 0x20
                case AlarmDate => 0x30
                case _ => 0x00)
  {
  }

  /** rtc_read_alarm on PCF8583: the raw bytes of registers 0x0A-0x0E into
      seconds, minutes, hours, day and month of the static record. */
  function DecodePcfAlarm(b: seq<byte>, prev: Time): Time
    requires |b| == 5
  {
    prev.(seconds := ByteValue(b[0]), minutes := ByteValue(b[1]), hours := ByteValue(b[2]),
          monthday := ByteValue(b[3]), month := ByteValue(b[4]))
  }

  /*
   * Square-wave output, battery and oscillator bits (rtc.c:317-319, 340-438)
   */

  /** rtc_init: the oscillator-start bit 7 of register 0x00 set. */
  function StartOscillator(prior: byte): byte
  {
    prior | START_OSC_MASK
  }

  /** `if((!status) & 0x80)` (rtc.c:321): C's `!` yields 0 or 1, so the
      condition is never true and its block never runs. */
  lemma RestartNeverRuns(status: byte)
    ensures (if status == 0 then 1 else 0) as bv8 & 0x80 == 0
  {
  }

  /** rtc_enable_swo on DS1307: SQWE (bit 4) set, then the rate bits 1-0.
      As written the 8.192 kHz case only sets bit 1 (rtc.c:362). */
  function Ds1307SwoControl(prior: byte, swo: Swo): byte
  {
    var temp := prior | 0x10;
    match swo
    case Swo1Hz => temp & !0x03
    case Swo4096Hz => (temp & !0x02) | 0x01
    case Swo8192Hz => temp | 0x02
    case Swo32768Hz => temp | 0x03
  }

  /** The rate code of each frequency, as DS1307 and MCP7941X both number it. */
  function RateCode(swo: Swo): byte
  {
    match swo
    case Swo1Hz => 0
    case Swo4096Hz => 1
    case Swo8192Hz => 2
    case Swo32768Hz => 3
  }

  /** On DS1307 SQWE ends up set and bits 7-5 and 3-2 are kept; the rate
      bits get the frequency's code, except that 8.192 kHz keeps bit 0, so
      that from a 4.096 or 32.768 kHz setting it selects 32.768 kHz. */
  lemma Ds1307SwoBits(prior: byte, swo: Swo)
    ensures Ds1307SwoControl(prior, swo) & 0x10 == 0x10
    ensures Ds1307SwoControl(prior, swo) & 0xEC == prior & 0xEC
    ensures swo != Swo8192Hz ==> Ds1307SwoControl(prior, swo) & 0x03 == RateCode(swo)
    ensures swo == Swo8192Hz ==> Ds1307SwoControl(prior, swo) & 0x03 == 0x02 | (prior & 0x01)
  {
  }

  /** rtc_enable_swo on MCP7941X: SQWEN (bit 6) set, rate bits 2-0 replaced. */
  function McpSwoControl(prior: byte, swo: Swo): byte
  {
    ((prior | 0x40) & !0x07) | RateCode(swo)
  }

  /** On MCP7941X SQWEN ends up set, bits 2-0 hold the rate code and bits 7
      and 5-3 are kept. */
  lemma McpSwoBits(prior: byte, swo: Swo)
    ensures McpSwoControl(prior, swo) & 0x40 == 0x40
    ensures McpSwoControl(prior, swo) & 0x07 == RateCode(swo)
    ensures McpSwoControl(prior, swo) & 0xB8 == prior & 0xB8
  {
  }

  /** rtc_disable_swo on DS1307 as written: clears bit 7 (OUT), leaving
      SQWE (bit 4) set (rtc.c:415). */
  function Ds1307SwoOff(prior: byte): byte
  {
    prior & !0x80
  }

  /** rtc_disable_swo on MCP7941X: clears SQWEN (bit 6). */
  function McpSwoOff(prior: byte): byte
  {
    prior & !0x40
  }

  /** Disabling the output on DS1307 changes only bit 7; a square wave
      enabled by rtc_enable_swo stays enabled. Disabling on MCP7941X
      clears just SQWEN. */
  lemma SwoOffBits(prior: byte, swo: Swo)
    ensures Ds1307SwoOff(prior) & 0x7F == prior & 0x7F
    ensures Ds1307SwoOff(Ds1307SwoControl(prior, swo)) & 0x10 == 0x10
    ensures McpSwoOff(prior) & 0x40 == 0 && McpSwoOff(prior) & !0x40 == prior & !0x40
  {
  }

  /** rtc_battery_enable and the battery step of rtc_set_alarm: VBATEN
      (bit 3 of MCP7941X register 0x03) set. */
  function BatteryOn(prior: byte): byte
  {
    prior | 0x08
  }

  /** rtc_disable_alarm on PCF8583 and the first step of rtc_set_alarm:
      bit 2 of register 0x00 set. */
  function PcfAlarmFlag(prior: byte): byte
  {
    prior | 0x04
  }

  /*
   * MCP7941X EEPROM status register 0xFF (rtc.c:1166-1204)
   */

  const EEPROM_STATUS: uint8 := 0xFF

  /** rtc_eeprom_write_protect_on: block-protect bits 3 and 2 set. */
  function ProtectOn(prior: byte): byte
  {
    prior | 0x08 | 0x04
  }

  /** rtc_eeprom_write_protect_off as written: `~(1 << 3) | (1 << 2)` is
      0xF7, so only bit 3 is cleared (rtc.c:1186). */
  function ProtectOff(prior: byte): byte
  {
    prior & (!0x08 | 0x04)
  }

  /** rtc_eeprom_is_locked as written: `(temp & (1 << 3)) | (1 << 2)`
      tested for non-zero (rtc.c:1200). */
  predicate IsLocked(status: byte)
  {
    (status & 0x08) | 0x04 != 0
  }

  /** Turning protection on sets both block-protect bits; turning it off
      clears bit 3 only, so after on-then-off bit 2 still protects a
      quarter of the array. */
  lemma ProtectBits(prior: byte)
    ensures ProtectOn(prior) & 0x0C == 0x0C && ProtectOn(prior) & 0xF3 == prior & 0xF3
    ensures ProtectOff(prior) == prior & !0x08
    ensures ProtectOff(ProtectOn(prior)) & 0x0C == 0x04
  {
  }

  /** Whatever the status register holds, `rtc_eeprom_is_locked` says it
      is locked. */
  lemma AlwaysLocked(status: byte)
    ensures IsLocked(status)
    ensures IsLocked(ProtectOff(status))
  {
  }

  /*
   * MCP7941X power-fail time stamp (rtc.c:780-793)
   */

  /** The stamp as written: the weekday is BCD2BIN of the three weekday
      bits left in place. */
  function PowerFailStampAsWritten(b: seq<byte>, prev: Time): Time
    requires |b| == 4
  {
    prev.(minutes := GetField(b[0], Minutes), hours := GetField(b[1], Hours),
          monthday := GetField(b[2], Date), weekday := Bcd2Bin(b[3] & 0xE0),
          month := Bcd2Bin(b[3] & 0x1F))
  }

  /** The stamp as intended: bits 7-5 of the power-down month register
      shifted down to the weekday 1-7. */
  function PowerFailStamp(b: seq<byte>, prev: Time): Time
    requires |b| == 4
  {
    prev.(minutes := GetField(b[0], Minutes), hours := GetField(b[1], Hours),
          monthday := GetField(b[2], Date), weekday := ByteValue(b[3] >> 5),
          month := Bcd2Bin(b[3] & 0x1F))
  }

  /** As written, the weekday is 20 times the intended one: a multiple of
      20, never a day 1-7. */
  lemma PowerFailWeekdayAsWritten(b: seq<byte>, prev: Time)
    requires |b| == 4
    ensures PowerFailStampAsWritten(b, prev).weekday == 20 * PowerFailStamp(b, prev).weekday
    ensures !IsWeekday(PowerFailStampAsWritten(b, prev).weekday)
    ensures PowerFailStampAsWritten(b, prev) == PowerFailStamp(b, prev).(weekday := PowerFailStampAsWritten(b, prev).weekday)
  {
    var x := b[3];
    assert (x & 0xE0) & 0xF == 0;
    assert ((x & 0xE0) >> 4) & 0xF == ((x >> 5) << 1) & 0xF;
    assert NibbleValue((x & 0xE0) >> 4) == 2 * NibbleValue(x >> 5) by {
      var w := x >> 5;
      assert w == 0 || w == 1 || w == 2 || w == 3 || w == 4 || w == 5 || w == 6 || w == 7;
    }
    assert ByteValue(x >> 5) == NibbleValue(x >> 5);
  }

  /** A stamp register holding Wednesday (3) in bits 7-5 and January in
      BCD: as written the weekday reads 60. */
  lemma PowerFailWednesday()
    ensures PowerFailStampAsWritten([0, 0, 0, 0x61], ZERO_TIME).weekday == 60
    ensures PowerFailStamp([0, 0, 0, 0x61], ZERO_TIME).weekday == WEDNESDAY
    ensures PowerFailStamp([0, 0, 0, 0x61], ZERO_TIME).month == JANUARY
  {
    assert (0x61 as bv8) >> 5 == 0x03;
  }

  /** The intended decode returns the weekday 1-7 and BCD month packed into
      the power-down month register. */
  lemma PowerFailStampRoundTrip(w: uint8, m: uint8, b: seq<byte>, prev: Time)
    requires IsWeekday(w) && IsMonth(m) && |b| == 4
    requires b[3] == ByteOf(w * 32) | Bin2Bcd(m)
    ensures PowerFailStamp(b, prev).weekday == w && PowerFailStamp(b, prev).month == m
  {
    var x, y := ByteOf(w * 32), Bin2Bcd(m);
    assert y & 0xE0 == 0 by { FitsMask(Month, m); }
    StampWeekdayBits(w);
    SplitAtBit5(x, y);
    BcdRoundTrip(m);
    ByteValueOf(w);
  }

  /** A weekday times 32 occupies bits 7-5 only, and shifts back down. */
  lemma StampWeekdayBits(w: uint8)
    requires IsWeekday(w)
    ensures ByteOf(w * 32) & 0x1F == 0 && ByteOf(w * 32) >> 5 == ByteOf(w)
  {
    assert w == 1 || w == 2 || w == 3 || w == 4 || w == 5 || w == 6 || w == 7;
  }

  /** A byte made of bits 7-5 of one byte and bits 4-0 of another. */
  lemma SplitAtBit5(x: byte, y: byte)
    requires x & 0x1F == 0 && y & 0xE0 == 0
    ensures (x | y) & 0x1F == y && (x | y) >> 5 == x >> 5
  {
  }
}
