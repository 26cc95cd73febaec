/**
 * The register transactions and the values of the public functions of
 * library/src/rtc.c, as functions of the bus state they start from, and the
 * properties they have: what is set reads back, what a write leaves alone,
 * and how the local time relates to the GMT time.
 *
 * The class in facade.dfy performs these transactions one call at a time;
 * each of its methods is specified by the function here of the same name.
 */
module Driver {
  import opened RtcTypes
  import opened Bcd
  import opened Calendar
  import opened Registers
  import opened Transport
  import opened Memory

  /*
   * The fixed-width integers of rtc_get_local_time (rtc.c:495-554)
   */

  const UINT32_MODULUS := 0x1_0000_0000
  const LONG_MAX := 0x7FFF_FFFF

  /** A value stored into a `uint32_t`: its residue modulo 2^32. */
  function Uint32(x: int): (u: int)
    ensures 0 <= u < UINT32_MODULUS
    ensures (x - u) % UINT32_MODULUS == 0
  {
    x % UINT32_MODULUS
  }

  /** A value already within `uint32_t` is stored unchanged. */
  lemma Uint32Small(x: int)
    requires 0 <= x < UINT32_MODULUS
    ensures Uint32(x) == x
  {
  }

  /** A `uint32_t` passed where a 32-bit `long` is expected: the two's
      complement reading of its bits. */
  function ToLong(u: int): (e: int)
    requires 0 <= u < UINT32_MODULUS
    ensures LONG_MIN <= e <= LONG_MAX
    ensures Uint32(e) == u
  {
    if u <= LONG_MAX then u else u - UINT32_MODULUS
  }

  /** Every `long` survives the trip through a `uint32_t`. */
  lemma LongRoundTrip(e: int)
    requires LONG_MIN <= e <= LONG_MAX
    ensures ToLong(Uint32(e)) == e
  {
    if e < 0 {
      assert Uint32(e) == e + UINT32_MODULUS;
    }
  }

  /** `60 * 60 * 1000`, the DST adjustment of rtc.c:519-547, in seconds. */
  const DST_ADJUSTMENT := 60 * 60 * 1000

  /*
   * rtc_init, square wave and battery (rtc.c:290-438)
   */

  /** rtc_init once its guard has passed: address the chip, read register
      0x00 and write it back with the oscillator bit set. */
  function InitSteps(t: RtcType, st: BusState): BusState
  {
    var s1 := SelectStep(st, SlaveOf(t));
    UpdateStep(s1, SECONDS_ADDR, StartOscillator(Reg(s1, SECONDS_ADDR)))
  }

  /** rtc_enable_swo: control register 0x07 updated on DS1307 and MCP7941X;
      PCF8583 and BQ32000 are left alone. */
  function EnableSwoSteps(t: RtcType, st: BusState, swo: Swo): BusState
  {
    match t
    case DS1307 => UpdateStep(st, CONFIG_ADDR, Ds1307SwoControl(Reg(st, CONFIG_ADDR), swo))
    case MCP7941X => UpdateStep(st, CONFIG_ADDR, McpSwoControl(Reg(st, CONFIG_ADDR), swo))
    case _ => st
  }

  /** rtc_disable_swo. */
  function DisableSwoSteps(t: RtcType, st: BusState): BusState
  {
    match t
    case DS1307 => UpdateStep(st, CONFIG_ADDR, Ds1307SwoOff(Reg(st, CONFIG_ADDR)))
    case MCP7941X => UpdateStep(st, CONFIG_ADDR, McpSwoOff(Reg(st, CONFIG_ADDR)))
    case _ => st
  }

  /** rtc_battery_enable: only MCP7941X, register 0x03. */
  function BatteryEnableSteps(t: RtcType, st: BusState): BusState
  {
    if t == MCP7941X then UpdateStep(st, 0x03, BatteryOn(Reg(st, 0x03))) else st
  }

  /** rtc_init starts the oscillator and touches nothing else: the chip's
      slave is addressed, bit 7 of its register 0x00 is set and bits 6-0
      are kept, every other register is as it was, and the log shows the
      address, the read and the write. */
  lemma InitStartsOscillator(t: RtcType, st: BusState)
    ensures var st' := InitSteps(t, st);
      && st'.slave == SlaveOf(t)
      && Reg(st', SECONDS_ADDR) & 0x80 == 0x80
      && Reg(st', SECONDS_ADDR) & 0x7F == Get(st.bank, Cell(SlaveOf(t), SECONDS_ADDR)) & 0x7F
      && (forall c :: c != Cell(SlaveOf(t), SECONDS_ADDR) ==> Get(st'.bank, c) == Get(st.bank, c))
      && st'.log == st.log + [Addressed(SlaveOf(t)), Fetched(SlaveOf(t), SECONDS_ADDR, 1),
                              Stored(SlaveOf(t), SECONDS_ADDR, [StartOscillator(Get(st.bank, Cell(SlaveOf(t), SECONDS_ADDR)))])]
  {
    var s1 := SelectStep(st, SlaveOf(t));
    WriteOne(ReadStep(s1, SECONDS_ADDR, 1), SECONDS_ADDR, StartOscillator(Reg(s1, SECONDS_ADDR)));
  }

  /** A one-byte update changes that register of the addressed slave and no
      other, and leaves the value it was given there. */
  lemma UpdateOnly(st: BusState, reg: uint8, value: byte)
    ensures Reg(UpdateStep(st, reg, value), reg) == value
    ensures UpdateStep(st, reg, value).slave == st.slave
    ensures forall c :: c != Cell(st.slave, reg) ==> Get(UpdateStep(st, reg, value).bank, c) == Get(st.bank, c)
  {
    WriteOne(ReadStep(st, reg, 1), reg, value);
  }

  /*
   * GMT time (rtc.c:446-491, 557-673)
   */

  const PCF_SECONDS: uint8 := 0x02

  /** The record rtc_get_gmt_time returns: five registers from 0x02 on
      PCF8583, seven from 0x00 on the other chips. */
  function GmtTimeOf(t: RtcType, st: BusState): Time
  {
    if t == PCF8583 then DecodePcf(Burst(st, PCF_SECONDS, 5))
    else DecodeTime(Burst(st, SECONDS_ADDR, TIMEDATE_BYTES))
  }

  /** The read rtc_get_gmt_time issues. */
  function GmtReadSteps(t: RtcType, st: BusState): BusState
  {
    if t == PCF8583 then ReadStep(st, PCF_SECONDS, 5) else ReadStep(st, SECONDS_ADDR, TIMEDATE_BYTES)
  }

  /** A one-byte PCF8583 write followed by its read-back (rtc.c:577-595). */
  function PcfPut(st: BusState, reg: uint8, value: byte): BusState
  {
    ReadStep(WriteStep(st, reg, [value]), reg, 1)
  }

  /** rtc_set_gmt_time once the record has passed the guard. PCF8583: stop
      the counter, write registers 0x02-0x06 one by one, each read back,
      then write 0 to register 0x00. The other chips: read the seven time
      registers, write them back with the record's fields, read them. */
  function SetGmtSteps(t: RtcType, st: BusState, time: Time): BusState
  {
    if t == PCF8583 then
      var e := EncodePcf(time);
      var s0 := WriteStep(st, 0x00, [0x80]);
      var s5 := PcfPut(PcfPut(PcfPut(PcfPut(PcfPut(s0, 0x02, e[0]), 0x03, e[1]), 0x04, e[2]), 0x05, e[3]), 0x06, e[4]);
      WriteStep(s5, 0x00, [0x00])
    else
      var written := EncodeTime(Burst(st, SECONDS_ADDR, TIMEDATE_BYTES), time);
      ReadStep(WriteStep(ReadStep(st, SECONDS_ADDR, TIMEDATE_BYTES), SECONDS_ADDR, written), SECONDS_ADDR, TIMEDATE_BYTES)
  }

  /** The registers after the one-byte writes of rtc_set_gmt_time on
      PCF8583: the counter stopped, the five encoded bytes stored at
      0x02-0x06, the counter started again. */
  function PcfTimeBank(bank: Bank, s: uint8, e: seq<byte>): Bank
    requires |e| == 5
  {
    bank[Cell(s, 0) := 0x80][Cell(s, 2) := e[0]][Cell(s, 3) := e[1]][Cell(s, 4) := e[2]]
        [Cell(s, 5) := e[3]][Cell(s, 6) := e[4]][Cell(s, 0) := 0x00]
  }

  /** The PCF8583 registers after rtc_set_gmt_time: the five encoded bytes
      in 0x02-0x06, 0 in register 0x00, everything else as it was. */
  lemma PcfSetBank(st: BusState, time: Time)
    ensures var e := EncodePcf(time);
      SetGmtSteps(PCF8583, st, time).bank == PcfTimeBank(st.bank, st.slave, e)
  {
    var e := EncodePcf(time);
    var s0 := WriteStep(st, 0x00, [0x80]);
    WriteOne(st, 0x00, 0x80);
    var s1 := PcfPut(s0, 0x02, e[0]);
    WriteOne(s0, 0x02, e[0]);
    var s2 := PcfPut(s1, 0x03, e[1]);
    WriteOne(s1, 0x03, e[1]);
    var s3 := PcfPut(s2, 0x04, e[2]);
    WriteOne(s2, 0x04, e[2]);
    var s4 := PcfPut(s3, 0x05, e[3]);
    WriteOne(s3, 0x05, e[3]);
    var s5 := PcfPut(s4, 0x06, e[4]);
    WriteOne(s4, 0x06, e[4]);
    WriteOne(s5, 0x00, 0x00);
  }

  /** rtc_set_gmt_time then rtc_get_gmt_time gives back an accepted record:
      all of it on DS1307, BQ32000 and MCP7941X, with the bits outside each
      field (oscillator, 12/24 h, status) kept; on PCF8583 all but the
      year, which the chip does not keep, when the weekday is 1-7. The
      slave addressed stays the same. */
  lemma GmtRoundTrip(t: RtcType, st: BusState, time: Time)
    requires Settable(time)
    ensures SetGmtSteps(t, st, time).slave == st.slave
    ensures t != PCF8583 ==> GmtTimeOf(t, SetGmtSteps(t, st, time)) == time
    ensures t != PCF8583 ==> forall i :: 0 <= i < TIMEDATE_BYTES ==>
      Burst(SetGmtSteps(t, st, time), SECONDS_ADDR, TIMEDATE_BYTES)[i] & Clear(TIME_FIELDS[i])
      == Burst(st, SECONDS_ADDR, TIMEDATE_BYTES)[i] & Clear(TIME_FIELDS[i])
    ensures t == PCF8583 && IsWeekday(time.weekday) ==> GmtTimeOf(t, SetGmtSteps(t, st, time)) == time.(year := 0)
  {
    if t == PCF8583 {
      PcfGmtBurst(st, time);
      if IsWeekday(time.weekday) {
        PcfRoundTrip(time);
      }
    } else {
      var prior := Burst(st, SECONDS_ADDR, TIMEDATE_BYTES);
      TimeGmtBurst(t, st, time);
      TimeRoundTrip(prior, time);
    }
  }

  /** The PCF8583 registers 0x02-0x06 after rtc_set_gmt_time hold the five
      encoded bytes. */
  lemma PcfGmtBurst(st: BusState, time: Time)
    ensures SetGmtSteps(PCF8583, st, time).slave == st.slave
    ensures Burst(SetGmtSteps(PCF8583, st, time), PCF_SECONDS, 5) == EncodePcf(time)
  {
    PcfSetBank(st, time);
    PcfTimeWindow(st.bank, st.slave, EncodePcf(time));
  }

  /** Registers 0x02-0x06 after the one-byte writes of rtc_set_gmt_time on
      PCF8583 hold the bytes written there. */
  lemma PcfTimeWindow(bank: Bank, s: uint8, e: seq<byte>)
    requires |e| == 5
    ensures Block(PcfTimeBank(bank, s, e), s, 2, 5) == e
  {
    var b := PcfTimeBank(bank, s, e);
    BlockAt(b, s, 2, 5, 0);
    BlockAt(b, s, 2, 5, 1);
    BlockAt(b, s, 2, 5, 2);
    BlockAt(b, s, 2, 5, 3);
    BlockAt(b, s, 2, 5, 4);
  }

  /** The seven time registers after rtc_set_gmt_time on DS1307, BQ32000 and
      MCP7941X hold the bytes written over those read. */
  lemma TimeGmtBurst(t: RtcType, st: BusState, time: Time)
    requires t != PCF8583
    ensures SetGmtSteps(t, st, time).slave == st.slave
    ensures Burst(SetGmtSteps(t, st, time), SECONDS_ADDR, TIMEDATE_BYTES)
            == EncodeTime(Burst(st, SECONDS_ADDR, TIMEDATE_BYTES), time)
  {
    var written := EncodeTime(Burst(st, SECONDS_ADDR, TIMEDATE_BYTES), time);
    assert SetGmtSteps(t, st, time).bank == Store(st.bank, st.slave, SECONDS_ADDR, written);
    ReadAfterWrite(st.bank, st.slave, SECONDS_ADDR, written);
  }

  /*
   * Unix times and the local time (rtc.c:495-554, 664-683)
   */

  /** rtc_get_gmt_unix_time: the epoch of the GMT record in a `uint32_t`. */
  function GmtUnixTime(gmt: Time): (u: int)
    ensures 0 <= u < UINT32_MODULUS
  {
    Uint32(DateToEpoch(gmt).epoch)
  }

  /** temp_time_unix once the time-zone offset has been added (rtc.c:499-502). */
  function ZonedUnixTime(gmt: Time, zone: int8): (u: int)
    ensures 0 <= u < UINT32_MODULUS
  {
    Uint32(GmtUnixTime(gmt) + zone as int * SEC_IN_HOUR)
  }

  /** local_time after the first conversion (rtc.c:505). */
  function ZonedTime(gmt: Time, zone: int8): Time
  {
    EpochToDate(ToLong(ZonedUnixTime(gmt, zone)))
  }

  /** The epoch of a record in a `uint32_t`, plus the DST adjustment. */
  function Advanced(local: Time): int
  {
    Uint32(Uint32(DateToEpoch(local).epoch) + DST_ADJUSTMENT)
  }

  /** temp_time_unix when it is converted for the last time (rtc.c:551).
      With DST on, the three tests of rtc.c:516-547 run as written: the
      second test assigns November to the record's month (`=` for `==`),
      so it depends on the day and hour only, and the record is in November
      when the third test compares its month with March. */
  function LocalUnixTime(gmt: Time, zone: int8, dst: bool): (u: int)
    ensures 0 <= u < UINT32_MODULUS
  {
    if !dst then ZonedUnixTime(gmt, zone) else DstUnixTime(gmt, zone)
  }

  /** temp_time_unix after the DST tests of rtc.c:516-547. */
  function DstUnixTime(gmt: Time, zone: int8): (u: int)
    ensures 0 <= u < UINT32_MODULUS
  {
    var unix := ZonedUnixTime(gmt, zone);
    var local := ZonedTime(gmt, zone);
    var w := GetDst(local.year);
    if local.month > w.start.month && local.month < w.end.month then Advanced(local)
    else
      var moved := local.(month := w.end.month);
      if moved.monthday < w.end.monthday || moved.hours < 2 then Advanced(moved)
      else if (moved.month == w.start.month && moved.monthday > w.start.monthday)
           || (moved.month == w.start.month && moved.monthday == w.start.monthday && moved.hours >= 2)
      then Advanced(moved)
      else Uint32(unix - DST_ADJUSTMENT)
  }

  /** The record rtc_get_local_time returns: the final `uint32_t` read as a
      `long` and converted by `time_epoch_to_date` as written, so a negative
      whole-day `long` lands a day early (see the Findings of README.md). */
  function LocalTimeOf(gmt: Time, zone: int8, dst: bool): Time
  {
    EpochToDate(ToLong(LocalUnixTime(gmt, zone, dst)))
  }

  /** rtc_get_local_unix_time: the epoch of the local record in a
      `uint32_t`. */
  function LocalUnixOf(gmt: Time, zone: int8, dst: bool): (u: int)
    ensures 0 <= u < UINT32_MODULUS
  {
    Uint32(DateToEpoch(LocalTimeOf(gmt, zone, dst)).epoch)
  }

  /** Without DST, and while the shifted GMT Unix time fits a `long`, the
      local time is the calendar record of the GMT Unix time moved by the
      zone's hours. */
  lemma LocalTimeShift(gmt: Time, zone: int8)
    requires 0 <= GmtUnixTime(gmt) + zone as int * SEC_IN_HOUR <= LONG_MAX
    ensures ZonedUnixTime(gmt, zone) == GmtUnixTime(gmt) + zone as int * SEC_IN_HOUR
    ensures LocalTimeOf(gmt, zone, false) == EpochToDate(ZonedUnixTime(gmt, zone))
  {
    var x := GmtUnixTime(gmt) + zone as int * SEC_IN_HOUR;
    assert ZonedUnixTime(gmt, zone) == x by { Uint32Small(x); }
    ZonedLocal(gmt, zone, x);
  }

  /** Without DST, a zoned Unix time that fits a `long` converts to the
      local record as written. */
  lemma ZonedLocal(gmt: Time, zone: int8, x: int)
    requires 0 <= x <= LONG_MAX && ZonedUnixTime(gmt, zone) == x
    ensures LocalTimeOf(gmt, zone, false) == EpochToDate(x)
  {
    assert ToLong(x) == x;
  }

  /** A Unix time that fits a `long` converts as written and as intended
      alike. */
  lemma FlooredOfLong(u: int)
    requires 0 <= u <= LONG_MAX
    ensures EpochToDateFloored(ToLong(u)) == EpochToDate(u)
  {
    assert ToLong(u) == u;
    FlooredAgrees(u);
  }

  /** In the GMT zone without DST, the local time of a valid record before
      2038 is the record itself, its weekday recomputed. */
  lemma LocalTimeInGmtZone(gmt: Time)
    requires ValidTime(gmt) && 0 <= DateToEpoch(gmt).epoch <= LONG_MAX
    ensures LocalTimeOf(gmt, 0, false) == gmt.(weekday := DateToEpoch(gmt).written.weekday + 1)
  {
    var r := DateToEpoch(gmt);
    DateToEpochToDate(gmt);
    Uint32Small(r.epoch);
    GmtZoneAt(gmt, r.epoch, EpochToDate(r.epoch));
  }

  /** In the GMT zone without DST, the local time is the calendar record of
      the GMT Unix time. */
  lemma GmtZoneAt(gmt: Time, e: int, local: Time)
    requires 0 <= e <= LONG_MAX && GmtUnixTime(gmt) == e && EpochToDate(e) == local
    ensures LocalTimeOf(gmt, 0, false) == local
  {
    assert ZonedUnixTime(gmt, 0) == e by { Uint32Small(e); }
    ZonedLocal(gmt, 0, e);
  }

  /** Without DST, rtc_get_local_unix_time is the GMT Unix time moved by the
      zone's hours, for every shifted time from 2000 to 2038. */
  lemma LocalUnixWithoutDst(gmt: Time, zone: int8)
    requires 946684800 <= ZonedUnixTime(gmt, zone) <= LONG_MAX
    ensures LocalUnixOf(gmt, zone, false) == ZonedUnixTime(gmt, zone)
  {
    UnixDateUnix(ZonedUnixTime(gmt, zone));
  }

  /** A Unix time from 2000 to 2038, converted to a record and back, is
      itself. */
  lemma UnixDateUnix(u: int)
    requires 946684800 <= u <= LONG_MAX
    ensures Uint32(DateToEpoch(EpochToDate(ToLong(u))).epoch) == u
  {
    assert ToLong(u) == u;
    EpochToDateToEpoch(u);
  }

  /** With DST on, a date from April to October is moved 1000 hours
      forward (`60 * 60 * 1000` is added to a count of seconds), not one. */
  lemma DstAddsThousandHours(gmt: Time, zone: int8)
    requires 946684800 <= ZonedUnixTime(gmt, zone) <= LONG_MAX
    requires MARCH < ZonedTime(gmt, zone).month < NOVEMBER
    ensures LocalUnixTime(gmt, zone, true) == Uint32(ZonedUnixTime(gmt, zone) + 1000 * SEC_IN_HOUR)
  {
    var u, local := ZonedUnixTime(gmt, zone), ZonedTime(gmt, zone);
    assert Uint32(DateToEpoch(local).epoch) == u by {
      UnixDateUnix(u);
    }
    var w := GetDst(local.year);
    assert w.start.month == MARCH && w.end.month == NOVEMBER;
    assert DstUnixTime(gmt, zone) == Advanced(local);
  }

  /** With DST on, a March date after the change-over Sunday, from 02:00 —
      which the comments of rtc.c:538-539 place in DST — has the adjustment
      subtracted: the branch meant for it is never reached. */
  lemma DstMarchAfterStart(gmt: Time, zone: int8)
    requires 946684800 <= ZonedUnixTime(gmt, zone) <= LONG_MAX
    requires var local := ZonedTime(gmt, zone);
      local.month == MARCH && local.monthday > GetDst(local.year).start.monthday && local.hours >= 2
    ensures LocalUnixTime(gmt, zone, true) == Uint32(ZonedUnixTime(gmt, zone) - 1000 * SEC_IN_HOUR)
  {
    var local := ZonedTime(gmt, zone);
    var w := GetDst(local.year);
    assert w.end.monthday < w.start.monthday;
  }

  /** With DST on, a record outside April-October that is before 02:00 or
      before the November change-over day is first moved to November with
      its day and time, and the adjustment added to that epoch. */
  lemma DstMovesToNovember(gmt: Time, zone: int8)
    requires var local := ZonedTime(gmt, zone);
      !(MARCH < local.month < NOVEMBER)
      && (local.monthday < GetDst(local.year).end.monthday || local.hours < 2)
    ensures LocalUnixTime(gmt, zone, true) == Advanced(ZonedTime(gmt, zone).(month := NOVEMBER))
  {
  }

  /*
   * Alarms (rtc.c:803-1076)
   */

  /** rtc_set_alarm on MCP7941X: the six alarm registers rewritten, the
      trigger register updated, the battery enabled and the alarm turned on
      in register 0x07. */
  function McpAlarmSteps(st: BusState, a: AlarmId, trig: Trigger, time: Time): BusState
  {
    var base, tr := AlarmBase(a), TriggerAddr(a);
    var s1 := WriteStep(ReadStep(st, base, 6), base, EncodeAlarm(Burst(st, base, 6), time));
    var s2 := UpdateStep(s1, tr, TriggerByte(Reg(s1, tr), trig));
    var s3 := UpdateStep(s2, 0x03, BatteryOn(Reg(s2, 0x03)));
    UpdateStep(s3, CONFIG_ADDR, AlarmEnable(Reg(s3, CONFIG_ADDR), a))
  }

  /** rtc_set_alarm on PCF8583: the alarm flag of register 0x00 set, the raw
      fields written to 0x10-0x14, the alarm-control register 8 updated. */
  function PcfAlarmSteps(st: BusState, trig: Trigger, time: Time): BusState
  {
    var s1 := UpdateStep(st, 0x00, PcfAlarmFlag(Reg(st, 0x00)));
    var s2 := WriteStep(s1, 0x10, PcfAlarmBytes(time));
    UpdateStep(s2, 0x08, PcfAlarmControl(Reg(s2, 0x08), trig))
  }

  /** rtc_set_alarm: nothing on DS1307 and BQ32000. */
  function SetAlarmSteps(t: RtcType, st: BusState, a: AlarmId, trig: Trigger, time: Time): BusState
  {
    match t
    case PCF8583 => PcfAlarmSteps(st, trig, time)
    case MCP7941X => McpAlarmSteps(st, a, trig, time)
    case _ => st
  }

  /** rtc_disable_alarm: PCF8583 sets register 0x00 bit 2 exactly as
      rtc_set_alarm does; MCP7941X clears the alarm's enable bit. */
  function DisableAlarmSteps(t: RtcType, st: BusState, a: AlarmId): BusState
  {
    match t
    case PCF8583 => UpdateStep(st, 0x00, PcfAlarmFlag(Reg(st, 0x00)))
    case MCP7941X => UpdateStep(st, CONFIG_ADDR, AlarmDisable(Reg(st, CONFIG_ADDR), a))
    case _ => st
  }

  /** The PCF8583 registers 0x0A-0x0E rtc_read_alarm reads one by one. */
  function PcfAlarmRegisters(st: BusState): (r: seq<byte>)
    ensures |r| == 5
  {
    [Reg(st, 0x0A), Reg(st, 0x0B), Reg(st, 0x0C), Reg(st, 0x0D), Reg(st, 0x0E)]
  }

  /** The record rtc_read_alarm returns, from the one it returned before. */
  function AlarmOf(t: RtcType, st: BusState, a: AlarmId, prev: Time): Time
  {
    match t
    case PCF8583 => DecodePcfAlarm(PcfAlarmRegisters(st), prev)
    case MCP7941X => DecodeAlarm(Burst(st, AlarmBase(a), 6), prev)
    case _ => prev
  }

  /** The reads rtc_read_alarm issues. */
  function ReadAlarmSteps(t: RtcType, st: BusState, a: AlarmId): BusState
  {
    match t
    case PCF8583 =>
      ReadStep(ReadStep(ReadStep(ReadStep(ReadStep(st, 0x0A, 1), 0x0B, 1), 0x0C, 1), 0x0D, 1), 0x0E, 1)
    case MCP7941X => ReadStep(st, AlarmBase(a), 6)
    case _ => st
  }

  /** The MCP7941X alarm registers after rtc_set_alarm: the six encoded
      bytes, with the trigger update in the weekday register. */
  lemma McpAlarmBurst(st: BusState, a: AlarmId, trig: Trigger, time: Time)
    ensures var e := EncodeAlarm(Burst(st, AlarmBase(a), 6), time);
      Burst(McpAlarmSteps(st, a, trig, time), AlarmBase(a), 6) == e[3 := TriggerByte(e[3], trig)]
  {
    var base, tr, s := AlarmBase(a), TriggerAddr(a), st.slave;
    var e := EncodeAlarm(Burst(st, base, 6), time);
    var s1 := WriteStep(ReadStep(st, base, 6), base, e);
    var x := TriggerByte(Reg(s1, tr), trig);
    var s2 := UpdateStep(s1, tr, x);
    var y := BatteryOn(Reg(s2, 0x03));
    var s3 := UpdateStep(s2, 0x03, y);
    var z := AlarmEnable(Reg(s3, CONFIG_ADDR), a);
    WriteOne(ReadStep(s1, tr, 1), tr, x);
    WriteOne(ReadStep(s2, 0x03, 1), 0x03, y);
    WriteOne(ReadStep(s3, CONFIG_ADDR, 1), CONFIG_ADDR, z);
    assert McpAlarmSteps(st, a, trig, time).bank
           == Store(st.bank, s, base, e)[Cell(s, tr) := x][Cell(s, 0x03) := y][Cell(s, CONFIG_ADDR) := z];
    StoreInside(st.bank, s, base, e, 3);
    assert Reg(s1, tr) == e[3];
    BurstAfterUpdates(st.bank, s, base, e, x, y, z);
  }

  /** The six alarm registers after the burst write and the three one-byte
      updates of rtc_set_alarm: the burst, with the weekday register
      replaced; registers 0x03 and 0x07 lie outside both alarms. */
  lemma BurstAfterUpdates(bank: Bank, s: uint8, base: uint8, e: seq<byte>, x: byte, y: byte, z: byte)
    requires |e| == 6 && (base == 0x0A || base == 0x11)
    ensures Block(Store(bank, s, base, e)[Cell(s, base + 3) := x][Cell(s, 0x03) := y][Cell(s, CONFIG_ADDR) := z], s, base, 6)
            == e[3 := x]
  {
    var b := Store(bank, s, base, e)[Cell(s, base + 3) := x][Cell(s, 0x03) := y][Cell(s, CONFIG_ADDR) := z];
    forall i | 0 <= i < 6
      ensures Block(b, s, base, 6)[i] == e[3 := x][i]
    {
      BlockAt(b, s, base, 6, i);
      assert Next(base, i) == base + i;
      if i != 3 {
        StoreInside(bank, s, base, e, i);
      }
    }
  }

  /** rtc_set_alarm then rtc_read_alarm on MCP7941X gives back the six
      fields of an alarm that fits its registers, whatever the trigger. */
  lemma McpAlarmRoundTrip(st: BusState, a: AlarmId, trig: Trigger, time: Time, prev: Time)
    requires AlarmFits(time)
    ensures AlarmOf(MCP7941X, SetAlarmSteps(MCP7941X, st, a, trig, time), a, prev)
            == prev.(seconds := time.seconds, minutes := time.minutes, hours := time.hours,
                     weekday := time.weekday, monthday := time.monthday, month := time.month)
  {
    McpAlarmBurst(st, a, trig, time);
    AlarmRoundTrip(Burst(st, AlarmBase(a), 6), time, trig, prev);
  }

  /** After rtc_set_alarm on MCP7941X the trigger register holds the
      trigger's pattern (or its old mask bits for RTC_ALARM_WEEKDAY) with
      the polarity bit set, the battery is enabled, the alarm's enable bit
      is on and the square wave is off. */
  lemma McpAlarmControl(st: BusState, a: AlarmId, trig: Trigger, time: Time)
    ensures var st' := McpAlarmSteps(st, a, trig, time); var tr := TriggerAddr(a);
      var bit: byte := if a == Alarm0 then 0x10 else 0x20;
      && (trig != AlarmWeekday ==> Reg(st', tr) & 0x78 == TriggerBits(trig))
      && Reg(st', tr) & 0x80 == 0x80
      && Reg(st', 0x03) & 0x08 == 0x08
      && Reg(st', CONFIG_ADDR) & bit == bit && Reg(st', CONFIG_ADDR) & 0x40 == 0
  {
    var base, tr := AlarmBase(a), TriggerAddr(a);
    var e := EncodeAlarm(Burst(st, base, 6), time);
    var s1 := WriteStep(ReadStep(st, base, 6), base, e);
    var x := TriggerByte(Reg(s1, tr), trig);
    var s2 := UpdateStep(s1, tr, x);
    var s3 := UpdateStep(s2, 0x03, BatteryOn(Reg(s2, 0x03)));
    UpdateOnly(s1, tr, x);
    UpdateOnly(s2, 0x03, BatteryOn(Reg(s2, 0x03)));
    UpdateOnly(s3, CONFIG_ADDR, AlarmEnable(Reg(s3, CONFIG_ADDR), a));
    TriggerRegister(Reg(s1, tr), trig);
    AlarmEnableBits(Reg(s3, CONFIG_ADDR), a);
  }

  /** rtc_set_alarm on PCF8583 writes the alarm to registers 0x10-0x14,
      raw, while rtc_read_alarm reads 0x0A-0x0E: what is read afterwards is
      what was read before. */
  lemma PcfAlarmNotReadBack(st: BusState, trig: Trigger, time: Time, prev: Time)
    ensures Burst(SetAlarmSteps(PCF8583, st, AlarmId.Alarm0, trig, time), 0x10, 5) == PcfAlarmBytes(time)
    ensures AlarmOf(PCF8583, SetAlarmSteps(PCF8583, st, AlarmId.Alarm0, trig, time), AlarmId.Alarm0, prev)
            == AlarmOf(PCF8583, st, AlarmId.Alarm0, prev)
  {
    var s, e := st.slave, PcfAlarmBytes(time);
    var x := PcfAlarmFlag(Reg(st, 0x00));
    var s1 := UpdateStep(st, 0x00, x);
    var s2 := WriteStep(s1, 0x10, e);
    var y := PcfAlarmControl(Reg(s2, 0x08), trig);
    var s3 := UpdateStep(s2, 0x08, y);
    assert SetAlarmSteps(PCF8583, st, AlarmId.Alarm0, trig, time) == s3;
    WriteOne(ReadStep(st, 0x00, 1), 0x00, x);
    WriteOne(ReadStep(s2, 0x08, 1), 0x08, y);
    assert s3.bank == Store(st.bank[Cell(s, 0x00) := x], s, 0x10, e)[Cell(s, 0x08) := y];
    PcfAlarmWindow(st.bank, s, e, x, y);
    assert PcfAlarmRegisters(s3) == PcfAlarmRegisters(st);
  }

  /** The PCF8583 registers after the three writes of rtc_set_alarm: the
      raw bytes at 0x10-0x14, and 0x0A-0x0E as they were. */
  lemma PcfAlarmWindow(bank: Bank, s: uint8, e: seq<byte>, x: byte, y: byte)
    requires |e| == 5
    ensures var b := Store(bank[Cell(s, 0x00) := x], s, 0x10, e)[Cell(s, 0x08) := y];
      && Block(b, s, 0x10, 5) == e
      && forall r: uint8 :: 0x0A <= r <= 0x0E ==> Get(b, Cell(s, r)) == Get(bank, Cell(s, r))
  {
    var b0 := bank[Cell(s, 0x00) := x];
    PcfAlarmBlock(b0, s, e, y);
    PcfAlarmKept(bank, s, e, x, y);
  }

  /** The five raw alarm bytes land at 0x10-0x14, past the control register. */
  lemma PcfAlarmBlock(b0: Bank, s: uint8, e: seq<byte>, y: byte)
    requires |e| == 5
    ensures Block(Store(b0, s, 0x10, e)[Cell(s, 0x08) := y], s, 0x10, 5) == e
  {
    var b1 := Store(b0, s, 0x10, e);
    var b := b1[Cell(s, 0x08) := y];
    forall i | 0 <= i < 5
      ensures Block(b, s, 0x10, 5)[i] == e[i]
    {
      BlockAt(b, s, 0x10, 5, i);
      assert Get(b, Cell(s, Next(0x10, i))) == Get(b1, Cell(s, Next(0x10, i)));
      StoreInside(b0, s, 0x10, e, i);
    }
  }

  /** The three writes leave the registers 0x0A-0x0E alone. */
  lemma PcfAlarmKept(bank: Bank, s: uint8, e: seq<byte>, x: byte, y: byte)
    requires |e| == 5
    ensures var b := Store(bank[Cell(s, 0x00) := x], s, 0x10, e)[Cell(s, 0x08) := y];
      forall r: uint8 :: 0x0A <= r <= 0x0E ==> Get(b, Cell(s, r)) == Get(bank, Cell(s, r))
  {
    var b0 := bank[Cell(s, 0x00) := x];
    forall r: uint8 | 0x0A <= r <= 0x0E
      ensures Get(Store(b0, s, 0x10, e)[Cell(s, 0x08) := y], Cell(s, r)) == Get(bank, Cell(s, r))
    {
      assert !InWindow(0x10, |e|, r);
      StoreOutside(b0, s, 0x10, e, Cell(s, r));
    }
  }

  /*
   * Power failure (rtc.c:730-797)
   */

  /** rtc_get_last_power_failure: on MCP7941X the four power-down registers
      from 0x18 decoded into the static stamp as rtc.c:784-789 decode them,
      the weekday included (see the Findings of README.md); the other chips
      return the stamp unchanged. */
  function PowerFailOf(t: RtcType, st: BusState, prev: Time): Time
  {
    if t == MCP7941X then PowerFailStampAsWritten(Burst(st, 0x18, 4), prev) else prev
  }

  /*
   * SRAM (rtc.c:1082-1164)
   */

  /** An accepted SRAM write of `data`: on DS1307 to the clock's own slave,
      on MCP7941X to the SRAM slave, addressed around the write. */
  function SramWriteSteps(t: RtcType, st: BusState, addr: uint8, data: seq<byte>): BusState
    requires SramAccepts(t, addr, 0)
  {
    var reg := SramRegister(t, addr);
    if t == DS1307 then WriteStep(st, reg, data)
    else SelectStep(WriteStep(SelectStep(st, MCP7941X_SRAM_SLAVE), reg, data), MCP7941X_SLAVE)
  }

  /** An accepted SRAM read of `count` bytes. */
  function SramReadSteps(t: RtcType, st: BusState, addr: uint8, count: nat): BusState
    requires SramAccepts(t, addr, 0)
  {
    var reg := SramRegister(t, addr);
    if t == DS1307 then ReadStep(st, reg, count)
    else SelectStep(ReadStep(SelectStep(st, MCP7941X_SRAM_SLAVE), reg, count), MCP7941X_SLAVE)
  }

  /** The bytes an accepted SRAM read returns. */
  function SramBytes(t: RtcType, st: BusState, addr: uint8, count: nat): (r: seq<byte>)
    requires SramAccepts(t, addr, 0)
    ensures |r| == count
  {
    Block(st.bank, if t == DS1307 then st.slave else MCP7941X_SRAM_SLAVE, SramRegister(t, addr), count)
  }

  /** What an accepted SRAM write stores, an SRAM read of the same place
      returns. */
  lemma SramRoundTrip(t: RtcType, st: BusState, addr: uint8, data: seq<byte>)
    requires SramAccepts(t, addr, |data|)
    ensures SramBytes(t, SramWriteSteps(t, st, addr, data), addr, |data|) == data
  {
    var slave := if t == DS1307 then st.slave else MCP7941X_SRAM_SLAVE;
    ReadAfterWrite(st.bank, slave, SramRegister(t, addr), data);
  }

  /** An accepted SRAM write leaves the chip's time registers 0x00-0x06
      alone. */
  lemma SramKeepsClock(t: RtcType, st: BusState, addr: uint8, data: seq<byte>)
    requires SramAccepts(t, addr, |data|)
    ensures Block(SramWriteSteps(t, st, addr, data).bank, SlaveOf(t), SECONDS_ADDR, TIMEDATE_BYTES)
            == Block(st.bank, SlaveOf(t), SECONDS_ADDR, TIMEDATE_BYTES)
  {
    var slave := if t == DS1307 then st.slave else MCP7941X_SRAM_SLAVE;
    var reg := SramRegister(t, addr);
    var bank' := SramWriteSteps(t, st, addr, data).bank;
    forall i | 0 <= i < TIMEDATE_BYTES
      ensures Get(bank', Cell(SlaveOf(t), Next(SECONDS_ADDR, i))) == Get(st.bank, Cell(SlaveOf(t), Next(SECONDS_ADDR, i)))
    {
      assert Next(SECONDS_ADDR, i) == i;
      assert (i - reg) % 256 == 256 + i - reg;
      StoreOutside(st.bank, slave, reg, data, Cell(SlaveOf(t), i as uint8));
    }
    BlockAgrees(st.bank, bank', SlaveOf(t), SECONDS_ADDR, TIMEDATE_BYTES);
  }

  /*
   * EEPROM and unique ID (rtc.c:1166-1286)
   */

  /** The byte of the MCP7941X EEPROM status register. */
  function EepromStatus(st: BusState): byte
  {
    Get(st.bank, Cell(MCP7941X_EEPROM_SLAVE, EEPROM_STATUS))
  }

  /** rtc_eeprom_write_protect_on / _off: the status register updated
      through the EEPROM slave. */
  function ProtectSteps(st: BusState, value: byte): BusState
  {
    var s1 := SelectStep(st, MCP7941X_EEPROM_SLAVE);
    SelectStep(UpdateStep(s1, EEPROM_STATUS, value), MCP7941X_SLAVE)
  }

  /** rtc_eeprom_is_locked: the status register read through the EEPROM
      slave. */
  function StatusReadSteps(st: BusState): BusState
  {
    SelectStep(ReadStep(SelectStep(st, MCP7941X_EEPROM_SLAVE), EEPROM_STATUS, 1), MCP7941X_SLAVE)
  }

  /** Turning protection on sets both protect bits; turning it off after
      that leaves bit 2 set, and rtc_eeprom_is_locked reports locked either
      way. */
  lemma ProtectStatus(st: BusState)
    ensures var on := ProtectSteps(st, ProtectOn(EepromStatus(st)));
      var off := ProtectSteps(on, ProtectOff(EepromStatus(on)));
      && EepromStatus(on) & 0x0C == 0x0C
      && EepromStatus(off) & 0x0C == 0x04
      && IsLocked(EepromStatus(on)) && IsLocked(EepromStatus(off))
  {
    var on := ProtectSteps(st, ProtectOn(EepromStatus(st)));
    UpdateOnly(SelectStep(st, MCP7941X_EEPROM_SLAVE), EEPROM_STATUS, ProtectOn(EepromStatus(st)));
    UpdateOnly(SelectStep(on, MCP7941X_EEPROM_SLAVE), EEPROM_STATUS, ProtectOff(EepromStatus(on)));
    ProtectBits(EepromStatus(st));
    AlwaysLocked(EepromStatus(on));
  }

  /** rtc_write_eeprom on MCP7941X, for every `uint8_t` size: its guard
      always passes; the EEPROM slave is addressed, the bursts of the page
      plan written, the clock addressed again. */
  function EepromWriteSteps(st: BusState, addr: uint8, data: seq<byte>): BusState
    requires |data| < 256
  {
    var cs := EepromChunks(addr, |data|);
    EepromChunksTile(addr, |data|);
    TilesCover(cs, addr, data);
    SelectStep(ChunkSteps(SelectStep(st, MCP7941X_EEPROM_SLAVE), cs, data), MCP7941X_SLAVE)
  }

  /** rtc_read_eeprom on MCP7941X: one burst through the EEPROM slave. */
  function EepromReadSteps(st: BusState, addr: uint8, count: nat): BusState
  {
    SelectStep(ReadStep(SelectStep(st, MCP7941X_EEPROM_SLAVE), addr, count), MCP7941X_SLAVE)
  }

  /** Two register offsets of the same short burst give different
      registers: from offset `j` the register pointer reaches `i < j` only
      after wrapping past all 256. */
  lemma EarlierOutside(addr: uint8, i: nat, off: nat, len: nat)
    requires i < off && off + len < 256
    ensures !InWindow(Next(addr, off), len, Next(addr, i))
  {
    var p: int, q: int := Next(addr, i), Next(addr, off);
    if addr + off < 256 {
      assert p == addr + i && q == addr + off;
    } else if addr + i < 256 {
      assert p == addr + i && q == addr + off - 256;
    } else {
      assert p == addr + i - 256 && q == addr + off - 256;
    }
    assert (p - q) % 256 == 256 + i - off;
  }

  /** After the bursts of the first n chunks of a plan for fewer than 256
      bytes, every byte those chunks cover is at its register. */
  lemma {:induction false} ChunkStepsStore(st: BusState, cs: seq<Chunk>, addr: uint8, data: seq<byte>, n: nat)
    requires |data| < 256 && Tiles(cs, addr, |data|) && 0 < n <= |cs|
    requires forall k :: 0 <= k < |cs| ==> End(cs[k]) <= |data|
    ensures forall i :: 0 <= i < End(cs[n - 1]) ==>
      Get(ChunkSteps(st, cs[..n], data).bank, Cell(st.slave, Next(addr, i))) == data[i]
  {
    var c := cs[n - 1];
    var piece := data[c.offset..End(c)];
    var p := ChunkSteps(st, cs[..n - 1], data);
    assert cs[..n][..n - 1] == cs[..n - 1];
    assert ChunkSteps(st, cs[..n], data) == WriteStep(p, c.reg, piece);
    ChunkStepsLog(st, cs[..n - 1], data);
    assert p.slave == st.slave;
    if n > 1 {
      ChunkStepsStore(st, cs, addr, data, n - 1);
      assert c.offset == End(cs[n - 2]);
    } else {
      assert c.offset == 0;
    }
    forall i | 0 <= i < End(c)
      ensures Get(Store(p.bank, st.slave, c.reg, piece), Cell(st.slave, Next(addr, i))) == data[i]
    {
      ChunkByte(p.bank, st.slave, addr, c, data, i);
    }
  }

  /** Byte i of the data after one more chunk's burst: written by it when
      the chunk covers i, else as it was. */
  lemma ChunkByte(bank: Bank, slave: uint8, addr: uint8, c: Chunk, data: seq<byte>, i: nat)
    requires End(c) <= |data| < 256 && c.reg == Next(addr, c.offset) && i < End(c)
    requires i < c.offset ==> Get(bank, Cell(slave, Next(addr, i))) == data[i]
    ensures Get(Store(bank, slave, c.reg, data[c.offset..End(c)]), Cell(slave, Next(addr, i))) == data[i]
  {
    var piece := data[c.offset..End(c)];
    if i < c.offset {
      EarlierOutside(addr, i, c.offset, c.len);
      StoreOutside(bank, slave, c.reg, piece, Cell(slave, Next(addr, i)));
    } else {
      StoreInside(bank, slave, c.reg, piece, i - c.offset);
      NextNext(addr, c.offset, i - c.offset);
    }
  }

  /** rtc_write_eeprom then rtc_read_eeprom of the same place gives back
      the data. */
  lemma EepromRoundTrip(st: BusState, addr: uint8, data: seq<byte>)
    requires |data| < 256
    ensures Block(EepromWriteSteps(st, addr, data).bank, MCP7941X_EEPROM_SLAVE, addr, |data|) == data
  {
    var cs := EepromChunks(addr, |data|);
    EepromChunksTile(addr, |data|);
    TilesCover(cs, addr, data);
    var s1 := SelectStep(st, MCP7941X_EEPROM_SLAVE);
    ChunkStepsStore(s1, cs, addr, data, |cs|);
    assert cs[..|cs|] == cs;
    var bank' := EepromWriteSteps(st, addr, data).bank;
    forall i | 0 <= i < |data|
      ensures Block(bank', MCP7941X_EEPROM_SLAVE, addr, |data|)[i] == data[i]
    {
      BlockAt(bank', MCP7941X_EEPROM_SLAVE, addr, |data|, i);
    }
  }

  /** rtc_write_eeprom issues, between addressing the EEPROM and the clock,
      only burst writes to the EEPROM of at most a page each, that carry
      the data once and in order. */
  lemma EepromWriteBursts(st: BusState, addr: uint8, data: seq<byte>)
    requires |data| < 256
    ensures var log := EepromWriteSteps(st, addr, data).log;
      && |log| >= |st.log| + 2
      && log[..|st.log|] == st.log
      && log[|st.log|] == Addressed(MCP7941X_EEPROM_SLAVE)
      && log[|log| - 1] == Addressed(MCP7941X_SLAVE)
      && (forall k :: |st.log| < k < |log| - 1 ==>
            log[k].Stored? && log[k].slave == MCP7941X_EEPROM_SLAVE && |log[k].data| <= EEPROM_PAGE_SIZE)
      && WrittenData(log[|st.log| + 1..|log| - 1]) == data
  {
    var cs := EepromChunks(addr, |data|);
    EepromChunksTile(addr, |data|);
    TilesCover(cs, addr, data);
    var s1 := SelectStep(st, MCP7941X_EEPROM_SLAVE);
    ChunkStepsLog(s1, cs, data);
    ChunkWritesData(MCP7941X_EEPROM_SLAVE, cs, data);
    var ws := ChunkWrites(MCP7941X_EEPROM_SLAVE, cs, data);
    var log := EepromWriteSteps(st, addr, data).log;
    assert log == st.log + [Addressed(MCP7941X_EEPROM_SLAVE)] + ws + [Addressed(MCP7941X_SLAVE)];
    assert log[|st.log| + 1..|log| - 1] == ws;
    ChunkWritesShape(MCP7941X_EEPROM_SLAVE, cs, data);
  }

  /** Each write of a chunk list goes to the slave given and carries that
      chunk's bytes. */
  lemma {:induction false} ChunkWritesShape(slave: uint8, cs: seq<Chunk>, data: seq<byte>)
    requires forall k :: 0 <= k < |cs| ==> End(cs[k]) <= |data|
    ensures var ws := ChunkWrites(slave, cs, data);
      forall k :: 0 <= k < |cs| ==> ws[k].Stored? && ws[k].slave == slave && |ws[k].data| == cs[k].len
  {
    if |cs| > 0 {
      ChunkWritesShape(slave, cs[..|cs| - 1], data);
    }
  }

  const UNIQUE_ID_ADDR: uint8 := 0xF0
  const ID_UNLOCK_ADDR: uint8 := 0x09

  /** rtc_read_unique_id on MCP7941X: eight bytes from 0xF0 of the EEPROM. */
  function UniqueIdReadSteps(st: BusState): BusState
  {
    SelectStep(ReadStep(SelectStep(st, MCP7941X_EEPROM_SLAVE), UNIQUE_ID_ADDR, 8), MCP7941X_SLAVE)
  }

  /** rtc_write_unique_id on MCP7941X with an id: the unlock sequence 0x55,
      0xAA to register 0x09, then the eight bytes to 0xF0. */
  function UniqueIdWriteSteps(st: BusState, id: seq<byte>): BusState
    requires |id| == 8
  {
    var s1 := SelectStep(st, MCP7941X_EEPROM_SLAVE);
    var s2 := WriteStep(WriteStep(s1, ID_UNLOCK_ADDR, [0x55]), ID_UNLOCK_ADDR, [0xAA]);
    SelectStep(WriteStep(s2, UNIQUE_ID_ADDR, id), MCP7941X_SLAVE)
  }

  /** rtc_write_unique_id then rtc_read_unique_id gives back the id; the
      unlock register is left holding the second unlock byte. */
  lemma UniqueIdRoundTrip(st: BusState, id: seq<byte>)
    requires |id| == 8
    ensures Block(UniqueIdWriteSteps(st, id).bank, MCP7941X_EEPROM_SLAVE, UNIQUE_ID_ADDR, 8) == id
    ensures Get(UniqueIdWriteSteps(st, id).bank, Cell(MCP7941X_EEPROM_SLAVE, ID_UNLOCK_ADDR)) == 0xAA
  {
    var s1 := SelectStep(st, MCP7941X_EEPROM_SLAVE);
    var s2 := WriteStep(WriteStep(s1, ID_UNLOCK_ADDR, [0x55]), ID_UNLOCK_ADDR, [0xAA]);
    WriteOne(WriteStep(s1, ID_UNLOCK_ADDR, [0x55]), ID_UNLOCK_ADDR, 0xAA);
    ReadAfterWrite(s2.bank, MCP7941X_EEPROM_SLAVE, UNIQUE_ID_ADDR, id);
    assert !InWindow(UNIQUE_ID_ADDR, 8, ID_UNLOCK_ADDR);
    StoreOutside(s2.bank, MCP7941X_EEPROM_SLAVE, UNIQUE_ID_ADDR, id, Cell(MCP7941X_EEPROM_SLAVE, ID_UNLOCK_ADDR));
  }
}
