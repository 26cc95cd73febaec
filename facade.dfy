/**
 * The public interface of library/src/rtc.c as a class: the module state of
 * the driver (chip family, time zone, DST switch, the static records it
 * returns) and one method per public function, each talking to the bus one
 * transaction at a time and specified by the function of module Driver
 * that describes those transactions.
 */
module Facade {
  import opened RtcTypes
  import opened Calendar
  import opened Registers
  import opened Transport
  import opened Memory
  import opened Driver

  class Rtc {
    /** The I2C bus through rtc_hal. */
    const bus: Bus
    /** current_type */
    var currentType: RtcType
    /** current_time_zone */
    var timeZone: int8
    /** dst_enabled */
    var dstEnabled: bool
    /** current_local_time (rtc.c:118): declared and consulted by
        rtc_is_leap_year, never assigned, so every field stays 0. */
    const currentLocalTime: Time := ZERO_TIME
    /** The static record rtc_read_alarm fills (rtc.c:1026). */
    var alarmTime: Time
    /** The static record rtc_get_last_power_failure fills (rtc.c:765). */
    var powerFailStamp: Time

    /** The module state at start-up: zero-initialised statics. */
    constructor(bus: Bus)
      ensures this.bus == bus
      ensures currentType == PCF8583 && timeZone == 0 && !dstEnabled
      ensures alarmTime == ZERO_TIME && powerFailStamp == ZERO_TIME
    {
      this.bus := bus;
      currentType := PCF8583;
      timeZone := 0;
      dstEnabled := false;
      alarmTime := ZERO_TIME;
      powerFailStamp := ZERO_TIME;
    }

    /** rtc_init (rtc.c:290-328): -1 and nothing done for a type code past
        RTC6_MCP7941X or a zone outside -12..14; otherwise the type and zone
        are recorded and the oscillator started. */
    method Init(code: nat, zone: int8) returns (status: int)
      modifies this, bus
      ensures status == -1 <==> code > MCP7941X.Code() || zone > 14 || zone < -12
      ensures status == -1 ==> unchanged(this) && bus.State() == old(bus.State())
      ensures status != -1 ==>
        && status == 0
        && currentType == TypeFromCode(code).value && timeZone == zone
        && dstEnabled == old(dstEnabled)
        && alarmTime == old(alarmTime) && powerFailStamp == old(powerFailStamp)
        && bus.State() == InitSteps(currentType, old(bus.State()))
    {
      if code > MCP7941X.Code() || zone > 14 || zone < -12 {
        return -1;
      }
      currentType := TypeFromCode(code).value;
      timeZone := zone;
      bus.SetSlave(SlaveOf(currentType));
      var temp := bus.Read(SECONDS_ADDR, 1);
      bus.Write(SECONDS_ADDR, [StartOscillator(temp[0])]);
      // rtc.c:321-325 never runs: see Registers.RestartNeverRuns
      return 0;
    }

    /** rtc_enable_dst */
    method EnableDst()
      modifies this
      ensures dstEnabled
      ensures currentType == old(currentType) && timeZone == old(timeZone)
      ensures alarmTime == old(alarmTime) && powerFailStamp == old(powerFailStamp)
    {
      dstEnabled := true;
    }

    /** rtc_disable_dst */
    method DisableDst()
      modifies this
      ensures !dstEnabled
      ensures currentType == old(currentType) && timeZone == old(timeZone)
      ensures alarmTime == old(alarmTime) && powerFailStamp == old(powerFailStamp)
    {
      dstEnabled := false;
    }

    /** rtc_enable_swo (rtc.c:340-403) */
    method EnableSwo(swo: Swo)
      modifies bus
      ensures bus.State() == EnableSwoSteps(currentType, old(bus.State()), swo)
    {
      if currentType == DS1307 {
        var temp := bus.Read(CONFIG_ADDR, 1);
        bus.Write(CONFIG_ADDR, [Ds1307SwoControl(temp[0], swo)]);
      } else if currentType == MCP7941X {
        var temp := bus.Read(CONFIG_ADDR, 1);
        bus.Write(CONFIG_ADDR, [McpSwoControl(temp[0], swo)]);
      }
    }

    /** rtc_disable_swo (rtc.c:405-424) */
    method DisableSwo()
      modifies bus
      ensures bus.State() == DisableSwoSteps(currentType, old(bus.State()))
    {
      if currentType == DS1307 {
        var temp := bus.Read(CONFIG_ADDR, 1);
        bus.Write(CONFIG_ADDR, [Ds1307SwoOff(temp[0])]);
      } else if currentType == MCP7941X {
        var temp := bus.Read(CONFIG_ADDR, 1);
        bus.Write(CONFIG_ADDR, [McpSwoOff(temp[0])]);
      }
    }

    /** rtc_battery_enable (rtc.c:426-438) */
    method BatteryEnable()
      modifies bus
      ensures bus.State() == BatteryEnableSteps(currentType, old(bus.State()))
    {
      if currentType == MCP7941X {
        var temp := bus.Read(0x03, 1);
        bus.Write(0x03, [BatteryOn(temp[0])]);
      }
    }

    /** rtc_get_gmt_time (rtc.c:446-491) */
    method GetGmtTime() returns (gmt: Time)
      modifies bus
      ensures gmt == GmtTimeOf(currentType, old(bus.State()))
      ensures bus.State() == GmtReadSteps(currentType, old(bus.State()))
    {
      if currentType == PCF8583 {
        var buffer := bus.Read(PCF_SECONDS, 5);
        gmt := DecodePcf(buffer);
      } else {
        var buffer := bus.Read(SECONDS_ADDR, TIMEDATE_BYTES);
        gmt := DecodeTime(buffer);
      }
    }

    /** rtc_get_local_time (rtc.c:495-554) */
    method GetLocalTime() returns (local: Time)
      modifies bus
      ensures local == LocalTimeOf(GmtTimeOf(currentType, old(bus.State())), timeZone, dstEnabled)
      ensures bus.State() == GmtReadSteps(currentType, old(bus.State()))
    {
      var gmt := GetGmtTime();
      local := LocalTimeOf(gmt, timeZone, dstEnabled);
    }

    /** rtc_set_gmt_time (rtc.c:557-661): -1 and nothing written for a record
        the guard refuses, 0 once it has been written. */
    method SetGmtTime(time: Time) returns (status: int)
      modifies bus
      ensures status == -1 <==> !Settable(time)
      ensures status != -1 ==> status == 0
      ensures bus.State() == if Settable(time) then SetGmtSteps(currentType, old(bus.State()), time) else old(bus.State())
    {
      if !Settable(time) {
        return -1;
      }
      if currentType == PCF8583 {
        SetPcfTime(time);
      } else {
        var buffer := bus.Read(SECONDS_ADDR, TIMEDATE_BYTES);
        bus.Write(SECONDS_ADDR, EncodeTime(buffer, time));
        buffer := bus.Read(SECONDS_ADDR, TIMEDATE_BYTES);
      }
      return 0;
    }

    /** The PCF8583 branch of rtc_set_gmt_time (rtc.c:573-599). */
    method SetPcfTime(time: Time)
      modifies bus
      ensures bus.State() == SetGmtSteps(PCF8583, old(bus.State()), time)
    {
      var e := EncodePcf(time);
      var temp;
      bus.Write(0x00, [0x80]);
      bus.Write(0x02, [e[0]]);
      temp := bus.Read(0x02, 1);
      bus.Write(0x03, [e[1]]);
      temp := bus.Read(0x03, 1);
      bus.Write(0x04, [e[2]]);
      temp := bus.Read(0x04, 1);
      bus.Write(0x05, [e[3]]);
      temp := bus.Read(0x05, 1);
      bus.Write(0x06, [e[4]]);
      temp := bus.Read(0x06, 1);
      bus.Write(0x00, [0x00]);
    }

    /** rtc_get_gmt_unix_time (rtc.c:664-673) */
    method GetGmtUnixTime() returns (unix: int)
      modifies bus
      ensures unix == GmtUnixTime(GmtTimeOf(currentType, old(bus.State())))
      ensures bus.State() == GmtReadSteps(currentType, old(bus.State()))
    {
      var gmt := GetGmtTime();
      unix := GmtUnixTime(gmt);
    }

    /** rtc_get_local_unix_time (rtc.c:676-683) */
    method GetLocalUnixTime() returns (unix: int)
      modifies bus
      ensures unix == LocalUnixOf(GmtTimeOf(currentType, old(bus.State())), timeZone, dstEnabled)
      ensures bus.State() == GmtReadSteps(currentType, old(bus.State()))
    {
      var local := GetLocalTime();
      unix := Uint32(DateToEpoch(local).epoch);
    }

    /** rtc_is_leap_year (rtc.c:685-727): false on PCF8583; the rule applied
        to the never-assigned current_local_time on DS1307 and BQ32000, so
        always true; register 0x05 bit 5 on MCP7941X. */
    method IsLeapYear() returns (leap: bool)
      modifies bus
      ensures currentType == PCF8583 ==> !leap
      ensures currentType == DS1307 || currentType == BQ32000 ==> leap == Calendar.IsLeapYear(currentLocalTime.year) && leap
      ensures currentType == MCP7941X ==> leap == (Reg(old(bus.State()), 0x05) & 0x20 != 0)
      ensures bus.State() == if currentType == MCP7941X then ReadStep(old(bus.State()), 0x05, 1) else old(bus.State())
    {
      match currentType
      case PCF8583 =>
        leap := false;
      case DS1307 =>
        leap := Calendar.IsLeapYear(currentLocalTime.year);
      case BQ32000 =>
        leap := Calendar.IsLeapYear(currentLocalTime.year);
      case MCP7941X =>
        var temp := bus.Read(0x05, 1);
        leap := temp[0] & 0x20 != 0;
    }

    /** rtc_is_power_failure (rtc.c:730-760): register 0x01 bit 7 on BQ32000,
        register 0x03 bit 4 on MCP7941X, false elsewhere. */
    method IsPowerFailure() returns (failed: bool)
      modifies bus
      ensures currentType == BQ32000 ==> failed == (Reg(old(bus.State()), 0x01) & 0x80 != 0)
      ensures currentType == MCP7941X ==> failed == (Reg(old(bus.State()), 0x03) & 0x10 != 0)
      ensures currentType == PCF8583 || currentType == DS1307 ==> !failed
      ensures bus.State() == match currentType
        case BQ32000 => ReadStep(old(bus.State()), 0x01, 1)
        case MCP7941X => ReadStep(old(bus.State()), 0x03, 1)
        case _ => old(bus.State())
    {
      match currentType
      case BQ32000 =>
        var temp := bus.Read(0x01, 1);
        failed := temp[0] & 0x80 != 0;
      case MCP7941X =>
        var temp := bus.Read(0x03, 1);
        failed := temp[0] & 0x10 != 0;
      case _ =>
        failed := false;
    }

    /** rtc_get_last_power_failure (rtc.c:763-797), the weekday decoded as
        rtc.c:788 decodes it (see the Findings of README.md). */
    method LastPowerFailure() returns (stamp: Time)
      modifies this`powerFailStamp, bus
      ensures stamp == powerFailStamp == PowerFailOf(currentType, old(bus.State()), old(powerFailStamp))
      ensures bus.State() == if currentType == MCP7941X then ReadStep(old(bus.State()), 0x18, 4) else old(bus.State())
    {
      if currentType == MCP7941X {
        var buffer := bus.Read(0x18, 4);
        powerFailStamp := PowerFailStampAsWritten(buffer, powerFailStamp);
      }
      stamp := powerFailStamp;
    }

    /** rtc_set_alarm (rtc.c:803-986) */
    method SetAlarm(a: AlarmId, trig: Trigger, time: Time)
      modifies bus
      ensures bus.State() == SetAlarmSteps(currentType, old(bus.State()), a, trig, time)
    {
      if currentType == PCF8583 {
        SetPcfAlarm(trig, time);
      } else if currentType == MCP7941X {
        SetMcpAlarm(a, trig, time);
      }
    }

    /** The PCF8583 branch of rtc_set_alarm (rtc.c:809-843). */
    method SetPcfAlarm(trig: Trigger, time: Time)
      modifies bus
      ensures bus.State() == PcfAlarmSteps(old(bus.State()), trig, time)
    {
      var temp := bus.Read(0x00, 1);
      bus.Write(0x00, [PcfAlarmFlag(temp[0])]);
      bus.Write(0x10, PcfAlarmBytes(time));
      temp := bus.Read(0x08, 1);
      bus.Write(0x08, [PcfAlarmControl(temp[0], trig)]);
    }

    /** The MCP7941X branch of rtc_set_alarm (rtc.c:845-983). */
    method SetMcpAlarm(a: AlarmId, trig: Trigger, time: Time)
      modifies bus
      ensures bus.State() == McpAlarmSteps(old(bus.State()), a, trig, time)
    {
      var base, tr := AlarmBase(a), TriggerAddr(a);
      var buffer := bus.Read(base, 6);
      bus.Write(base, EncodeAlarm(buffer, time));
      var temp := bus.Read(tr, 1);
      bus.Write(tr, [TriggerByte(temp[0], trig)]);
      temp := bus.Read(0x03, 1);
      bus.Write(0x03, [BatteryOn(temp[0])]);
      temp := bus.Read(CONFIG_ADDR, 1);
      bus.Write(CONFIG_ADDR, [AlarmEnable(temp[0], a)]);
    }

    /** rtc_disable_alarm (rtc.c:989-1020) */
    method DisableAlarm(a: AlarmId)
      modifies bus
      ensures bus.State() == DisableAlarmSteps(currentType, old(bus.State()), a)
    {
      if currentType == PCF8583 {
        var temp := bus.Read(0x00, 1);
        bus.Write(0x00, [PcfAlarmFlag(temp[0])]);
      } else if currentType == MCP7941X {
        var temp := bus.Read(CONFIG_ADDR, 1);
        bus.Write(CONFIG_ADDR, [AlarmDisable(temp[0], a)]);
      }
    }

    /** rtc_read_alarm (rtc.c:1023-1076) */
    method ReadAlarm(a: AlarmId) returns (alarm: Time)
      modifies this`alarmTime, bus
      ensures alarm == alarmTime == AlarmOf(currentType, old(bus.State()), a, old(alarmTime))
      ensures bus.State() == ReadAlarmSteps(currentType, old(bus.State()), a)
    {
      if currentType == PCF8583 {
        var b0 := bus.Read(0x0A, 1);
        var b1 := bus.Read(0x0B, 1);
        var b2 := bus.Read(0x0C, 1);
        var b3 := bus.Read(0x0D, 1);
        var b4 := bus.Read(0x0E, 1);
        alarmTime := DecodePcfAlarm([b0[0], b1[0], b2[0], b3[0], b4[0]], alarmTime);
      } else if currentType == MCP7941X {
        var buffer := bus.Read(AlarmBase(a), 6);
        alarmTime := DecodeAlarm(buffer, alarmTime);
      }
      alarm := alarmTime;
    }

    /** rtc_write_sram (rtc.c:1082-1099): one byte, checked with size 0. */
    method WriteSram(addr: uint8, value: byte)
      modifies bus
      ensures bus.State() == if SramAccepts(currentType, addr, 0)
        then SramWriteSteps(currentType, old(bus.State()), addr, [value]) else old(bus.State())
    {
      if SramAccepts(currentType, addr, 0) {
        if currentType == DS1307 {
          bus.Write(SramRegister(currentType, addr), [value]);
        } else {
          bus.SetSlave(MCP7941X_SRAM_SLAVE);
          bus.Write(SramRegister(currentType, addr), [value]);
          bus.SetSlave(MCP7941X_SLAVE);
        }
      }
    }

    /** rtc_write_sram_bulk (rtc.c:1101-1120) */
    method WriteSramBulk(addr: uint8, data: seq<byte>)
      modifies bus
      ensures bus.State() == if SramAccepts(currentType, addr, |data|)
        then SramWriteSteps(currentType, old(bus.State()), addr, data) else old(bus.State())
    {
      if SramAccepts(currentType, addr, |data|) {
        if currentType == DS1307 {
          bus.Write(SramRegister(currentType, addr), data);
        } else {
          bus.SetSlave(MCP7941X_SRAM_SLAVE);
          bus.Write(SramRegister(currentType, addr), data);
          bus.SetSlave(MCP7941X_SLAVE);
        }
      }
    }

    /** rtc_read_sram (rtc.c:1123-1144): 0 when the bounds check refuses. */
    method ReadSram(addr: uint8) returns (value: byte)
      modifies bus
      ensures SramAccepts(currentType, addr, 0) ==> value == SramBytes(currentType, old(bus.State()), addr, 1)[0]
      ensures !SramAccepts(currentType, addr, 0) ==> value == 0
      ensures bus.State() == if SramAccepts(currentType, addr, 0)
        then SramReadSteps(currentType, old(bus.State()), addr, 1) else old(bus.State())
    {
      value := 0;
      if SramAccepts(currentType, addr, 0) {
        var temp;
        if currentType == DS1307 {
          temp := bus.Read(SramRegister(currentType, addr), 1);
        } else {
          bus.SetSlave(MCP7941X_SRAM_SLAVE);
          temp := bus.Read(SramRegister(currentType, addr), 1);
          bus.SetSlave(MCP7941X_SLAVE);
        }
        value := temp[0];
      }
    }

    /** rtc_read_sram_bulk (rtc.c:1147-1164): the bytes read, or None when
        the bounds check refuses and the caller's buffer is left alone. */
    method ReadSramBulk(addr: uint8, count: nat) returns (data: Option<seq<byte>>)
      requires count < 256
      modifies bus
      ensures data.Some? <==> SramAccepts(currentType, addr, count)
      ensures data.Some? ==> data.value == SramBytes(currentType, old(bus.State()), addr, count)
      ensures bus.State() == if SramAccepts(currentType, addr, count)
        then SramReadSteps(currentType, old(bus.State()), addr, count) else old(bus.State())
    {
      data := None;
      if SramAccepts(currentType, addr, count) {
        var temp;
        if currentType == DS1307 {
          temp := bus.Read(SramRegister(currentType, addr), count);
        } else {
          bus.SetSlave(MCP7941X_SRAM_SLAVE);
          temp := bus.Read(SramRegister(currentType, addr), count);
          bus.SetSlave(MCP7941X_SLAVE);
        }
        data := Some(temp);
      }
    }

    /** rtc_eeprom_write_protect_on (rtc.c:1166-1177) */
    method EepromProtectOn()
      modifies bus
      ensures bus.State() == if currentType == MCP7941X
        then ProtectSteps(old(bus.State()), ProtectOn(EepromStatus(old(bus.State())))) else old(bus.State())
    {
      if currentType == MCP7941X {
        bus.SetSlave(MCP7941X_EEPROM_SLAVE);
        var temp := bus.Read(EEPROM_STATUS, 1);
        bus.Write(EEPROM_STATUS, [ProtectOn(temp[0])]);
        bus.SetSlave(MCP7941X_SLAVE);
      }
    }

    /** rtc_eeprom_write_protect_off (rtc.c:1179-1190) */
    method EepromProtectOff()
      modifies bus
      ensures bus.State() == if currentType == MCP7941X
        then ProtectSteps(old(bus.State()), ProtectOff(EepromStatus(old(bus.State())))) else old(bus.State())
    {
      if currentType == MCP7941X {
        bus.SetSlave(MCP7941X_EEPROM_SLAVE);
        var temp := bus.Read(EEPROM_STATUS, 1);
        bus.Write(EEPROM_STATUS, [ProtectOff(temp[0])]);
        bus.SetSlave(MCP7941X_SLAVE);
      }
    }

    /** rtc_eeprom_is_locked (rtc.c:1192-1204): always true on MCP7941X. */
    method EepromIsLocked() returns (locked: bool)
      modifies bus
      ensures locked == (currentType == MCP7941X && IsLocked(EepromStatus(old(bus.State()))))
      ensures locked <==> currentType == MCP7941X
      ensures bus.State() == if currentType == MCP7941X then StatusReadSteps(old(bus.State())) else old(bus.State())
    {
      locked := false;
      if currentType == MCP7941X {
        bus.SetSlave(MCP7941X_EEPROM_SLAVE);
        var temp := bus.Read(EEPROM_STATUS, 1);
        bus.SetSlave(MCP7941X_SLAVE);
        AlwaysLocked(temp[0]);
        locked := IsLocked(temp[0]);
      }
    }

    /** rtc_write_eeprom (rtc.c:1206-1234): on MCP7941X the data goes out in
        one burst when it fits a page, else page by page and then the rest;
        true in every case. */
    method WriteEeprom(addr: uint8, data: seq<byte>) returns (ok: bool)
      requires |data| < 256
      modifies bus
      ensures ok
      ensures bus.State() == if currentType == MCP7941X
        then EepromWriteSteps(old(bus.State()), addr, data) else old(bus.State())
    {
      if currentType == MCP7941X && addr >= EEPROM_START && addr + |data| < EEPROM_END {
        bus.SetSlave(MCP7941X_EEPROM_SLAVE);
        WriteBursts(addr, data);
        bus.SetSlave(MCP7941X_SLAVE);
      }
      ok := true;
    }

    /** The bursts of rtc_write_eeprom, through the slave addressed. */
    method WriteBursts(addr: uint8, data: seq<byte>)
      modifies bus
      ensures Within(EepromChunks(addr, |data|), |data|)
      ensures bus.State() == ChunkSteps(old(bus.State()), EepromChunks(addr, |data|), data)
    {
      ghost var st0 := bus.State();
      if |data| <= EEPROM_PAGE_SIZE {
        bus.Write(addr, data);
        OnePageSteps(st0, addr, data);
      } else {
        var count := |data| / EEPROM_PAGE_SIZE;
        var rem := |data| % EEPROM_PAGE_SIZE;
        WritePages(addr, data, count);
        if rem != 0 {
          PagesAndRest(st0, addr, data, count, rem);
          bus.Write(Next(addr, count * EEPROM_PAGE_SIZE), data[count * EEPROM_PAGE_SIZE..count * EEPROM_PAGE_SIZE + rem]);
        } else {
          PagesOnly(st0, addr, data, count);
        }
      }
    }

    /** The loop of rtc_write_eeprom: `count` full pages, page i at register
        addr + 8i. */
    method WritePages(addr: uint8, data: seq<byte>, count: nat)
      requires count * EEPROM_PAGE_SIZE <= |data|
      modifies bus
      ensures Within(PageChunks(addr, count), |data|)
      ensures bus.State() == ChunkSteps(old(bus.State()), PageChunks(addr, count), data)
    {
      ghost var st0 := bus.State();
      var i := 0;
      PageChunksWithin(addr, 0, |data|);
      while i < count
        invariant 0 <= i <= count
        invariant Within(PageChunks(addr, i), |data|)
        invariant bus.State() == ChunkSteps(st0, PageChunks(addr, i), data)
      {
        PageStep(st0, addr, data, i);
        bus.Write(Next(addr, i * EEPROM_PAGE_SIZE), data[i * EEPROM_PAGE_SIZE..i * EEPROM_PAGE_SIZE + EEPROM_PAGE_SIZE]);
        i := i + 1;
      }
    }

    /** rtc_read_eeprom (rtc.c:1237-1250): on MCP7941X one burst through the
        EEPROM slave, its guard passing for every `uint8_t` size; None on the
        other chips, whose caller's buffer is left alone. */
    method ReadEeprom(addr: uint8, count: nat) returns (data: Option<seq<byte>>)
      requires count < 256
      modifies bus
      ensures data.Some? <==> currentType == MCP7941X
      ensures data.Some? ==> data.value == Block(old(bus.bank), MCP7941X_EEPROM_SLAVE, addr, count)
      ensures bus.State() == if currentType == MCP7941X
        then EepromReadSteps(old(bus.State()), addr, count) else old(bus.State())
    {
      data := None;
      if currentType == MCP7941X && count < EEPROM_SIZE && addr + count < EEPROM_END && addr >= EEPROM_START {
        bus.SetSlave(MCP7941X_EEPROM_SLAVE);
        var temp := bus.Read(addr, count);
        bus.SetSlave(MCP7941X_SLAVE);
        data := Some(temp);
      }
    }

    /** rtc_read_unique_id (rtc.c:1252-1265): the eight ID bytes on MCP7941X,
        NULL (None) elsewhere. */
    method ReadUniqueId() returns (id: Option<seq<byte>>)
      modifies bus
      ensures id.Some? <==> currentType == MCP7941X
      ensures id.Some? ==> id.value == Block(old(bus.bank), MCP7941X_EEPROM_SLAVE, UNIQUE_ID_ADDR, 8)
      ensures bus.State() == if currentType == MCP7941X then UniqueIdReadSteps(old(bus.State())) else old(bus.State())
    {
      id := None;
      if currentType == MCP7941X {
        bus.SetSlave(MCP7941X_EEPROM_SLAVE);
        var temp := bus.Read(UNIQUE_ID_ADDR, 8);
        bus.SetSlave(MCP7941X_SLAVE);
        id := Some(temp);
      }
    }

    /** rtc_write_unique_id (rtc.c:1267-1286): nothing for a NULL id or a
        chip other than MCP7941X. */
    method WriteUniqueId(id: Option<seq<byte>>)
      requires id.Some? ==> |id.value| == 8
      modifies bus
      ensures bus.State() == if currentType == MCP7941X && id.Some?
        then UniqueIdWriteSteps(old(bus.State()), id.value) else old(bus.State())
    {
      if currentType == MCP7941X {
        if id.None? {
          return;
        }
        bus.SetSlave(MCP7941X_EEPROM_SLAVE);
        bus.Write(ID_UNLOCK_ADDR, [0x55]);
        bus.Write(ID_UNLOCK_ADDR, [0xAA]);
        bus.Write(UNIQUE_ID_ADDR, id.value);
        bus.SetSlave(MCP7941X_SLAVE);
      }
    }
  }
}
