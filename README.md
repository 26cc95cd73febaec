# RTC I2C Universal driver — a Dafny model

This project models the core of the MikroElektronika "RTC I2C Universal"
driver (`library/src/rtc.c` and the types of `library/include/rtc.h`). The
driver serves four real-time-clock chips over I2C: PCF8583, DS1307, BQ32000
and MCP7941X. It covers:

- the BCD codec of the time registers;
- the conversion between calendar records and seconds since 1970 (a Julian
  Day Number one way, the Fliegel-Van Flandern chain the other way);
- the US daylight-saving window;
- the mask/clear read-modify-write discipline of every register;
- alarms, square-wave output and battery control;
- the SRAM windows, the page-by-page EEPROM write and the MCP7941X unique ID.

Files:

- `rtc_types.dfy` (module `RtcTypes`): the enums and `rtc_time_t` of
  `rtc.h`, the `uint8_t` and `int8_t` ranges, and register bytes as `bv8`.
- `bcd.dfy` (module `Bcd`): `BIN2BCD` / `BCD2BIN` and their round trips.
- `calendar.dfy` (module `Calendar`):
  - C truncating division (`CDiv` / `CMod`);
  - `time_date_to_epoch` and `time_epoch_to_date` as written;
  - `get_dst` and the leap-year rule;
  - a reference Julian Day Number against which both conversions are
    proved.
- `transport.dfy` (module `Transport`): the I2C link of `rtc_hal.h`,
  modelled abstractly:
  - a bank of registers keyed by (slave, register);
  - the slave currently addressed;
  - a log of every transaction.

  It is a value (`BusState`) and also a class (`Bus`) whose three methods
  change it.
- `registers.dfy` (module `Registers`): the bytes each function writes and
  decodes, per chip family.
- `memory.dfy` (module `Memory`): the SRAM bounds checks and the EEPROM page
  plan.
- `driver.dfy` (module `Driver`):
  - every public function's bus transactions as a function on `BusState`;
  - the round trips and "nothing else changes" lemmas about them.
- `facade.dfy` (module `Facade`): class `Rtc`.
  - It holds the module statics `current_type`, `current_time_zone`,
    `dst_enabled` and `current_local_time`, plus the persistent static
    result records.
  - It has one method per public function, talking to a `Bus` one
    transaction at a time, each specified by its `Driver` function.
  - `WritePages` is the page loop of `rtc_write_eeprom`, proved with its
    invariant.

The quirks of the code are modelled as written:

- the `=` in the DST test;
- the DST adjustment of `60 * 60 * 1000` seconds;
- `get_dst` applied to the two-digit year;
- `rtc_eeprom_is_locked` always true;
- write-protect-off clearing only bit 3;
- the DS1307 8.192 kHz and disable cases;
- `current_local_time` never assigned;
- the unreachable restart block of `rtc_init`.

Three quirks of the code are evidently bugs: the day of a negative whole-day
epoch, the weekday of the MCP7941X power-fail stamp, and `get_dst` on the
two-digit year. Each is given in both forms under "## Findings". The public
functions (`Driver`, `Facade`) use the forms as written, so the model
behaves as the code does; the corrected forms stand beside them with the
intended property proved.

## Model

| member | source | states |
|---|---|---|
| RtcTypes.TypeFromCode | library/include/rtc.h:93-99 | a code denotes a chip exactly when it is at most 3 (`RTC6_MCP7941X`), and then the chip's enumerator value is that code |
| RtcTypes.ToUint8 | library/include/rtc.h:105-114 | storing into a `uint8_t` field reduces modulo 256 and leaves 0-255 unchanged |
| Calendar.CDiv | library/src/rtc.c:152 | C division truncates toward zero: what is left over, `a - q * d`, lies in [0, d) for a non-negative `a` and in (-d, 0] for a negative one |
| Calendar.CMod | library/src/rtc.c:200 | C remainder: dividend minus divisor times truncated quotient, with the sign of the dividend |
| Calendar.JulianDayOf | library/src/rtc.c:258-265 | the Julian day `time_date_to_epoch` computes, with the Gregorian correction above day 2299171; proved the reference Julian Day Number by Calendar.JulianDayOfIsJdn |
| Calendar.DateToEpoch | library/src/rtc.c:244-283 | the record comes back with only its weekday overwritten, by a value 0-6 |
| Calendar.JulianDayOfIsJdn | library/src/rtc.c:258-265 | the Julian day the code computes for any record with month 1-12 and day at least 1 is the textbook Julian Day Number of its date |
| Calendar.JdnOfGregorian | library/src/rtc.c:163-181 | the L, N, I, J, K chain maps every Julian day from 0 on to the date whose Julian Day Number it is |
| Calendar.GregorianYearRange | library/src/rtc.c:163-186 | the Julian days of 2000-01-01 to 2099-12-31 give the years 2000-2099 |
| Calendar.LastDayOf1969 | library/src/rtc.c:163-181 | Julian day 2440587, the day before the epoch, is 31 December 1969 |
| Calendar.EpochToDate | library/src/rtc.c:133-216 | `time_epoch_to_date` as written, used by the local-time functions: Julian day and second from the truncated quotient, stepped back for a negative epoch, then the L, N, I, J, K chain; its ranges, round trips and the negative-midnight slip are the lemmas below |
| Calendar.EpochToDateFloored | library/src/rtc.c:133-216 | the corrected conversion, with floored day and second; proved exact by Calendar.FlooredIsExact |
| Calendar.EpochToDateRanges | library/src/rtc.c:151-215 | for every 32-bit epoch, negative ones included, the record holds hours 0-23, minutes 0-59, seconds 0-59, a weekday 1-7, a month 1-12 and a day 1-31 |
| Calendar.DateToEpochToDate | library/src/rtc.c:133-283 | converting a valid 2000-2099 record to an epoch and back restores seconds, minutes, hours, day, month and year; the weekday is one more than the one written back by `time_date_to_epoch` |
| Calendar.EpochToDateToEpoch | library/src/rtc.c:133-283 | every epoch of the years 2000-2099 converts to a record with a year field 0-99, which converts back to the same epoch |
| Calendar.Epoch2000 | library/src/rtc.c:244-283 | 2000-01-01 00:00:00 (year 0) is epoch 946684800, and its 0-based weekday is 5 (Saturday) |
| Calendar.SecondOfDay | library/src/rtc.c:204-214 | the hours, minutes and seconds taken from a second count add back up to that count modulo 86400 |
| Calendar.PreEpochYearWraps | library/src/rtc.c:181-186 | epoch -1 gives 23:59:59 on Wednesday 31 December with year field 225, i.e. 1969 - 2000 reduced modulo 256 |
| Calendar.NegativeEpochParts | library/src/rtc.c:151-156 | for a negative epoch off a whole day, the code's day and second are the floored ones; on a whole day, the day is one less and the second count is a full 86400 |
| Calendar.FlooredAgrees | library/src/rtc.c:133-216 | the code and the floored conversion agree on every epoch except the negative whole days |
| Calendar.FlooredTimeOfDay | library/src/rtc.c:204-214 | the time of day of the floored conversion is the floored remainder of the epoch by 86400 |
| Calendar.FlooredIsExact | library/src/rtc.c:133-216 | the floored conversion is exact for every 32-bit epoch: its date's Julian Day Number and its time of day name exactly the epoch |
| Calendar.NegativeMidnightDayEarly | library/src/rtc.c:155-156 | as written, a negative whole-day epoch converts to the floored record of the day before |
| Calendar.EpochMinusOneDay | library/src/rtc.c:193-202 | epoch -86400 converts to the 30th where the floored conversion gives the 31st, and the record then names the instant two days before 1970 |
| Calendar.GetDst | library/src/rtc.c:225-242 | `get_dst` as written on the year it is passed, the two-digit year at line 510; its days fall on Mondays (Calendar.DstOnMondays) |
| Calendar.GetDstFullYear | library/src/rtc.c:218-223 | the rule of the comment on the four-digit year; its days fall on Sundays (Calendar.DstFullYearOnSundays) |
| Calendar.DstWindowFor | library/src/rtc.c:225-242 | start is a Sunday 02:00:00 in March of the same year, day 8-14; end is a Sunday 02:00:00 in November of the same year, day 1-7, seven less than start |
| Calendar.Dst2024 | library/src/rtc.c:231 | for year 24 the code gives 11 March, while the rule on 2024 stated in the comment gives 10 March |
| Calendar.DstOnMondays | library/src/rtc.c:219-242 | fed the two-digit year, as at line 510, both records of every year 2000-2099 fall on a Monday |
| Calendar.DstFullYearOnSundays | library/src/rtc.c:219-223 | with the four-digit year the comment states, the records are the second Sunday of March and the first Sunday of November |
| Calendar.IsLeapYear | library/src/rtc.c:694-702 | the cascade of tests is the Gregorian rule: divisible by 4 and not by 100, or divisible by 400 |
| Calendar.LeapTwoDigitYear | library/src/rtc.c:694-711 | on a year field 0-99 the rule gives the same answer as on the full year 2000-2099 |
| Bcd.Bin2Bcd | library/src/rtc.c:109 | `BIN2BCD` stored into a `uint8_t` register: tens in the high nibble, cut to 4 bits, units in the low one; its meaning is Bcd.Bin2BcdValue and Bcd.BcdRoundTrip |
| Bcd.Bcd2Bin | library/src/rtc.c:108 | `BCD2BIN`: low nibble plus ten times the high nibble; its meaning is Bcd.Bcd2BinValue and Bcd.BinRoundTrip |
| Bcd.NibbleValue | library/src/rtc.c:108 | the value of a low nibble is 0-15 and maps back to the same bits |
| Bcd.Bin2BcdNibbles | library/src/rtc.c:109 | for 0-99, `BIN2BCD(v)` has high nibble v / 10 and low nibble v % 10 |
| Bcd.BcdRoundTrip | library/src/rtc.c:108-109 | `BCD2BIN(BIN2BCD(v)) == v` for 0-99, and the code is a valid BCD byte |
| Bcd.BinRoundTrip | library/src/rtc.c:108-109 | every valid BCD byte has a value of at most 99, and `BIN2BCD(BCD2BIN(b)) == b` |
| Bcd.Bin2BcdValue | library/src/rtc.c:109 | the nibble form equals the C value `((v / 10) << 4) + v % 10` cut to 8 bits |
| Bcd.Bcd2BinValue | library/src/rtc.c:108 | the nibble form equals the C value `(b & 15) + (b >> 4) * 10` |
| Bcd.ByteValueOf | library/src/rtc.c:108-109 | a `uint8_t` value and its register bit pattern convert into each other without loss |
| Transport.Block | library/include/rtc_hal.h:103 | a burst read of n registers returns n bytes |
| Transport.BlockAt | library/include/rtc_hal.h:103 | byte i of a burst read is register reg + i, the pointer wrapping at 256 |
| Transport.StoreOutside | library/include/rtc_hal.h:94 | a burst write leaves other slaves and every register outside its window as they were |
| Transport.StoreInside | library/include/rtc_hal.h:94 | a burst write of at most 256 bytes leaves byte i in register reg + i |
| Transport.ReadAfterWrite | library/include/rtc_hal.h:94-103 | reading back a burst of at most 256 bytes returns what was written |
| Transport.WriteOne | library/include/rtc_hal.h:94 | a one-byte write changes that one register |
| Transport.Bus.SetSlave | library/include/rtc_hal.h:78-85 | the slave changes, the registers stay, the log records the addressing |
| Transport.Bus.Read | library/include/rtc_hal.h:103 | the bytes are the burst from the current state; the registers and slave stay; the log records the read |
| Transport.Bus.Write | library/include/rtc_hal.h:94 | the registers become the stored burst and the log records the write |
| Registers.MaskClearComplement | library/src/rtc.c:35-60 | every `*_MASK` / `*_CLEAR` pair is a pair of bitwise complements |
| Registers.FitsMask | library/src/rtc.c:35-60 | the BCD code of 0-99 avoids a register's CLEAR bits exactly when the value is at most the register's limit |
| Registers.SetGetField | library/src/rtc.c:633-652 | `CLEAR` then `\|= BIN2BCD(v)` keeps the CLEAR bits, and mask-then-`BCD2BIN` reads v back, for every v within the limit |
| Registers.Settable | library/src/rtc.c:562-569 | the guard of `rtc_set_gmt_time`: each field at most its upper bound |
| Registers.EncodeTime | library/src/rtc.c:604-623 | the seven bytes written over the seven read, one per register; decoded back by Registers.TimeRoundTrip |
| Registers.DecodeTime | library/src/rtc.c:468-485 | the record read from registers 0x00-0x06: each register masked and `BCD2BIN`-decoded |
| Registers.SettableFits | library/src/rtc.c:562-569 | every record the set guard accepts fits the masks of all seven registers |
| Registers.TimeRoundTrip | library/src/rtc.c:469-475 | writing an accepted record over any seven register bytes keeps each register's CLEAR bits, and decoding gives the record back |
| Registers.EncodePcf | library/src/rtc.c:577-595 | the five one-byte writes of the PCF8583 branch, the weekday in bits 7-5 of the month register |
| Registers.DecodePcf | library/src/rtc.c:455-464 | the PCF8583 record: five registers decoded, the weekday from bits 7-5 plus one, the year 0 |
| Registers.PcfWeekdayBitsValue | library/src/rtc.c:593 | the weekday bits are the low byte of the C value `(weekday - 1) << 5`, including the wrap of weekday 0 |
| Registers.PcfMonthRegister | library/src/rtc.c:592-593 | on PCF8583 the weekday bits and the month code do not overlap, and the weekday reads back through `>> 5` |
| Registers.PcfRoundTrip | library/src/rtc.c:458-464 | an accepted record with weekday 1-7 reads back from PCF8583 as written, except the year, which is 0 |
| Registers.PcfWeekdayZero | library/src/rtc.c:565 | the guard lets weekday 0 through, and on PCF8583 it reads back as 8 |
| Registers.EncodeAlarm | library/src/rtc.c:851-871 | the six bytes rtc_set_alarm writes over the six alarm registers of MCP7941X; decoded back by Registers.AlarmRoundTrip |
| Registers.DecodeAlarm | library/src/rtc.c:1053-1070 | the six fields rtc_read_alarm decodes on MCP7941X into the static record, its year left as it was |
| Registers.TriggerBitsDistinct | library/include/rtc.h:141-150 | the six non-weekday triggers select pairwise distinct patterns |
| Registers.TriggerRegister | library/src/rtc.c:874-904 | for a non-weekday trigger, bits 6-3 hold its pattern with bit 3 clear; for the weekday trigger they are unchanged; bit 7 is set and bits 2-0 are kept |
| Registers.AlarmRoundTrip | library/src/rtc.c:851-871 | an alarm that fits its registers decodes to its six fields, even after the trigger update of the weekday register |
| Registers.AlarmEnableBits | library/src/rtc.c:909-913 | enabling sets the alarm's bit and clears the square-wave bit, keeping the rest; disabling clears only the alarm's bit |
| Registers.PcfAlarmControlBits | library/src/rtc.c:824-842 | the PCF8583 alarm-control byte sets bit 7, puts the trigger's code in bits 5-4 and keeps bits 6 and 3-0 |
| Registers.RestartNeverRuns | library/src/rtc.c:321-325 | `(!status) & 0x80` is zero for every status, so the restart block is unreachable |
| Registers.Ds1307SwoBits | library/src/rtc.c:347-371 | on DS1307, SQWE is set and bits 7-5 and 3-2 are kept; the rate bits get the frequency's code, except that 8.192 kHz keeps bit 0 |
| Registers.McpSwoBits | library/src/rtc.c:373-400 | on MCP7941X, SQWEN is set, bits 2-0 get the rate code and the rest is kept |
| Registers.SwoOffBits | library/src/rtc.c:413-421 | DS1307 disable changes only bit 7, so a square wave set up by enable stays enabled; MCP7941X disable clears only SQWEN |
| Registers.ProtectBits | library/src/rtc.c:1173-1186 | protect-on sets bits 3 and 2 keeping the rest; protect-off clears only bit 3; on-then-off leaves bit 2 set |
| Registers.AlwaysLocked | library/src/rtc.c:1200 | the lock test is true for every status byte |
| Registers.PowerFailStampAsWritten | library/src/rtc.c:783-789 | the stamp as rtc.c:784-789 decode it, the weekday as `BCD2BIN(buffer[3] & 0xE0)`; used by Driver.PowerFailOf |
| Registers.PowerFailStamp | library/src/rtc.c:783-789 | the corrected stamp, the weekday shifted down from bits 7-5 |
| Registers.PowerFailWeekdayAsWritten | library/src/rtc.c:788 | as written, the weekday is 20 times the intended one and never a day 1-7; every other field agrees |
| Registers.PowerFailWednesday | library/src/rtc.c:788 | a register holding Wednesday and January gives weekday 60 as written, and WEDNESDAY and JANUARY as intended |
| Registers.PowerFailStampRoundTrip | library/src/rtc.c:784-789 | the intended decode returns the weekday 1-7 and the month packed into the power-down month register |
| Memory.SramAccepts | library/src/rtc.c:1082-1164 | the bounds check of the SRAM functions: address plus window start plus size below the window end; nothing on PCF8583 and BQ32000 |
| Memory.SramRegister | library/src/rtc.c:1088-1093 | the register of an accepted SRAM address lies in the chip's RAM window: 0x08-0x3E on DS1307, 0x20-0x5E on MCP7941X |
| Memory.SramRegisterDistinct | library/src/rtc.c:1088-1093 | distinct accepted addresses reach distinct registers, and address 0 is the first register of the window |
| Memory.SramSingleRange | library/include/rtc.h:387-389 | single-byte accesses are accepted exactly at 0x00-0x36 on DS1307 and 0x00-0x3E on MCP7941X; this is inside the documented ranges, and no other chip accepts any |
| Memory.SramBurstInside | library/src/rtc.c:1106-1115 | every register an accepted burst reaches lies inside the chip's SRAM window, with no pointer wrap |
| Memory.EepromChunks | library/src/rtc.c:1215-1226 | the bursts of `rtc_write_eeprom`: one for at most a page, else the full pages and any remainder |
| Memory.ChunkSteps | library/src/rtc.c:1215-1226 | the bus after performing a chunk list's bursts in order |
| Memory.PageChunksAt | library/src/rtc.c:1222-1223 | loop page k is 8 bytes from offset 8k at register addr + 8k, cut to 8 bits |
| Memory.EepromChunksTile | library/src/rtc.c:1215-1226 | the bursts cover offsets 0 to size once each, in ascending order, each at most a page and at the register of its offset; non-empty data takes ceil(size / 8) bursts |
| Memory.TilesCover | library/src/rtc.c:1215-1226 | the pieces of a tiling, put together, are exactly the caller's data |
| Memory.PageStep | library/src/rtc.c:1222-1223 | one more loop iteration adds exactly the write of the next page |
| Memory.OnePageSteps | library/src/rtc.c:1215-1216 | a write that fits a page is one burst of all the data at the caller's address |
| Memory.PagesOnly | library/src/rtc.c:1219-1223 | a write of more than one page whose size is a multiple of 8 is exactly the page loop |
| Memory.PagesAndRest | library/src/rtc.c:1219-1226 | a write over a page that is not a whole number of pages is the pages, then one burst of the remainder |
| Memory.ChunkStepsLog | library/src/rtc.c:1215-1226 | the bursts keep the slave and add one logged write per chunk, carrying that chunk's bytes |
| Memory.ChunkWritesData | library/src/rtc.c:1215-1226 | the logged writes carry exactly the pieces of the data |
| Driver.ToLong | library/src/rtc.c:505 | a `uint32_t` passed as a 32-bit `long` is the two's-complement reading of its bits |
| Driver.LongRoundTrip | library/src/rtc.c:499-505 | every `long` survives the trip through a `uint32_t` |
| Driver.InitSteps | library/src/rtc.c:290-328 | the transactions of `rtc_init` past its guard: address the chip, read register 0x00, write it back with bit 7 set |
| Driver.EnableSwoSteps | library/src/rtc.c:340-403 | the control-register update of `rtc_enable_swo` per chip |
| Driver.DisableSwoSteps | library/src/rtc.c:405-424 | the control-register update of `rtc_disable_swo` per chip |
| Driver.BatteryEnableSteps | library/src/rtc.c:426-438 | the VBATEN update of `rtc_battery_enable`, MCP7941X only |
| Driver.InitStartsOscillator | library/src/rtc.c:299-319 | init addresses the chip's slave and sets bit 7 of register 0x00 keeping bits 6-0; every other register is unchanged, and the log shows exactly address, read, write |
| Driver.UpdateOnly | library/src/rtc.c:426-438 | a one-byte read-modify-write leaves the new value in that register and changes nothing else |
| Driver.GmtTimeOf | library/src/rtc.c:446-491 | the record `rtc_get_gmt_time` returns: five registers from 0x02 on PCF8583, seven from 0x00 elsewhere |
| Driver.GmtReadSteps | library/src/rtc.c:446-491 | the burst read `rtc_get_gmt_time` issues |
| Driver.SetGmtSteps | library/src/rtc.c:557-661 | the writes of `rtc_set_gmt_time` past its guard, per chip |
| Driver.GmtRoundTrip | library/src/rtc.c:446-661 | set then get returns an accepted record, keeping every CLEAR bit, on DS1307, BQ32000 and MCP7941X; on PCF8583 it returns the record with year 0 for weekday 1-7 |
| Driver.PcfSetBank | library/src/rtc.c:573-599 | PCF8583 set leaves the five encoded bytes in 0x02-0x06 and 0 in register 0x00 |
| Driver.PcfGmtBurst | library/src/rtc.c:573-599 | after PCF8583 set, the five registers get reads are the encoded bytes |
| Driver.TimeGmtBurst | library/src/rtc.c:629-656 | after set on the other chips, the seven time registers hold the bytes written over those read |
| Driver.GmtUnixTime | library/src/rtc.c:664-673 | the epoch of the GMT record stored into a `uint32_t` |
| Driver.ZonedUnixTime | library/src/rtc.c:497-502 | the GMT Unix time plus 3600 seconds per zone hour, in a `uint32_t` |
| Driver.ZonedTime | library/src/rtc.c:505 | the first record of `rtc_get_local_time`: the zoned time read as a `long` and converted as written |
| Driver.DstUnixTime | library/src/rtc.c:507-547 | the DST tests as written: the `=` of the second test, and `60 * 60 * 1000` added or subtracted |
| Driver.LocalUnixTime | library/src/rtc.c:497-547 | `temp_time_unix` before the last conversion, with or without DST |
| Driver.LocalTimeOf | library/src/rtc.c:495-554 | the record `rtc_get_local_time` returns: the last `uint32_t` read as a `long` and converted as written |
| Driver.LocalUnixOf | library/src/rtc.c:676-683 | the epoch of the local record in a `uint32_t` |
| Driver.LocalTimeShift | library/src/rtc.c:499-505 | without DST, while the shifted time fits a `long`, it is the GMT Unix time plus 3600 seconds per zone hour, and the local record is its calendar record |
| Driver.FlooredOfLong | library/src/rtc.c:505 | for a `uint32_t` that fits a `long` the corrected and the as-written conversions agree, so up to 2038 the local time is also the corrected one |
| Driver.LocalTimeInGmtZone | library/src/rtc.c:495-554 | in zone 0 without DST, the local time of a valid record before 2038 is the record itself, with its weekday recomputed |
| Driver.LocalUnixWithoutDst | library/src/rtc.c:676-683 | without DST, the local Unix time is the zoned GMT Unix time for every time from 2000 to 2038 |
| Driver.UnixDateUnix | library/src/rtc.c:664-683 | a Unix time from 2000 to 2038 converted to a record and back is itself |
| Driver.DstAddsThousandHours | library/src/rtc.c:516-520 | with DST on, a zoned time from 2000 to 2038 whose date is in April-October is moved 1000 hours forward |
| Driver.DstMarchAfterStart | library/src/rtc.c:523-547 | with DST on, a March date past the change-over day from 02:00 has 1000 hours subtracted: the branch of 533-544 is not reached |
| Driver.DstMovesToNovember | library/src/rtc.c:523-529 | with DST on, a date outside April-October before 02:00 or before the November day is moved to November before the adjustment is added |
| Driver.McpAlarmSteps | library/src/rtc.c:845-983 | the MCP7941X transactions of `rtc_set_alarm` |
| Driver.PcfAlarmSteps | library/src/rtc.c:809-843 | the PCF8583 transactions of `rtc_set_alarm` |
| Driver.SetAlarmSteps | library/src/rtc.c:803-986 | `rtc_set_alarm` per chip, nothing on DS1307 and BQ32000 |
| Driver.DisableAlarmSteps | library/src/rtc.c:989-1020 | `rtc_disable_alarm` per chip |
| Driver.AlarmOf | library/src/rtc.c:1023-1076 | the record `rtc_read_alarm` returns, from the one it returned before |
| Driver.ReadAlarmSteps | library/src/rtc.c:1023-1076 | the reads `rtc_read_alarm` issues |
| Driver.PowerFailOf | library/src/rtc.c:763-797 | the stamp `rtc_get_last_power_failure` returns, through Registers.PowerFailStampAsWritten on MCP7941X |
| Driver.McpAlarmBurst | library/src/rtc.c:849-914 | after MCP7941X set-alarm, the six alarm registers are the encoded bytes, with the trigger update in the weekday register |
| Driver.McpAlarmRoundTrip | library/src/rtc.c:803-1076 | set-alarm then read-alarm on MCP7941X returns the alarm's six fields, for every trigger |
| Driver.McpAlarmControl | library/src/rtc.c:874-913 | after set-alarm the trigger register holds the trigger's pattern with the polarity bit; the battery is enabled; the alarm's enable bit is on and the square wave off |
| Driver.PcfAlarmNotReadBack | library/src/rtc.c:809-843 | PCF8583 set-alarm stores the raw fields at 0x10-0x14 and leaves 0x0A-0x0E, which read-alarm reads, unchanged |
| Driver.SramWriteSteps | library/src/rtc.c:1082-1120 | an accepted SRAM write, through the clock's slave on DS1307 and the SRAM slave on MCP7941X |
| Driver.SramReadSteps | library/src/rtc.c:1123-1164 | an accepted SRAM read |
| Driver.SramBytes | library/src/rtc.c:1123-1164 | the bytes an accepted SRAM read returns |
| Driver.SramRoundTrip | library/src/rtc.c:1101-1164 | an accepted SRAM write then a read of the same place returns the data |
| Driver.SramKeepsClock | library/src/rtc.c:1101-1120 | an accepted SRAM write leaves the time registers 0x00-0x06 unchanged |
| Driver.ProtectSteps | library/src/rtc.c:1166-1190 | the status-register update of write-protect on and off, through the EEPROM slave |
| Driver.StatusReadSteps | library/src/rtc.c:1192-1204 | the status read of `rtc_eeprom_is_locked` |
| Driver.EepromWriteSteps | library/src/rtc.c:1206-1234 | `rtc_write_eeprom` on MCP7941X: the page plan between addressing the EEPROM and the clock, its guard passing for every `uint8_t` size |
| Driver.EepromReadSteps | library/src/rtc.c:1237-1250 | `rtc_read_eeprom` on MCP7941X: one burst through the EEPROM slave |
| Driver.ProtectStatus | library/src/rtc.c:1166-1204 | protect-on sets both protect bits; protect-off afterwards leaves bit 2; is-locked says locked either way |
| Driver.EepromRoundTrip | library/src/rtc.c:1206-1250 | an EEPROM write then a read of the same place returns the data |
| Driver.EepromWriteBursts | library/src/rtc.c:1206-1234 | the write's log, between addressing the EEPROM and the clock, is burst writes to the EEPROM only, each at most a page, carrying the data once and in order |
| Driver.UniqueIdReadSteps | library/src/rtc.c:1252-1265 | the eight-byte read of `rtc_read_unique_id` |
| Driver.UniqueIdWriteSteps | library/src/rtc.c:1267-1286 | the unlock sequence 0x55, 0xAA and the eight-byte write of `rtc_write_unique_id` |
| Driver.UniqueIdRoundTrip | library/src/rtc.c:1252-1286 | writing an id then reading returns it, and the unlock register holds 0xAA |
| Facade.Rtc.constructor | library/src/rtc.c:118-121 | the statics start zeroed: type PCF8583, zone 0, DST off, zeroed static records |
| Facade.Rtc.Init | library/src/rtc.c:290-328 | returns -1 and changes nothing exactly for a code past 3 or a zone outside -12..14; otherwise returns 0, stores type and zone, and performs the oscillator start |
| Facade.Rtc.EnableDst | library/src/rtc.c:330-333 | DST becomes on; nothing else changes |
| Facade.Rtc.DisableDst | library/src/rtc.c:335-338 | DST becomes off; nothing else changes |
| Facade.Rtc.EnableSwo | library/src/rtc.c:340-403 | the bus changes as the square-wave update of the current chip prescribes, and not at all on PCF8583 and BQ32000 |
| Facade.Rtc.DisableSwo | library/src/rtc.c:405-424 | the bus changes as the disable update of the current chip prescribes |
| Facade.Rtc.BatteryEnable | library/src/rtc.c:426-438 | only MCP7941X register 0x03 is updated |
| Facade.Rtc.GetGmtTime | library/src/rtc.c:446-491 | returns the chip's decoded time registers after exactly one burst read |
| Facade.Rtc.GetLocalTime | library/src/rtc.c:495-554 | returns the local record of the GMT time under the current zone and DST switch, converted by `time_epoch_to_date` as written (a negative whole-day `long` lands a day early) |
| Facade.Rtc.SetGmtTime | library/src/rtc.c:557-661 | returns -1 and touches nothing exactly when the guard refuses, otherwise 0 after the chip's writes |
| Facade.Rtc.SetPcfTime | library/src/rtc.c:573-599 | performs the PCF8583 one-byte write sequence |
| Facade.Rtc.GetGmtUnixTime | library/src/rtc.c:664-673 | returns the epoch of the GMT record as a `uint32_t` |
| Facade.Rtc.GetLocalUnixTime | library/src/rtc.c:676-683 | returns the epoch of the local record, converted as written, as a `uint32_t` |
| Facade.Rtc.IsLeapYear | library/src/rtc.c:685-727 | false on PCF8583; always true on DS1307 and BQ32000; register 0x05 bit 5 on MCP7941X |
| Facade.Rtc.IsPowerFailure | library/src/rtc.c:730-760 | register 0x01 bit 7 on BQ32000, register 0x03 bit 4 on MCP7941X, false elsewhere |
| Facade.Rtc.LastPowerFailure | library/src/rtc.c:763-797 | on MCP7941X, fills the static stamp from the four power-down registers at 0x18, the weekday decoded as written (`BCD2BIN` of bits 7-5 left in place); elsewhere returns it unchanged |
| Facade.Rtc.SetAlarm | library/src/rtc.c:803-986 | the bus changes as the chip's alarm transactions prescribe, not at all on DS1307 and BQ32000 |
| Facade.Rtc.SetPcfAlarm | library/src/rtc.c:809-843 | performs the PCF8583 alarm transactions |
| Facade.Rtc.SetMcpAlarm | library/src/rtc.c:845-983 | performs the MCP7941X alarm transactions for the chosen alarm |
| Facade.Rtc.DisableAlarm | library/src/rtc.c:989-1020 | the chip's disable update, nothing on DS1307 and BQ32000 |
| Facade.Rtc.ReadAlarm | library/src/rtc.c:1023-1076 | fills and returns the static alarm record from the chip's alarm registers |
| Facade.Rtc.WriteSram | library/src/rtc.c:1082-1099 | writes one byte through the right slave exactly when the bounds check accepts it |
| Facade.Rtc.WriteSramBulk | library/src/rtc.c:1101-1120 | writes the burst exactly when the bounds check accepts its size |
| Facade.Rtc.ReadSram | library/src/rtc.c:1123-1144 | returns the SRAM byte when the bounds check accepts, else 0 with the bus untouched |
| Facade.Rtc.ReadSramBulk | library/src/rtc.c:1147-1164 | returns the bytes exactly when the bounds check accepts, else nothing with the bus untouched |
| Facade.Rtc.EepromProtectOn | library/src/rtc.c:1166-1177 | MCP7941X status register updated with both protect bits |
| Facade.Rtc.EepromProtectOff | library/src/rtc.c:1179-1190 | MCP7941X status register updated as written |
| Facade.Rtc.EepromIsLocked | library/src/rtc.c:1192-1204 | true exactly on MCP7941X, whatever the status register holds |
| Facade.Rtc.WriteEeprom | library/src/rtc.c:1206-1234 | returns true always; on MCP7941X performs the page plan between the two slave changes, nothing elsewhere |
| Facade.Rtc.WriteBursts | library/src/rtc.c:1215-1226 | one burst when the data fits a page, else the pages and the remainder, as the page plan prescribes |
| Facade.Rtc.WritePages | library/src/rtc.c:1218-1223 | the loop performs exactly the first `count` page writes |
| Facade.Rtc.ReadEeprom | library/src/rtc.c:1237-1250 | on MCP7941X returns the burst read through the EEPROM slave, whose guard always passes; nothing elsewhere |
| Facade.Rtc.ReadUniqueId | library/src/rtc.c:1252-1265 | the eight bytes at 0xF0 of the EEPROM on MCP7941X, NULL elsewhere |
| Facade.Rtc.WriteUniqueId | library/src/rtc.c:1267-1286 | the unlock sequence and the eight-byte write on MCP7941X with an id; nothing for NULL or any other chip |

## Left out

- The I2C transport implementation (`library/src/rtc_hal.c`) is not part of this model: the per-MCU function pointers and vendor bus calls are replaced by the register bank and log of `Transport`.
- The address shift that `rtc_hal_init` applies and `rtc_hal_set_slave` does not is not modelled: slave addresses are the 8-bit values `rtc.c` passes.
- The 10-byte copy buffer inside `rtc_hal_write` is not modelled; bursts of any length are stored.
- `library/RTC6_clickARM.c` and the example pages of `rtc.h` are demo programs (display, delays) and are not modelled.
- `rtc_set_local_time` and `rtc_battery_disable` are declared in `rtc.h` but defined nowhere, so there is nothing to model.
- `long` overflow in the calendar conversions is not modelled: their arithmetic is unbounded. The round trips Calendar.DateToEpochToDate and Calendar.EpochToDateToEpoch hold over 2000-2099 in that arithmetic; past 2038-01-19 `e *= TIME_SEC_IN_24_HOURS` (rtc.c:280) overflows a 32-bit `long` on the driver's targets. The functions that go through a `uint32_t` (`Driver`) do model the 32-bit wrap.
- Calendar.EpochToDateRanges: admits e = LONG_MIN, where `e *= -1` (rtc.c:199) is signed overflow in C; the model negates in unbounded arithmetic there.
- The model assumes a C `int` of at least 32 bits. On a 16-bit-`int` target, `TIME_SEC_IN_HOUR * 24` (rtc.c:103), `current_time_zone * 60 * 60` (rtc.c:501, for zones of 10 hours and more) and `60 * 60 * 1000` (rtc.c:519, 528, 543, 547) would overflow before being widened; this is not modelled.
- Driver.LocalTimeShift: states the DST-off local time only while the shifted time fits a `long` (before 2038). The `uint32_t` to `long` conversion past that is modelled (`ToLong`), but no calendar property is claimed for it.
- The static result buffers are not modelled as shared memory. `gmt_time` and `local_time` are returned as values; `temp_time` and `stamp` are fields of `Rtc`. The aliasing of returned pointers is lost.
- Driver.DstMovesToNovember: restates what the DST function computes for that branch. The DST-on path is modelled faithfully but otherwise stated only through the lemmas `DstAddsThousandHours` and `DstMarchAfterStart`, because its `=` and `* 1000` quirks leave no correctness property to claim.
- PCF8583 alarms have no round trip: the alarm is written raw to 0x10-0x14 but read from 0x0A-0x0E (see `Driver.PcfAlarmNotReadBack`).
- Driver.EepromRoundTrip: rests on a flat register space in which a burst's pointer wraps only at 256. The MCP7941X EEPROM's own wrap within an 8-byte page during one write is not modelled; the page plan of `rtc_write_eeprom` starts each full page at addr + 8k, so the wrap matters only for an `addr` that is not page-aligned.
- The initial register contents are a parameter (`Bus` constructor); a register never written or supplied reads as 0.
- The time a chip keeps counting between transactions is not modelled: registers change only through the driver's writes.
- `rtc_get_last_power_failure`'s NULL return for an unknown chip type is not modelled: `RtcType` holds only the four chips.
- The `default:` of the chip switch in `rtc_init` is unreachable, since the guard before it refuses every code past 3, and is not modelled.

## Findings

| source | as written | input that shows it | evidently intended | confidence | as-written member | corrected member |
|---|---|---|---|---|---|---|
| library/src/rtc.c:155-156 | `time_epoch_to_date` steps the Julian day back for every negative epoch, and for a negative whole day also sets the time of day to 86400, which wraps to 00:00:00 | epoch -86400 (1969-12-31 00:00:00) yields 1969-12-30 00:00:00 | the floor of epoch / 86400 as the day and the floored remainder as the time of day | not executed | Calendar.EpochToDate, Driver.LocalTimeOf, Calendar.NegativeMidnightDayEarly, Calendar.EpochMinusOneDay | Calendar.EpochToDateFloored, Calendar.FlooredIsExact, Calendar.FlooredAgrees |
| library/src/rtc.c:510 | `get_dst ( local_time.year, ... )` passes the two-digit year field, and the formula of rtc.c:231 and 238, meant for the four-digit year, is evaluated on it | year field 24 (2024) gives Monday 11 March and Monday 4 November | the second Sunday of March and the first Sunday of November, the formula on Y = 2000 + year: 10 March and 3 November 2024 | not executed | Calendar.GetDst, Driver.DstUnixTime, Calendar.DstOnMondays, Calendar.Dst2024 | Calendar.GetDstFullYear, Calendar.DstFullYearOnSundays |
| library/src/rtc.c:788 | the power-fail weekday is `BCD2BIN(buffer[3] & 0b11100000)`, which takes BCD of the weekday bits left in place (bits 7-5) | power-down month register 0x61 (Wednesday, January) yields weekday 60 | the weekday bits shifted down, `(buffer[3] & 0xE0) >> 5`, giving 1-7 | not executed | Registers.PowerFailStampAsWritten, Driver.PowerFailOf, Registers.PowerFailWeekdayAsWritten, Registers.PowerFailWednesday | Registers.PowerFailStamp, Registers.PowerFailStampRoundTrip |
