/**
 * The memory functions of library/src/rtc.c:1082-1286: the SRAM windows of
 * DS1307 and MCP7941X with their bounds checks, and the page plan by which
 * rtc_write_eeprom splits a write into the MCP7941X EEPROM.
 */
module Memory {
  import opened RtcTypes
  import opened Transport

  /*
   * SRAM (rtc.c:82-93, 1082-1164)
   */

  const RTC2_RAM_SIZE := 56
  const RTC2_RAM_START := 0x08
  const RTC2_RAM_END := 0x3F
  const RTC6_RAM_SIZE := 64
  const RTC6_RAM_START := 0x20
  const RTC6_RAM_END := 0x5f

  /** Whether the chip's bounds check lets an access of `size` bytes at SRAM
      address `addr` through (`addr + START + size < END`); a single-byte
      access is checked with size 0. Chips without SRAM refuse everything. */
  predicate SramAccepts(t: RtcType, addr: uint8, size: nat)
  {
    match t
    case DS1307 => addr + RTC2_RAM_START + size < RTC2_RAM_END
    case MCP7941X => addr + RTC6_RAM_START + size < RTC6_RAM_END
    case _ => false
  }

  /** The register an SRAM address is at, once the bounds check has passed:
      a register of the chip's RAM window. */
  function SramRegister(t: RtcType, addr: uint8): (r: uint8)
    requires SramAccepts(t, addr, 0)
    ensures t == DS1307 ==> RTC2_RAM_START <= r < RTC2_RAM_END
    ensures t == MCP7941X ==> RTC6_RAM_START <= r < RTC6_RAM_END
  {
    if t == DS1307 then RTC2_RAM_START + addr else RTC6_RAM_START + addr
  }

  /** Distinct SRAM addresses are distinct registers, and address 0 is the
      first register of the window. */
  lemma SramRegisterDistinct(t: RtcType, a: uint8, b: uint8)
    requires SramAccepts(t, a, 0) && SramAccepts(t, b, 0)
    ensures SramRegister(t, a) == SramRegister(t, b) <==> a == b
    ensures SramRegister(t, 0) == (if t == DS1307 then RTC2_RAM_START else RTC6_RAM_START)
  {
  }

  /** rtc.h:387-389: single-byte accesses are accepted exactly at addresses
      0x00-0x36 on DS1307 and 0x00-0x3E on MCP7941X, inside the documented
      ranges 0x00-0x38 and 0x00-0x40; no other chip accepts any. */
  lemma SramSingleRange(t: RtcType, addr: uint8)
    ensures t == DS1307 ==> (SramAccepts(t, addr, 0) <==> addr <= 0x36)
    ensures t == MCP7941X ==> (SramAccepts(t, addr, 0) <==> addr <= 0x3E)
    ensures SramAccepts(t, addr, 0) ==> addr <= (if t == DS1307 then 0x38 else 0x40)
    ensures (t == PCF8583 || t == BQ32000) ==> !SramAccepts(t, addr, 0)
  {
  }

  /** Every register an accepted burst touches lies in the chip's SRAM,
      below the last register of the window: a burst never wraps the
      register pointer and never reaches the clock registers. */
  lemma SramBurstInside(t: RtcType, addr: uint8, size: nat, i: nat)
    requires SramAccepts(t, addr, size) && i < size
    ensures t == DS1307 ==> RTC2_RAM_START <= Next(SramRegister(t, addr), i) < RTC2_RAM_END
    ensures t == MCP7941X ==> RTC6_RAM_START <= Next(SramRegister(t, addr), i) < RTC6_RAM_END
  {
  }

  /*
   * EEPROM (rtc.c:94-97, 1206-1250)
   */

  const EEPROM_SIZE := 128 * 8
  const EEPROM_START := 0
  const EEPROM_END := EEPROM_SIZE
  const EEPROM_PAGE_SIZE := 8

  /** One burst of rtc_write_eeprom: `len` bytes from offset `offset` of the
      caller's data, written at EEPROM register `reg`. */
  datatype Chunk = Chunk(reg: uint8, offset: nat, len: nat)

  function End(c: Chunk): nat
  {
    c.offset + c.len
  }

  /** The first `count` page writes of the loop at rtc.c:1222-1223: page i
      is eight bytes from offset 8i, at register addr + 8i cut to the
      `uint8_t` address parameter of rtc_hal_write. */
  function PageChunks(addr: uint8, count: nat): (cs: seq<Chunk>)
    ensures |cs| == count
  {
    if count == 0 then []
    else PageChunks(addr, count - 1)
         + [Chunk(Next(addr, (count - 1) * EEPROM_PAGE_SIZE), (count - 1) * EEPROM_PAGE_SIZE, EEPROM_PAGE_SIZE)]
  }

  /** The bursts rtc_write_eeprom issues for `size` bytes at `addr`: one
      burst when the data fits a page, else the full pages and then the
      remainder (rtc.c:1215-1226). */
  function EepromChunks(addr: uint8, size: nat): seq<Chunk>
  {
    if size <= EEPROM_PAGE_SIZE then [Chunk(addr, 0, size)]
    else
      var count := size / EEPROM_PAGE_SIZE;
      var rem := size % EEPROM_PAGE_SIZE;
      PageChunks(addr, count)
      + (if rem != 0 then [Chunk(Next(addr, count * EEPROM_PAGE_SIZE), count * EEPROM_PAGE_SIZE, rem)] else [])
  }

  /** Chunks that tile the offsets [0, size): the first starts at 0, each
      starts where the one before ends, the last ends at size; each holds at
      most a page, none is empty unless size is 0, and each is written at
      the register of its offset. */
  predicate Tiles(cs: seq<Chunk>, addr: uint8, size: nat)
  {
    && |cs| > 0
    && cs[0].offset == 0
    && End(cs[|cs| - 1]) == size
    && (forall k :: 0 < k < |cs| ==> cs[k].offset == End(cs[k - 1]))
    && (forall k :: 0 <= k < |cs| ==> cs[k].len <= EEPROM_PAGE_SIZE)
    && (forall k :: 0 <= k < |cs| ==> cs[k].reg == Next(addr, cs[k].offset))
    && (size > 0 ==> forall k :: 0 <= k < |cs| ==> cs[k].len > 0)
  }

  /** The page chunks are full pages at consecutive offsets 8i. */
  lemma {:induction false} PageChunksAt(addr: uint8, count: nat, k: nat)
    requires k < count
    ensures PageChunks(addr, count)[k] == Chunk(Next(addr, k * EEPROM_PAGE_SIZE), k * EEPROM_PAGE_SIZE, EEPROM_PAGE_SIZE)
  {
    if k < count - 1 {
      PageChunksAt(addr, count - 1, k);
    }
  }

  /** The first `count` pages end within any data of at least 8 * count
      bytes. */
  lemma PageChunksWithin(addr: uint8, count: nat, size: nat)
    requires count * EEPROM_PAGE_SIZE <= size
    ensures forall k :: 0 <= k < count ==> End(PageChunks(addr, count)[k]) <= size
  {
    forall k | 0 <= k < count
      ensures End(PageChunks(addr, count)[k]) <= size
    {
      PageChunksAt(addr, count, k);
    }
  }

  /** rtc.c:1206-1234: the bursts of rtc_write_eeprom cover the caller's
      bytes exactly once, in ascending order, each at most a page, with the
      fewest bursts a page size allows. */
  lemma EepromChunksTile(addr: uint8, size: nat)
    ensures Tiles(EepromChunks(addr, size), addr, size)
    ensures size > 0 ==> |EepromChunks(addr, size)| == (size + EEPROM_PAGE_SIZE - 1) / EEPROM_PAGE_SIZE
  {
    var cs := EepromChunks(addr, size);
    if size > EEPROM_PAGE_SIZE {
      var count := size / EEPROM_PAGE_SIZE;
      forall k | 0 <= k < count
        ensures cs[k] == Chunk(Next(addr, k * EEPROM_PAGE_SIZE), k * EEPROM_PAGE_SIZE, EEPROM_PAGE_SIZE)
      {
        PageChunksAt(addr, count, k);
      }
      assert cs[|cs| - 1].offset + cs[|cs| - 1].len == size;
    }
  }

  /** The caller's bytes each chunk carries, concatenated. */
  function Pieces(cs: seq<Chunk>, data: seq<byte>): seq<byte>
    requires forall k :: 0 <= k < |cs| ==> End(cs[k]) <= |data|
  {
    if |cs| == 0 then []
    else
      var c := cs[|cs| - 1];
      assert End(c) <= |data|;
      Pieces(cs[..|cs| - 1], data) + data[c.offset..End(c)]
  }

  /** The pieces of a prefix of a tiling are the prefix of the data the
      prefix covers. */
  lemma {:induction false} PiecesPrefix(cs: seq<Chunk>, addr: uint8, data: seq<byte>, n: nat)
    requires Tiles(cs, addr, |data|) && 0 < n <= |cs|
    requires forall k :: 0 <= k < |cs| ==> End(cs[k]) <= |data|
    ensures Pieces(cs[..n], data) == data[..End(cs[n - 1])]
  {
    if n == 1 {
      var p := cs[..1];
      assert p[..0] == [];
    } else {
      PiecesPrefix(cs, addr, data, n - 1);
      PiecesStep(cs, data, n);
    }
  }

  /** One more chunk whose bytes follow those of the chunks before it adds
      its bytes to the pieces. */
  lemma PiecesStep(cs: seq<Chunk>, data: seq<byte>, n: nat)
    requires 1 < n <= |cs|
    requires forall k :: 0 <= k < |cs| ==> End(cs[k]) <= |data|
    requires cs[n - 1].offset == End(cs[n - 2])
    requires Pieces(cs[..n - 1], data) == data[..End(cs[n - 2])]
    ensures Pieces(cs[..n], data) == data[..End(cs[n - 1])]
  {
    PiecesSnoc(cs, data, n);
    AdjacentSlices(data, cs[n - 1].offset, End(cs[n - 1]));
  }

  /** The pieces of the first n chunks are those of the first n - 1 and
      the bytes of chunk n - 1. */
  lemma PiecesSnoc(cs: seq<Chunk>, data: seq<byte>, n: nat)
    requires 0 < n <= |cs|
    requires forall k :: 0 <= k < |cs| ==> End(cs[k]) <= |data|
    ensures Pieces(cs[..n], data) == Pieces(cs[..n - 1], data) + data[cs[n - 1].offset..End(cs[n - 1])]
  {
    var p := cs[..n];
    assert p[..n - 1] == cs[..n - 1];
  }

  /** A prefix of the data is a shorter prefix and the slice after it. */
  lemma AdjacentSlices(data: seq<byte>, a: nat, b: nat)
    requires a <= b <= |data|
    ensures data[..b] == data[..a] + data[a..b]
  {
    assert data[..b] == data[..a] + data[a..b];
  }

  /** A tiling stays within the data, and its pieces put together are the
      data: every byte is written once, at its own register. */
  lemma TilesCover(cs: seq<Chunk>, addr: uint8, data: seq<byte>)
    requires Tiles(cs, addr, |data|)
    ensures forall k :: 0 <= k < |cs| ==> End(cs[k]) <= |data|
    ensures Pieces(cs, data) == data
  {
    EndsBounded(cs, addr, |data|);
    PiecesPrefix(cs, addr, data, |cs|);
    assert cs[..|cs|] == cs;
  }

  /** The ends of a tiling's chunks increase up to its size. */
  lemma EndsBounded(cs: seq<Chunk>, addr: uint8, size: nat)
    requires Tiles(cs, addr, size)
    ensures forall k :: 0 <= k < |cs| ==> End(cs[k]) <= size
  {
    var n := |cs|;
    forall k | 0 <= k < n
      ensures End(cs[k]) <= size
    {
      var j := k;
      while j < n - 1
        invariant k <= j < n && End(cs[k]) <= End(cs[j])
      {
        j := j + 1;
      }
    }
  }

  /** Every chunk ends within data of `size` bytes. */
  predicate Within(cs: seq<Chunk>, size: nat)
  {
    forall k :: 0 <= k < |cs| ==> End(cs[k]) <= size
  }

  /** The bus after the bursts of a chunk list, in order. */
  function ChunkSteps(st: BusState, cs: seq<Chunk>, data: seq<byte>): BusState
    requires forall k :: 0 <= k < |cs| ==> End(cs[k]) <= |data|
  {
    if |cs| == 0 then st
    else
      var c := cs[|cs| - 1];
      assert End(c) <= |data|;
      WriteStep(ChunkSteps(st, cs[..|cs| - 1], data), c.reg, data[c.offset..End(c)])
  }

  /** A write that fits a page is one burst of all the data at `addr`. */
  lemma OnePageSteps(st: BusState, addr: uint8, data: seq<byte>)
    requires |data| <= EEPROM_PAGE_SIZE
    ensures forall k :: 0 <= k < |EepromChunks(addr, |data|)| ==> End(EepromChunks(addr, |data|)[k]) <= |data|
    ensures ChunkSteps(st, EepromChunks(addr, |data|), data) == WriteStep(st, addr, data)
  {
    var cs := EepromChunks(addr, |data|);
    assert cs[..0] == [];
    assert data[0..|data|] == data;
  }

  /** Page i of the loop of rtc_write_eeprom follows the pages before it. */
  lemma PageStep(st: BusState, addr: uint8, data: seq<byte>, i: nat)
    requires (i + 1) * EEPROM_PAGE_SIZE <= |data|
    ensures Within(PageChunks(addr, i), |data|) && Within(PageChunks(addr, i + 1), |data|)
    ensures ChunkSteps(st, PageChunks(addr, i + 1), data)
            == WriteStep(ChunkSteps(st, PageChunks(addr, i), data), Next(addr, i * EEPROM_PAGE_SIZE),
                         data[i * EEPROM_PAGE_SIZE..i * EEPROM_PAGE_SIZE + EEPROM_PAGE_SIZE])
  {
    PageChunksWithin(addr, i + 1, |data|);
    PageChunksWithin(addr, i, |data|);
    assert PageChunks(addr, i + 1)[..i] == PageChunks(addr, i);
  }

  /** A write longer than a page whose size is not a multiple of it is its
      full pages, then the remainder. */
  lemma PagesAndRest(st: BusState, addr: uint8, data: seq<byte>, count: nat, rem: nat)
    requires EEPROM_PAGE_SIZE < |data| && count == |data| / EEPROM_PAGE_SIZE
    requires rem == |data| % EEPROM_PAGE_SIZE && rem != 0
    ensures Within(EepromChunks(addr, |data|), |data|) && Within(PageChunks(addr, count), |data|)
    ensures count * EEPROM_PAGE_SIZE + rem == |data|
    ensures ChunkSteps(st, EepromChunks(addr, |data|), data)
            == WriteStep(ChunkSteps(st, PageChunks(addr, count), data), Next(addr, count * EEPROM_PAGE_SIZE),
                         data[count * EEPROM_PAGE_SIZE..count * EEPROM_PAGE_SIZE + rem])
  {
    var cs := EepromChunks(addr, |data|);
    EepromChunksTile(addr, |data|);
    EndsBounded(cs, addr, |data|);
    PageChunksWithin(addr, count, |data|);
    assert cs[..|cs| - 1] == PageChunks(addr, count);
    assert cs[|cs| - 1] == Chunk(Next(addr, count * EEPROM_PAGE_SIZE), count * EEPROM_PAGE_SIZE, rem);
  }

  /** A write of whole pages, more than one, is those pages. */
  lemma PagesOnly(st: BusState, addr: uint8, data: seq<byte>, count: nat)
    requires EEPROM_PAGE_SIZE < |data| && count == |data| / EEPROM_PAGE_SIZE
    requires |data| % EEPROM_PAGE_SIZE == 0
    ensures Within(EepromChunks(addr, |data|), |data|) && Within(PageChunks(addr, count), |data|)
    ensures ChunkSteps(st, EepromChunks(addr, |data|), data) == ChunkSteps(st, PageChunks(addr, count), data)
  {
    PageChunksWithin(addr, count, |data|);
    assert EepromChunks(addr, |data|) == PageChunks(addr, count);
  }

  /** The transactions of the bursts of a chunk list, in order. */
  function ChunkWrites(slave: uint8, cs: seq<Chunk>, data: seq<byte>): (ops: seq<Op>)
    requires forall k :: 0 <= k < |cs| ==> End(cs[k]) <= |data|
    ensures |ops| == |cs|
  {
    if |cs| == 0 then []
    else
      var c := cs[|cs| - 1];
      assert End(c) <= |data|;
      ChunkWrites(slave, cs[..|cs| - 1], data) + [Stored(slave, c.reg, data[c.offset..End(c)])]
  }

  /** The bursts of a chunk list only write: the slave stays, and the log
      grows by one write per chunk, carrying that chunk's bytes. */
  lemma {:induction false} ChunkStepsLog(st: BusState, cs: seq<Chunk>, data: seq<byte>)
    requires forall k :: 0 <= k < |cs| ==> End(cs[k]) <= |data|
    ensures ChunkSteps(st, cs, data).slave == st.slave
    ensures ChunkSteps(st, cs, data).log == st.log + ChunkWrites(st.slave, cs, data)
  {
    if |cs| > 0 {
      ChunkStepsLog(st, cs[..|cs| - 1], data);
    }
  }

  /** The data carried by the writes of a chunk list, concatenated. */
  function WrittenData(ops: seq<Op>): seq<byte>
  {
    if |ops| == 0 then []
    else WrittenData(ops[..|ops| - 1]) + (if ops[|ops| - 1].Stored? then ops[|ops| - 1].data else [])
  }

  /** The writes of a chunk list carry exactly the pieces of the data. */
  lemma {:induction false} ChunkWritesData(slave: uint8, cs: seq<Chunk>, data: seq<byte>)
    requires forall k :: 0 <= k < |cs| ==> End(cs[k]) <= |data|
    ensures WrittenData(ChunkWrites(slave, cs, data)) == Pieces(cs, data)
  {
    if |cs| > 0 {
      var ops := ChunkWrites(slave, cs, data);
      assert ops[..|ops| - 1] == ChunkWrites(slave, cs[..|cs| - 1], data);
      ChunkWritesData(slave, cs[..|cs| - 1], data);
    }
  }
}
