/**
 * The I2C byte transport the driver talks through (library/include/rtc_hal.h),
 * modelled abstractly: a bank of registers addressed by (slave, register),
 * the slave currently addressed, and the log of every transaction issued.
 *
 * A burst read or write of n bytes at register r touches registers r, r+1,
 * ..., the register pointer wrapping from 0xFF to 0x00 as on the chips.
 */
module Transport {
  import opened RtcTypes

  /** One register: the slave address it answers to and its address. */
  datatype Cell = Cell(slave: uint8, reg: uint8)

  /** The registers of every device on the bus. A register absent from the
      map holds 0; the initial bank is a parameter of the model. */
  type Bank = map<Cell, byte>

  /** The byte a register holds. */
  function Get(bank: Bank, c: Cell): byte
  {
    if c in bank then bank[c] else 0
  }

  /** The register `i` places after `reg`, once the pointer has wrapped. */
  function Next(reg: uint8, i: nat): uint8
  {
    (reg + i) % 256
  }

  /** Moving the pointer twice is moving it by the sum. */
  lemma NextNext(reg: uint8, a: nat, b: nat)
    ensures Next(Next(reg, a), b) == Next(reg, a + b)
  {
    var q := (reg + a) / 256;
    assert reg + a == 256 * q + Next(reg, a);
    assert Next(reg, a) + b == reg + a + b - 256 * q;
  }

  /** Whether register `r` is among the `n` registers a burst at `reg`
      reaches: its distance from `reg`, counted upward and modulo 256, is
      below n. */
  predicate InWindow(reg: uint8, n: nat, r: uint8)
  {
    (r - reg) % 256 < n
  }

  /** The bytes a burst read of `n` registers from `reg` returns. */
  function Block(bank: Bank, slave: uint8, reg: uint8, n: nat): (s: seq<byte>)
    ensures |s| == n
    decreases n
  {
    if n == 0 then [] else [Get(bank, Cell(slave, reg))] + Block(bank, slave, Next(reg, 1), n - 1)
  }

  /** The bank after a burst write of `data` from `reg`: one byte per register,
      in order, so that a later byte wins where a burst longer than 256
      bytes wraps onto itself. */
  function Store(bank: Bank, slave: uint8, reg: uint8, data: seq<byte>): Bank
    decreases |data|
  {
    if |data| == 0 then bank
    else Store(bank[Cell(slave, reg) := data[0]], slave, Next(reg, 1), data[1..])
  }

  /** Byte i of a burst read is register reg + i (mod 256). */
  lemma {:induction false} BlockAt(bank: Bank, slave: uint8, reg: uint8, n: nat, i: nat)
    requires i < n
    ensures Block(bank, slave, reg, n)[i] == Get(bank, Cell(slave, Next(reg, i)))
    decreases i
  {
    if i > 0 {
      BlockAt(bank, slave, Next(reg, 1), n - 1, i - 1);
      BlockShift(bank, slave, reg, n, i);
    }
  }

  /** Past its first byte, a burst read is the read from the next register,
      so byte i sits where byte i - 1 of that read does. */
  lemma BlockShift(bank: Bank, slave: uint8, reg: uint8, n: nat, i: nat)
    requires 0 < i < n
    requires Block(bank, slave, Next(reg, 1), n - 1)[i - 1] == Get(bank, Cell(slave, Next(Next(reg, 1), i - 1)))
    ensures Block(bank, slave, reg, n)[i] == Get(bank, Cell(slave, Next(reg, i)))
  {
    assert Block(bank, slave, reg, n)[i] == Block(bank, slave, Next(reg, 1), n - 1)[i - 1];
    NextNext(reg, 1, i - 1);
  }

  /** Burst reads see only the registers they cover: two banks that agree on
      those registers give the same bytes. */
  lemma BlockAgrees(bank: Bank, bank': Bank, slave: uint8, reg: uint8, n: nat)
    requires forall i :: 0 <= i < n ==> Get(bank', Cell(slave, Next(reg, i))) == Get(bank, Cell(slave, Next(reg, i)))
    ensures Block(bank', slave, reg, n) == Block(bank, slave, reg, n)
  {
    forall i | 0 <= i < n
      ensures Block(bank', slave, reg, n)[i] == Block(bank, slave, reg, n)[i]
    {
      BlockAt(bank, slave, reg, n, i);
      BlockAt(bank', slave, reg, n, i);
    }
  }

  /** A burst write leaves every register outside its window alone: those
      of other slaves, and those it does not reach. */
  lemma {:induction false} StoreOutside(bank: Bank, slave: uint8, reg: uint8, data: seq<byte>, c: Cell)
    requires c.slave != slave || !InWindow(reg, |data|, c.reg)
    ensures Get(Store(bank, slave, reg, data), c) == Get(bank, c)
    decreases |data|
  {
    if |data| > 0 {
      assert c != Cell(slave, reg);
      assert c.slave != slave || !InWindow(Next(reg, 1), |data| - 1, c.reg);
      StoreOutside(bank[Cell(slave, reg) := data[0]], slave, Next(reg, 1), data[1..], c);
    }
  }

  /** A burst write of at most 256 bytes leaves byte i in register
      reg + i (mod 256). */
  lemma {:induction false} StoreInside(bank: Bank, slave: uint8, reg: uint8, data: seq<byte>, i: nat)
    requires i < |data| <= 256
    ensures Get(Store(bank, slave, reg, data), Cell(slave, Next(reg, i))) == data[i]
    decreases |data|
  {
    var bank1 := bank[Cell(slave, reg) := data[0]];
    if i == 0 {
      assert !InWindow(Next(reg, 1), |data| - 1, reg);
      StoreOutside(bank1, slave, Next(reg, 1), data[1..], Cell(slave, reg));
    } else {
      StoreInside(bank1, slave, Next(reg, 1), data[1..], i - 1);
      NextNext(reg, 1, i - 1);
    }
  }

  /** Reading back what a burst of at most 256 bytes wrote returns it. */
  lemma ReadAfterWrite(bank: Bank, slave: uint8, reg: uint8, data: seq<byte>)
    requires |data| <= 256
    ensures Block(Store(bank, slave, reg, data), slave, reg, |data|) == data
  {
    var n := |data|;
    forall i | 0 <= i < n
      ensures Block(Store(bank, slave, reg, data), slave, reg, n)[i] == data[i]
    {
      BlockAt(Store(bank, slave, reg, data), slave, reg, n, i);
      StoreInside(bank, slave, reg, data, i);
    }
  }

  /** A transaction on the bus. */
  datatype Op =
    | Addressed(slave: uint8)
    | Fetched(slave: uint8, reg: uint8, count: nat)
    | Stored(slave: uint8, reg: uint8, data: seq<byte>)

  /** What the bus holds: the registers, the slave addressed, and the log of
      the transactions issued so far. */
  datatype BusState = BusState(bank: Bank, slave: uint8, log: seq<Op>)

  /** The byte of register `reg` of the slave addressed. */
  function Reg(st: BusState, reg: uint8): byte
  {
    Get(st.bank, Cell(st.slave, reg))
  }

  /** The bytes a burst read of `count` registers from `reg` returns. */
  function Burst(st: BusState, reg: uint8, count: nat): (s: seq<byte>)
    ensures |s| == count
  {
    Block(st.bank, st.slave, reg, count)
  }

  /** rtc_hal_init / rtc_hal_set_slave. */
  function SelectStep(st: BusState, address: uint8): BusState
  {
    BusState(st.bank, address, st.log + [Addressed(address)])
  }

  /** rtc_hal_read: logged, no register changes. */
  function ReadStep(st: BusState, reg: uint8, count: nat): BusState
  {
    st.(log := st.log + [Fetched(st.slave, reg, count)])
  }

  /** rtc_hal_write: logged, the burst stored. */
  function WriteStep(st: BusState, reg: uint8, data: seq<byte>): BusState
  {
    BusState(Store(st.bank, st.slave, reg, data), st.slave, st.log + [Stored(st.slave, reg, data)])
  }

  /** A one-byte read-modify-write: read the register, write `value` back. */
  function UpdateStep(st: BusState, reg: uint8, value: byte): BusState
  {
    WriteStep(ReadStep(st, reg, 1), reg, [value])
  }

  /** A one-byte write changes that register and no other. */
  lemma WriteOne(st: BusState, reg: uint8, value: byte)
    ensures WriteStep(st, reg, [value]).bank == st.bank[Cell(st.slave, reg) := value]
  {
    var bank1 := st.bank[Cell(st.slave, reg) := value];
    assert [value][1..] == [];
    assert Store(bank1, st.slave, Next(reg, 1), []) == bank1;
  }

  /** The bus as the driver sees it through rtc_hal_init, rtc_hal_set_slave,
      rtc_hal_read and rtc_hal_write. */
  class Bus {
    var bank: Bank
    var slave: uint8
    var log: seq<Op>

    constructor(registers: Bank)
      ensures State() == BusState(registers, 0, [])
    {
      bank := registers;
      slave := 0;
      log := [];
    }

    function State(): BusState
      reads this
    {
      BusState(bank, slave, log)
    }

    /** rtc_hal_init / rtc_hal_set_slave: address another device. */
    method SetSlave(address: uint8)
      modifies this
      ensures State() == SelectStep(old(State()), address)
    {
      slave := address;
      log := log + [Addressed(address)];
    }

    /** rtc_hal_read: a burst read of `count` registers from `reg`. */
    method Read(reg: uint8, count: nat) returns (data: seq<byte>)
      modifies this
      ensures data == Burst(old(State()), reg, count)
      ensures State() == ReadStep(old(State()), reg, count)
    {
      data := Block(bank, slave, reg, count);
      log := log + [Fetched(slave, reg, count)];
    }

    /** rtc_hal_write: a burst write of `data` from `reg`. */
    method Write(reg: uint8, data: seq<byte>)
      modifies this
      ensures State() == WriteStep(old(State()), reg, data)
    {
      bank := Store(bank, slave, reg, data);
      log := log + [Stored(slave, reg, data)];
    }
  }
}
