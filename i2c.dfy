/** The register transport the driver runs over: `init(addr, freq) -> bool`,
    `write(reg, data, size) -> count` and `read(reg, size) -> (count, data)`
    (include/pvc/i2c.hpp).  The driver passes and receives 16-bit values in
    host order; the transport converts them to and from the chip's wire order
    with the default `reorder`, as the ESP-IDF binding does
    (include/pvc/i2c_espidf.hpp).  The physical bus is replaced by a
    simulated chip: a map from register address to the two bytes the chip
    sends for it, most significant byte first. */
module I2c {
  import opened Bits
  import opened Bytes

  /** One transaction as the transport was asked to perform it. */
  datatype Txn =
    | InitTxn(addr: bv8, freq: uint32)
    | WriteTxn(reg: byte, data: uint16, size: nat)
    | ReadTxn(reg: byte, size: nat)

  /** The two bytes of a register in the order they cross the wire. */
  type Wire = (byte, byte)

  /** Wire bytes as the bytes of a buffer in memory. */
  function WireBytes(w: Wire): (bs: seq<byte>)
    ensures |bs| == 2
  {
    [w.0, w.1]
  }

  function Min(a: nat, b: nat): nat
  {
    if a <= b then a else b
  }

  /** The wire bytes of a 16-bit register value: high byte, then low byte. */
  function WireOf(v: uint16): Wire
  {
    (v / 256, v % 256)
  }

  /** The 16-bit value whose wire bytes are `w`. */
  function ValueOf(w: Wire): uint16
  {
    w.0 * 256 + w.1
  }

  /** Encoding a value for the wire and decoding it gives the value back, and
      every pair of wire bytes is the encoding of exactly one value. */
  lemma WireRoundTrip(v: uint16, w: Wire)
    ensures ValueOf(WireOf(v)) == v
    ensures WireOf(ValueOf(w)) == w
  {
  }

  /** The wire bytes are the value stored most significant byte first. */
  lemma {:induction false} WireStoreMSFirst(v: uint16)
    ensures WireBytes(WireOf(v)) == Store(MSFirst, 2, v)
  {
    var hi, lo := v / 256, v % 256;
    assert hi < 256 && hi % 256 == hi && hi / 256 == 0;
    assert LEBytes(1, hi) == [hi] + LEBytes(0, 0);
    assert LEBytes(2, v) == [lo] + LEBytes(1, hi) == [lo, hi];
    assert Rev([lo, hi]) == Rev([hi]) + [lo];
    assert Rev([hi]) == [hi];
    assert Store(MSFirst, 2, v) == Rev(LEBytes(2, v)) == [hi] + [lo];
    assert WireBytes(WireOf(v)) == [hi, lo] == [hi] + [lo];
  }

  /** Decoding wire bytes is loading them most significant byte first. */
  lemma {:induction false} WireLoadMSFirst(w: Wire)
    ensures ValueOf(w) == Load(MSFirst, WireBytes(w))
  {
    var (a, b) := w;
    assert Rev([a, b]) == [b, a];
    assert [b, a][1..] == [a] && [a][1..] == [];
    assert FromLE([a]) == a + 256 * FromLE([]);
    assert FromLE([b, a]) == b + 256 * FromLE([a]);
  }

  /** The transport's default reorder puts a host value on the wire most
      significant byte first: the chip's byte order, on the little-endian
      targets the drivers run on. */
  lemma {:induction false} TransportWrites(v: uint16)
    ensures var buf := Store(Native(Machine), 2, ReorderDefault(Machine, UInt16, v));
      (buf[0], buf[1]) == WireOf(v)
  {
    assert Pow256(2) == 0x1_0000;
    DefaultAlwaysSwaps(Machine, UInt16, v);
    StoreReordered(Machine, 2, v, [0, 0]);
    WireStoreMSFirst(v);
  }

  /** Reordering the bytes the chip sends reads them back as their value. */
  lemma {:induction false} TransportReads(w: Wire)
    ensures Load(Native(Machine), WireBytes(w)) < 0x1_0000 &&
      ReorderDefault(Machine, UInt16, Load(Native(Machine), WireBytes(w))) == ValueOf(w)
  {
    assert Pow256(2) == 0x1_0000;
    FromLEBound(WireBytes(w));
    DefaultAlwaysSwaps(Machine, UInt16, Load(Native(Machine), WireBytes(w)));
    StoreReordered(Machine, 2, 0, WireBytes(w));
    WireLoadMSFirst(w);
  }

  /** The bytes a read of `size` bytes leaves in the zeroed 16-bit buffer, in
      wire order. */
  function Received(w: Wire, size: nat): Wire
  {
    if size == 0 then (0, 0) else if size == 1 then (w.0, 0) else w
  }

  /** A simulated transport: the chip at `chipAddr` with its register file,
      and a link that carries at most `limit` data bytes per transaction. */
  class SimBus {
    /** Address the simulated chip answers at. */
    const chipAddr: bv8
    /** Whether creating the bus and mounting the device succeed. */
    const enabled: bool
    /** Data bytes the link carries per transaction. */
    const limit: nat

    /** The device address and bus frequency of the last mount. */
    var mounted: bool
    var addr: bv8
    var freq: uint32
    /** The chip's registers as they cross the wire. */
    var regs: map<byte, Wire>
    /** Every transaction requested so far, oldest first (specification only). */
    ghost var log: seq<Txn>

    constructor (chipAddr: bv8, regs: map<byte, Wire>, limit: nat, enabled: bool)
      ensures this.chipAddr == chipAddr && this.regs == regs
      ensures this.limit == limit && this.enabled == enabled
      ensures !mounted && log == []
    {
      this.chipAddr := chipAddr;
      this.enabled := enabled;
      this.limit := limit;
      this.regs := regs;
      mounted := false;
      addr := 0;
      freq := 0;
      log := [];
    }

    /** The addressed chip acknowledges a transaction. */
    predicate Responds()
      reads this
    {
      mounted && addr == chipAddr
    }

    /** Bytes a transaction of `size` data bytes transfers. */
    function Carried(size: nat): nat
      reads this
    {
      if Responds() then Min(size, limit) else 0
    }

    /** What `init(a, f)` reports in the current state. */
    predicate InitResult(a: bv8, f: uint32)
      reads this
    {
      (mounted && addr == a && freq == f) || enabled
    }

    /** What `write(reg, data, size)` reports in the current state. */
    function WriteCount(size: nat): nat
      reads this
    {
      Carried(size)
    }

    /** What `read(reg, size)` reports in the current state. */
    function ReadCount(reg: byte, size: nat): nat
      reads this
    {
      if reg in regs then Carried(size) else 0
    }

    /** The host value of register `reg`, 0 for an address the chip lacks. */
    function Value(reg: byte): uint16
      reads this
    {
      if reg in regs then ValueOf(regs[reg]) else 0
    }

    /** (Re)initialise: a mount with the same address and frequency is kept and
        reported as a success; otherwise the device is mounted anew. */
    method Init(a: bv8, f: uint32) returns (ok: bool)
      modifies this`mounted, this`addr, this`freq, this`log
      ensures ok == old(InitResult(a, f))
      ensures mounted == ok && addr == a && freq == f
      ensures log == old(log) + [InitTxn(a, f)]
    {
      log := log + [InitTxn(a, f)];
      if mounted && addr == a && freq == f {
        return true;
      }
      addr := a;
      freq := f;
      mounted := enabled;
      ok := enabled;
    }

    /** Send `size` bytes of the host value `data` to register `reg`: the
        value is reordered and its first `size` bytes in memory go out; the
        chip latches a register only when both bytes arrive. */
    method Write(reg: byte, data: uint16, size: nat) returns (count: nat)
      requires size <= 2
      modifies this`regs, this`log
      ensures count == old(WriteCount(size)) && count <= size
      ensures regs == if count == 2 then old(regs)[reg := WireOf(data)] else old(regs)
      ensures log == old(log) + [WriteTxn(reg, data, size)]
    {
      log := log + [WriteTxn(reg, data, size)];
      assert Pow256(2) == 0x1_0000;
      var u := ReorderDefault(Machine, UInt16, data);
      var buf := Store(Native(Machine), 2, u);
      count := Carried(size);
      if count == 2 {
        TransportWrites(data);
        regs := regs[reg := (buf[0], buf[1])];
      }
    }

    /** Receive `size` bytes of register `reg` into a zeroed 16-bit buffer in
        host memory and hand back its reordered value; when fewer than `size`
        bytes arrive, `data` keeps the caller's value. */
    method Read(reg: byte, size: nat, data0: uint16) returns (count: nat, data: uint16)
      requires size <= 2
      modifies this`log
      ensures count == old(ReadCount(reg, size)) && count <= size
      ensures count == size && reg in regs ==> data == ValueOf(Received(regs[reg], size))
      ensures count != size ==> data == data0
      ensures log == old(log) + [ReadTxn(reg, size)]
    {
      log := log + [ReadTxn(reg, size)];
      count := ReadCount(reg, size);
      if count != size || reg !in regs {
        return count, data0;
      }
      var w := Received(regs[reg], size);
      var buf := WireBytes(w);
      var u := Load(Native(Machine), buf);
      TransportReads(w);
      data := ReorderDefault(Machine, UInt16, u);
    }
  }
}
