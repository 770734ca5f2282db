/** The INA260 driver `pvc` (include/pvc.hpp): the transport, the device
    address and bus frequency it was built with, and cached copies of the
    CONFIGURATION, MASK/ENABLE and ALERT_LIMIT registers.  Every read and
    write moves exactly two bytes; a transfer that reports another count is a
    failure, and a failure changes neither the caches nor the caller's
    output. */
module Pvc {
  import opened Bits
  import opened Bytes
  import opened Ina260
  import opened I2c

  /** The register words the driver caches when built with every default. */
  const DefaultConfig: Config := Config(0x0127)
  const DefaultMaskEn: MaskEn := MaskEn(0x0000)
  const DefaultALimit: ALimit := ALimit(0x0000)

  /** They are the words `config()`, `masken()` and `alimit()` build. */
  lemma DriverDefaults()
    ensures DefaultConfig == ConfigOf() && DefaultMaskEn == MaskEnOf()
    ensures DefaultALimit == ALimitOf()
  {
    ConfigDefault();
    MaskEnDefault();
  }

  class Pvc {
    /** The transport every operation drives. */
    const i2c: SimBus
    /** Device address, masked to 7 bits, and bus frequency, clamped to a
        supported speed; neither changes after construction. */
    const addr: bv8
    const freq: uint32
    /** The register values last written successfully (or given at construction). */
    var config: Config
    var masken: MaskEn
    var alimit: ALimit

    /** The address is a 7-bit address and the frequency a supported one. */
    ghost predicate Valid()
      reads this
    {
      addr < 0x80 && freq in BusFreqHz
    }

    /** `pvc(i2c, addr, freq, config, masken, alimit)`. */
    constructor (i2c: SimBus, addr: bv8 := DefaultAddrId, freq: uint32 := DefaultFreqHz,
                 config: Config := DefaultConfig, masken: MaskEn := DefaultMaskEn,
                 alimit: ALimit := DefaultALimit)
      ensures this.i2c == i2c && this.addr == DevAddrId(addr) && IsMinFreq(freq, this.freq)
      ensures this.config == config && this.masken == masken && this.alimit == alimit
      ensures Valid()
    {
      var f := MinFreqHz(freq);
      this.i2c := i2c;
      this.addr := DevAddrId(addr);
      this.freq := f;
      this.config := config;
      this.masken := masken;
      this.alimit := alimit;
    }

    /** `init()`: initialise the transport with the stored address and
        frequency and report its result unchanged. */
    method Init() returns (ok: bool)
      requires Valid()
      modifies i2c`mounted, i2c`addr, i2c`freq, i2c`log
      ensures ok == old(i2c.InitResult(addr, freq))
      ensures i2c.mounted == ok && i2c.addr == addr && i2c.freq == freq
      ensures i2c.addr < 0x80 && i2c.freq in BusFreqHz
      ensures i2c.log == old(i2c.log) + [InitTxn(addr, freq)]
      ensures unchanged(this)
    {
      ok := i2c.Init(addr, freq);
    }

    /** Read two bytes of register `reg`: the count check every read of the
        driver performs, and the value when it passes. */
    method ReadWord(reg: Reg) returns (ok: bool, u: uint16)
      modifies i2c`log
      ensures ok <==> old(i2c.ReadCount(reg.Addr(), 2)) == 2
      ensures ok ==> u == i2c.Value(reg.Addr())
      ensures i2c.log == old(i2c.log) + [ReadTxn(reg.Addr(), 2)]
      ensures unchanged(this)
    {
      var nr;
      nr, u := i2c.Read(reg.Addr(), 2, 0);
      ok := nr == 2;
    }

    /** `ready()`: the DEVICE_ID register reads back as the default device word. */
    method Ready() returns (ok: bool)
      modifies i2c`log
      ensures ok <==> (old(i2c.ReadCount(Reg.DeviceId.Addr(), 2)) == 2
                       && old(i2c.Value(Reg.DeviceId.Addr())) == DeviceOf().u16 as int)
      ensures i2c.log == old(i2c.log) + [ReadTxn(Reg.DeviceId.Addr(), 2)]
      ensures unchanged(this)
    {
      var nr, u := ReadWord(Reg.DeviceId);
      if !nr {
        return false;
      }
      return DeviceOf().u16 as int == u;
    }

    /** `read_config(config)`: on success the word read, stored verbatim
        (reserved bits included); on failure `out` keeps `out0`. */
    method ReadConfig(out0: Config) returns (ok: bool, out: Config)
      modifies i2c`log
      ensures ok <==> old(i2c.ReadCount(Reg.Configuration.Addr(), 2)) == 2
      ensures out == if ok then Config(i2c.Value(Reg.Configuration.Addr()) as bv16) else out0
      ensures i2c.log == old(i2c.log) + [ReadTxn(Reg.Configuration.Addr(), 2)]
      ensures unchanged(this)
    {
      var u;
      ok, u := ReadWord(Reg.Configuration);
      out := if ok then Config(u as bv16) else out0;
    }

    /** `write_config(config)`: send the word; the cache takes it only when
        both bytes were written. */
    method WriteConfig(c: Config) returns (ok: bool)
      modifies this`config, i2c`regs, i2c`log
      ensures ok <==> old(i2c.WriteCount(2)) == 2
      ensures config == if ok then c else old(config)
      ensures i2c.regs == if ok then old(i2c.regs)[Reg.Configuration.Addr() := WireOf(c.u16 as int)]
                          else old(i2c.regs)
      ensures i2c.log == old(i2c.log) + [WriteTxn(Reg.Configuration.Addr(), c.u16 as int, 2)]
      ensures masken == old(masken) && alimit == old(alimit)
    {
      var nw := i2c.Write(Reg.Configuration.Addr(), c.u16 as int, 2);
      if nw != 2 {
        return false;
      }
      config := c;
      return true;
    }

    /** `read_masken(masken)`. */
    method ReadMasken(out0: MaskEn) returns (ok: bool, out: MaskEn)
      modifies i2c`log
      ensures ok <==> old(i2c.ReadCount(Reg.MaskEnable.Addr(), 2)) == 2
      ensures out == if ok then MaskEn(i2c.Value(Reg.MaskEnable.Addr()) as bv16) else out0
      ensures i2c.log == old(i2c.log) + [ReadTxn(Reg.MaskEnable.Addr(), 2)]
      ensures unchanged(this)
    {
      var u;
      ok, u := ReadWord(Reg.MaskEnable);
      out := if ok then MaskEn(u as bv16) else out0;
    }

    /** `write_masken(masken)`. */
    method WriteMasken(m: MaskEn) returns (ok: bool)
      modifies this`masken, i2c`regs, i2c`log
      ensures ok <==> old(i2c.WriteCount(2)) == 2
      ensures masken == if ok then m else old(masken)
      ensures i2c.regs == if ok then old(i2c.regs)[Reg.MaskEnable.Addr() := WireOf(m.u16 as int)]
                          else old(i2c.regs)
      ensures i2c.log == old(i2c.log) + [WriteTxn(Reg.MaskEnable.Addr(), m.u16 as int, 2)]
      ensures config == old(config) && alimit == old(alimit)
    {
      var nw := i2c.Write(Reg.MaskEnable.Addr(), m.u16 as int, 2);
      if nw != 2 {
        return false;
      }
      masken := m;
      return true;
    }

    /** `read_alimit(alimit)`. */
    method ReadAlimit(out0: ALimit) returns (ok: bool, out: ALimit)
      modifies i2c`log
      ensures ok <==> old(i2c.ReadCount(Reg.AlertLimit.Addr(), 2)) == 2
      ensures out == if ok then ALimit(i2c.Value(Reg.AlertLimit.Addr()) as bv16) else out0
      ensures i2c.log == old(i2c.log) + [ReadTxn(Reg.AlertLimit.Addr(), 2)]
      ensures unchanged(this)
    {
      var u;
      ok, u := ReadWord(Reg.AlertLimit);
      out := if ok then ALimit(u as bv16) else out0;
    }

    /** `write_alimit(alimit)`. */
    method WriteAlimit(a: ALimit) returns (ok: bool)
      modifies this`alimit, i2c`regs, i2c`log
      ensures ok <==> old(i2c.WriteCount(2)) == 2
      ensures alimit == if ok then a else old(alimit)
      ensures i2c.regs == if ok then old(i2c.regs)[Reg.AlertLimit.Addr() := WireOf(a.u16 as int)]
                          else old(i2c.regs)
      ensures i2c.log == old(i2c.log) + [WriteTxn(Reg.AlertLimit.Addr(), a.u16 as int, 2)]
      ensures config == old(config) && masken == old(masken)
    {
      var nw := i2c.Write(Reg.AlertLimit.Addr(), a.u16 as int, 2);
      if nw != 2 {
        return false;
      }
      alimit := a;
      return true;
    }

    /** `voltage(v)`: the bus voltage register scaled by its LSB; on failure
        `v` keeps `v0`. */
    method Voltage(v0: real) returns (ok: bool, v: real)
      modifies i2c`log
      ensures ok <==> old(i2c.ReadCount(Reg.Voltage.Addr(), 2)) == 2
      ensures v == if ok then LsbVoltage * i2c.Value(Reg.Voltage.Addr()) as real else v0
      ensures i2c.log == old(i2c.log) + [ReadTxn(Reg.Voltage.Addr(), 2)]
      ensures unchanged(this)
    {
      var u;
      ok, u := ReadWord(Reg.Voltage);
      v := if ok then LsbVoltage * u as real else v0;
    }

    /** `current(i)`: the current register scaled by its LSB. */
    method Current(i0: real) returns (ok: bool, i: real)
      modifies i2c`log
      ensures ok <==> old(i2c.ReadCount(Reg.Current.Addr(), 2)) == 2
      ensures i == if ok then LsbCurrent * i2c.Value(Reg.Current.Addr()) as real else i0
      ensures i2c.log == old(i2c.log) + [ReadTxn(Reg.Current.Addr(), 2)]
      ensures unchanged(this)
    {
      var u;
      ok, u := ReadWord(Reg.Current);
      i := if ok then LsbCurrent * u as real else i0;
    }

    /** `power(p)`: the power register scaled by its LSB. */
    method Power(p0: real) returns (ok: bool, p: real)
      modifies i2c`log
      ensures ok <==> old(i2c.ReadCount(Reg.Power.Addr(), 2)) == 2
      ensures p == if ok then LsbPower * i2c.Value(Reg.Power.Addr()) as real else p0
      ensures i2c.log == old(i2c.log) + [ReadTxn(Reg.Power.Addr(), 2)]
      ensures unchanged(this)
    {
      var u;
      ok, u := ReadWord(Reg.Power);
      p := if ok then LsbPower * u as real else p0;
    }
  }

  // ---------------------------------------------------------------------------
  // The driver against a simulated chip
  // ---------------------------------------------------------------------------

  /** A chip at the default address holding the default DEVICE_ID word, on a
      link carrying `limit` bytes per transfer, with a driver built with
      every default and initialised. */
  method Connected(limit: nat, regs: map<byte, Wire>) returns (d: Pvc)
    ensures fresh(d) && fresh(d.i2c)
    ensures d.i2c.Responds() && d.i2c.limit == limit && d.i2c.regs == regs
    ensures d.config == DefaultConfig
  {
    var bus := new SimBus(DefaultAddrId, regs, limit, true);
    d := new Pvc(bus);
    var ok := d.Init();
  }

  /** The DEVICE_ID word of the default device, as the transport carries it. */
  lemma DeviceWord()
    ensures DeviceOf().u16 as int == 0x2270
    ensures ValueOf(WireOf(0x2270)) == 0x2270
  {
    DeviceDefault();
    WireRoundTrip(0x2270, (0, 0));
  }

  /** A register word survives the trip to the wire and back. */
  lemma WordRoundTrip(u: bv16)
    ensures (ValueOf(WireOf(u as int)) as bv16) == u
  {
    WireRoundTrip(u as int, (0, 0));
  }

  /** `ready()` holds against a chip that sends the default id on a link that
      carries both bytes, and fails on a link that carries fewer. */
  method ReadyOnLink(limit: nat) returns (ok: bool)
    ensures ok <==> limit >= 2
  {
    var d := Connected(limit, map[0xFF := WireOf(0x2270)]);
    DeviceWord();
    ok := d.Ready();
  }

  /** What `write_config` sends, `read_config` returns verbatim, reserved bits
      included; a failed write leaves the cache at its previous value. */
  method WriteThenReadConfig(limit: nat, c: Config)
    returns (wrote: bool, cache: Config, read: bool, back: Config)
    ensures wrote <==> limit >= 2
    ensures cache == if wrote then c else DefaultConfig
    ensures read == wrote && back == cache
  {
    var d := Connected(limit, map[0x00 := WireOf(0x0127)]);
    wrote := d.WriteConfig(c);
    cache := d.config;
    WordRoundTrip(c.u16);
    read, back := d.ReadConfig(d.config);
  }

  /** A raw bus voltage word of 100 reads as 125 (mV), and a failed read
      leaves the caller's value. */
  method VoltageOfWord(limit: nat, v0: real) returns (ok: bool, v: real)
    ensures ok <==> limit >= 2
    ensures v == if ok then 125.0 else v0
  {
    var d := Connected(limit, map[0x02 := WireOf(100)]);
    WireRoundTrip(100, (0, 0));
    ok, v := d.Voltage(v0);
  }
}
