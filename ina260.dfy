/** Register layout, address map and bus lookups of the INA260 (include/ina260.hpp).
    Every register value stores only its 16-bit raw word; its fields are read
    and packed with shifts and masks at the bit positions of the chip's
    register description. */
module Ina260 {
  import opened Bits
  import opened Bytes

  const Uint32Max: uint32 := 0xFFFF_FFFF

  datatype Option<T> = None | Some(value: T)

  /** Default I²C device address and bus frequency (Hz). */
  const DefaultAddrId: bv8 := 0x40
  const DefaultFreqHz: uint32 := 100000

  /** Supported I²C bus frequencies (Hz), ascending: standard mode, fast mode,
      fast mode plus and high-speed mode. */
  const BusFreqHz: seq<uint32> := [100000, 400000, 1000000, 2940000]

  /** Value of one least significant bit of each measurement register. */
  const LsbCurrent: real := 1.25
  const LsbVoltage: real := 1.25
  const LsbPower: real := 10.0

  /** Configuration and data register addresses. */
  datatype Reg = Configuration | Current | Voltage | Power | MaskEnable | AlertLimit | Manufacturer | DeviceId
  {
    function Addr(): byte
    {
      match this
      case Configuration => 0x00
      case Current => 0x01
      case Voltage => 0x02
      case Power => 0x03
      case MaskEnable => 0x06
      case AlertLimit => 0x07
      case Manufacturer => 0xFE
      case DeviceId => 0xFF
    }
  }

  /** The register at address `a`, if any. */
  function RegAt(a: byte): (r: Option<Reg>)
    ensures r.Some? ==> r.value.Addr() == a
  {
    match a
    case 0x00 => Some(Configuration)
    case 0x01 => Some(Reg.Current)
    case 0x02 => Some(Reg.Voltage)
    case 0x03 => Some(Reg.Power)
    case 0x06 => Some(MaskEnable)
    case 0x07 => Some(AlertLimit)
    case 0xFE => Some(Manufacturer)
    case 0xFF => Some(DeviceId)
    case _ => None
  }

  /** Every register has its own address, and the map finds exactly the eight. */
  lemma RegAddresses(r: Reg, a: byte)
    ensures RegAt(r.Addr()) == Some(r)
    ensures RegAt(a).None? <==> a !in {0x00, 0x01, 0x02, 0x03, 0x06, 0x07, 0xFE, 0xFF}
  {
  }

  // ---------------------------------------------------------------------------
  // Bit helpers
  // ---------------------------------------------------------------------------

  /** The bit of u that `mask` selects is set. */
  predicate Bit(u: bv16, mask: bv16)
  {
    u & mask != 0
  }

  /** A one-bit field holding `b` at the bit `mask` selects. */
  function Flag(b: bool, mask: bv16): bv16
  {
    if b then mask else 0
  }

  // ---------------------------------------------------------------------------
  // CONFIGURATION register (00h)
  // ---------------------------------------------------------------------------

  /** Which measurements are performed for each conversion. */
  datatype OpType = Shutdown | Current | Voltage | Power
  {
    function Bits(): bv16
    {
      match this
      case Shutdown => 0
      case Current => 1
      case Voltage => 2
      case Power => 3
    }
  }

  function OpTypeOf(b: bv16): (t: OpType)
    requires b < 4
    ensures t.Bits() == b
  {
    if b == 0 then OpType.Shutdown
    else if b == 1 then OpType.Current
    else if b == 2 then OpType.Voltage
    else OpType.Power
  }

  /** Whether conversions are triggered or continuous. */
  datatype OpMode = Triggered | Continuous
  {
    function Bits(): bv16
    {
      if Triggered? then 0 else 1
    }
  }

  function OpModeOf(b: bv16): (m: OpMode)
    requires b < 2
    ensures m.Bits() == b
  {
    if b == 0 then Triggered else Continuous
  }

  /** ADC conversion time. */
  datatype AdcTime = Us140 | Us204 | Us332 | Us588 | Ms1p1 | Ms2p116 | Ms4p156 | Ms8p244
  {
    function Bits(): bv16
    {
      match this
      case Us140 => 0
      case Us204 => 1
      case Us332 => 2
      case Us588 => 3
      case Ms1p1 => 4
      case Ms2p116 => 5
      case Ms4p156 => 6
      case Ms8p244 => 7
    }
  }

  function AdcTimeOf(b: bv16): (t: AdcTime)
    requires b < 8
    ensures t.Bits() == b
  {
    if b == 0 then Us140
    else if b == 1 then Us204
    else if b == 2 then Us332
    else if b == 3 then Us588
    else if b == 4 then Ms1p1
    else if b == 5 then Ms2p116
    else if b == 6 then Ms4p156
    else Ms8p244
  }

  /** Number of samples collected and averaged. */
  datatype AdcCount = N1 | N4 | N16 | N64 | N128 | N256 | N512 | N1024
  {
    function Bits(): bv16
    {
      match this
      case N1 => 0
      case N4 => 1
      case N16 => 2
      case N64 => 3
      case N128 => 4
      case N256 => 5
      case N512 => 6
      case N1024 => 7
    }
  }

  function AdcCountOf(b: bv16): (c: AdcCount)
    requires b < 8
    ensures c.Bits() == b
  {
    if b == 0 then N1
    else if b == 1 then N4
    else if b == 2 then N16
    else if b == 3 then N64
    else if b == 4 then N128
    else if b == 5 then N256
    else if b == 6 then N512
    else N1024
  }

  /** Layout: type bits 0-1, mode bit 2, ctime bits 3-5, vtime bits 6-8,
      count bits 9-11, reserved bits 12-14, reset bit 15. */
  datatype Config = Config(u16: bv16)
  {
    function Op(): OpType { OpTypeOf(u16 & 0x3) }
    function Mode(): OpMode { OpModeOf((u16 >> 2) & 0x1) }
    function CTime(): AdcTime { AdcTimeOf((u16 >> 3) & 0x7) }
    function VTime(): AdcTime { AdcTimeOf((u16 >> 6) & 0x7) }
    function Count(): AdcCount { AdcCountOf((u16 >> 9) & 0x7) }
    function Resv(): bv16 { (u16 >> 12) & 0x7 }
    predicate Reset() { Bit(u16, 0x8000) }
  }

  const ConfigReservedMask: bv16 := 0x7000

  /** `config(value, mask = ~reserved_mask)`. */
  function ConfigFrom(value: bv16, mask: bv16 := !ConfigReservedMask): (c: Config)
    ensures c.u16 & !mask == 0 && c.u16 | !mask == value | !mask
  {
    Config(value & mask)
  }

  /** `config(type, mode, ctime, vtime, count, reset)`: every field reads back
      as given and the reserved bits are zero. */
  function ConfigOf(op: OpType := OpType.Power, mode: OpMode := Continuous,
                    ctime: AdcTime := Ms1p1, vtime: AdcTime := Ms1p1,
                    count: AdcCount := N1, reset: bool := false): (c: Config)
    ensures c.Op() == op && c.Mode() == mode && c.CTime() == ctime
    ensures c.VTime() == vtime && c.Count() == count && c.Reset() == reset
    ensures c.Resv() == 0 && c.u16 & ConfigReservedMask == 0
  {
    Config(op.Bits() | (mode.Bits() << 2) | (ctime.Bits() << 3) | (vtime.Bits() << 6)
           | (count.Bits() << 9) | Flag(reset, 0x8000))
  }

  /** A word with clear reserved bits is the packing of its own fields. */
  lemma ConfigFieldsRoundTrip(c: Config)
    requires c.Resv() == 0
    ensures ConfigOf(c.Op(), c.Mode(), c.CTime(), c.VTime(), c.Count(), c.Reset()) == c
  {
    var p := ConfigOf(c.Op(), c.Mode(), c.CTime(), c.VTime(), c.Count(), c.Reset());
    assert p.u16 == c.u16;
  }

  /** The raw constructor with its default mask keeps every field of the word
      and clears bits 12-14: it equals the field constructor applied to the
      word's own fields. */
  lemma ConfigFromDefaultMask(value: bv16)
    ensures ConfigFrom(value).Resv() == 0
    ensures ConfigFrom(value) == ConfigOf(Config(value).Op(), Config(value).Mode(),
      Config(value).CTime(), Config(value).VTime(), Config(value).Count(), Config(value).Reset())
  {
    var c := Config(value);
    var p := ConfigOf(c.Op(), c.Mode(), c.CTime(), c.VTime(), c.Count(), c.Reset());
    assert p.u16 == value & 0x8FFF;
  }

  /** `config()`: power, continuous, 1.1 ms, 1.1 ms, one sample, no reset. */
  lemma ConfigDefault()
    ensures ConfigOf().u16 == 0x0127
  {
  }

  // ---------------------------------------------------------------------------
  // MASK/ENABLE register (06h)
  // ---------------------------------------------------------------------------

  /** Layout: flags at bits 0-4, reserved bits 5-9, alert enables at bits 10-15. */
  datatype MaskEn = MaskEn(u16: bv16)
  {
    predicate AlertLatchEnable() { Bit(u16, 0x0001) }
    predicate AlertPolarity() { Bit(u16, 0x0002) }
    predicate MathOverflow() { Bit(u16, 0x0004) }
    predicate ConversionReady() { Bit(u16, 0x0008) }
    predicate AlertFunctionFlag() { Bit(u16, 0x0010) }
    function Resv(): bv16 { (u16 >> 5) & 0x1F }
    predicate AlertConversion() { Bit(u16, 0x0400) }
    predicate AlertOverPower() { Bit(u16, 0x0800) }
    predicate AlertUnderVoltage() { Bit(u16, 0x1000) }
    predicate AlertOverVoltage() { Bit(u16, 0x2000) }
    predicate AlertUnderCurrent() { Bit(u16, 0x4000) }
    predicate AlertOverCurrent() { Bit(u16, 0x8000) }
  }

  const MaskEnReservedMask: bv16 := 0x03E0

  /** `masken(value, mask = ~reserved_mask)`. */
  function MaskEnFrom(value: bv16, mask: bv16 := !MaskEnReservedMask): (m: MaskEn)
    ensures m.u16 & !mask == 0 && m.u16 | !mask == value | !mask
  {
    MaskEn(value & mask)
  }

  /** The flags at bits 0-4 of the MASK/ENABLE word. */
  function StatusFlags(alertLatchEnable: bool, alertPolarity: bool, mathOverflow: bool,
                       conversionReady: bool, alertFunctionFlag: bool): (r: bv16)
    ensures r & 0xFFE0 == 0
    ensures Bit(r, 0x0001) == alertLatchEnable && Bit(r, 0x0002) == alertPolarity
    ensures Bit(r, 0x0004) == mathOverflow && Bit(r, 0x0008) == conversionReady
    ensures Bit(r, 0x0010) == alertFunctionFlag
  {
    Flag(alertLatchEnable, 0x0001) | Flag(alertPolarity, 0x0002) | Flag(mathOverflow, 0x0004)
    | Flag(conversionReady, 0x0008) | Flag(alertFunctionFlag, 0x0010)
  }

  /** The alert enables at bits 10-15 of the MASK/ENABLE word. */
  function AlertEnables(alertConversion: bool, alertOverPower: bool, alertUnderVoltage: bool,
                        alertOverVoltage: bool, alertUnderCurrent: bool, alertOverCurrent: bool): (r: bv16)
    ensures r & 0x03FF == 0
    ensures Bit(r, 0x0400) == alertConversion && Bit(r, 0x0800) == alertOverPower
    ensures Bit(r, 0x1000) == alertUnderVoltage && Bit(r, 0x2000) == alertOverVoltage
    ensures Bit(r, 0x4000) == alertUnderCurrent && Bit(r, 0x8000) == alertOverCurrent
  {
    Flag(alertConversion, 0x0400) | Flag(alertOverPower, 0x0800) | Flag(alertUnderVoltage, 0x1000)
    | Flag(alertOverVoltage, 0x2000) | Flag(alertUnderCurrent, 0x4000) | Flag(alertOverCurrent, 0x8000)
  }

  /** `masken(flags...)`: every flag reads back as given, bits 5-9 are zero. */
  function MaskEnOf(alertLatchEnable: bool := false, alertPolarity: bool := false,
                    mathOverflow: bool := false, conversionReady: bool := false,
                    alertFunctionFlag: bool := false, alertConversion: bool := false,
                    alertOverPower: bool := false, alertUnderVoltage: bool := false,
                    alertOverVoltage: bool := false, alertUnderCurrent: bool := false,
                    alertOverCurrent: bool := false): (m: MaskEn)
    ensures m.AlertLatchEnable() == alertLatchEnable && m.AlertPolarity() == alertPolarity
    ensures m.MathOverflow() == mathOverflow && m.ConversionReady() == conversionReady
    ensures m.AlertFunctionFlag() == alertFunctionFlag && m.AlertConversion() == alertConversion
    ensures m.AlertOverPower() == alertOverPower && m.AlertUnderVoltage() == alertUnderVoltage
    ensures m.AlertOverVoltage() == alertOverVoltage && m.AlertUnderCurrent() == alertUnderCurrent
    ensures m.AlertOverCurrent() == alertOverCurrent
    ensures m.Resv() == 0 && m.u16 & MaskEnReservedMask == 0
  {
    MaskEn(StatusFlags(alertLatchEnable, alertPolarity, mathOverflow, conversionReady, alertFunctionFlag)
           | AlertEnables(alertConversion, alertOverPower, alertUnderVoltage, alertOverVoltage,
                          alertUnderCurrent, alertOverCurrent))
  }

  /** The word the flag constructor builds from the flags of m. */
  lemma MaskEnOfFlags(m: MaskEn)
    ensures MaskEnOf(m.AlertLatchEnable(), m.AlertPolarity(), m.MathOverflow(),
      m.ConversionReady(), m.AlertFunctionFlag(), m.AlertConversion(), m.AlertOverPower(),
      m.AlertUnderVoltage(), m.AlertOverVoltage(), m.AlertUnderCurrent(),
      m.AlertOverCurrent()).u16 == m.u16 & !MaskEnReservedMask
  {
  }

  /** A word with clear reserved bits is the packing of its own flags. */
  lemma MaskEnFieldsRoundTrip(m: MaskEn)
    requires m.Resv() == 0
    ensures MaskEnOf(m.AlertLatchEnable(), m.AlertPolarity(), m.MathOverflow(),
      m.ConversionReady(), m.AlertFunctionFlag(), m.AlertConversion(), m.AlertOverPower(),
      m.AlertUnderVoltage(), m.AlertOverVoltage(), m.AlertUnderCurrent(),
      m.AlertOverCurrent()) == m
  {
    assert m.u16 & !MaskEnReservedMask == m.u16;
    MaskEnOfFlags(m);
  }

  /** The raw constructor with its default mask keeps every flag and clears bits 5-9. */
  lemma MaskEnFromDefaultMask(value: bv16)
    ensures MaskEnFrom(value).Resv() == 0
    ensures MaskEnFrom(value) == MaskEnOf(MaskEn(value).AlertLatchEnable(),
      MaskEn(value).AlertPolarity(), MaskEn(value).MathOverflow(),
      MaskEn(value).ConversionReady(), MaskEn(value).AlertFunctionFlag(),
      MaskEn(value).AlertConversion(), MaskEn(value).AlertOverPower(),
      MaskEn(value).AlertUnderVoltage(), MaskEn(value).AlertOverVoltage(),
      MaskEn(value).AlertUnderCurrent(), MaskEn(value).AlertOverCurrent())
  {
    MaskEnFieldsRoundTrip(MaskEnFrom(value));
  }

  /** `masken()` has every flag clear. */
  lemma MaskEnDefault()
    ensures MaskEnOf().u16 == 0x0000
  {
  }

  // ---------------------------------------------------------------------------
  // ALERT_LIMIT register (07h)
  // ---------------------------------------------------------------------------

  /** Layout: the limit occupies all 16 bits. */
  datatype ALimit = ALimit(u16: bv16)
  {
    function Limit(): bv16 { u16 }
  }

  const ALimitReservedMask: bv16 := 0x0000

  /** `alimit(value, mask = ~reserved_mask)`. */
  function ALimitFrom(value: bv16, mask: bv16 := !ALimitReservedMask): (a: ALimit)
    ensures a.u16 & !mask == 0 && a.u16 | !mask == value | !mask
  {
    ALimit(value & mask)
  }

  /** `alimit(limit = 0)`. */
  function ALimitOf(limit: bv16 := 0x0000): (a: ALimit)
    ensures a.Limit() == limit
  {
    ALimit(limit)
  }

  /** Nothing is reserved: the raw constructor with its default mask and the
      field constructor build the same value from the same word. */
  lemma ALimitConstructorsAgree(value: bv16)
    ensures ALimitFrom(value) == ALimitOf(value)
    ensures ALimitFrom(value).Limit() == value
    ensures ALimitOf().u16 == 0
  {
  }

  // ---------------------------------------------------------------------------
  // DEVICE_ID register (FFh)
  // ---------------------------------------------------------------------------

  const DefaultRevision: bv8 := 0x00
  const DefaultDeviceId: bv16 := 0x227

  /** Layout: revision bits 0-3, device id bits 4-15. */
  datatype Device = Device(u16: bv16)
  {
    function Revision(): bv8 { (u16 & 0xF) as bv8 }
    function Id(): bv16 { u16 >> 4 }
  }

  const DeviceReservedMask: bv16 := 0x0000

  /** `device(value, mask = ~reserved_mask)`. */
  function DeviceFrom(value: bv16, mask: bv16 := !DeviceReservedMask): (d: Device)
    ensures d.u16 & !mask == 0 && d.u16 | !mask == value | !mask
  {
    Device(value & mask)
  }

  /** `device(revision, deviceid)`: the 4-bit and 12-bit fields keep the low
      bits of their arguments, as assigning to a bit-field does. */
  function DeviceOf(revision: bv8 := DefaultRevision, deviceid: bv16 := DefaultDeviceId): (d: Device)
    ensures d.Revision() == revision & 0xF && d.Id() == deviceid & 0xFFF
  {
    Device(((revision & 0xF) as bv16) | ((deviceid & 0xFFF) << 4))
  }

  /** Every word is the packing of its own revision and id. */
  lemma DeviceFieldsRoundTrip(d: Device)
    ensures DeviceOf(d.Revision(), d.Id()) == d
    ensures DeviceFrom(d.u16) == d
  {
    assert DeviceOf(d.Revision(), d.Id()).u16 == d.u16;
  }

  /** `device()` is revision 0 of device id 0x227. */
  lemma DeviceDefault()
    ensures DeviceOf().u16 == 0x2270
  {
  }

  /** `device::operator==(p)`: compares p[i] with byte i of the word, least
      significant first, stopping at the first difference. */
  method DeviceMatches(d: Device, p: seq<byte>) returns (eq: bool)
    requires |p| == 2
    ensures eq <==> p == Store(LSFirst, 2, d.u16 as nat)
  {
    var i := 0;
    while i < 2
      invariant 0 <= i <= 2
      invariant forall j :: 0 <= j < i ==> p[j] == ByteAt(d.u16 as nat, j)
    {
      if p[i] != LowByte(Shr(d.u16 as nat, Nbi(i))) {
        ShrNbiByte(d.u16 as nat, i);
        LEBytesAt(2, d.u16 as nat, i);
        return false;
      }
      ShrNbiByte(d.u16 as nat, i);
      i := i + 1;
    }
    LEBytesAt(2, d.u16 as nat, 0);
    LEBytesAt(2, d.u16 as nat, 1);
    return true;
  }

  /** The comparison takes the bytes in host-memory order (least significant
      first): the default id matches [0x70, 0x22], while the chip sends it on
      the wire as [0x22, 0x70]. */
  lemma DeviceMatchOrder()
    ensures Store(LSFirst, 2, DeviceOf().u16 as nat) == [0x70, 0x22]
    ensures Store(MSFirst, 2, DeviceOf().u16 as nat) == [0x22, 0x70]
  {
    DeviceDefault();
    assert LEBytes(2, 0x2270) == [0x70, 0x22];
  }

  // ---------------------------------------------------------------------------
  // Bus lookups
  // ---------------------------------------------------------------------------

  /** `dev_addr_id(addr)`: the address masked to 7-bit addressing. */
  function DevAddrId(addr: bv8): (r: bv8)
    ensures r < 0x80 && r == addr % 0x80
    ensures addr < 0x80 ==> r == addr
  {
    addr & 0x7F
  }

  lemma DevAddrIdIdempotent(addr: bv8)
    ensures DevAddrId(DevAddrId(addr)) == DevAddrId(addr)
    ensures DevAddrId(0xFF) == 0x7F && DevAddrId(0x41) == 0x41
  {
  }

  /** r is the smallest supported frequency not below `freq`, or the largest
      supported frequency when every one is below `freq`. */
  ghost predicate IsMinFreq(freq: uint32, r: uint32)
  {
    && r in BusFreqHz
    && (forall f :: f in BusFreqHz && freq <= f ==> r <= f)
    && (freq <= r || (r == BusFreqHz[|BusFreqHz| - 1] && forall f :: f in BusFreqHz ==> f < freq))
  }

  /** `min_freq_hz(freq)`: scan the ascending list and return the first entry
      not below `freq`, else the last entry. */
  method MinFreqHz(freq: uint32) returns (r: uint32)
    ensures IsMinFreq(freq, r)
  {
    var i := 0;
    while i < |BusFreqHz|
      invariant 0 <= i <= |BusFreqHz|
      invariant forall j :: 0 <= j < i ==> BusFreqHz[j] < freq
    {
      if freq <= BusFreqHz[i] {
        return BusFreqHz[i];
      }
      i := i + 1;
    }
    return BusFreqHz[|BusFreqHz| - 1];
  }

  /** The specification of `min_freq_hz` admits one result per request. */
  lemma MinFreqUnique(freq: uint32, r1: uint32, r2: uint32)
    requires IsMinFreq(freq, r1) && IsMinFreq(freq, r2)
    ensures r1 == r2
  {
  }

  /** Clamping at both ends, the first entry not below the request, and
      idempotence: a supported frequency maps to itself. */
  lemma MinFreqValues(freq: uint32, r: uint32)
    requires IsMinFreq(freq, r)
    ensures freq == 0 ==> r == 100000
    ensures freq == 150000 ==> r == 400000
    ensures freq == Uint32Max ==> r == 2940000
    ensures IsMinFreq(r, r)
  {
    assert BusFreqHz[0] in BusFreqHz && BusFreqHz[1] in BusFreqHz;
  }
}
