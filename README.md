# libpvc: INA260 power/voltage/current monitor driver, in Dafny

libpvc drives the Texas Instruments INA260, a current, voltage and power
monitor that a host reaches over I²C. The project models four parts of it:

- **The byte-order codec** `bits::bytes` (`Bytes`, `Bits`). It names the two byte
  orders and their aliases. Its `reorder<To, From>(v)` returns the unsigned bit
  pattern of `v`, with its bytes swapped when the two orders differ. By default
  it converts from the target's native order to the reverse one.
- **The register formats and bus lookups** `ina260` (`Ina260`). These are the
  register address map and the CONFIGURATION, MASK/ENABLE, ALERT_LIMIT and
  DEVICE_ID words. Each word has a raw constructor with a reserved-bit mask and
  a field constructor. The module also has the DEVICE_ID byte comparison, the
  7-bit address mask `dev_addr_id` and the frequency clamp `min_freq_hz`.
- **The register transport** (`I2c`). This is the contract
  `init(addr, freq)` / `write(reg, data, size)` / `read(reg, data, size)`,
  played by a simulated chip. The simulation follows the ESP-IDF binding: a
  16-bit host value goes through the default `reorder` and `memcpy` on its way
  to and from the wire.
- **The driver** `pvc` (`Pvc`). It is a class holding:
  - the transport;
  - the masked address and the clamped frequency;
  - cached CONFIGURATION, MASK/ENABLE and ALERT_LIMIT words.

  A read succeeds only when exactly two bytes arrive. A write updates its cache
  only when both bytes were sent. Every failure leaves the caches and the
  caller's output as they were.

The main results:

- The source's swap fold reverses the byte string.
- The swap is an involution, so a reorder round trip gives back the unsigned
  bit pattern.
- The default reorder always swaps.
- On a little-endian target, what the transport writes is the value's bytes
  most significant first, and that is what it reads back.
- Every register constructor round-trips its fields.
- `min_freq_hz` returns the unique least supported frequency not below the
  request.
- Every driver operation keeps the state unchanged on failure and touches only
  its own cache.

Notes on the behaviour as written:

- `device::operator==` (include/ina260.hpp:231-238) compares `p[i]` with byte
  `i` of the word counted from the least significant end. It therefore expects
  the host-memory layout of a little-endian target (`[0x70, 0x22]` for the
  default id), not the order the chip sends on the wire (`[0x22, 0x70]`). The
  model follows the code (`Ina260.DeviceMatchOrder`).
- `Ord::Host` is an alias of `LSFirst` on every target, and `Native` is
  `LSFirst` only on a little-endian one. So the default `reorder` puts the
  chip's MS-first order on the wire only because the targets, ESP32 and the
  Arduino cores, are little-endian. The model fixes `Bytes.Machine` to
  `LittleEndianTarget` and states the codec for both targets.
- The field constructor `config()` writes 0 into the reserved bits 12-14, so
  the driver's default cache is 0x0127. `read_config` stores the word it reads
  verbatim, reserved bits included.

## Model

| member | source | states |
|---|---|---|
| Bits.Nbi | include/bits/bits.hpp:8-10 | `nbi(n)` is n times the 8 bits of a byte |
| Bits.Lenof | include/bits/bits.hpp:13-16 | `lenof<T>()` is `nbi(sizeof(T))`, a whole number of bytes, the same for a type and its unsigned counterpart |
| Bits.NbiShift | include/bits/bits.hpp:8-10 | shifting by `nbi(n)` bits scales by 256^n |
| Bits.SwapShiftsInRange | include/bits/bytes.hpp:44-47 | both shift amounts the swap uses for byte N of a `size`-byte value leave a whole byte inside the width; `nbi` is additive |
| Bits.LenofUnsigned | include/bits/bits.hpp:13-16 | `lenof` is 8, 16, 32 and 64 bits for the four unsigned widths |
| Bits.Integral.MakeUnsigned | include/bits/bytes.hpp:34-35 | `make_unsigned` gives an unsigned type of the same size |
| Bytes.Native | include/bits/bytes.hpp:23-31 | `Ord::Native` is MSFirst on a big-endian target and LSFirst on a little-endian one |
| Bytes.Reverse | include/bits/bytes.hpp:23-31 | `Ord::Reverse` is the other order, never equal to `Native` |
| Bytes.SwapFold | include/bits/bytes.hpp:44-47 | the terms `((v >> nbi(N)) & 0xFF) << nbi(size-1-N)` for byte indices N below k, added |
| Bytes.Swap | include/bits/bytes.hpp:44-47 | `Order::swap`: the fold over all `size` byte indices of `((v >> nbi(N)) & 0xFF) << nbi(size-1-N)`, with the terms added; its value is given by the Swap lemmas below |
| Bytes.OrdAliases | include/bits/bytes.hpp:10-32 | BE, Network are MSFirst; LE, Host are LSFirst on every target; Native is BE exactly on a big-endian target, Reverse is LE exactly then |
| Bytes.ToUnsigned | include/bits/bytes.hpp:58-64 | the cast to the unsigned type yields a value that type holds: every non-negative value is kept, and a negative v becomes its two's complement pattern v + 256^sizeof |
| Bytes.Reorder | include/bits/bytes.hpp:58-64 | the result is unsigned and fits the size of the input type |
| Bytes.ReorderDefault | include/bits/bytes.hpp:76-80 | the default reorder returns an unsigned value of the input's size |
| Bytes.ShrNbiByte | include/bits/bytes.hpp:46 | `(v >> nbi(i)) & 0xFF` is byte i of v |
| Bytes.SwapIsReverse | include/bits/bytes.hpp:44-47 | the swap fold equals the value of v's byte string reversed |
| Bytes.SwapBytes | include/bits/bytes.hpp:44-47 | the swap fits in `size` bytes, its bytes are v's in reverse order, and byte i is byte size-1-i of v |
| Bytes.SwapInvolution | include/bits/bytes.hpp:44-47 | swapping twice restores any value of the width |
| Bytes.SwapSingleByte | include/bits/bytes.hpp:44-47 | swapping a one-byte value leaves it unchanged |
| Bytes.ReorderSpec | include/bits/bytes.hpp:58-64 | with equal orders reorder is the unsigned cast; otherwise byte i of the result is byte size-1-i of the cast |
| Bytes.ReorderRoundTrip | include/bits/bytes.hpp:76-80 | reordering to another order and back gives the unsigned bit pattern of the input |
| Bytes.DefaultAlwaysSwaps | include/bits/bytes.hpp:76-80 | Native and Reverse differ on every target, so the default reorder is the byte swap, and the identity on one-byte values |
| Bytes.StoreReordered | include/bits/bytes.hpp:76-80 | storing the default-reordered value lays out the value's bytes in Reverse order; loading bytes and reordering reads them in Reverse order |
| Ina260.Reg.Addr | include/ina260.hpp:27-36 | the address of each of the eight registers, as the enum assigns it |
| Ina260.RegAt | include/ina260.hpp:27-36 | a register found at an address has that address |
| Ina260.RegAddresses | include/ina260.hpp:27-36 | every register is found at its own address, and exactly the eight listed addresses name a register |
| Ina260.ConfigFrom | include/ina260.hpp:98-103 | the raw constructor clears the bits outside the mask and keeps the bits inside it |
| Ina260.ConfigOf | include/ina260.hpp:104-117 | every field reads back as given, and the reserved bits 12-14 are zero |
| Ina260.ConfigFieldsRoundTrip | include/ina260.hpp:83-117 | a word with clear reserved bits is the field constructor applied to its own fields |
| Ina260.ConfigFromDefaultMask | include/ina260.hpp:98-117 | the raw constructor with its default mask clears bits 12-14 and equals the field constructor on the word's fields |
| Ina260.ConfigDefault | include/ina260.hpp:104-110 | `config()` is 0x0127: power, continuous, 1.1 ms, 1.1 ms, one sample, no reset |
| Ina260.MaskEnFrom | include/ina260.hpp:145-150 | the raw constructor clears the bits outside the mask and keeps the bits inside it |
| Ina260.StatusFlags | include/ina260.hpp:129-133 | the five flags land on bits 0-4 and nothing else |
| Ina260.AlertEnables | include/ina260.hpp:135-140 | the six alert enables land on bits 10-15 and nothing else |
| Ina260.MaskEnOf | include/ina260.hpp:151-174 | every flag reads back as given, and the reserved bits 5-9 are zero |
| Ina260.MaskEnOfFlags | include/ina260.hpp:125-174 | the flag constructor applied to a word's flags gives the word with bits 5-9 cleared |
| Ina260.MaskEnFieldsRoundTrip | include/ina260.hpp:125-174 | a word with clear reserved bits is the flag constructor applied to its own flags |
| Ina260.MaskEnFromDefaultMask | include/ina260.hpp:145-174 | the raw constructor with its default mask clears bits 5-9 and equals the flag constructor on the word's flags |
| Ina260.MaskEnDefault | include/ina260.hpp:151-162 | `masken()` has every bit clear |
| Ina260.ALimitFrom | include/ina260.hpp:191-196 | the raw constructor clears the bits outside the mask and keeps the bits inside it |
| Ina260.ALimitOf | include/ina260.hpp:197-199 | the limit reads back as given |
| Ina260.ALimitConstructorsAgree | include/ina260.hpp:191-199 | nothing is reserved: both constructors build the same value from a word, and the default limit is 0 |
| Ina260.DeviceFrom | include/ina260.hpp:217-222 | the raw constructor clears the bits outside the mask and keeps the bits inside it |
| Ina260.DeviceOf | include/ina260.hpp:223-227 | revision and id read back truncated to their 4-bit and 12-bit fields |
| Ina260.DeviceFieldsRoundTrip | include/ina260.hpp:207-227 | every word is the packing of its own revision and id, and the raw constructor keeps it |
| Ina260.DeviceDefault | include/ina260.hpp:223-227 | `device()` is 0x2270, revision 0 of device 0x227 |
| Ina260.DeviceMatches | include/ina260.hpp:231-238 | the loop reports equality exactly when p is the word's two bytes least significant first |
| Ina260.DeviceMatchOrder | include/ina260.hpp:231-238 | the default id matches [0x70, 0x22], the reverse of its MS-first wire bytes [0x22, 0x70] |
| Ina260.DevAddrId | include/ina260.hpp:243-245 | the result is a 7-bit address equal to the address mod 0x80, and a 7-bit address is kept |
| Ina260.DevAddrIdIdempotent | include/ina260.hpp:243-245 | masking twice is masking once; 0xFF maps to 0x7F |
| Ina260.MinFreqHz | include/ina260.hpp:255-262 | the scan returns a supported frequency that is the least one not below the request, or the largest when all are below |
| Ina260.MinFreqUnique | include/ina260.hpp:247-262 | that description admits exactly one result |
| Ina260.MinFreqValues | include/ina260.hpp:247-254 | 0 gives 100 kHz, UINT32_MAX gives 2.94 MHz, 150 kHz gives 400 kHz, and a supported frequency maps to itself |
| I2c.WireRoundTrip | include/pvc/i2c_espidf.hpp:62-83 | encoding a 16-bit value to wire bytes and decoding gives it back, and every byte pair decodes to the value that encodes it |
| I2c.WireStoreMSFirst | include/pvc/i2c_espidf.hpp:62-70 | the wire bytes of a value are the value stored MS-first |
| I2c.WireLoadMSFirst | include/pvc/i2c_espidf.hpp:74-83 | decoding wire bytes is loading them MS-first |
| I2c.TransportWrites | include/pvc/i2c_espidf.hpp:62-70 | `reorder` then `memcpy` on the little-endian target puts the value's bytes on the wire high byte first |
| I2c.TransportReads | include/pvc/i2c_espidf.hpp:74-83 | `memcpy` of the received bytes then `reorder` yields the value the wire bytes encode |
| I2c.SimBus.constructor | include/pvc/i2c.hpp:25-38 | a simulated transport for a chip at `chipAddr` with the given register file and link, not yet mounted, with an empty log |
| I2c.SimBus.Init | include/pvc/i2c_espidf.hpp:45-58 | a mount with the same address and frequency is reported as success and kept; otherwise the device is mounted anew and the result is the mount's |
| I2c.SimBus.Write | include/pvc/i2c_espidf.hpp:62-70 | the count is the bytes the link carried, never more than asked; the register takes the value only when both bytes arrive |
| I2c.SimBus.Read | include/pvc/i2c_espidf.hpp:74-83 | the count is the bytes carried; a complete read returns the reordered received bytes; otherwise the caller's data is untouched |
| Pvc.DriverDefaults | include/pvc.hpp:25-27 | the cached defaults are `config()`, `masken()` and `alimit()` |
| Pvc.Pvc.constructor | include/pvc.hpp:22-33 | the address is `dev_addr_id(addr)`, the frequency is `min_freq_hz(freq)`, the caches are the given words, and the address is 7-bit and the frequency supported |
| Pvc.Pvc.Init | include/pvc.hpp:42-44 | the transport is initialised with the stored address and frequency and its result is returned; the transport only ever sees a 7-bit address and a supported frequency; the driver is unchanged |
| Pvc.Pvc.ReadWord | include/pvc.hpp:48-53 | success exactly when both bytes were read, and then the word is the register's value |
| Pvc.Pvc.Ready | include/pvc.hpp:47-55 | true exactly when DEVICE_ID reads two bytes and equals `device().u16` |
| Pvc.Pvc.ReadConfig | include/pvc.hpp:57-66 | on a two-byte read the output is the register word verbatim; otherwise it keeps its value; the caches are unchanged |
| Pvc.Pvc.WriteConfig | include/pvc.hpp:68-77 | the cache takes the word exactly when both bytes were written, the chip register takes it then, and the other caches are unchanged |
| Pvc.Pvc.ReadMasken | include/pvc.hpp:79-88 | on a two-byte read the output is the register word verbatim; otherwise it keeps its value; the caches are unchanged |
| Pvc.Pvc.WriteMasken | include/pvc.hpp:90-99 | the cache takes the word exactly when both bytes were written, the chip register takes it then, and the other caches are unchanged |
| Pvc.Pvc.ReadAlimit | include/pvc.hpp:101-110 | on a two-byte read the output is the register word verbatim; otherwise it keeps its value; the caches are unchanged |
| Pvc.Pvc.WriteAlimit | include/pvc.hpp:112-121 | the cache takes the word exactly when both bytes were written, the chip register takes it then, and the other caches are unchanged |
| Pvc.Pvc.Voltage | include/pvc.hpp:123-134 | on a two-byte read the result is 1.25 times the register word; otherwise the caller's value is kept |
| Pvc.Pvc.Current | include/pvc.hpp:136-147 | on a two-byte read the result is 1.25 times the register word; otherwise the caller's value is kept |
| Pvc.Pvc.Power | include/pvc.hpp:149-160 | on a two-byte read the result is 10 times the register word; otherwise the caller's value is kept |
| Pvc.Connected | include/pvc.hpp:22-44 | a driver built with every default and initialised against a responding chip at the default address reaches it, with the default config cached |
| Pvc.DeviceWord | include/pvc.hpp:47-55 | `device().u16` is 0x2270 and survives the wire encoding |
| Pvc.WordRoundTrip | include/pvc.hpp:57-77 | the wire encoding of a 16-bit register word decodes back to the same word (`I2c.WireRoundTrip` seen through `bv16`) |
| Pvc.ReadyOnLink | include/pvc.hpp:47-55 | against a chip sending the default id, `ready()` holds exactly when the link carries both bytes |
| Pvc.WriteThenReadConfig | include/pvc.hpp:57-77 | a config written over a two-byte link is cached and read back verbatim; over a shorter link the write and the read fail and the default cache stays |
| Pvc.VoltageOfWord | include/pvc.hpp:123-134 | a raw bus-voltage word of 100 reads as 125.0, and a failed read keeps the caller's value |

## Left out

- The transport interface is an abstract base class (include/pvc/i2c.hpp:25-38). Here it is the one concrete simulated transport `I2c.SimBus`, because the model is written without traits. The driver's contracts speak of the bus's reply functions (`ReadCount`, `WriteCount`, `Value`, `InitResult`) and also of its register file, its mount state (mounted, address, frequency) and its transaction log.
- I2c.SimBus.Init: bus creation and device mounting are folded into one switch, `enabled`. The ESP-IDF handles, pins and the global bus configuration are not modelled.
- I2c.SimBus.Write, I2c.SimBus.Read: both require `size <= 2`. The ESP-IDF signature accepts any size, but above 2 its `memcpy` runs past the 16-bit `u` (include/pvc/i2c_espidf.hpp:65, 78), which is undefined behaviour. The driver always passes 2.
- I2c.SimBus.Write: the chip latches a register only when both bytes arrive. What a partial transfer leaves in a register is not modelled.
- The per-transaction byte `limit` of `I2c.SimBus` is a generalisation, not the ESP-IDF behaviour. The ESP-IDF binding reports all bytes or none, while the Arduino binding can report partial counts. The driver treats every count other than two as a failure either way.
- The Arduino binding (include/pvc/i2c_arduino.hpp, include/pvc/arduino.hpp), the stand-alone I²C helper include/i2c.hpp and the example program examples/platformio/src/main.cpp are not part of this model.
- The real bus, its timing, timeouts, clocks and concurrency are not modelled. So are the hardware error codes, which become the simulated link's `limit` and `enabled`.
- Pvc.Pvc.Voltage, Pvc.Pvc.Current, Pvc.Pvc.Power: the result type `T` is any arithmetic type in the source. Here it is an exact `real`, so floating-point rounding and integer truncation of `T` are not modelled.
- The reference accessors `config()`, `masken()` and `alimit()` (include/pvc.hpp:37-39) hand out mutable references to the caches. The model exposes the cache fields instead. Writing through the reference is not modelled.
- The union/bit-field storage and `alignas`/`#pragma pack` are not modelled. Every register value is its 16-bit word, and the fields are read by shift and mask. For CONFIGURATION and MASK/ENABLE the positions are the ones the bit-field comments give. DEVICE_ID's `revision : 4` and `deviceid : 12` carry no position comments; their bits 0-3 and 4-15 follow the declaration order, which under `#pragma pack` is implementation-defined.
- `util::make_array` is not modelled: `bus_freq_hz` is a constant sequence.
- Bytes.Machine fixes the target as little-endian, the byte order of ESP32 and the Arduino cores. The codec lemmas are stated for both targets.
- The swap fold of `Order::swap` combines its shifted bytes with `|`; the model adds them. The bytes sit at disjoint positions, so the value is the same, and `Bytes.SwapBytes` gives it byte by byte; the bitwise `|` itself is not modelled.
- Pvc.Pvc.constructor: the transport pointer is never null, and the driver holds the transport object itself.
