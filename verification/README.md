# MLX90614 driver model

A Dafny model of the CircuitPython driver for the Melexis MLX90614 infrared
thermometer (`adafruit_mlx90614.py`). The driver has two parts, and the model
keeps both:

- **Register read** (`_read_16`). The driver reuses a 2-byte scratch buffer.
  It puts the register pointer into `buf[0]` and writes only that byte
  (`out_end=1`). It then reads two bytes back into the same buffer and returns
  `buf[1] << 8 | buf[0]`, so the first byte received is the low byte. The model
  is the class `Mlx90614.MLX90614`. Its `buf` is an `array<Byte>`, and
  `Read16` updates that array in place.
- **Conversion** (`_read_temp`, `ambient_temperature`, `object_temperature`).
  The raw value becomes `raw * 0.02 - 273.15` degrees Celsius. The model uses
  exact `real` arithmetic, with an integer partner in hundredths of a degree
  (`2*raw - 27315`).

The files are:

- `bits.dfy` (module `Bits`): Python's `<<` and `|` on non-negative unbounded
  integers. `BitOr` is defined bit by bit. It is proved equal, bit by bit, to a
  bit-extraction reference (`BitOrIsBitwise`). The model also proves that
  or-ing a value into a shifted value with no common bits is addition.
- `i2c.dfy` (module `I2C`): the bus collaborator, reduced to what the driver can
  observe. An `I2CBus` logs each transfer put on the wire. An `I2CDevice` binds
  a bus to an address and performs `write_then_readinto`. The device's answer is
  a `Reply` parameter: either the bytes it clocks out or no acknowledgment.
  `Received` takes the first n bytes of a reply. It gives nothing when the
  device does not acknowledge or sends fewer than n bytes, and such a transfer
  fails with `TransferFailed`.
- `wrappers.dfy` (module `Wrappers`): the `Option` and `Result` datatypes.
- `mlx90614.dfy` (module `Mlx90614`): the register constants, the byte
  composition `Word`, the conversion `Celsius`, and the driver class.

The comment above `_read_16` (adafruit_mlx90614.py:129-130) speaks of a "big
endian value" and a "16-bit register address". The code does neither. It writes
a single register byte and composes the value low byte first. The model follows
the code (adafruit_mlx90614.py:132-134).

## Model

| member | source | states |
|---|---|---|
| Bits.BitOrIsBitwise | adafruit_mlx90614.py:134 | bit i of `x \| y` is set exactly when bit i is set in x or in y (both directions) |
| Bits.OrOfDisjoint | adafruit_mlx90614.py:134 | when b < 2^k, `(a << k) \| b` equals `(a << k) + b` |
| Mlx90614.Word | adafruit_mlx90614.py:134 | `buf[1] << 8 \| buf[0]` equals hi*256 + lo: the first byte received is the low byte, and the value is a 16-bit value in 0..65535 |
| Mlx90614.Split | adafruit_mlx90614.py:134 | every value in 0..65535 is the composition of some low/high byte pair |
| Mlx90614.SplitWord | adafruit_mlx90614.py:134 | splitting a composed value returns the two received bytes |
| Mlx90614.WordInjective | adafruit_mlx90614.py:134 | two byte pairs compose to the same value if and only if they are equal |
| Mlx90614.Celsius | adafruit_mlx90614.py:122-126 | every reading lies in [-273.15, 1037.55]; raw 0 alone gives -273.15 and raw 65535 alone gives 1037.55 |
| Mlx90614.CentiCelsius | adafruit_mlx90614.py:123-125 | `2*raw - 27315` is exactly 100 times the Celsius reading, and lies in [-27315, 103755] |
| Mlx90614.CelsiusStrictlyIncreasing | adafruit_mlx90614.py:124-125 | a < b if and only if Celsius(a) < Celsius(b) |
| Mlx90614.CelsiusStep | adafruit_mlx90614.py:124 | each extra LSB adds exactly 0.02 degrees |
| Mlx90614.KnownReading | adafruit_mlx90614.py:122-134 | bytes 0x8A then 0x3B give raw 15242 and 31.69 degrees |
| Mlx90614.Reading | adafruit_mlx90614.py:122-126 | every temperature a read yields lies in [-273.15, 1037.55] |
| Mlx90614.ReadingIgnoresTrailingBytes | adafruit_mlx90614.py:133-134 | only the first two bytes the sensor sends affect the reading; anything after them, such as the PEC byte, is ignored |
| I2C.I2CDevice.constructor | adafruit_mlx90614.py:108 | the device handle is bound to the given bus and address |
| I2C.I2CDevice.WriteThenReadInto | adafruit_mlx90614.py:133 | one transfer is logged carrying the bytes written before the read, even when input and output share one buffer; on success the input buffer holds the received bytes, and on failure it is unchanged |
| Mlx90614.MLX90614.constructor | adafruit_mlx90614.py:107-110 | a fresh 2-byte buffer holding [CONFIG, 0]; the device is bound to the given bus and address, 0x5A by default |
| Mlx90614.MLX90614.Read16 | adafruit_mlx90614.py:128-134 | exactly one transfer writes the single byte [register] and reads 2; on success the buffer holds exactly the two received bytes and the result is their low-first composition; on failure the result is the error and the buffer is [register, old buf[1]]; nothing else changes |
| Mlx90614.MLX90614.ReadTemp | adafruit_mlx90614.py:122-126 | one transfer for the register; the buffer afterwards holds the two received bytes, or [register, old buf[1]] on failure; the result is the Celsius conversion of the value read, or the bus error |
| Mlx90614.MLX90614.AmbientTemperature | adafruit_mlx90614.py:112-115 | reads register 0x06 (TA) through the shared conversion; the buffer afterwards holds the received bytes, or [0x06, old buf[1]] on failure |
| Mlx90614.MLX90614.ObjectTemperature | adafruit_mlx90614.py:117-120 | reads register 0x07 (TOBJ1) through the shared conversion; the buffer afterwards holds the received bytes, or [0x07, old buf[1]] on failure |
| Mlx90614.AmbientThenObject | adafruit_mlx90614.py:112-120 | two reads in a row each put their own full transfer on the bus (nothing is cached); equal replies give equal temperatures; the buffer afterwards reflects the second read |

## Left out

- The bus lock taken by `with self._device` (adafruit_mlx90614.py:131) is not modelled. The model is sequential, so no concurrent transfer can interleave.
- The probe transfer that the I2C device library makes when a device handle is created is not modelled. That library is not part of this model, and neither is its 7-bit address check.
- What the sensor answers is a parameter (`Reply`). The model does not compute it from any physical state.
- A failed transfer is modelled as leaving the input buffer untouched. What the real library leaves in the buffer after a partial read is not captured.
- Floating-point rounding is not modelled. The conversion uses exact decimal arithmetic, not IEEE doubles.
- The 100 kHz bus-speed requirement (adafruit_mlx90614.py:78-79) is a hardware condition. No code enforces it.
- The PEC byte is never read or checked by the driver, and the model does not check it either: any bytes after the first two are ignored (`ReadingIgnoresTrailingBytes`). The EEPROM registers and the raw IR / TOBJ2 registers (adafruit_mlx90614.py:54-55, 58, 61-71) are kept only as named constants, because no operation reads them.
- There is no Fahrenheit conversion. The driver defines none, and the demo script's `read_ambient_temp_f` / `read_object_temp_f` (examples/mlx90614_simpletest.py:28-29) do not exist in the driver.
