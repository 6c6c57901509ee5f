/** Driver for the Melexis MLX90614 infrared thermometer: a 16-bit register read
    over I2C, and the conversion of the raw register value into degrees Celsius. */
module Mlx90614 {
  import opened Bits
  import opened I2C
  import opened Wrappers

  /** Default I2C address of the sensor. */
  const I2CAddr: nat := 0x5A

  // RAM registers
  const RawIr1: Byte := 0x04
  const RawIr2: Byte := 0x05
  const Ta: Byte := 0x06
  const TObj1: Byte := 0x07
  const TObj2: Byte := 0x08

  // EEPROM registers (declared by the driver, read by none of its operations)
  const ToMax: Byte := 0x20
  const ToMin: Byte := 0x21
  const PwmCtrl: Byte := 0x22
  const TaRange: Byte := 0x23
  const Emiss: Byte := 0x24
  const Config: Byte := 0x25
  const Addr: Byte := 0x0E
  const Id1: Byte := 0x3C
  const Id2: Byte := 0x3D
  const Id3: Byte := 0x3E
  const Id4: Byte := 0x3F

  /** A raw 16-bit register value. */
  type Raw = x: int | 0 <= x < 0x1_0000

  /** `buf[1] << 8 | buf[0]`: the first byte received is the low byte. */
  function Word(lo: Byte, hi: Byte): (w: Raw)
    ensures w == hi * 256 + lo
  {
    assert Pow2(8) == 256;
    OrOfDisjoint(hi, lo, 8);
    BitOr(Shl(hi, 8), lo)
  }

  /** The inverse of Word: the low and the high byte of a register value. */
  function Split(w: Raw): (b: (Byte, Byte))
    ensures Word(b.0, b.1) == w
  {
    (w % 256, w / 256)
  }

  /** Splitting a composed value gives back the two bytes it came from. */
  lemma SplitWord(lo: Byte, hi: Byte)
    ensures Split(Word(lo, hi)) == (lo, hi)
  {
    var w := Word(lo, hi);
    var q, m := w / 256, w % 256;
    assert w == 256 * q + m && 0 <= m < 256;
    assert 256 * (hi - q) == m - lo;
    assert hi == q;
  }

  /** Distinct byte pairs give distinct register values. */
  lemma WordInjective(lo: Byte, hi: Byte, lo': Byte, hi': Byte)
    ensures Word(lo, hi) == Word(lo', hi') <==> lo == lo' && hi == hi'
  {
    SplitWord(lo, hi);
    SplitWord(lo', hi');
  }

  /** The temperature in degrees Celsius for a raw reading: 0.02 K per LSB,
      then the Kelvin offset. Exact decimal arithmetic. */
  function Celsius(raw: Raw): (t: real)
    ensures -273.15 <= t <= 1037.55
    ensures t == -273.15 <==> raw == 0
    ensures t == 1037.55 <==> raw == 0xFFFF
  {
    raw as real * 0.02 - 273.15
  }

  /** The same conversion in integer hundredths of a degree. */
  function CentiCelsius(raw: Raw): (c: int)
    ensures c as real == Celsius(raw) * 100.0
    ensures -27315 <= c <= 103755
  {
    2 * raw - 27315
  }

  /** The conversion is strictly increasing in the raw value. */
  lemma CelsiusStrictlyIncreasing(a: Raw, b: Raw)
    ensures a < b <==> Celsius(a) < Celsius(b)
  {
  }

  /** Each extra LSB adds exactly 0.02 degrees. */
  lemma CelsiusStep(raw: Raw)
    requires raw < 0xFFFF
    ensures Celsius(raw + 1) - Celsius(raw) == 0.02
  {
  }

  /** Bytes 0x8A then 0x3B read back from TA give 0x3B8A = 15242, that is 31.69 degrees. */
  lemma KnownReading()
    ensures Word(0x8A, 0x3B) == 15242 && Celsius(Word(0x8A, 0x3B)) == 31.69
  {
  }

  /** The temperature a read of any register yields for a given reply. */
  function Reading(reply: Reply): (r: Result<real, BusError>)
    ensures r.Ok? ==> -273.15 <= r.value <= 1037.55
  {
    match Received(reply, 2)
    case Some(data) => Ok(Celsius(Word(data[0], data[1])))
    case None => Err(TransferFailed)
  }

  /** Only the first two bytes of a reply matter: anything the sensor sends
      after them, such as its PEC byte, is never read. */
  lemma ReadingIgnoresTrailingBytes(bytes: seq<Byte>)
    requires |bytes| >= 2
    ensures Reading(Ack(bytes)) == Reading(Ack(bytes[..2]))
  {
  }

  class MLX90614 {
    const device: I2CDevice
    const buf: array<Byte>

    ghost predicate Valid()
      reads this
    {
      buf.Length == 2
    }

    /** Binds the driver to a device on the bus and allocates the 2-byte scratch
        buffer, whose first byte is preset to the CONFIG register. */
    constructor (i2cBus: I2CBus, address: nat := I2CAddr)
      ensures Valid() && fresh(buf) && fresh(device)
      ensures device.bus == i2cBus && device.address == address
      ensures buf[..] == [Config, 0]
    {
      device := new I2CDevice(i2cBus, address);
      buf := new Byte[2](_ => 0);
      new;
      buf[0] := Config;
    }

    /** Reads a 16-bit register: writes the register pointer as the single byte
        buf[0], then reads two bytes back into buf, low byte first. */
    method Read16(register: Byte, reply: Reply) returns (r: Result<Raw, BusError>)
      requires Valid()
      modifies buf, device.bus
      ensures Valid()
      ensures device.bus.log == old(device.bus.log) + [Transfer(device.address, [register], 2)]
      ensures match Received(reply, 2)
              case Some(data) => buf[..] == data && r == Ok(Word(data[0], data[1]))
              case None => buf[..] == [register, old(buf[1])] && r == Err(TransferFailed)
    {
      buf[0] := register;
      assert buf[..1] == [register];
      var ok := device.WriteThenReadInto(buf, buf, 1, reply);
      if ok {
        r := Ok(Word(buf[0], buf[1]));
      } else {
        r := Err(TransferFailed);
      }
    }

    /** Reads a register and converts it to degrees Celsius. */
    method ReadTemp(register: Byte, reply: Reply) returns (r: Result<real, BusError>)
      requires Valid()
      modifies buf, device.bus
      ensures Valid()
      ensures device.bus.log == old(device.bus.log) + [Transfer(device.address, [register], 2)]
      ensures match Received(reply, 2)
              case Some(data) => buf[..] == data
              case None => buf[..] == [register, old(buf[1])]
      ensures r == Reading(reply)
    {
      var raw := Read16(register, reply);
      match raw
      case Ok(v) =>
        var temp := Celsius(v);
        r := Ok(temp);
      case Err(e) =>
        r := Err(e);
    }

    /** Ambient temperature in degrees Celsius: register TA. */
    method AmbientTemperature(reply: Reply) returns (r: Result<real, BusError>)
      requires Valid()
      modifies buf, device.bus
      ensures Valid()
      ensures device.bus.log == old(device.bus.log) + [Transfer(device.address, [Ta], 2)]
      ensures match Received(reply, 2)
              case Some(data) => buf[..] == data
              case None => buf[..] == [Ta, old(buf[1])]
      ensures r == Reading(reply)
    {
      r := ReadTemp(Ta, reply);
    }

    /** Object temperature in degrees Celsius: register TOBJ1. */
    method ObjectTemperature(reply: Reply) returns (r: Result<real, BusError>)
      requires Valid()
      modifies buf, device.bus
      ensures Valid()
      ensures device.bus.log == old(device.bus.log) + [Transfer(device.address, [TObj1], 2)]
      ensures match Received(reply, 2)
              case Some(data) => buf[..] == data
              case None => buf[..] == [TObj1, old(buf[1])]
      ensures r == Reading(reply)
    {
      r := ReadTemp(TObj1, reply);
    }
  }

  /** Two reads in a row each put their own full transfer on the bus: nothing
      is cached between them, and equal replies give equal temperatures. */
  method AmbientThenObject(sensor: MLX90614, first: Reply, second: Reply)
    returns (ambient: Result<real, BusError>, obj: Result<real, BusError>)
    requires sensor.Valid()
    modifies sensor.buf, sensor.device.bus
    ensures sensor.device.bus.log == old(sensor.device.bus.log)
      + [Transfer(sensor.device.address, [Ta], 2), Transfer(sensor.device.address, [TObj1], 2)]
    ensures ambient == Reading(first) && obj == Reading(second)
    ensures first == second ==> ambient == obj
    ensures match Received(second, 2)
            case Some(data) => sensor.buf[..] == data
            case None => sensor.buf[..] == [TObj1, match Received(first, 2)
                                                     case Some(data) => data[1]
                                                     case None => old(sensor.buf[1])]
  {
    ambient := sensor.AmbientTemperature(first);
    obj := sensor.ObjectTemperature(second);
  }
}
