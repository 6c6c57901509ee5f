/** The I2C collaborator the driver talks through, reduced to what the driver
    observes: a bus that records every write-then-read transfer put on the wire,
    and a device handle bound to one address on that bus. What the sensor sends
    back is not computed here; it is a parameter of each transfer. */
module I2C {

  /** An element of a Python bytearray. */
  type Byte = x: int | 0 <= x < 256

  import opened Wrappers

  /** The error a failed transfer raises. */
  datatype BusError = TransferFailed

  /** What the addressed device answers to one transfer: the bytes it clocks out,
      or no acknowledgment at all. */
  datatype Reply = Ack(bytes: seq<Byte>) | Nack

  /** One write-then-read on the wire: the device address, the bytes written and
      the number of bytes read back. */
  datatype Transfer = Transfer(address: nat, written: seq<Byte>, readCount: nat)

  /** The first n bytes of a reply, or None when the reply cannot fill n bytes. */
  function Received(reply: Reply, n: nat): Option<seq<Byte>>
  {
    if reply.Ack? && n <= |reply.bytes| then Some(reply.bytes[..n]) else None
  }

  /** The shared bus; its log is the sequence of transfers made so far. */
  class I2CBus {
    var log: seq<Transfer>

    constructor ()
      ensures log == []
    {
      log := [];
    }
  }

  /** A device handle: a bus and the address of one device on it. */
  class I2CDevice {
    const bus: I2CBus
    const address: nat

    constructor (bus: I2CBus, address: nat)
      ensures this.bus == bus && this.address == address
    {
      this.bus := bus;
      this.address := address;
    }

    /** Writes outBuf[..outEnd], then reads inBuf.Length bytes into inBuf, as
        one transfer. outBuf and inBuf may be the same array: the bytes written
        are those present before the read. On failure inBuf is left as it was. */
    method WriteThenReadInto(outBuf: array<Byte>, inBuf: array<Byte>, outEnd: nat, reply: Reply)
      returns (ok: bool)
      requires outEnd <= outBuf.Length
      modifies inBuf, bus
      ensures bus.log == old(bus.log) + [Transfer(address, old(outBuf[..outEnd]), inBuf.Length)]
      ensures ok <==> Received(reply, inBuf.Length).Some?
      ensures ok ==> inBuf[..] == Received(reply, inBuf.Length).value
      ensures !ok ==> inBuf[..] == old(inBuf[..])
    {
      bus.log := bus.log + [Transfer(address, outBuf[..outEnd], inBuf.Length)];
      var data := Received(reply, inBuf.Length);
      if data.Some? {
        forall i | 0 <= i < inBuf.Length {
          inBuf[i] := data.value[i];
        }
        ok := true;
      } else {
        ok := false;
      }
    }
  }
}
