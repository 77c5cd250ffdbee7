/**
 * The TMP102 temperature sensor driver: the configuration and address
 * constants of its header, the bit-level conversion of the two data bytes,
 * and the driver object, whose every operation is one open/bind/transfer
 * sequence on the I2C bus.
 */
module TMP102 {
  import opened Bits
  import opened I2C
  import opened Opt

  /** TMP102_I2C_BUFFER: the size of the data buffer, and of every data read. */
  const BufferSize: nat := 0x02
  /** Pointer value of the configuration register. */
  const ConfigRegister: byte := 0x01
  /** Pointer value of the temperature (data) register. */
  const TempRegister: byte := 0x00

  // ---------------------------------------------------------------------
  // Header constants
  // ---------------------------------------------------------------------

  datatype Rate = Rate025Hz | Rate1Hz | Rate4Hz | Rate8Hz
  datatype Resolution = Bits12 | Bits13

  /** enum TMP102_CONFIG_LSB: CR_<rate>_<resolution>. */
  datatype ConfigLsb = ConfigLsb(rate: Rate, resolution: Resolution)

  /** enum TMP102_CONFIG_MSB. */
  datatype ConfigMsb = DefaultMsb

  /** enum TMP102_ADDR: the level the ADD0 pin is tied to. */
  datatype Address = Ground | VPlus | Sda | Scl

  function LsbValue(c: ConfigLsb): byte
  {
    match (c.rate, c.resolution)
    case (Rate025Hz, Bits12) => 0x20
    case (Rate025Hz, Bits13) => 0x30
    case (Rate1Hz, Bits12) => 0x60
    case (Rate1Hz, Bits13) => 0x70
    case (Rate4Hz, Bits12) => 0xa0
    case (Rate4Hz, Bits13) => 0xb0
    case (Rate8Hz, Bits12) => 0xe0
    case (Rate8Hz, Bits13) => 0xf0
  }

  function MsbValue(m: ConfigMsb): byte
  {
    0x60
  }

  function AddressValue(a: Address): byte
  {
    match a
    case Ground => 0x48
    case VPlus => 0x49
    case Sda => 0x4a
    case Scl => 0x4b
  }

  /** The two-bit conversion-rate code of the configuration LSB (bits 7..6). */
  function RateCode(r: Rate): nat
  {
    match r
    case Rate025Hz => 0
    case Rate1Hz => 1
    case Rate4Hz => 2
    case Rate8Hz => 3
  }

  /** Reads a configuration LSB back into its rate and resolution. */
  function DecodeLsb(v: byte): (c: Option<ConfigLsb>)
  {
    if v % 0x10 != 0 || !TestBit(v as nat, 5) then None
    else
      var rate := match v / 0x40
        case 0 => Rate025Hz
        case 1 => Rate1Hz
        case 2 => Rate4Hz
        case _ => Rate8Hz;
      Some(ConfigLsb(rate, if TestBit(v as nat, 4) then Bits13 else Bits12))
  }

  /**
   * Layout of every configuration LSB: the low nibble is clear, bit 5 is
   * set, bit 4 selects 13-bit mode and the top two bits give the rate.
   */
  lemma LsbLayout(c: ConfigLsb)
    ensures LsbValue(c) % 0x10 == 0 && TestBit(LsbValue(c) as nat, 5)
    ensures TestBit(LsbValue(c) as nat, 4) <==> c.resolution == Bits13
    ensures LsbValue(c) as nat / 0x40 == RateCode(c.rate)
  {
    Pow2Values();
  }

  /** Each 13-bit constant is its 12-bit counterpart with bit 0x10 or-ed in. */
  lemma LsbThirteenBit(r: Rate)
    ensures !TestBit(LsbValue(ConfigLsb(r, Bits12)) as nat, 4)
    ensures LsbValue(ConfigLsb(r, Bits13)) as nat == BitOr(LsbValue(ConfigLsb(r, Bits12)) as nat, 0x10)
  {
    var v := LsbValue(ConfigLsb(r, Bits12)) as nat;
    assert Pow2(4) == 16 && Pow2(5) == 32 by { Pow2Values(); }
    assert ShiftLeft(v / 32, 5) == v;
    OrOfDisjoint(v / 32, 5, 0x10);
  }

  /** The configuration LSB constants are distinct: decoding recovers them. */
  lemma LsbDecodes(c: ConfigLsb)
    ensures DecodeLsb(LsbValue(c)) == Some(c)
  {
    Pow2Values();
  }

  /** The four addresses are 0x48 + index: consecutive, distinct, 7-bit. */
  lemma AddressRange(a: Address)
    ensures AddressValue(a) as nat == 0x48 + (match a case Ground => 0 case VPlus => 1 case Sda => 2 case Scl => 3)
    ensures AddressValue(a) < 0x80
  {
  }

  // ---------------------------------------------------------------------
  // Conversion (convertTemperature)
  // ---------------------------------------------------------------------

  /** Storing an `int` into a 16-bit `short`: the low 16 bits, read as two's complement. */
  function ToShort(v: nat): (s: int)
    ensures -0x8000 <= s < 0x8000
    ensures (s - v) % 0x10000 == 0
  {
    var w := v % 0x10000;
    if w >= 0x8000 then w - 0x10000 else w
  }

  lemma ToShortLow(v: nat)
    requires v < 0x8000
    ensures ToShort(v) == v
  {
  }

  lemma ToShortHigh(v: nat)
    requires 0x8000 <= v < 0x10000
    ensures ToShort(v) == v - 0x10000
  {
  }

  /** The value of a `width`-bit two's-complement field. */
  function TwosComplement(field: nat, width: nat): int
    requires width > 0
  {
    if field >= Pow2(width - 1) then field - Pow2(width) else field
  }

  /**
   * `tempValue` of convertTemperature: bit 0 of the LSB selects the 13-bit
   * data format, bit 7 of the MSB the negative branch.
   */
  function RawTemperature(msb: byte, lsb: byte): int
  {
    var m, l := msb as nat, lsb as nat;
    if BitAnd(l, 0x01) == 0x01 then
      if BitAnd(m, 0x80) == 0x80 then ToShort(BitOr(BitOr(0xe000, ShiftLeft(m, 5)), ShiftRight(l, 3)))
      else ToShort(BitOr(ShiftLeft(m, 5), ShiftRight(l, 3)))
    else
      if BitAnd(m, 0x80) == 0x80 then ToShort(BitOr(BitOr(0xf000, ShiftLeft(m, 4)), ShiftRight(l, 4)))
      else ToShort(BitOr(ShiftLeft(m, 4), ShiftRight(l, 4)))
  }

  /** convertTemperature: 0.0625 degC per count. */
  function ConvertTemperature(msb: byte, lsb: byte): real
  {
    0.0625 * RawTemperature(msb, lsb) as real
  }

  /** Bit 7 of a byte is set exactly when it is at least 0x80. */
  lemma {:induction false} SignBit(b: byte)
    ensures BitAnd(b as nat, 0x80) == 0x80 <==> b >= 0x80
    ensures TestBit(b as nat, 7) <==> b >= 0x80
  {
    AndSingleBit(b as nat, 7);
  }

  lemma {:induction false} FormatBit(b: byte)
    ensures BitAnd(b as nat, 0x01) == 0x01 <==> b % 2 == 1
  {
    AndSingleBit(b as nat, 0);
  }

  /** The or-ed fields of the 13-bit format are sums: the operands share no bit. */
  lemma Field13(m: nat, l: nat)
    requires m < 256 && l < 256
    ensures BitOr(ShiftLeft(m, 5), ShiftRight(l, 3)) == m * 32 + l / 8
    ensures BitOr(BitOr(0xe000, ShiftLeft(m, 5)), ShiftRight(l, 3)) == 0xe000 + m * 32 + l / 8
  {
    Pow2Values();
    ShiftRightIsDivision(l, 3);
    OrOfDisjoint(m, 5, l / 8);
    OrOfDisjoint(7, 13, m * 32);
    OrOfDisjoint(0x700 + m, 5, l / 8);
  }

  /** The or-ed fields of the 12-bit format are sums: the operands share no bit. */
  lemma Field12(m: nat, l: nat)
    requires m < 256 && l < 256
    ensures BitOr(ShiftLeft(m, 4), ShiftRight(l, 4)) == m * 16 + l / 16
    ensures BitOr(BitOr(0xf000, ShiftLeft(m, 4)), ShiftRight(l, 4)) == 0xf000 + m * 16 + l / 16
  {
    Pow2Values();
    ShiftRightIsDivision(l, 4);
    OrOfDisjoint(m, 4, l / 16);
    OrOfDisjoint(15, 12, m * 16);
    OrOfDisjoint(0xf00 + m, 4, l / 16);
  }

  /** 13-bit format, MSB bit 7 set: the high bits are filled with ones before the cast to short. */
  lemma {:induction false} Raw13Negative(msb: byte, lsb: byte)
    requires lsb % 2 == 1 && msb >= 0x80
    ensures RawTemperature(msb, lsb) == msb as nat * 32 + lsb as nat / 8 - 0x2000
  {
    var m, l := msb as nat, lsb as nat;
    var v := BitOr(BitOr(0xe000, ShiftLeft(m, 5)), ShiftRight(l, 3));
    assert BitAnd(l, 0x01) == 0x01 by { FormatBit(lsb); }
    assert BitAnd(m, 0x80) == 0x80 by { SignBit(msb); }
    assert RawTemperature(msb, lsb) == ToShort(v);
    assert v == 0xe000 + m * 32 + l / 8 by { Field13(m, l); }
    ToShortHigh(v);
  }

  /** 13-bit format, MSB bit 7 clear. */
  lemma {:induction false} Raw13NonNegative(msb: byte, lsb: byte)
    requires lsb % 2 == 1 && msb < 0x80
    ensures RawTemperature(msb, lsb) == msb as nat * 32 + lsb as nat / 8
  {
    var m, l := msb as nat, lsb as nat;
    var v := BitOr(ShiftLeft(m, 5), ShiftRight(l, 3));
    assert BitAnd(l, 0x01) == 0x01 by { FormatBit(lsb); }
    assert BitAnd(m, 0x80) != 0x80 by { SignBit(msb); }
    assert RawTemperature(msb, lsb) == ToShort(v);
    assert v == m * 32 + l / 8 by { Field13(m, l); }
    ToShortLow(v);
  }

  /**
   * With bit 0 of the LSB set, the raw value is the 13-bit two's-complement
   * field formed by MSB and the top five bits of LSB.
   */
  lemma {:induction false} Raw13Bit(msb: byte, lsb: byte)
    requires lsb % 2 == 1
    ensures RawTemperature(msb, lsb) == TwosComplement(msb as nat * 32 + lsb as nat / 8, 13)
    ensures -4096 <= RawTemperature(msb, lsb) <= 4095
  {
    Pow2Values();
    if msb >= 0x80 {
      Raw13Negative(msb, lsb);
    } else {
      Raw13NonNegative(msb, lsb);
    }
  }

  /** 12-bit format, MSB bit 7 set: the high bits are filled with ones before the cast to short. */
  lemma {:induction false} Raw12Negative(msb: byte, lsb: byte)
    requires lsb % 2 == 0 && msb >= 0x80
    ensures RawTemperature(msb, lsb) == msb as nat * 16 + lsb as nat / 16 - 0x1000
  {
    var m, l := msb as nat, lsb as nat;
    var v := BitOr(BitOr(0xf000, ShiftLeft(m, 4)), ShiftRight(l, 4));
    assert BitAnd(l, 0x01) != 0x01 by { FormatBit(lsb); }
    assert BitAnd(m, 0x80) == 0x80 by { SignBit(msb); }
    assert RawTemperature(msb, lsb) == ToShort(v);
    assert v == 0xf000 + m * 16 + l / 16 by { Field12(m, l); }
    ToShortHigh(v);
  }

  /** 12-bit format, MSB bit 7 clear. */
  lemma {:induction false} Raw12NonNegative(msb: byte, lsb: byte)
    requires lsb % 2 == 0 && msb < 0x80
    ensures RawTemperature(msb, lsb) == msb as nat * 16 + lsb as nat / 16
  {
    var m, l := msb as nat, lsb as nat;
    var v := BitOr(ShiftLeft(m, 4), ShiftRight(l, 4));
    assert BitAnd(l, 0x01) != 0x01 by { FormatBit(lsb); }
    assert BitAnd(m, 0x80) != 0x80 by { SignBit(msb); }
    assert RawTemperature(msb, lsb) == ToShort(v);
    assert v == m * 16 + l / 16 by { Field12(m, l); }
    ToShortLow(v);
  }

  /**
   * With bit 0 of the LSB clear, the raw value is the 12-bit two's-complement
   * field formed by MSB and the top four bits of LSB.
   */
  lemma {:induction false} Raw12Bit(msb: byte, lsb: byte)
    requires lsb % 2 == 0
    ensures RawTemperature(msb, lsb) == TwosComplement(msb as nat * 16 + lsb as nat / 16, 12)
    ensures -2048 <= RawTemperature(msb, lsb) <= 2047
  {
    Pow2Values();
    if msb >= 0x80 {
      Raw12Negative(msb, lsb);
    } else {
      Raw12NonNegative(msb, lsb);
    }
  }

  /** The temperature is raw/16 degC and is negative exactly when MSB bit 7 is set. */
  lemma {:induction false} TemperatureSign(msb: byte, lsb: byte)
    ensures ConvertTemperature(msb, lsb) == RawTemperature(msb, lsb) as real / 16.0
    ensures ConvertTemperature(msb, lsb) < 0.0 <==> TestBit(msb as nat, 7)
    ensures -256.0 <= ConvertTemperature(msb, lsb) < 256.0
  {
    SignBit(msb);
    if lsb % 2 == 1 {
      Raw13Bit(msb, lsb);
    } else {
      Raw12Bit(msb, lsb);
    }
  }

  /** The extreme 13-bit readings: 0x7F,0xF9 is the largest, 0x80,0x01 the smallest. */
  lemma {:induction false} TemperatureExtremes(msb: byte, lsb: byte)
    ensures msb == 0x7f && lsb == 0xf9 ==> ConvertTemperature(msb, lsb) == 255.9375
    ensures msb == 0x80 && lsb == 0x01 ==> ConvertTemperature(msb, lsb) == -256.0
  {
    if msb == 0x7f && lsb == 0xf9 {
      assert RawTemperature(msb, lsb) == 4095 by {
        Raw13Bit(msb, lsb);
        Pow2Values();
      }
    } else if msb == 0x80 && lsb == 0x01 {
      assert RawTemperature(msb, lsb) == -4096 by {
        Raw13Bit(msb, lsb);
        Pow2Values();
      }
    }
  }

  // ---------------------------------------------------------------------
  // Bus runs of the driver operations
  // ---------------------------------------------------------------------

  /** The status a driver operation returns and the calls it made. */
  datatype Run = Run(status: int, events: seq<Event>)

  /** readTemperature's status, calls, data buffer and cached temperature. */
  datatype ReadRun = ReadRun(status: int, events: seq<Event>, buffer: seq<byte>, temperature: real)

  /**
   * setConfigurationRegister issued as the k-th call: open, bind, one
   * three-byte write of pointer, MSB and LSB, close.
   */
  function ConfigureRun(o: Oracle, k: nat, bus: int, address: byte, msb: byte, lsb: byte): (r: Run)
    ensures r.status in {0, 1, 2} && |r.events| > 0 && r.events[0].call == Open(bus)
    ensures r.status == 1 <==> r.events[0].ret < 0
    ensures r.status == 2 <==> r.events[0].ret >= 0 && |r.events| == 2 && r.events[1].ret < 0
    ensures r.status != 0 ==> NoClose(r.events)
    ensures r.status == 0 ==>
      var fd := r.events[0].ret;
      && |r.events| == 4
      && r.events[1].call == Bind(fd, address as int)
      && r.events[2].call == Write(fd, [ConfigRegister, msb, lsb])
      && r.events[3].call == Close(fd)
  {
    var open := Answer(o, k, Open(bus));
    if open.ret < 0 then Run(1, [open])
    else
      var fd := open.ret;
      var bind := Answer(o, k + 1, Bind(fd, address as int));
      if bind.ret < 0 then Run(2, [open, bind])
      else
        var write := Answer(o, k + 2, Write(fd, [ConfigRegister, msb, lsb]));
        Run(0, [open, bind, write, Answer(o, k + 3, Close(fd))])
  }

  /**
   * readTemperature issued as the k-th call, from the given buffer and
   * cached temperature.
   */
  function ReadTemperatureRun(o: Oracle, k: nat, bus: int, address: byte, buffer: seq<byte>, temperature: real): (r: ReadRun)
    requires |buffer| == BufferSize
    ensures 0 <= r.status <= 4 && |r.buffer| == BufferSize
    ensures |r.events| > 0 && r.events[0].call == Open(bus)
    ensures r.status == 1 <==> r.events[0].ret < 0
    ensures r.status == 2 <==> |r.events| == 2
    ensures r.status == 3 <==> |r.events| == 3
    ensures r.status == 4 <==> |r.events| == 4
    ensures r.status != 0 ==> NoClose(r.events)
    ensures |r.events| >= 3 ==>
      var fd := r.events[0].ret;
      && r.events[1] == Event(Bind(fd, address as int), 0, [])
      && r.events[2].call == Write(fd, [TempRegister])
      && (r.status == 3 <==> r.events[2].ret != 1)
    ensures |r.events| >= 4 ==>
      var fd := r.events[0].ret;
      && r.events[3].call == Read(fd, BufferSize)
      && (r.status == 4 <==> 0 <= r.events[3].ret < 2)
      && (r.status == 0 ==> |r.events| == 5 && r.events[4].call == Close(fd))
    ensures r.status == 0 && |r.events| == 5 && r.events[3].ret == 2
      ==> r.buffer == r.events[3].data && r.temperature == ConvertTemperature(r.buffer[0], r.buffer[1])
    ensures !(r.status == 0 && |r.events| == 5 && r.events[3].ret == 2) ==> r.temperature == temperature
    ensures r.status != 4 && !(|r.events| == 5 && r.events[3].ret == 2) ==> r.buffer == buffer
  {
    var open := Answer(o, k, Open(bus));
    if open.ret < 0 then ReadRun(1, [open], buffer, temperature)
    else
      var fd := open.ret;
      var bind := Answer(o, k + 1, Bind(fd, address as int));
      if bind.ret < 0 then ReadRun(2, [open, bind], buffer, temperature)
      else
        var pointer := Answer(o, k + 2, Write(fd, [TempRegister]));
        if pointer.ret != 1 then ReadRun(3, [open, bind, pointer], buffer, temperature)
        else
          var read := Answer(o, k + 3, Read(fd, BufferSize));
          var close := Answer(o, k + 4, Close(fd));
          if read.ret == -1 then
            ReadRun(0, [open, bind, pointer, read, close], buffer, temperature)
          else if read.ret != 2 then
            ReadRun(4, [open, bind, pointer, read], read.data[..read.ret] + buffer[read.ret..], temperature)
          else
            ReadRun(0, [open, bind, pointer, read, close], read.data, ConvertTemperature(read.data[0], read.data[1]))
  }

  // ---------------------------------------------------------------------
  // The driver object
  // ---------------------------------------------------------------------

  class Sensor {
    const bus: int
    const address: byte
    const dataBuffer: array<byte>
    /** The last converted reading; the constructor leaves it unset in the source. */
    var temperature: real

    ghost predicate Valid()
      reads this
    {
      dataBuffer.Length == BufferSize
    }

    /** Stores the bus and address, then writes the configuration register once. */
    constructor (dev: Bus, bus: int, address: Address, msb: ConfigMsb, lsb: ConfigLsb)
      modifies dev
      ensures Valid() && fresh(dataBuffer)
      ensures this.bus == bus && this.address == AddressValue(address)
      ensures dev.trace == old(dev.trace)
        + ConfigureRun(dev.oracle, |old(dev.trace)|, bus, AddressValue(address), MsbValue(msb), LsbValue(lsb)).events
    {
      this.bus := bus;
      this.address := AddressValue(address);
      dataBuffer := new byte[BufferSize];
      new;
      var _ := SetConfigurationRegister(dev, msb, lsb);
    }

    /** Open, bind, write [0x01, MSB, LSB], close; a short write is only logged. */
    method SetConfigurationRegister(dev: Bus, msb: ConfigMsb, lsb: ConfigLsb) returns (status: int)
      modifies dev
      ensures var r := ConfigureRun(dev.oracle, |old(dev.trace)|, bus, address, MsbValue(msb), LsbValue(lsb));
        status == r.status && dev.trace == old(dev.trace) + r.events
    {
      var open := dev.Perform(Open(bus));
      if open.ret < 0 {
        return 1;
      }
      var fd := open.ret;
      var bind := dev.Perform(Bind(fd, address as int));
      if bind.ret < 0 {
        return 2;
      }
      var write := dev.Perform(Write(fd, [ConfigRegister, MsbValue(msb), LsbValue(lsb)]));
      var close := dev.Perform(Close(fd));
      return 0;
    }

    /**
     * Points the sensor at its temperature register, reads two bytes into
     * the data buffer and, on a full read, converts them. Returns a status
     * code, not the temperature.
     */
    method ReadTemperature(dev: Bus) returns (status: int)
      requires Valid()
      modifies this, dataBuffer, dev
      ensures Valid()
      ensures var r := ReadTemperatureRun(dev.oracle, |old(dev.trace)|, bus, address, old(dataBuffer[..]), old(temperature));
        && status == r.status && dev.trace == old(dev.trace) + r.events
        && dataBuffer[..] == r.buffer && temperature == r.temperature
    {
      var open := dev.Perform(Open(bus));
      if open.ret < 0 {
        return 1;
      }
      var fd := open.ret;
      var bind := dev.Perform(Bind(fd, address as int));
      if bind.ret < 0 {
        return 2;
      }
      var pointer := dev.Perform(Write(fd, [TempRegister]));
      if pointer.ret != 1 {
        return 3;
      }
      var read := dev.Perform(Read(fd, BufferSize));
      var bytesRead := read.ret;
      if bytesRead == -1 {
        // only logged
      } else if bytesRead != 2 {
        if bytesRead == 1 {
          dataBuffer[0] := read.data[0];
        }
        assert dataBuffer[..] == read.data[..bytesRead] + old(dataBuffer[..])[bytesRead..];
        return 4;
      } else {
        dataBuffer[0], dataBuffer[1] := read.data[0], read.data[1];
        assert dataBuffer[..] == read.data;
        temperature := ConvertTemperature(dataBuffer[0], dataBuffer[1]);
      }
      var close := dev.Perform(Close(fd));
      return 0;
    }
  }
}
