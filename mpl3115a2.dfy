/**
 * The MPL3115A2 pressure/altimeter driver: the register map and control
 * flags of its header, the configuration sequence of its constructor, and
 * readSensor's one-shot trigger, bounded status poll, data read and
 * fixed-point conversion.
 */
module MPL3115A2 {
  import opened Bits
  import opened I2C
  import opened Opt

  // ---------------------------------------------------------------------
  // Register map (enum ALTIMETER_REG_ADDR)
  // ---------------------------------------------------------------------

  datatype Register =
    | Status | OutPMsb | OutPCsb | OutPLsb | OutTMsb | OutTLsb | DrStatus
    | OutPDeltaMsb | OutPDeltaCsb | OutPDeltaLsb | OutTDeltaMsb | OutTDeltaLsb
    | WhoAmI | FStatus | FData | FSetup | TimeDly | Sysmod | IntSource | PtDataCfg
    | BarInMsb | BarInLsb | PTgtMsb | PTgtLsb | TTgt | PWndMsb | PWndLsb | TWnd
    | PMinMsb | PMinCsb | PMinLsb | TMinMsb | TMinLsb
    | PMaxMsb | PMaxCsb | PMaxLsb | TMaxMsb | TMaxLsb
    | CtrlReg1 | CtrlReg2 | CtrlReg3 | CtrlReg4 | CtrlReg5 | OffP | OffT | OffH

  function RegisterAddress(r: Register): byte
  {
    match r
    case Status => 0x00 case OutPMsb => 0x01 case OutPCsb => 0x02 case OutPLsb => 0x03
    case OutTMsb => 0x04 case OutTLsb => 0x05 case DrStatus => 0x06
    case OutPDeltaMsb => 0x07 case OutPDeltaCsb => 0x08 case OutPDeltaLsb => 0x09
    case OutTDeltaMsb => 0x0a case OutTDeltaLsb => 0x0b case WhoAmI => 0x0c
    case FStatus => 0x0d case FData => 0x0e case FSetup => 0x0f case TimeDly => 0x10
    case Sysmod => 0x11 case IntSource => 0x12 case PtDataCfg => 0x13
    case BarInMsb => 0x14 case BarInLsb => 0x15 case PTgtMsb => 0x16 case PTgtLsb => 0x17
    case TTgt => 0x18 case PWndMsb => 0x19 case PWndLsb => 0x1a case TWnd => 0x1b
    case PMinMsb => 0x1c case PMinCsb => 0x1d case PMinLsb => 0x1e
    case TMinMsb => 0x1f case TMinLsb => 0x20
    case PMaxMsb => 0x21 case PMaxCsb => 0x22 case PMaxLsb => 0x23
    case TMaxMsb => 0x24 case TMaxLsb => 0x25
    case CtrlReg1 => 0x26 case CtrlReg2 => 0x27 case CtrlReg3 => 0x28 case CtrlReg4 => 0x29
    case CtrlReg5 => 0x2a case OffP => 0x2b case OffT => 0x2c case OffH => 0x2d
  }

  /** The register at a given address, if the map names one. */
  function RegisterAt(a: byte): Option<Register>
  {
    if a < 0x10 then Some(LowRegister(a))
    else if a < 0x20 then Some(MiddleRegister(a))
    else if a <= 0x2d then Some(HighRegister(a))
    else None
  }

  function LowRegister(a: byte): Register
    requires a < 0x10
  {
    match a
    case 0x00 => Status case 0x01 => OutPMsb case 0x02 => OutPCsb case 0x03 => OutPLsb
    case 0x04 => OutTMsb case 0x05 => OutTLsb case 0x06 => DrStatus
    case 0x07 => OutPDeltaMsb case 0x08 => OutPDeltaCsb case 0x09 => OutPDeltaLsb
    case 0x0a => OutTDeltaMsb case 0x0b => OutTDeltaLsb case 0x0c => WhoAmI
    case 0x0d => FStatus case 0x0e => FData case _ => FSetup
  }

  function MiddleRegister(a: byte): Register
    requires 0x10 <= a < 0x20
  {
    match a
    case 0x10 => TimeDly case 0x11 => Sysmod case 0x12 => IntSource case 0x13 => PtDataCfg
    case 0x14 => BarInMsb case 0x15 => BarInLsb case 0x16 => PTgtMsb case 0x17 => PTgtLsb
    case 0x18 => TTgt case 0x19 => PWndMsb case 0x1a => PWndLsb case 0x1b => TWnd
    case 0x1c => PMinMsb case 0x1d => PMinCsb case 0x1e => PMinLsb case _ => TMinMsb
  }

  function HighRegister(a: byte): Register
    requires 0x20 <= a <= 0x2d
  {
    match a
    case 0x20 => TMinLsb
    case 0x21 => PMaxMsb case 0x22 => PMaxCsb case 0x23 => PMaxLsb
    case 0x24 => TMaxMsb case 0x25 => TMaxLsb
    case 0x26 => CtrlReg1 case 0x27 => CtrlReg2 case 0x28 => CtrlReg3 case 0x29 => CtrlReg4
    case 0x2a => CtrlReg5 case 0x2b => OffP case 0x2c => OffT case _ => OffH
  }

  lemma LowRegisterInverse(r: Register)
    requires RegisterAddress(r) < 0x10
    ensures LowRegister(RegisterAddress(r)) == r
  {
  }

  lemma MiddleRegisterInverse(r: Register)
    requires 0x10 <= RegisterAddress(r) < 0x20
    ensures MiddleRegister(RegisterAddress(r)) == r
  {
  }

  lemma HighRegisterInverse(r: Register)
    requires 0x20 <= RegisterAddress(r)
    ensures RegisterAddress(r) <= 0x2d && HighRegister(RegisterAddress(r)) == r
  {
  }

  /**
   * No two registers share an address: each register is found again at its
   * own address, which lies in 0x00..0x2d.
   */
  lemma RegisterAddressInjective(r: Register)
    ensures RegisterAddress(r) <= 0x2d && RegisterAt(RegisterAddress(r)) == Some(r)
  {
    var a := RegisterAddress(r);
    if a < 0x10 {
      LowRegisterInverse(r);
    } else if a < 0x20 {
      MiddleRegisterInverse(r);
    } else {
      HighRegisterInverse(r);
    }
  }

  /** No address in 0x00..0x2d is left without a register, and none above it has one. */
  lemma RegisterAddressOnto(a: byte)
    ensures a <= 0x2d <==> RegisterAt(a).Some?
    ensures a <= 0x2d ==> RegisterAddress(RegisterAt(a).value) == a
  {
  }

  /** The addresses of the three registers the driver writes to. */
  const StatusAddress: byte := 0x00
  const PtDataCfgAddress: byte := 0x13
  const CtrlReg1Address: byte := 0x26

  /**
   * The registers readSensor relies on: the data block follows STATUS, so
   * the six bytes read after polling are STATUS, OUT_P_MSB/CSB/LSB and
   * OUT_T_MSB/LSB at buffer indices 0..5.
   */
  lemma RegistersUsed()
    ensures RegisterAddress(Status) == StatusAddress && RegisterAddress(PtDataCfg) == PtDataCfgAddress
    ensures RegisterAddress(CtrlReg1) == CtrlReg1Address
    ensures RegisterAddress(OutPMsb) == 1 && RegisterAddress(OutPCsb) == 2 && RegisterAddress(OutPLsb) == 3
    ensures RegisterAddress(OutTMsb) == 4 && RegisterAddress(OutTLsb) == 5
  {
  }

  // ---------------------------------------------------------------------
  // CTRL_REG1 flags, device address and read state
  // ---------------------------------------------------------------------

  /** enum CTRL_REG1_FLAGS. */
  datatype Ctrl1Flag = Sbyb | Ost | Rst | Os0 | Os1 | Os2 | Raw | Alt

  function FlagValue(f: Ctrl1Flag): byte
  {
    match f
    case Sbyb => 0x01 case Ost => 0x02 case Rst => 0x04 case Os0 => 0x08
    case Os1 => 0x10 case Os2 => 0x20 case Raw => 0x40 case Alt => 0x80
  }

  /** The bit position each flag occupies. */
  function FlagBit(f: Ctrl1Flag): nat
  {
    match f
    case Sbyb => 0 case Ost => 1 case Rst => 2 case Os0 => 3
    case Os1 => 4 case Os2 => 5 case Raw => 6 case Alt => 7
  }

  /** The flag at each of the eight bit positions. */
  function FlagAt(k: nat): Ctrl1Flag
    requires k < 8
  {
    match k
    case 0 => Sbyb case 1 => Ost case 2 => Rst case 3 => Os0
    case 4 => Os1 case 5 => Os2 case 6 => Raw case _ => Alt
  }

  /** The eight flags are single bits, one per position 0..7, so distinct. */
  lemma FlagsAreSingleBits(f: Ctrl1Flag, k: nat)
    ensures FlagValue(f) as nat == Pow2(FlagBit(f)) && FlagBit(f) < 8
    ensures k < 8 ==> FlagBit(FlagAt(k)) == k
    ensures FlagAt(FlagBit(f)) == f
  {
    Pow2Values();
  }

  /** enum I2C_ADDR. */
  datatype DeviceAddress = Standard

  function DeviceAddressValue(a: DeviceAddress): (v: byte)
    ensures v < 0x80
  {
    0x60
  }

  /** enum STATE: Barometer = 0, Altimeter = 1. */
  datatype Mode = Barometer | Altimeter

  function StateValue(m: Mode): int
  {
    match m
    case Barometer => 0x00
    case Altimeter => 0x01
  }

  /** The driver tests `readState` for truth: only Altimeter is true. */
  lemma StateTruth(m: Mode)
    ensures StateValue(m) != 0 <==> m == Altimeter
  {
  }

  /** The CTRL_REG1 value the constructor's last write sets. */
  function ModeByte(m: Mode): byte
  {
    if m == Altimeter then 0x80 else 0x00
  }

  /** The CTRL_REG1 value that starts a one-shot measurement. */
  function TriggerByte(m: Mode): byte
  {
    if m == Altimeter then 0x82 else 0x02
  }

  /** The literal control bytes are the flag compositions they stand for. */
  lemma {:induction false} ControlBytes(m: Mode)
    ensures TriggerByte(m) as nat == BitOr(ModeByte(m) as nat, FlagValue(Ost) as nat)
    ensures ModeByte(m) == if m == Altimeter then FlagValue(Alt) else 0
    ensures TriggerByte(Altimeter) as nat == BitOr(FlagValue(Alt) as nat, FlagValue(Ost) as nat)
  {
    Pow2Values();
    OrOfDisjoint(1, 7, 2);
    OrOfDisjoint(0, 7, 2);
  }

  // ---------------------------------------------------------------------
  // Conversion
  // ---------------------------------------------------------------------

  /** Size of the data block read after the status poll. */
  const DataSize: nat := 6

  /** `(b1<<16) | (b2<<8) | b3`: the 24-bit pressure/altitude sample. */
  function Assemble24(b1: byte, b2: byte, b3: byte): nat
  {
    BitOr(BitOr(ShiftLeft(b1 as nat, 16), ShiftLeft(b2 as nat, 8)), b3 as nat)
  }

  /** `(b4<<8) | b5`: the 16-bit temperature sample. */
  function Assemble16(b4: byte, b5: byte): nat
  {
    BitOr(ShiftLeft(b4 as nat, 8), b5 as nat)
  }

  /** The pressure (Pa) or altitude (m): 2^6 or 2^8 counts per unit. */
  function PressureOf(mode: Mode, data: seq<byte>): real
    requires |data| == DataSize
  {
    Assemble24(data[1], data[2], data[3]) as real
      / (if mode == Altimeter then ShiftLeft(1, 8) else ShiftLeft(1, 6)) as real
  }

  /** The temperature: 2^8 counts per degree C. */
  function TemperatureOf(data: seq<byte>): real
    requires |data| == DataSize
  {
    Assemble16(data[4], data[5]) as real / ShiftLeft(1, 8) as real
  }

  /** Big-endian assembly of the pressure sample: the byte-weighted sum, within 24 bits. */
  lemma {:induction false} Assemble24Value(b1: byte, b2: byte, b3: byte)
    ensures Assemble24(b1, b2, b3) == b1 as nat * 65536 + b2 as nat * 256 + b3 as nat
    ensures Assemble24(b1, b2, b3) < 0x1000000
  {
    var x, y, z := b1 as nat, b2 as nat, b3 as nat;
    Pow2Values();
    assert BitOr(ShiftLeft(x, 16), ShiftLeft(y, 8)) == x * 65536 + y * 256 by {
      OrOfDisjoint(x, 16, y * 256);
    }
    assert x * 65536 + y * 256 == ShiftLeft(x * 256 + y, 8);
    OrOfDisjoint(x * 256 + y, 8, z);
  }

  /** Big-endian assembly of the temperature sample: the byte-weighted sum, within 16 bits. */
  lemma {:induction false} Assemble16Value(b4: byte, b5: byte)
    ensures Assemble16(b4, b5) == b4 as nat * 256 + b5 as nat
    ensures Assemble16(b4, b5) < 0x10000
  {
    Pow2Values();
    OrOfDisjoint(b4 as nat, 8, b5 as nat);
  }

  /** The pressure sample gives back the three bytes it was built from. */
  lemma {:induction false} Assemble24Bytes(b1: byte, b2: byte, b3: byte)
    ensures Assemble24(b1, b2, b3) / 65536 == b1 as nat
    ensures (Assemble24(b1, b2, b3) / 256) % 256 == b2 as nat
    ensures Assemble24(b1, b2, b3) % 256 == b3 as nat
  {
    var x, y, z := b1 as nat, b2 as nat, b3 as nat;
    var v := Assemble24(b1, b2, b3);
    assert v == x * 65536 + (y * 256 + z) by { Assemble24Value(b1, b2, b3); }
    assert v / 65536 == x by { DivUnique(v, 65536, x, y * 256 + z); }
    var w := x * 256 + y;
    assert v == w * 256 + z;
    assert v / 256 == w by { DivUnique(v, 256, w, z); }
    assert v % 256 == z;
    assert w / 256 == x by { DivUnique(w, 256, x, y); }
    assert w % 256 == y;
  }

  /**
   * The pressure of a data block: the 24-bit sample of bytes 1..3 over 2^8
   * (altimeter) or 2^6 (barometer), so the barometer reads four times the
   * altimeter's figure.
   */
  lemma {:induction false} PressureValue(mode: Mode, data: seq<byte>)
    requires |data| == DataSize
    ensures PressureOf(mode, data) == (data[1] as int * 65536 + data[2] as int * 256 + data[3] as int) as real
                                       / (if mode == Altimeter then 256.0 else 64.0)
    ensures PressureOf(Barometer, data) == 4.0 * PressureOf(Altimeter, data)
  {
    var n := data[1] as int * 65536 + data[2] as int * 256 + data[3] as int;
    assert Assemble24(data[1], data[2], data[3]) == n by {
      Assemble24Value(data[1], data[2], data[3]);
    }
    assert PressureOf(Altimeter, data) == n as real / 256.0 by {
      assert ShiftLeft(1, 8) == 256 by { Pow2Values(); }
    }
    assert PressureOf(Barometer, data) == n as real / 64.0 by {
      assert ShiftLeft(1, 6) == 64 by { Pow2Values(); }
    }
  }

  /** The temperature of a data block: the 16-bit sample of bytes 4..5 over 2^8. */
  lemma {:induction false} TemperatureValue(data: seq<byte>)
    requires |data| == DataSize
    ensures TemperatureOf(data) == (data[4] as int * 256 + data[5] as int) as real / 256.0
  {
    assert ShiftLeft(1, 8) == 256 by { Pow2Values(); }
    Assemble16Value(data[4], data[5]);
  }

  /** Byte 0 of the data block, the STATUS copy, plays no part in the conversion. */
  lemma ConversionIgnoresStatus(mode: Mode, data: seq<byte>, other: seq<byte>)
    requires |data| == DataSize && |other| == DataSize && data[1..] == other[1..]
    ensures PressureOf(mode, other) == PressureOf(mode, data) && TemperatureOf(other) == TemperatureOf(data)
  {
    assert data[1] == other[1] && data[2] == other[2] && data[3] == other[3];
    assert data[4] == other[4] && data[5] == other[5];
  }

  /** The sample block 0x01,0x00,0x00 reads 256.0 as altitude and 1024.0 as pressure. */
  lemma {:induction false} ConversionExample(data: seq<byte>)
    requires |data| == DataSize && data[1] == 0x01 && data[2] == 0x00 && data[3] == 0x00
    ensures PressureOf(Altimeter, data) == 256.0
    ensures PressureOf(Barometer, data) == 1024.0
  {
    PressureValue(Altimeter, data);
    PressureValue(Barometer, data);
  }

  // ---------------------------------------------------------------------
  // The status poll
  // ---------------------------------------------------------------------

  /** The loop gives up once `timeout` exceeds this many attempts. */
  const PollLimit: nat := 30

  /** The one-byte write that points the device at STATUS. */
  const StatusPointer: seq<byte> := [StatusAddress]

  /** `test & 0x08`: the pressure/temperature data-ready bit of STATUS. */
  predicate DataReady(test: byte)
  {
    (test as nat / 8) % 2 == 1
  }

  lemma {:induction false} DataReadyBit(test: byte)
    ensures DataReady(test) <==> TestBit(test as nat, 3)
  {
    Pow2Values();
    AndSingleBit(test as nat, 3);
  }

  /** A status read that put a ready byte into `test`. */
  predicate DeliversReady(e: Event)
  {
    e.ret == 1 && |e.data| == 1 && DataReady(e.data[0])
  }

  datatype PollEnd = Ready | StatusWriteFailed | TimedOut
  datatype PollRun = PollRun(end: PollEnd, events: seq<Event>)

  /**
   * The status-poll loop from its k-th call, `timeout` attempts already
   * counted and the ready bit not yet seen: write the STATUS pointer (a
   * failed write ends the loop), read one byte into `test`, count the
   * attempt and give up once the count exceeds thirty; otherwise stop when
   * the byte read shows the ready bit. A read that transfers nothing leaves
   * `test` as it was, clear, so the outcome depends only on this attempt's
   * read.
   */
  function Poll(o: Oracle, k: nat, fd: int, timeout: nat): PollRun
    decreases PollLimit - timeout
  {
    var write := Answer(o, k, Write(fd, StatusPointer));
    if write.ret != 1 then PollRun(StatusWriteFailed, [write])
    else
      var read := Answer(o, k + 1, Read(fd, 1));
      if timeout + 1 > PollLimit then PollRun(TimedOut, [write, read])
      else if DeliversReady(read) then PollRun(Ready, [write, read])
      else Prepend([write, read], Poll(o, k + 2, fd, timeout + 1))
  }

  /** A poll run preceded by the calls already made. */
  function Prepend(events: seq<Event>, r: PollRun): PollRun
  {
    PollRun(r.end, events + r.events)
  }

  lemma PrependTwice(a: seq<Event>, b: seq<Event>, r: PollRun)
    ensures Prepend(a, Prepend(b, r)) == Prepend(a + b, r)
  {
    assert a + (b + r.events) == (a + b) + r.events;
  }

  /** The first attempt of the poll loop from the k-th call, in each of its four outcomes. */
  lemma PollAttempt(o: Oracle, k: nat, fd: int, timeout: nat)
    ensures var write := Answer(o, k, Write(fd, StatusPointer));
      var read := Answer(o, k + 1, Read(fd, 1));
      var r := Poll(o, k, fd, timeout);
      && (write.ret != 1 ==> r == PollRun(StatusWriteFailed, [write]))
      && (write.ret == 1 && timeout + 1 > PollLimit ==> r == PollRun(TimedOut, [write, read]))
      && (write.ret == 1 && timeout + 1 <= PollLimit && DeliversReady(read) ==> r == PollRun(Ready, [write, read]))
      && (write.ret == 1 && timeout + 1 <= PollLimit && !DeliversReady(read) ==>
            r == Prepend([write, read], Poll(o, k + 2, fd, timeout + 1)))
  {
  }

  /**
   * How a poll loop from its k-th call after `timeout` attempts ends, read
   * off its calls rather than computed, or None if `events` is not such a
   * run: each attempt is the bus's answer to the STATUS pointer write and,
   * when that write was accepted, to the one-byte read; a refused write, a
   * read that comes when the count passes thirty, or a read that delivers
   * the ready bit is the last call.
   */
  ghost function PollEndOf(o: Oracle, k: nat, fd: int, timeout: nat, events: seq<Event>): Option<PollEnd>
    decreases |events|
  {
    if |events| == 0 || events[0] != Answer(o, k, Write(fd, StatusPointer)) then None
    else if events[0].ret != 1 then (if |events| == 1 then Some(StatusWriteFailed) else None)
    else if |events| < 2 || events[1] != Answer(o, k + 1, Read(fd, 1)) then None
    else if timeout + 1 > PollLimit then (if |events| == 2 then Some(TimedOut) else None)
    else if DeliversReady(events[1]) then (if |events| == 2 then Some(Ready) else None)
    else PollEndOf(o, k + 2, fd, timeout + 1, events[2..])
  }

  /** One attempt that went on: the rest of the loop is read off from the next attempt. */
  lemma PollStep(o: Oracle, k: nat, fd: int, timeout: nat, write: Event, read: Event, rest: seq<Event>)
    requires write == Answer(o, k, Write(fd, StatusPointer)) && write.ret == 1
    requires read == Answer(o, k + 1, Read(fd, 1)) && !DeliversReady(read)
    requires timeout + 1 <= PollLimit
    ensures PollEndOf(o, k, fd, timeout, [write, read] + rest) == PollEndOf(o, k + 2, fd, timeout + 1, rest)
  {
    assert ([write, read] + rest)[2..] == rest;
  }

  /**
   * After the calls `polled` of the poll loop from its k-th call, `timeout`
   * attempts went on and whatever follows is read off as the rest of the
   * loop.
   */
  ghost predicate PollResumes(o: Oracle, k: nat, fd: int, polled: seq<Event>, timeout: nat)
  {
    forall last: seq<Event> ::
      PollEndOf(o, k, fd, 0, polled + last) == PollEndOf(o, k + |polled|, fd, timeout, last)
  }

  /** A refused STATUS pointer write ends the loop. */
  lemma PollWriteRefused(o: Oracle, k: nat, fd: int, timeout: nat, polled: seq<Event>, write: Event,
                         next: seq<Event>)
    requires PollResumes(o, k, fd, polled, timeout)
    requires write == Answer(o, k + |polled|, Write(fd, StatusPointer)) && write.ret != 1
    requires next == polled + [write]
    ensures PollEndOf(o, k, fd, 0, next) == Some(StatusWriteFailed)
  {
    assert PollEndOf(o, k, fd, 0, polled + [write]) == PollEndOf(o, k + |polled|, fd, timeout, [write]);
  }

  /**
   * After an accepted write, a read that comes when the count passes thirty
   * ends the loop by time-out, and otherwise a read that delivers the ready
   * bit ends it ready.
   */
  lemma PollLastRead(o: Oracle, k: nat, fd: int, timeout: nat, polled: seq<Event>, write: Event, read: Event,
                     next: seq<Event>)
    requires PollResumes(o, k, fd, polled, timeout)
    requires write == Answer(o, k + |polled|, Write(fd, StatusPointer)) && write.ret == 1
    requires read == Answer(o, k + |polled| + 1, Read(fd, 1))
    requires next == polled + [write, read]
    ensures timeout + 1 > PollLimit ==> PollEndOf(o, k, fd, 0, next) == Some(TimedOut)
    ensures timeout + 1 <= PollLimit && DeliversReady(read) ==> PollEndOf(o, k, fd, 0, next) == Some(Ready)
  {
    assert PollEndOf(o, k, fd, 0, polled + [write, read]) == PollEndOf(o, k + |polled|, fd, timeout, [write, read]);
  }

  /** Before its first attempt, the whole poll loop is still to be read off. */
  lemma PollStarts(o: Oracle, k: nat, fd: int, none: seq<Event>)
    requires none == []
    ensures PollResumes(o, k, fd, none, 0)
  {
    forall last: seq<Event>
      ensures PollEndOf(o, k, fd, 0, none + last) == PollEndOf(o, k + |none|, fd, 0, last)
    {
      assert none + last == last;
    }
  }

  /**
   * An attempt that went on leaves the rest of the loop to be read off as
   * the run of the next attempt.
   */
  lemma PollGoesOn(o: Oracle, k: nat, fd: int, timeout: nat, polled: seq<Event>, write: Event, read: Event,
                   next: seq<Event>)
    requires PollResumes(o, k, fd, polled, timeout)
    requires write == Answer(o, k + |polled|, Write(fd, StatusPointer)) && write.ret == 1
    requires read == Answer(o, k + |polled| + 1, Read(fd, 1)) && !DeliversReady(read)
    requires timeout + 1 <= PollLimit && next == polled + [write, read]
    ensures PollResumes(o, k, fd, next, timeout + 1)
  {
    forall last: seq<Event>
      ensures PollEndOf(o, k, fd, 0, next + last) == PollEndOf(o, k + |next|, fd, timeout + 1, last)
    {
      assert next + last == polled + ([write, read] + last);
      PollStep(o, k + |polled|, fd, timeout, write, read, last);
    }
  }

  /** The recursive loop produces a run that is read off as ending as it does. */
  lemma {:induction false} PollIsTrace(o: Oracle, k: nat, fd: int, timeout: nat)
    requires timeout <= PollLimit
    ensures PollEndOf(o, k, fd, timeout, Poll(o, k, fd, timeout).events) == Some(Poll(o, k, fd, timeout).end)
    decreases PollLimit - timeout
  {
    var write := Answer(o, k, Write(fd, StatusPointer));
    var read := Answer(o, k + 1, Read(fd, 1));
    PollAttempt(o, k, fd, timeout);
    if write.ret == 1 && timeout + 1 <= PollLimit && !DeliversReady(read) {
      var rest := Poll(o, k + 2, fd, timeout + 1);
      PollIsTrace(o, k + 2, fd, timeout + 1);
      assert ([write, read] + rest.events)[2..] == rest.events;
    }
  }

  /** A run that is read off as ending some way is the one the recursive loop produces. */
  lemma {:induction false} TraceIsPoll(o: Oracle, k: nat, fd: int, timeout: nat, end: PollEnd, events: seq<Event>)
    requires PollEndOf(o, k, fd, timeout, events) == Some(end)
    ensures Poll(o, k, fd, timeout) == PollRun(end, events)
    decreases |events|
  {
    PollAttempt(o, k, fd, timeout);
    if |events| == 1 {
      assert events == [events[0]];
    } else if |events| == 2 {
      assert events == [events[0], events[1]];
    } else {
      TraceIsPoll(o, k + 2, fd, timeout + 1, end, events[2..]);
      assert events == [events[0], events[1]] + events[2..];
    }
  }

  /** The calls of the poll loop are determined: at most one run is read off from a given call on. */
  lemma {:induction false} PollEndOfUnique(o: Oracle, k: nat, fd: int, timeout: nat, a: seq<Event>, b: seq<Event>)
    requires PollEndOf(o, k, fd, timeout, a).Some? && PollEndOf(o, k, fd, timeout, b).Some?
    ensures a == b
    decreases |a|
  {
    if |a| > 2 && |b| > 2 {
      PollEndOfUnique(o, k + 2, fd, timeout + 1, a[2..], b[2..]);
      assert a == [a[0], a[1]] + a[2..];
      assert b == [b[0], b[1]] + b[2..];
    } else if |a| == 1 || |b| == 1 {
      assert a == [a[0]] && b == [b[0]];
    } else {
      assert a == [a[0], a[1]] && b == [b[0], b[1]];
    }
  }

  /** A run that is read off as ending some way ends in a poll call, not a close. */
  lemma {:induction false} PollEndOfCalls(o: Oracle, k: nat, fd: int, timeout: nat, events: seq<Event>)
    requires PollEndOf(o, k, fd, timeout, events).Some?
    ensures events != [] && !events[|events| - 1].call.Close?
    decreases |events|
  {
    if |events| > 2 {
      PollEndOfCalls(o, k + 2, fd, timeout + 1, events[2..]);
      assert events[|events| - 1] == events[2..][|events| - 3];
    }
  }

  /** The two descriptions of the poll loop agree on every run. */
  lemma PollTraceIsPoll(o: Oracle, k: nat, fd: int, timeout: nat, end: PollEnd, events: seq<Event>)
    requires timeout <= PollLimit
    ensures PollEndOf(o, k, fd, timeout, events) == Some(end) <==> Poll(o, k, fd, timeout) == PollRun(end, events)
  {
    if PollEndOf(o, k, fd, timeout, events) == Some(end) {
      TraceIsPoll(o, k, fd, timeout, end, events);
    }
    PollIsTrace(o, k, fd, timeout);
  }

  /**
   * The calls of the poll loop from its k-th call after `timeout` attempts:
   * it alternates one-byte STATUS pointer writes and one-byte reads, at
   * most 31 - timeout of each.
   */
  lemma {:induction false} PollCalls(o: Oracle, k: nat, fd: int, timeout: nat)
    requires timeout <= PollLimit
    ensures 0 < |Poll(o, k, fd, timeout).events| <= 2 * (PollLimit + 1 - timeout)
    ensures forall i :: 0 <= i < |Poll(o, k, fd, timeout).events| ==>
      Poll(o, k, fd, timeout).events[i].call == if i % 2 == 0 then Write(fd, StatusPointer) else Read(fd, 1)
    decreases PollLimit - timeout
  {
    var r := Poll(o, k, fd, timeout);
    var write := Answer(o, k, Write(fd, StatusPointer));
    var read := Answer(o, k + 1, Read(fd, 1));
    if write.ret == 1 && timeout < PollLimit && !DeliversReady(read) {
      var rest := Poll(o, k + 2, fd, timeout + 1);
      PollCalls(o, k + 2, fd, timeout + 1);
      assert r.events == [write, read] + rest.events;
      forall i | 2 <= i < |r.events|
        ensures r.events[i].call == if i % 2 == 0 then Write(fd, StatusPointer) else Read(fd, 1)
      {
        assert r.events[i] == rest.events[i - 2] && (i - 2) % 2 == i % 2;
      }
    }
  }

  /** Every STATUS pointer write of the same loop but the last was accepted. */
  lemma {:induction false} PollWritesAccepted(o: Oracle, k: nat, fd: int, timeout: nat)
    requires timeout <= PollLimit
    ensures forall i :: 0 <= i < |Poll(o, k, fd, timeout).events| - 1 && i % 2 == 0 ==>
      Poll(o, k, fd, timeout).events[i].ret == 1
    decreases PollLimit - timeout
  {
    var r := Poll(o, k, fd, timeout);
    var write := Answer(o, k, Write(fd, StatusPointer));
    var read := Answer(o, k + 1, Read(fd, 1));
    if write.ret == 1 && timeout < PollLimit && !DeliversReady(read) {
      var rest := Poll(o, k + 2, fd, timeout + 1);
      PollWritesAccepted(o, k + 2, fd, timeout + 1);
      assert r.events == [write, read] + rest.events;
      forall i | 2 <= i < |r.events| - 1 && i % 2 == 0
        ensures r.events[i].ret == 1
      {
        assert r.events[i] == rest.events[i - 2] && (i - 2) % 2 == 0;
      }
    }
  }

  /** The poll loop never closes the handle. */
  lemma PollNoClose(o: Oracle, k: nat, fd: int, timeout: nat)
    requires timeout <= PollLimit
    ensures NoClose(Poll(o, k, fd, timeout).events)
  {
    PollCalls(o, k, fd, timeout);
    var r := Poll(o, k, fd, timeout);
    forall i | 0 <= i < |r.events|
      ensures !r.events[i].call.Close?
    {
    }
  }

  /**
   * How the same loop ends on a failed pointer write: exactly when it stops
   * after a write, and that write was not accepted.
   */
  lemma {:induction false} PollEnds(o: Oracle, k: nat, fd: int, timeout: nat)
    requires timeout <= PollLimit
    ensures |Poll(o, k, fd, timeout).events| > 0
    ensures Poll(o, k, fd, timeout).end == StatusWriteFailed <==> |Poll(o, k, fd, timeout).events| % 2 == 1
    decreases PollLimit - timeout
  {
    var write := Answer(o, k, Write(fd, StatusPointer));
    var read := Answer(o, k + 1, Read(fd, 1));
    if write.ret == 1 && timeout < PollLimit && !DeliversReady(read) {
      PollEnds(o, k + 2, fd, timeout + 1);
    }
  }

  /** A loop that ends on a failed pointer write ends with that refused write. */
  lemma {:induction false} PollRefusedLast(o: Oracle, k: nat, fd: int, timeout: nat)
    requires timeout <= PollLimit
    ensures var r := Poll(o, k, fd, timeout);
      r.end == StatusWriteFailed ==> |r.events| > 0 && r.events[|r.events| - 1].ret != 1
    decreases PollLimit - timeout
  {
    var r := Poll(o, k, fd, timeout);
    var write := Answer(o, k, Write(fd, StatusPointer));
    var read := Answer(o, k + 1, Read(fd, 1));
    if write.ret == 1 && timeout < PollLimit && !DeliversReady(read) {
      var rest := Poll(o, k + 2, fd, timeout + 1);
      PollRefusedLast(o, k + 2, fd, timeout + 1);
      assert r.events == [write, read] + rest.events;
      if r.end == StatusWriteFailed {
        assert r.events[|r.events| - 1] == rest.events[|rest.events| - 1];
      }
    }
  }

  /** The same loop times out only after all 31 - timeout attempts. */
  lemma {:induction false} PollTimesOut(o: Oracle, k: nat, fd: int, timeout: nat)
    requires timeout <= PollLimit
    ensures Poll(o, k, fd, timeout).end == TimedOut ==> |Poll(o, k, fd, timeout).events| == 2 * (PollLimit + 1 - timeout)
    decreases PollLimit - timeout
  {
    var write := Answer(o, k, Write(fd, StatusPointer));
    var read := Answer(o, k + 1, Read(fd, 1));
    if write.ret == 1 && timeout < PollLimit && !DeliversReady(read) {
      PollTimesOut(o, k + 2, fd, timeout + 1);
    }
  }

  /** In a run of the same loop, no read before the last delivers the ready bit. */
  lemma {:induction false} PollReadsBeforeLast(o: Oracle, k: nat, fd: int, timeout: nat)
    requires timeout <= PollLimit
    ensures forall i :: 0 <= i < |Poll(o, k, fd, timeout).events| - 1 && i % 2 == 1 ==>
      !DeliversReady(Poll(o, k, fd, timeout).events[i])
    decreases PollLimit - timeout
  {
    var r := Poll(o, k, fd, timeout);
    var write := Answer(o, k, Write(fd, StatusPointer));
    var read := Answer(o, k + 1, Read(fd, 1));
    if write.ret == 1 && timeout < PollLimit && !DeliversReady(read) {
      var rest := Poll(o, k + 2, fd, timeout + 1);
      PollReadsBeforeLast(o, k + 2, fd, timeout + 1);
      assert r.events == [write, read] + rest.events;
      forall i | 2 <= i < |r.events| - 1 && i % 2 == 1
        ensures !DeliversReady(r.events[i])
      {
        assert r.events[i] == rest.events[i - 2] && (i - 2) % 2 == 1;
      }
    }
  }

  /**
   * A run of the same loop that ends ready ends with the read that
   * delivered the bit, among the reads of its first 30 - timeout attempts.
   */
  lemma {:induction false} PollReadyLast(o: Oracle, k: nat, fd: int, timeout: nat)
    requires timeout <= PollLimit
    ensures var r := Poll(o, k, fd, timeout);
      r.end == Ready ==>
        2 <= |r.events| <= 2 * (PollLimit - timeout) && DeliversReady(r.events[|r.events| - 1])
    decreases PollLimit - timeout
  {
    var r := Poll(o, k, fd, timeout);
    var write := Answer(o, k, Write(fd, StatusPointer));
    var read := Answer(o, k + 1, Read(fd, 1));
    if write.ret == 1 && timeout < PollLimit && !DeliversReady(read) {
      var rest := Poll(o, k + 2, fd, timeout + 1);
      PollReadyLast(o, k + 2, fd, timeout + 1);
      assert r.events == [write, read] + rest.events;
      if r.end == Ready {
        assert r.events[|r.events| - 1] == rest.events[|rest.events| - 1];
      }
    }
  }

  /**
   * The outcome of the same loop: it succeeds exactly when one of the reads
   * of the first 30 - timeout attempts delivers the ready bit, that read is
   * then its last call, and no read before the last delivers it; a ready
   * byte delivered by the thirty-first read still ends in a time-out.
   */
  lemma PollReady(o: Oracle, k: nat, fd: int, timeout: nat)
    requires timeout <= PollLimit
    ensures var r := Poll(o, k, fd, timeout);
      && (forall i :: 0 <= i < |r.events| - 1 && i % 2 == 1 ==> !DeliversReady(r.events[i]))
      && (r.end == Ready <==>
            exists i :: 0 <= i < |r.events| && i < 2 * (PollLimit - timeout) && i % 2 == 1 && DeliversReady(r.events[i]))
      && (r.end == Ready ==> DeliversReady(r.events[|r.events| - 1]))
  {
    var r := Poll(o, k, fd, timeout);
    PollReadsBeforeLast(o, k, fd, timeout);
    PollReadyLast(o, k, fd, timeout);
    PollEnds(o, k, fd, timeout);
    PollTimesOut(o, k, fd, timeout);
    if r.end == Ready {
      var n := |r.events|;
      assert n % 2 == 0 && n - 1 < 2 * (PollLimit - timeout) && DeliversReady(r.events[n - 1]);
    }
  }

  // ---------------------------------------------------------------------
  // Bus runs of the driver operations
  // ---------------------------------------------------------------------

  /**
   * The constructor issued as the k-th call: open, bind, three two-byte
   * register writes and close, all on the handle open returned, whether or
   * not any of them fails.
   */
  function ConfigureRun(o: Oracle, k: nat, bus: int, address: byte, mode: Mode): (events: seq<Event>)
    ensures |events| == 6 && events[0].call == Open(bus)
    ensures var fd := events[0].ret;
      && events[1].call == Bind(fd, address as int)
      && events[2].call == Write(fd, [CtrlReg1Address, 0x00])
      && events[3].call == Write(fd, [PtDataCfgAddress, 0x07])
      && events[4].call == Write(fd, [CtrlReg1Address, ModeByte(mode)])
      && events[5].call == Close(fd)
  {
    var open := Answer(o, k, Open(bus));
    var fd := open.ret;
    [ open,
      Answer(o, k + 1, Bind(fd, address as int)),
      Answer(o, k + 2, Write(fd, [CtrlReg1Address, 0x00])),
      Answer(o, k + 3, Write(fd, [PtDataCfgAddress, 0x07])),
      Answer(o, k + 4, Write(fd, [CtrlReg1Address, ModeByte(mode)])),
      Answer(o, k + 5, Close(fd)) ]
  }

  /** The constructor's six calls, each answered in turn, are its run. */
  lemma ConfiguredAs(o: Oracle, k: nat, bus: int, address: byte, mode: Mode,
                     open: Event, bind: Event, w1: Event, w2: Event, w3: Event, close: Event)
    requires open == Answer(o, k, Open(bus))
    requires bind == Answer(o, k + 1, Bind(open.ret, address as int))
    requires w1 == Answer(o, k + 2, Write(open.ret, [CtrlReg1Address, 0x00]))
    requires w2 == Answer(o, k + 3, Write(open.ret, [PtDataCfgAddress, 0x07]))
    requires w3 == Answer(o, k + 4, Write(open.ret, [CtrlReg1Address, ModeByte(mode)]))
    requires close == Answer(o, k + 5, Close(open.ret))
    ensures ConfigureRun(o, k, bus, address, mode) == [open, bind, w1, w2, w3, close]
  {
  }

  /** readSensor's status, calls, and the values left in `*pressure` and `*temp`. */
  datatype SensorRun = SensorRun(status: int, events: seq<Event>, pressure: real, temp: real)

  /** readSensor issued as the k-th call, with the caller's current outputs. */
  function ReadSensorRun(o: Oracle, k: nat, bus: int, address: byte, mode: Mode, pressure: real, temp: real): SensorRun
  {
    var open := Answer(o, k, Open(bus));
    if open.ret < 0 then SensorRun(-1, [open], pressure, temp)
    else
      var fd := open.ret;
      var bind := Answer(o, k + 1, Bind(fd, address as int));
      if bind.ret < 0 then SensorRun(-1, [open] + [bind], pressure, temp)
      else
        var trigger := Answer(o, k + 2, Write(fd, [CtrlReg1Address, TriggerByte(mode)]));
        if trigger.ret != 2 then SensorRun(-1, [open] + [bind] + [trigger], pressure, temp)
        else TriggeredRun(o, k + 3, fd, mode, pressure, temp, [open] + [bind] + [trigger], Poll(o, k + 3, fd, 0))
  }

  /**
   * readSensor after an accepted trigger write, from its k-th call on
   * handle `fd`, the calls so far being `prefix` and the status poll
   * `poll`: on a ready poll the six-byte data read and the close follow,
   * whose bytes give the outputs.
   */
  function TriggeredRun(o: Oracle, k: nat, fd: int, mode: Mode, pressure: real, temp: real,
                        prefix: seq<Event>, poll: PollRun): (r: SensorRun)
    ensures r.status == 0 <==> poll.end == Ready
    ensures r.status != 0 ==> r.status == -1 && r.pressure == pressure && r.temp == temp
    ensures prefix <= r.events
  {
    if poll.end != Ready then SensorRun(-1, prefix + poll.events, pressure, temp)
    else
      var j := k + |poll.events|;
      var data := Answer(o, j, Read(fd, DataSize));
      SensorRun(0, prefix + (poll.events + [data] + [Answer(o, j + 1, Close(fd))]),
                PressureOf(mode, data.data), TemperatureOf(data.data))
  }

  /**
   * What a run of readSensor looks like: status 0 or -1, the open first,
   * and after a successful open the bind and the trigger write.
   */
  lemma ReadSensorRunShape(o: Oracle, k: nat, bus: int, address: byte, mode: Mode, pressure: real, temp: real)
    ensures var r := ReadSensorRun(o, k, bus, address, mode, pressure, temp);
      && r.status in {0, -1} && |r.events| > 0 && r.events[0].call == Open(bus)
      && (|r.events| >= 3 ==>
            var fd := r.events[0].ret;
            && r.events[1] == Event(Bind(fd, address as int), 0, [])
            && r.events[2].call == Write(fd, [CtrlReg1Address, TriggerByte(mode)]))
  {
  }

  /** A run of readSensor with status -1 leaves the caller's outputs and never closes the handle. */
  lemma ReadSensorRunFails(o: Oracle, k: nat, bus: int, address: byte, mode: Mode, pressure: real, temp: real)
    ensures var r := ReadSensorRun(o, k, bus, address, mode, pressure, temp);
      r.status == -1 ==> r.pressure == pressure && r.temp == temp && NoClose(r.events)
  {
    var open := Answer(o, k, Open(bus));
    var fd := open.ret;
    var bind := Answer(o, k + 1, Bind(fd, address as int));
    var trigger := Answer(o, k + 2, Write(fd, [CtrlReg1Address, TriggerByte(mode)]));
    if fd >= 0 && bind.ret >= 0 && trigger.ret == 2 {
      var poll := Poll(o, k + 3, fd, 0);
      assert ReadSensorRun(o, k, bus, address, mode, pressure, temp)
          == TriggeredRun(o, k + 3, fd, mode, pressure, temp, [open] + [bind] + [trigger], poll);
      if poll.end != Ready {
        PollNoClose(o, k + 3, fd, 0);
      }
    }
  }

  /**
   * A run of readSensor with status 0: the trigger write was accepted, the
   * poll ended ready, and the data read and the close follow, with the
   * outputs converted from the data bytes.
   */
  lemma ReadSensorRunReady(o: Oracle, k: nat, bus: int, address: byte, mode: Mode, pressure: real, temp: real)
    ensures var r := ReadSensorRun(o, k, bus, address, mode, pressure, temp);
      r.status == 0 ==>
        var fd := r.events[0].ret;
        var n := |r.events|;
        && n >= 7 && r.events[2].ret == 2
        && Poll(o, k + 3, fd, 0) == PollRun(Ready, r.events[3..n - 2])
        && r.events[n - 2].call == Read(fd, DataSize) && |r.events[n - 2].data| == DataSize
        && r.events[n - 1].call == Close(fd)
        && r.pressure == PressureOf(mode, r.events[n - 2].data)
        && r.temp == TemperatureOf(r.events[n - 2].data)
  {
    var r := ReadSensorRun(o, k, bus, address, mode, pressure, temp);
    ReadSensorRunTriggered(o, k, bus, address, mode, pressure, temp);
    if r.status == 0 {
      var open := Answer(o, k, Open(bus));
      var fd := open.ret;
      var bind := Answer(o, k + 1, Bind(fd, address as int));
      var trigger := Answer(o, k + 2, Write(fd, [CtrlReg1Address, TriggerByte(mode)]));
      TriggeredReady(o, k + 3, fd, mode, pressure, temp, [open] + [bind] + [trigger], Poll(o, k + 3, fd, 0));
    }
  }

  /**
   * A run of readSensor has status 0 exactly when the open, the bind and
   * the trigger write succeed and the poll ends ready; it is then the
   * triggered run of that poll.
   */
  lemma ReadSensorRunTriggered(o: Oracle, k: nat, bus: int, address: byte, mode: Mode, pressure: real, temp: real)
    ensures var r := ReadSensorRun(o, k, bus, address, mode, pressure, temp);
      var open := Answer(o, k, Open(bus));
      var fd := open.ret;
      var bind := Answer(o, k + 1, Bind(fd, address as int));
      var trigger := Answer(o, k + 2, Write(fd, [CtrlReg1Address, TriggerByte(mode)]));
      && (r.status == 0 <==> fd >= 0 && bind.ret >= 0 && trigger.ret == 2 && Poll(o, k + 3, fd, 0).end == Ready)
      && (r.status == 0 ==>
            && |Poll(o, k + 3, fd, 0).events| >= 2
            && r == TriggeredRun(o, k + 3, fd, mode, pressure, temp, [open] + [bind] + [trigger], Poll(o, k + 3, fd, 0)))
  {
  }

  /** After an accepted trigger write and a ready poll, the data read and the close follow the poll. */
  lemma TriggeredReady(o: Oracle, k: nat, fd: int, mode: Mode, pressure: real, temp: real,
                       prefix: seq<Event>, poll: PollRun)
    requires poll.end == Ready && |poll.events| >= 2 && |prefix| == 3
    ensures var r := TriggeredRun(o, k, fd, mode, pressure, temp, prefix, poll);
      var n := |r.events|;
      && n == |poll.events| + 5 && r.status == 0 && r.events[..3] == prefix
      && r.events[3..n - 2] == poll.events
      && r.events[n - 2].call == Read(fd, DataSize) && |r.events[n - 2].data| == DataSize
      && r.events[n - 1].call == Close(fd)
      && r.pressure == PressureOf(mode, r.events[n - 2].data)
      && r.temp == TemperatureOf(r.events[n - 2].data)
  {
    var r := TriggeredRun(o, k, fd, mode, pressure, temp, prefix, poll);
    var n := |r.events|;
    assert r.events[3..n - 2] == poll.events;
  }

  /** A read that ends in success found the ready bit within thirty attempts. */
  lemma {:induction false} ReadSensorSucceeds(o: Oracle, k: nat, bus: int, address: byte, mode: Mode, pressure: real, temp: real)
    ensures var r := ReadSensorRun(o, k, bus, address, mode, pressure, temp);
      r.status == 0 ==>
        exists i :: 3 <= i < |r.events| - 2 && i < 3 + 2 * PollLimit && DeliversReady(r.events[i])
  {
    var r := ReadSensorRun(o, k, bus, address, mode, pressure, temp);
    ReadSensorRunReady(o, k, bus, address, mode, pressure, temp);
    if r.status == 0 {
      var fd := r.events[0].ret;
      var n := |r.events|;
      var poll := r.events[3..n - 2];
      PollReady(o, k + 3, fd, 0);
      var j :| 0 <= j < |poll| && j < 2 * PollLimit && j % 2 == 1 && DeliversReady(poll[j]);
      assert r.events[j + 3] == poll[j];
    }
  }

  /** How readSensor's calls after an accepted trigger write end. */
  datatype Finish = GaveUp | Converted(data: seq<byte>)

  /**
   * readSensor's calls from the k-th call on after an accepted trigger
   * write on handle `fd`, read off rather than computed, or None if `rest`
   * is not such calls: a poll that ends ready followed by the six-byte
   * data read and the close, whose bytes are converted; or a poll that
   * gives up, after which nothing more is done.
   */
  ghost function FinishOf(o: Oracle, k: nat, fd: int, rest: seq<Event>): Option<Finish>
  {
    var n := |rest|;
    if n >= 2 && rest[n - 1].call.Close? then
      if PollEndOf(o, k, fd, 0, rest[..n - 2]) == Some(Ready)
         && rest[n - 2] == Answer(o, k + n - 2, Read(fd, DataSize))
         && rest[n - 1] == Answer(o, k + n - 1, Close(fd))
      then Some(Converted(rest[n - 2].data))
      else None
    else
      var end := PollEndOf(o, k, fd, 0, rest);
      if end.Some? && end.value != Ready then Some(GaveUp) else None
  }

  /**
   * What readSensor issued as the k-th call returns, read off its calls
   * rather than computed, or None if `events` is not such a run: each call
   * is the bus's answer to the call the driver makes next; a failed open,
   * bind or trigger write, or a poll that gives up, gives -1 and leaves
   * the caller's outputs; otherwise the outputs are converted from the
   * bytes of the data read.
   */
  ghost function SensorOutcome(o: Oracle, k: nat, bus: int, address: byte, mode: Mode,
                               pressure: real, temp: real, events: seq<Event>): Option<SensorRun>
  {
    var failed := Some(SensorRun(-1, events, pressure, temp));
    if |events| == 0 || events[0] != Answer(o, k, Open(bus)) then None
    else
      var fd := events[0].ret;
      if fd < 0 then (if |events| == 1 then failed else None)
      else if |events| < 2 || events[1] != Answer(o, k + 1, Bind(fd, address as int)) then None
      else if events[1].ret < 0 then (if |events| == 2 then failed else None)
      else if |events| < 3 || events[2] != Answer(o, k + 2, Write(fd, [CtrlReg1Address, TriggerByte(mode)])) then None
      else if events[2].ret != 2 then (if |events| == 3 then failed else None)
      else
        match FinishOf(o, k + 3, fd, events[3..])
        case None => None
        case Some(GaveUp) => failed
        case Some(Converted(data)) => Some(SensorRun(0, events, PressureOf(mode, data), TemperatureOf(data)))
  }

  /** After an accepted open, bind and trigger write, the outcome is decided by the calls that follow. */
  lemma SensorOutcomeAfterTrigger(o: Oracle, k: nat, bus: int, address: byte, mode: Mode, pressure: real, temp: real,
                                  open: Event, bind: Event, trigger: Event, rest: seq<Event>)
    requires open == Answer(o, k, Open(bus)) && open.ret >= 0
    requires bind == Answer(o, k + 1, Bind(open.ret, address as int)) && bind.ret >= 0
    requires trigger == Answer(o, k + 2, Write(open.ret, [CtrlReg1Address, TriggerByte(mode)])) && trigger.ret == 2
    ensures var events := [open] + [bind] + [trigger] + rest;
      var finish := FinishOf(o, k + 3, open.ret, rest);
      && (finish == Some(GaveUp) ==>
            SensorOutcome(o, k, bus, address, mode, pressure, temp, events) == Some(SensorRun(-1, events, pressure, temp)))
      && (finish.Some? && finish.value.Converted? ==>
            var data := finish.value.data;
            SensorOutcome(o, k, bus, address, mode, pressure, temp, events)
              == Some(SensorRun(0, events, PressureOf(mode, data), TemperatureOf(data))))
      && (finish == None ==> SensorOutcome(o, k, bus, address, mode, pressure, temp, events) == None)
  {
    var events := [open] + [bind] + [trigger] + rest;
    assert events[..3] == [open, bind, trigger];
    assert events[3..] == rest;
  }

  /** A poll that gives up ends readSensor's calls. */
  lemma FinishGaveUp(o: Oracle, k: nat, fd: int, polled: seq<Event>, end: PollEnd)
    requires PollEndOf(o, k, fd, 0, polled) == Some(end) && end != Ready
    ensures FinishOf(o, k, fd, polled) == Some(GaveUp)
  {
    PollEndOfCalls(o, k, fd, 0, polled);
  }

  /** A poll that ends ready, then the data read and the close, convert the bytes read. */
  lemma FinishConverted(o: Oracle, k: nat, fd: int, polled: seq<Event>, m: nat, data: Event, close: Event)
    requires PollEndOf(o, k, fd, 0, polled) == Some(Ready)
    requires m == k + |polled|
    requires data == Answer(o, m, Read(fd, DataSize)) && close == Answer(o, m + 1, Close(fd))
    ensures FinishOf(o, k, fd, polled + [data] + [close]) == Some(Converted(data.data))
  {
    assert (polled + [data] + [close])[..|polled|] == polled;
  }

  /** The calls readSensor makes after an accepted trigger write and a poll are read off as finishing it. */
  lemma TriggeredFinishes(o: Oracle, k: nat, fd: int, mode: Mode, pressure: real, temp: real,
                          prefix: seq<Event>, poll: PollRun)
    returns (rest: seq<Event>, finish: Finish)
    requires PollEndOf(o, k, fd, 0, poll.events) == Some(poll.end)
    ensures FinishOf(o, k, fd, rest) == Some(finish)
    ensures var run := TriggeredRun(o, k, fd, mode, pressure, temp, prefix, poll);
      && run.events == prefix + rest
      && (finish.GaveUp? ==> run == SensorRun(-1, prefix + rest, pressure, temp))
      && (finish.Converted? ==>
            run == SensorRun(0, prefix + rest, PressureOf(mode, finish.data), TemperatureOf(finish.data)))
  {
    if poll.end == Ready {
      var m := k + |poll.events|;
      var data := Answer(o, m, Read(fd, DataSize));
      var close := Answer(o, m + 1, Close(fd));
      FinishConverted(o, k, fd, poll.events, m, data, close);
      rest := poll.events + [data] + [close];
      finish := Converted(data.data);
    } else {
      FinishGaveUp(o, k, fd, poll.events, poll.end);
      rest := poll.events;
      finish := GaveUp;
    }
  }

  /** After an accepted trigger write, the run readSensor makes is read off its own calls. */
  lemma TriggeredHasOutcome(o: Oracle, k: nat, bus: int, address: byte, mode: Mode, pressure: real, temp: real,
                            open: Event, bind: Event, trigger: Event)
    requires open == Answer(o, k, Open(bus)) && open.ret >= 0
    requires bind == Answer(o, k + 1, Bind(open.ret, address as int)) && bind.ret >= 0
    requires trigger == Answer(o, k + 2, Write(open.ret, [CtrlReg1Address, TriggerByte(mode)])) && trigger.ret == 2
    ensures var run := TriggeredRun(o, k + 3, open.ret, mode, pressure, temp, [open] + [bind] + [trigger],
                                    Poll(o, k + 3, open.ret, 0));
      SensorOutcome(o, k, bus, address, mode, pressure, temp, run.events) == Some(run)
  {
    PollIsTrace(o, k + 3, open.ret, 0);
    var rest, finish := TriggeredFinishes(o, k + 3, open.ret, mode, pressure, temp, [open] + [bind] + [trigger],
                                          Poll(o, k + 3, open.ret, 0));
    SensorOutcomeAfterTrigger(o, k, bus, address, mode, pressure, temp, open, bind, trigger, rest);
  }

  /** The run readSensor makes is read off its own calls. */
  lemma RunHasOutcome(o: Oracle, k: nat, bus: int, address: byte, mode: Mode, pressure: real, temp: real)
    ensures var run := ReadSensorRun(o, k, bus, address, mode, pressure, temp);
      SensorOutcome(o, k, bus, address, mode, pressure, temp, run.events) == Some(run)
  {
    var open := Answer(o, k, Open(bus));
    var fd := open.ret;
    var bind := Answer(o, k + 1, Bind(fd, address as int));
    var trigger := Answer(o, k + 2, Write(fd, [CtrlReg1Address, TriggerByte(mode)]));
    if fd >= 0 && bind.ret >= 0 && trigger.ret == 2 {
      TriggeredHasOutcome(o, k, bus, address, mode, pressure, temp, open, bind, trigger);
    }
  }

  /** Calls after the trigger write that are read off as finishing readSensor are the ones it makes. */
  lemma FinishIsTriggered(o: Oracle, k: nat, fd: int, mode: Mode, pressure: real, temp: real,
                          prefix: seq<Event>, rest: seq<Event>, poll: PollRun)
    requires FinishOf(o, k, fd, rest).Some?
    requires PollEndOf(o, k, fd, 0, poll.events) == Some(poll.end)
    ensures prefix + rest == TriggeredRun(o, k, fd, mode, pressure, temp, prefix, poll).events
  {
    var n := |rest|;
    if n >= 2 && rest[n - 1].call.Close? {
      var polled, data, close := rest[..n - 2], rest[n - 2], rest[n - 1];
      assert rest == polled + [data] + [close];
      PollEndOfUnique(o, k, fd, 0, polled, poll.events);
      ConvertedIsTriggered(o, k, fd, mode, pressure, temp, prefix, polled, data, close, poll);
    } else {
      PollEndOfUnique(o, k, fd, 0, rest, poll.events);
      GaveUpIsTriggered(o, k, fd, mode, pressure, temp, prefix, rest, poll);
    }
  }

  /** A poll that gave up is the whole triggered run after the prefix. */
  lemma GaveUpIsTriggered(o: Oracle, k: nat, fd: int, mode: Mode, pressure: real, temp: real,
                          prefix: seq<Event>, rest: seq<Event>, poll: PollRun)
    requires poll.events == rest && poll.end != Ready
    ensures prefix + rest == TriggeredRun(o, k, fd, mode, pressure, temp, prefix, poll).events
  {
  }

  /** A ready poll followed by the data read and the close is the triggered run of that poll. */
  lemma ConvertedIsTriggered(o: Oracle, k: nat, fd: int, mode: Mode, pressure: real, temp: real,
                             prefix: seq<Event>, polled: seq<Event>, data: Event, close: Event, poll: PollRun)
    requires poll.events == polled && poll.end == Ready
    requires data == Answer(o, k + |polled|, Read(fd, DataSize))
    requires close == Answer(o, k + |polled| + 1, Close(fd))
    ensures prefix + (polled + [data] + [close]) == TriggeredRun(o, k, fd, mode, pressure, temp, prefix, poll).events
  {
  }

  /** Only the calls readSensor makes are read off as a run of it. */
  lemma OutcomeIsOfRun(o: Oracle, k: nat, bus: int, address: byte, mode: Mode, pressure: real, temp: real,
                       events: seq<Event>)
    requires SensorOutcome(o, k, bus, address, mode, pressure, temp, events).Some?
    ensures events == ReadSensorRun(o, k, bus, address, mode, pressure, temp).events
  {
    var open := Answer(o, k, Open(bus));
    var fd := open.ret;
    var bind := Answer(o, k + 1, Bind(fd, address as int));
    var trigger := Answer(o, k + 2, Write(fd, [CtrlReg1Address, TriggerByte(mode)]));
    if fd < 0 {
      assert events == [open];
    } else if bind.ret < 0 {
      assert events == [open] + [bind];
    } else if trigger.ret != 2 {
      assert events == [open] + [bind] + [trigger];
    } else {
      var rest := events[3..];
      assert events == [open] + [bind] + [trigger] + rest;
      SensorOutcomeAfterTrigger(o, k, bus, address, mode, pressure, temp, open, bind, trigger, rest);
      PollIsTrace(o, k + 3, fd, 0);
      FinishIsTriggered(o, k + 3, fd, mode, pressure, temp, [open] + [bind] + [trigger], rest, Poll(o, k + 3, fd, 0));
    }
  }

  /** The calls-based description of readSensor and its run as a function agree. */
  lemma SensorOutcomeIsRun(o: Oracle, k: nat, bus: int, address: byte, mode: Mode,
                           pressure: real, temp: real, r: SensorRun)
    ensures SensorOutcome(o, k, bus, address, mode, pressure, temp, r.events) == Some(r)
        <==> r == ReadSensorRun(o, k, bus, address, mode, pressure, temp)
  {
    RunHasOutcome(o, k, bus, address, mode, pressure, temp);
    if SensorOutcome(o, k, bus, address, mode, pressure, temp, r.events) == Some(r) {
      OutcomeIsOfRun(o, k, bus, address, mode, pressure, temp, r.events);
    }
  }

  /**
   * readSensor's status poll on handle `fd`: until the data-ready bit shows
   * in `test`, write the STATUS pointer (giving up if that write fails),
   * read one byte into `test` and count the attempt, giving up once the
   * count exceeds thirty.
   */
  method WaitDataReady(dev: Bus, fd: int) returns (end: PollEnd, ghost polled: seq<Event>)
    modifies dev
    ensures dev.trace == old(dev.trace) + polled
    ensures PollEndOf(dev.oracle, |old(dev.trace)|, fd, 0, polled) == Some(end)
  {
    ghost var o := dev.oracle;
    ghost var k := |dev.trace|;
    polled := [];
    var test: byte := 0x00;
    var timeout: nat := 0;
    PollStarts(o, k, fd, polled);
    while !DataReady(test)
      invariant timeout <= PollLimit
      invariant dev.trace == old(dev.trace) + polled
      invariant !DataReady(test) ==> PollResumes(o, k, fd, polled, timeout)
      invariant DataReady(test) ==> PollEndOf(o, k, fd, 0, polled) == Some(Ready)
      decreases PollLimit - timeout
    {
      var write := dev.Perform(Write(fd, StatusPointer));
      if write.ret != 1 {
        PollWriteRefused(o, k, fd, timeout, polled, write, polled + [write]);
        AppendOne(old(dev.trace), polled, write);
        polled := polled + [write];
        return StatusWriteFailed, polled;
      }
      var read := dev.Perform(Read(fd, 1));
      PollLastRead(o, k, fd, timeout, polled, write, read, polled + [write, read]);
      AppendTwo(old(dev.trace), polled, write, read);
      if read.ret == 1 {
        test := read.data[0];
      }
      timeout := timeout + 1;
      if timeout > PollLimit {
        polled := polled + [write, read];
        return TimedOut, polled;
      }
      if !DeliversReady(read) {
        PollGoesOn(o, k, fd, timeout - 1, polled, write, read, polled + [write, read]);
      }
      polled := polled + [write, read];
    }
    return Ready, polled;
  }


  /**
   * readSensor after an accepted trigger write on handle `fd`: the status
   * poll, and after a ready poll the six-byte data read, whose failure is
   * only logged, and the close.
   */
  method FinishRead(dev: Bus, fd: int) returns (finish: Finish, ghost rest: seq<Event>)
    modifies dev
    ensures dev.trace == old(dev.trace) + rest
    ensures FinishOf(dev.oracle, |old(dev.trace)|, fd, rest) == Some(finish)
    ensures finish.Converted? ==> |finish.data| == DataSize
  {
    var ready, polled := WaitDataReady(dev, fd);
    if ready != Ready {
      FinishGaveUp(dev.oracle, |old(dev.trace)|, fd, polled, ready);
      return GaveUp, polled;
    }
    ghost var t := dev.trace;
    var data := dev.Perform(Read(fd, DataSize));
    var close := dev.Perform(Close(fd));
    FinishConverted(dev.oracle, |old(dev.trace)|, fd, polled, |t|, data, close);
    AppendOne(old(dev.trace), polled, data);
    AppendOne(old(dev.trace), polled + [data], close);
    return Converted(data.data), polled + [data] + [close];
  }

  // ---------------------------------------------------------------------
  // The driver object
  // ---------------------------------------------------------------------

  class Sensor {
    const bus: int
    const address: byte
    /** Set once by the constructor: the mode is fixed for the object's life. */
    const readState: Mode

    /** Stores bus and address and issues the configuration writes for `readtype`. */
    constructor (dev: Bus, bus: int, addr: DeviceAddress, readtype: Mode)
      modifies dev
      ensures this.bus == bus && address == DeviceAddressValue(addr) && readState == readtype
      ensures dev.trace == old(dev.trace) + ConfigureRun(dev.oracle, |old(dev.trace)|, bus, DeviceAddressValue(addr), readtype)
    {
      this.bus := bus;
      address := DeviceAddressValue(addr);
      readState := readtype;
      new;
      ghost var k := |dev.trace|;
      var open := dev.Perform(Open(bus));
      var fd := open.ret;
      var bind := dev.Perform(Bind(fd, address as int));
      AppendOne(old(dev.trace), [open], bind);
      var w1 := dev.Perform(Write(fd, [CtrlReg1Address, 0x00]));
      AppendOne(old(dev.trace), [open, bind], w1);
      var w2 := dev.Perform(Write(fd, [PtDataCfgAddress, 0x07]));
      AppendOne(old(dev.trace), [open, bind, w1], w2);
      var w3: Event;
      if readtype == Altimeter {
        w3 := dev.Perform(Write(fd, [CtrlReg1Address, 0x80]));
      } else {
        w3 := dev.Perform(Write(fd, [CtrlReg1Address, 0x00]));
      }
      AppendOne(old(dev.trace), [open, bind, w1, w2], w3);
      var close := dev.Perform(Close(fd));
      AppendOne(old(dev.trace), [open, bind, w1, w2, w3], close);
      ConfiguredAs(dev.oracle, k, bus, address, readtype, open, bind, w1, w2, w3, close);
    }

    /**
     * Triggers a one-shot conversion, polls STATUS until the data-ready bit
     * is set, reads the six-byte data block and converts it into the
     * caller's `pressure` and `temp`, which are returned unchanged on -1.
     */
    method ReadSensor(dev: Bus, pressure: real, temp: real)
      returns (status: int, pressure': real, temp': real, ghost events: seq<Event>)
      modifies dev
      ensures dev.trace == old(dev.trace) + events
      ensures SensorOutcome(dev.oracle, |old(dev.trace)|, bus, address, readState, pressure, temp, events)
                == Some(SensorRun(status, events, pressure', temp'))
    {
      pressure', temp' := pressure, temp;
      var open := dev.Perform(Open(bus));
      events := [open];
      if open.ret < 0 {
        return -1, pressure', temp', events;
      }
      var fd := open.ret;
      var bind := dev.Perform(Bind(fd, address as int));
      AppendOne(old(dev.trace), events, bind);
      events := events + [bind];
      if bind.ret < 0 {
        return -1, pressure', temp', events;
      }
      var trigger: Event;
      if readState == Altimeter {
        trigger := dev.Perform(Write(fd, [CtrlReg1Address, 0x82]));
      } else {
        trigger := dev.Perform(Write(fd, [CtrlReg1Address, 0x02]));
      }
      AppendOne(old(dev.trace), events, trigger);
      events := events + [trigger];
      if trigger.ret != 2 {
        return -1, pressure', temp', events;
      }
      ghost var prefix := events;
      var finish, rest := FinishRead(dev, fd);
      SensorOutcomeAfterTrigger(dev.oracle, |old(dev.trace)|, bus, address, readState, pressure, temp,
                                open, bind, trigger, rest);
      AppendAll(old(dev.trace), prefix, rest);
      events := prefix + rest;
      if finish.GaveUp? {
        return -1, pressure', temp', events;
      }
      pressure' := PressureOf(readState, finish.data);
      temp' := TemperatureOf(finish.data);
      return 0, pressure', temp', events;
    }
  }
}
