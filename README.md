# leylogd in Dafny

leylogd is a small Linux daemon for an ARM board. It samples two I2C
sensors each time an interval timer fires and appends the readings to a
CSV data file. The sensors are a TMP102 thermometer and an MPL3115A2
pressure/altimeter. The daemon also re-reads its interval from a
configuration file on SIGHUP and shuts down on SIGINT or SIGTERM.

This project models the daemon's core and proves properties of it:

- `bits.dfy` (module `Bits`): the C bit operators the drivers apply to
  bytes (`|`, `&`, `<<`, `>>`), defined on naturals, with the facts the
  conversions need.
- `bus.dfy` (module `I2C`): the i2c-dev boundary. A `Bus` object holds
  the trace of system calls (`open`, `ioctl(I2C_SLAVE)`, `write`, `read`,
  `close`). The kernel's answers come from an oracle indexed by the call's
  position in the trace.
- `tmp102.dfy` (module `TMP102`):
  - the header's enums;
  - `convertTemperature`, with the 12- and 13-bit sign extension and the
    cast to `short`;
  - the driver class, whose constructor and operations are each proved
    equal to a "run" function of the oracle.
- `mpl3115a2.dfy` (module `MPL3115A2`):
  - the register map and CTRL_REG1 flags;
  - the constructor's configuration writes;
  - `readSensor`: the one-shot trigger, the bounded STATUS poll (a
    `while` loop with invariants), the six-byte data read and the
    fixed-point conversion. It is proved against a description that reads
    a run off its calls, and that description is proved equivalent to the
    run function.
- `config.dfy` (module `Config`): `readConfigFile`. This covers `fgets`
  into a 100-character buffer, then `sscanf(str, "%*s %d%*c %*s %d", ...)`
  directive by directive. The defaults are 30 s and 1 us. A field the scan
  cannot convert keeps its old value.
- `daemon.dfy` (module `Daemon`):
  - the signal handler and its three flags;
  - `setTimer`;
  - `dataLog` with its static `initial` and `start`;
  - start-up up to the loop;
  - the `for(;;)` loop, which serves terminate before alarm before
    hang-up and otherwise pauses. It is modelled as a `Daemon` object
    stepping through turns. What the operating system does in each turn
    is a `World` value: the signal that arrives, the configuration file's
    contents, whether `setitimer` accepts, and what `gettimeofday` reads.

The code's own behaviour differs in places from what its comments and
declarations suggest. The model follows the code:

- **The header row can be lost.** `dataLog` writes the header row only
  when its first `gettimeofday` succeeds (`leylogd/main.cpp:84-96`), even
  though its comment says it expects a header on first access
  (`leylogd/main.cpp:91`). When that call fails nothing is written, and the
  next line whose clock read succeeds becomes the unstamped first row
  (`Daemon.HeaderLost`).
- **The TMP102 column holds a status code.** `leylogd/TMP102.h:57` declares
  `readTemperature` as returning `float`, but `leylogd/TMP102.cpp:35-73`
  returns a status code 0..4. `main` stores that code as `temp_tmp102`
  (`leylogd/main.cpp:261`), so the model logs the status.
- **Failed readings are logged as old values.** No reading is ever marked
  as unavailable:
  - the MPL3115A2 outputs keep whatever they held, including the
    uninitialised values they are declared with (`leylogd/main.cpp:251`);
  - a failed six-byte data read still converts the buffer and returns 0
    (`leylogd/MPL3115A2_Altimeter.cpp:118-136`);
  - a TMP102 data read that returns -1 also ends with status 0
    (`leylogd/TMP102.cpp:56-58`).
- **The MPL3115A2 constructor writes three times.** It writes CTRL_REG1,
  PT_DATA_CFG and CTRL_REG1 again, all on the handle `open` returned, even
  when the open failed (`leylogd/MPL3115A2_Altimeter.cpp:25-66`).
- **The poll makes 31 attempts.** The status poll gives up only once its
  counter exceeds 30 (`leylogd/MPL3115A2_Altimeter.cpp:112-116`). A ready
  bit that shows only on the 31st read still ends in a time-out.
- **A zero interval stops logging.** The documented line `sec: 0, usec 0`
  (`leylogd/main.cpp:13`) is accepted: `setTimer` passes a zero `it_value`
  to `setitimer` (`leylogd/main.cpp:161-172`), which disarms the timer
  instead of refusing it. No SIGALRM follows, so no more rows are logged
  (`Daemon.ConfiguredTimerFires`).
- **Handles are not released on error.** Early returns in both drivers skip
  `close` (`NoClose` in the contracts). `readConfigFile` does not close the
  file when `fgets` fails (`leylogd/main.cpp:147-156`).
- **A failed bind logs with a wrong format.** The bind-failure messages
  pass the one-byte `I2CAddress` to a `%s` conversion
  (`leylogd/TMP102.cpp:47`, `leylogd/TMP102.cpp:85`,
  `leylogd/MPL3115A2_Altimeter.cpp:36`, `leylogd/MPL3115A2_Altimeter.cpp:78`).
  That is undefined behaviour in C and will most likely crash the daemon.
  The model takes the path the control flow reaches after the call.
- **The MPL3115A2 calls do not match its declarations.**
  `leylogd/main.cpp:247` constructs the altimeter with two arguments, and
  `leylogd/main.cpp:262` calls `readSensor(Barometer, &p, &t)`. Neither
  matches `leylogd/MPL3115A2_Altimeter.h:99-103`. The model builds the
  sensor in Barometer mode and calls `readSensor` with its two outputs.

## Model

| member | source | states |
|---|---|---|
| Bits.OrOfDisjoint | leylogd/TMP102.cpp:102-113 | or-ing a value shifted left by k with a value below 2^k is addition |
| Bits.ShiftRightIsDivision | leylogd/TMP102.cpp:102-113 | `a >> k` on a non-negative value is division by 2^k |
| Bits.AndSingleBit | leylogd/TMP102.cpp:100-109 | masking with a single bit keeps exactly that bit |
| I2C.TransferCount | leylogd/TMP102.cpp:55-62 | `read`/`write` return -1 or a count between 0 and the requested size; -1 exactly on a failure |
| I2C.BufferAfter | leylogd/TMP102.cpp:55 | the n-byte buffer after a read has n bytes, and they are the device's bytes when it supplies n of them |
| I2C.Answer | leylogd/TMP102.cpp:42-55 | each call returns -1 on a negative handle; bind and close return 0 or -1; a write returns at most its length; a read returns at most its count |
| I2C.Bus.constructor | leylogd/main.cpp:206 | the trace's starting state: when `main` begins, no i2c-dev call has been made |
| I2C.Bus.Perform | leylogd/TMP102.cpp:42-71 | one system call appends the kernel's answer to the trace |
| TMP102.LsbLayout | leylogd/TMP102.h:19-28 | every CR_ constant has a clear low nibble and bit 5 set; bit 4 is set exactly for 13-bit modes; the top two bits give the rate |
| TMP102.LsbThirteenBit | leylogd/TMP102.h:19-28 | each 13-bit constant is its 12-bit counterpart with 0x10 or-ed in |
| TMP102.LsbDecodes | leylogd/TMP102.h:19-28 | the eight configuration constants are distinct: decoding recovers rate and resolution |
| TMP102.AddressRange | leylogd/TMP102.h:34-39 | the four addresses are 0x48..0x4b, one per ADD0 level, all 7-bit |
| TMP102.ToShort | leylogd/TMP102.cpp:99 | storing into `short` gives a value in -32768..32767 congruent to the input mod 2^16 |
| TMP102.ToShortLow | leylogd/TMP102.cpp:105 | a value below 0x8000 survives the cast unchanged |
| TMP102.ToShortHigh | leylogd/TMP102.cpp:102 | a value in 0x8000..0xffff becomes negative by 0x10000 |
| TMP102.SignBit | leylogd/TMP102.cpp:101 | `msb & 0x80` is set exactly when the byte is at least 0x80 |
| TMP102.FormatBit | leylogd/TMP102.cpp:100 | `lsb & 0x01` is set exactly when the byte is odd |
| TMP102.Field13 | leylogd/TMP102.cpp:102-105 | the or-ed 13-bit fields, with or without 0xe000, equal their sum |
| TMP102.Field12 | leylogd/TMP102.cpp:110-113 | the or-ed 12-bit fields, with or without 0xf000, equal their sum |
| TMP102.RawTemperature | leylogd/TMP102.cpp:99-115 | `tempValue`: the format test on LSB bit 0, the sign test on MSB bit 7 and the four or-ed assignments, stored in a `short`; its value is stated by Raw13Bit and Raw12Bit |
| TMP102.ConvertTemperature | leylogd/TMP102.cpp:97-118 | convertTemperature: 0.0625 degC per count of `tempValue`; its sign and range are stated by TemperatureSign |
| TMP102.Raw13Negative | leylogd/TMP102.cpp:101-103 | 13-bit format with MSB bit 7 set: the raw value is the field minus 2^13 |
| TMP102.Raw13NonNegative | leylogd/TMP102.cpp:104-106 | 13-bit format with MSB bit 7 clear: the raw value is the field |
| TMP102.Raw13Bit | leylogd/TMP102.cpp:100-107 | with LSB bit 0 set, the raw value is the 13-bit two's-complement field, in -4096..4095 |
| TMP102.Raw12Negative | leylogd/TMP102.cpp:109-111 | 12-bit format with MSB bit 7 set: the raw value is the field minus 2^12 |
| TMP102.Raw12NonNegative | leylogd/TMP102.cpp:112-114 | 12-bit format with MSB bit 7 clear: the raw value is the field |
| TMP102.Raw12Bit | leylogd/TMP102.cpp:108-115 | with LSB bit 0 clear, the raw value is the 12-bit two's-complement field, in -2048..2047 |
| TMP102.TemperatureSign | leylogd/TMP102.cpp:97-118 | the temperature is raw/16 degC, lies in -256..256, and is negative exactly when MSB bit 7 is set |
| TMP102.TemperatureExtremes | leylogd/TMP102.cpp:100-117 | 0x7F,0xF9 reads 255.9375 and 0x80,0x01 reads -256.0 |
| TMP102.ConfigureRun | leylogd/TMP102.cpp:75-95 | setConfigurationRegister: status 1 on a failed open, 2 on a failed bind, else 0 after open, bind, the write of [0x01, MSB, LSB] and close; a short write is not an error; error paths do not close |
| TMP102.ReadTemperatureRun | leylogd/TMP102.cpp:35-73 | readTemperature: status 1..4 for a failed open, bind, pointer write or short read, each without close; a full read converts the two bytes; a -1 read returns 0 and leaves the cached temperature |
| TMP102.Sensor.constructor | leylogd/TMP102.cpp:28-33 | stores bus and address and issues exactly the configuration run |
| TMP102.Sensor.SetConfigurationRegister | leylogd/TMP102.cpp:75-95 | returns the status and makes the calls of the configuration run |
| TMP102.Sensor.ReadTemperature | leylogd/TMP102.cpp:35-73 | returns the status; the trace, data buffer and temperature become those of the read run |
| MPL3115A2.RegisterAddressInjective | leylogd/MPL3115A2_Altimeter.h:21-68 | every register has an address of at most 0x2d, and no two share one |
| MPL3115A2.RegisterAddressOnto | leylogd/MPL3115A2_Altimeter.h:21-68 | every address 0x00..0x2d names a register and none above does |
| MPL3115A2.RegistersUsed | leylogd/MPL3115A2_Altimeter.h:21-60 | STATUS, PT_DATA_CFG and CTRL_REG1 are at 0x00, 0x13 and 0x26; the data block OUT_P_MSB..OUT_T_LSB is at 1..5 |
| MPL3115A2.FlagsAreSingleBits | leylogd/MPL3115A2_Altimeter.h:69-78 | each CTRL_REG1 flag is a single bit, one per position 0..7 |
| MPL3115A2.DeviceAddressValue | leylogd/MPL3115A2_Altimeter.h:79-81 | the device address is 7-bit |
| MPL3115A2.StateTruth | leylogd/MPL3115A2_Altimeter.h:83-86 | only Altimeter tests true as `readState` |
| MPL3115A2.ControlBytes | leylogd/MPL3115A2_Altimeter.cpp:82-96 | the trigger byte is the mode byte with OST or-ed in; the mode byte is ALT in altimeter mode and 0 otherwise |
| MPL3115A2.Assemble24Value | leylogd/MPL3115A2_Altimeter.cpp:127 | `(b1<<16)|(b2<<8)|b3` is the big-endian sum, below 2^24 |
| MPL3115A2.Assemble16Value | leylogd/MPL3115A2_Altimeter.cpp:131 | `(b4<<8)|b5` is the big-endian sum, below 2^16 |
| MPL3115A2.Assemble24Bytes | leylogd/MPL3115A2_Altimeter.cpp:127 | the 24-bit sample gives back its three bytes |
| MPL3115A2.PressureOf | leylogd/MPL3115A2_Altimeter.cpp:126-130 | the pressure or altitude from data bytes 1..3, divided by `1<<8` in Altimeter mode and `1<<6` otherwise; its value is stated by PressureValue |
| MPL3115A2.TemperatureOf | leylogd/MPL3115A2_Altimeter.cpp:131 | the temperature from data bytes 4..5 divided by `1<<8`; its value is stated by TemperatureValue |
| MPL3115A2.PressureValue | leylogd/MPL3115A2_Altimeter.cpp:126-130 | pressure is the 24-bit sample over 2^8 (altimeter) or 2^6 (barometer); the barometer figure is four times the altimeter's |
| MPL3115A2.TemperatureValue | leylogd/MPL3115A2_Altimeter.cpp:131 | temperature is the 16-bit sample over 2^8 |
| MPL3115A2.ConversionIgnoresStatus | leylogd/MPL3115A2_Altimeter.cpp:118-131 | byte 0 of the data block plays no part in either conversion |
| MPL3115A2.ConversionExample | leylogd/MPL3115A2_Altimeter.cpp:126-130 | bytes 0x01,0x00,0x00 read 256.0 as altitude and 1024.0 as pressure |
| MPL3115A2.DataReadyBit | leylogd/MPL3115A2_Altimeter.cpp:100 | `test & 0x08` tests bit 3 |
| MPL3115A2.Poll | leylogd/MPL3115A2_Altimeter.cpp:97-117 | the status loop from attempt `timeout`: STATUS pointer write, one-byte read, give up after 30 attempts, stop on the ready bit; its outcomes are stated by PollReady, PollCalls and the lemmas around them |
| MPL3115A2.PollWriteRefused | leylogd/MPL3115A2_Altimeter.cpp:101-104 | a refused STATUS pointer write ends the loop |
| MPL3115A2.PollLastRead | leylogd/MPL3115A2_Altimeter.cpp:105-116 | a read once the count passes thirty times out; otherwise a ready read ends the loop |
| MPL3115A2.PollIsTrace | leylogd/MPL3115A2_Altimeter.cpp:97-117 | the recursive loop's calls are read off as ending the way it ends |
| MPL3115A2.TraceIsPoll | leylogd/MPL3115A2_Altimeter.cpp:97-117 | calls read off as a finished loop are the recursive loop's calls |
| MPL3115A2.PollEndOfUnique | leylogd/MPL3115A2_Altimeter.cpp:97-117 | at most one sequence of calls is a finished loop from a given call on |
| MPL3115A2.PollEndOfCalls | leylogd/MPL3115A2_Altimeter.cpp:97-117 | a finished loop is not empty and does not end with a close |
| MPL3115A2.PollTraceIsPoll | leylogd/MPL3115A2_Altimeter.cpp:97-117 | the two descriptions of the loop agree on every run, both ways |
| MPL3115A2.PollCalls | leylogd/MPL3115A2_Altimeter.cpp:100-116 | the loop alternates one-byte STATUS pointer writes and one-byte reads, at most 31 of each |
| MPL3115A2.PollWritesAccepted | leylogd/MPL3115A2_Altimeter.cpp:101-104 | every pointer write but the last was accepted |
| MPL3115A2.PollNoClose | leylogd/MPL3115A2_Altimeter.cpp:97-117 | the loop never closes the handle |
| MPL3115A2.PollEnds | leylogd/MPL3115A2_Altimeter.cpp:100-117 | the loop ends on a refused write exactly when it stops after a write |
| MPL3115A2.PollRefusedLast | leylogd/MPL3115A2_Altimeter.cpp:101-104 | a loop that fails on a write ends with that refused write |
| MPL3115A2.PollTimesOut | leylogd/MPL3115A2_Altimeter.cpp:112-116 | a time-out comes only after all 31 attempts |
| MPL3115A2.PollReadsBeforeLast | leylogd/MPL3115A2_Altimeter.cpp:100 | no read before the last delivers the ready bit |
| MPL3115A2.PollReadyLast | leylogd/MPL3115A2_Altimeter.cpp:100-117 | a ready loop ends with the read that delivered the bit, within its first 30 attempts |
| MPL3115A2.PollReady | leylogd/MPL3115A2_Altimeter.cpp:97-117 | the loop succeeds exactly when one of the first 30 reads delivers the ready bit, and that read is its last call |
| MPL3115A2.ConfigureRun | leylogd/MPL3115A2_Altimeter.cpp:25-66 | the constructor makes six calls: open, bind, CTRL_REG1 := 0, PT_DATA_CFG := 0x07, CTRL_REG1 := mode byte, close, whatever fails |
| MPL3115A2.ReadSensorRun | leylogd/MPL3115A2_Altimeter.cpp:68-138 | readSensor's status, calls and outputs: -1 after a failed open, bind or trigger write, otherwise the triggered run of the status poll; its shape is stated by ReadSensorRunShape, ReadSensorRunFails, ReadSensorRunReady and ReadSensorRunTriggered |
| MPL3115A2.TriggeredRun | leylogd/MPL3115A2_Altimeter.cpp:97-137 | after the trigger write: status 0 exactly when the poll ends ready, otherwise -1 with both outputs kept; the calls made before come first |
| MPL3115A2.ReadSensorRunShape | leylogd/MPL3115A2_Altimeter.cpp:68-96 | readSensor returns 0 or -1; it opens first, then binds and writes the trigger byte |
| MPL3115A2.ReadSensorRunFails | leylogd/MPL3115A2_Altimeter.cpp:68-117 | status -1 leaves the caller's outputs and never closes the handle |
| MPL3115A2.ReadSensorRunReady | leylogd/MPL3115A2_Altimeter.cpp:97-136 | status 0 means an accepted trigger and a ready poll, followed by the six-byte read and the close; the outputs are converted from the data read |
| MPL3115A2.ReadSensorRunTriggered | leylogd/MPL3115A2_Altimeter.cpp:82-136 | status 0 holds exactly when open, bind and trigger succeeded and the poll ended ready; the run is then the triggered run of that poll |
| MPL3115A2.TriggeredReady | leylogd/MPL3115A2_Altimeter.cpp:118-136 | after a ready poll come the data read and the close, and the outputs are that read's conversion |
| MPL3115A2.ReadSensorSucceeds | leylogd/MPL3115A2_Altimeter.cpp:97-136 | a successful read saw the ready bit within thirty attempts |
| MPL3115A2.SensorOutcomeAfterTrigger | leylogd/MPL3115A2_Altimeter.cpp:82-136 | after an accepted trigger, giving up yields -1 with the outputs kept, and a conversion yields 0 with the converted outputs |
| MPL3115A2.FinishGaveUp | leylogd/MPL3115A2_Altimeter.cpp:101-116 | a poll that gives up ends readSensor's calls |
| MPL3115A2.FinishConverted | leylogd/MPL3115A2_Altimeter.cpp:118-136 | a ready poll, the data read and the close convert the bytes read |
| MPL3115A2.TriggeredFinishes | leylogd/MPL3115A2_Altimeter.cpp:97-136 | the calls after the trigger are read off as giving up (-1) or converting (0), as the run has it |
| MPL3115A2.SensorOutcomeIsRun | leylogd/MPL3115A2_Altimeter.cpp:68-138 | the calls-based description and the run function agree, both ways |
| MPL3115A2.WaitDataReady | leylogd/MPL3115A2_Altimeter.cpp:97-117 | the poll loop's calls are read off as a finished loop that ends as returned |
| MPL3115A2.FinishRead | leylogd/MPL3115A2_Altimeter.cpp:97-136 | the calls after the trigger are read off as readSensor's finish; a conversion has six bytes |
| MPL3115A2.Sensor.constructor | leylogd/MPL3115A2_Altimeter.cpp:25-66 | stores bus, address and mode, and issues exactly the configuration run |
| MPL3115A2.Sensor.ReadSensor | leylogd/MPL3115A2_Altimeter.cpp:68-138 | the status, outputs and calls are the ones read off as a run of readSensor |
| Config.FirstLine | leylogd/main.cpp:143-147 | `fgets` yields nothing exactly for an empty file; otherwise a prefix of the file of 1..99 characters |
| Config.FirstLineOnly | leylogd/main.cpp:147 | a line ending at its only newline, or filling the buffer, is read the same whatever follows |
| Config.UpToNul | leylogd/main.cpp:148 | `sscanf` sees the buffer up to its first NUL: a prefix holding no NUL, ended by a NUL unless it is the whole buffer |
| Config.ConfigAfter | leylogd/main.cpp:140-157 | readConfigFile leaves exactly two entries |
| Config.ReadConfigFile | leylogd/main.cpp:140-157 | the entries become ConfigAfter of the file and their old values |
| Config.ConfigDefaults | leylogd/main.cpp:146-156 | a missing or empty file gives 30 s and 1 us |
| Config.ConfigIdempotent | leylogd/main.cpp:140-157 | reading the same file twice stores what reading it once does |
| Config.ConfigWithoutDigits | leylogd/main.cpp:147-148 | a first line without a digit leaves both entries unchanged |
| Config.NoDigitNoInt | leylogd/main.cpp:148 | `%d` fails on input with no digit |
| Config.DecimalValue | leylogd/main.cpp:148 | the digits of a natural number read back as that number |
| Config.FormatInt | leylogd/main.cpp:13-18 | an integer as written in the file: a minus sign first exactly when it is negative, followed by at least one digit, and digits everywhere else |
| Config.SkipSpaceOf | leylogd/main.cpp:148 | leading white space is skipped exactly |
| Config.ScanUnsignedOf | leylogd/main.cpp:148 | digits followed by a non-digit are read as their value |
| Config.ScanSignedFormatted | leylogd/main.cpp:148 | `%d` reads a written integer back, sign included |
| Config.ScanNegativeFormatted | leylogd/main.cpp:148 | `%d` reads a written negative integer back |
| Config.ScanFormatted | leylogd/main.cpp:148 | `%d` reads a written integer back after any white space |
| Config.SkipWordOf | leylogd/main.cpp:148 | `%*s` drops white space and one word |
| Config.ScanConfig | leylogd/main.cpp:148 | `sscanf(str, "%*s %d%*c %*s %d", ...)`: the microseconds are converted only if the seconds were, since the scan stops at the first failing directive |
| Config.ScanConfigOf | leylogd/main.cpp:148 | when every directive succeeds, both fields are converted |
| Config.ScanConfigLine | leylogd/main.cpp:148 | scanning `sec: S, usec U ` gives back S and U |
| Config.ConfigReadBack | leylogd/main.cpp:140-157 | a file starting with the documented line sets the entries to exactly its two numbers, whatever follows and whatever they held |
| Config.ScanSecondsOnly | leylogd/main.cpp:148 | a line with only the seconds converts only the first field |
| Config.ScanConfigFirstOnly | leylogd/main.cpp:148 | the scan converts only the seconds when only a newline follows them |
| Config.ConfigSecondsOnly | leylogd/main.cpp:140-157 | a line with only the seconds sets them and leaves the microseconds entry unchanged |
| Daemon.Deliver | leylogd/main.cpp:186-202 | SIGHUP sets hup, SIGINT and SIGTERM set term, SIGALRM sets alrm; nothing else changes, and no other signal changes anything |
| Daemon.DeliverOrder | leylogd/main.cpp:186-202 | delivering a signal twice, or two signals in either order, gives the same flags |
| Daemon.Flags.constructor | leylogd/main.cpp:181-183 | all three flags start clear |
| Daemon.Flags.InterruptHandler | leylogd/main.cpp:186-202 | the handler's new flags are Deliver of the old ones |
| Daemon.Dispatch | leylogd/main.cpp:253-278 | terminate when term is set; else sample when alrm is set; else reload when hup is set; pause exactly when no flag is set |
| Daemon.Settle | leylogd/main.cpp:253-278 | after a turn that goes on, the flag of the arm served is clear (hup only when `setitimer` accepted the new setting) and no other pending flag is lost |
| Daemon.Schedule | leylogd/main.cpp:253-278 | the loop takes at most one arm per turn, the first being Dispatch's; ScheduleTurn and ScheduleArms state the rest |
| Daemon.ScheduleTurn | leylogd/main.cpp:253-278 | each turn appends Dispatch's arm, then either the run ends or it continues from the flags that turn leaves |
| Daemon.ScheduleArms | leylogd/main.cpp:253-278 | one arm per turn until the process exits: no arm before the last ends the process, and a schedule shorter than its turns ends with an arm that does |
| Daemon.TermServedNext | leylogd/main.cpp:254-258 | a SIGINT or SIGTERM in a turn that goes on makes the next turn the last, a terminate |
| Daemon.AlarmDuringSampleLost | leylogd/main.cpp:259-264 | an alarm arriving during a sample is cleared with it and lost |
| Daemon.ReloadNotStarved | leylogd/main.cpp:259-274 | a pending hang-up is served within two turns unless a termination comes first |
| Daemon.WaitServes | leylogd/main.cpp:275-277 | a handled signal that ends the pause is served next turn; any other signal leaves the loop pausing |
| Daemon.ConfiguredTimerFires | leylogd/main.cpp:13-18 | a timer set from the documented configuration line fires exactly when its seconds or microseconds are not zero; "sec: 0, usec 0" disarms it |
| Daemon.Timer.constructor | leylogd/main.cpp:236 | no `setitimer` setting has been accepted yet |
| Daemon.Timer.SetTimer | leylogd/main.cpp:161-172 | value and interval both equal the configuration; returns 0 and records the setting when `setitimer` accepts, otherwise returns -1 and keeps the old setting; an accepted setting fires exactly when the configuration is not zero |
| Daemon.Logged | leylogd/main.cpp:74-111 | dataLog keeps `start` once set and adds at most one row, carrying the given line |
| Daemon.LoggedWellFormed | leylogd/main.cpp:74-111 | dataLog keeps the log's shape: rows exist once the start is set, and only the first row is unstamped |
| Daemon.FirstClock | leylogd/main.cpp:84-96 | the first call whose clock read succeeds, with every earlier call failing |
| Daemon.LogsFromStep | leylogd/main.cpp:97-110 | after the first call, each call adds one row stamped with the seconds since the start (0 on a failed read) |
| Daemon.LogFromFresh | leylogd/main.cpp:74-111 | calls before the first successful clock read write nothing; from it on the log has the stamped shape |
| Daemon.HeaderFirst | leylogd/main.cpp:84-110 | when the header's clock read succeeds, the header is the only unstamped row and every later row is a stamped reading |
| Daemon.FirstClockAt | leylogd/main.cpp:84-96 | the first successful read is found where every earlier read failed |
| Daemon.HeaderLost | leylogd/main.cpp:84-96 | when the header's clock read fails, the header never reaches the file and a reading takes its place |
| Daemon.DataFile.constructor | leylogd/main.cpp:79-81 | `initial` and `start` start at zero and the file is empty |
| Daemon.DataFile.DataLog | leylogd/main.cpp:74-111 | the new log state is Logged of the old one |
| Daemon.Daemon.constructor | leylogd/main.cpp:225-251 | holds main's locals, with no exit yet |
| Daemon.Daemon.Step | leylogd/main.cpp:253-278 | one turn takes Dispatch's arm, and its flags, exit status, configuration, timer, bus calls and data log follow that arm |
| Daemon.Daemon.Run | leylogd/main.cpp:253-278 | the arms taken are the Schedule of the initial flags, and the process has exited exactly when the last arm ends it |
| Daemon.Daemon.TakeSample | leylogd/main.cpp:259-264 | reads TMP102 then MPL3115A2, logs the TMP102 status and the MPL outputs, and clears alrm after any arriving signal |
| Daemon.Daemon.Reconfigure | leylogd/main.cpp:265-274 | rereads the configuration and sets the timer from it again; clears hup on success, exits with EXIT_FAILURE otherwise |
| Daemon.Start | leylogd/main.cpp:225-251 | no daemon exactly when `setitimer` refuses; otherwise configured, the timer set from the configuration, header logged, both sensors built on I2C1 |
| Daemon.ArmTimer | leylogd/main.cpp:225-241 | reads the configuration into fresh entries and sets the timer from them |
| Daemon.BuildSensors | leylogd/main.cpp:244-247 | builds the TMP102 at Ground with CR_8Hz_13bit and the MPL3115A2 at Standard on I2C1, with exactly their configuration calls |

## Left out

- `become_daemon.cpp` and `main.c` are not part of this model. `fork`, `setsid`, `umask`, `chdir` and closing descriptors do not affect the core's behaviour.
- `logMessage`, `logOpen` and `logClose` (`leylogd/main.cpp:53-73`, `113-136`) are left out: what they write to the operational log is not modelled, and neither are the `argv` messages or the `fopen` failure exit in `logOpen`.
- TMP102.ConfigureRun: the bind-failure `logMessage` call passes a `char` to `%s` (`leylogd/TMP102.cpp:85`), which is undefined behaviour; the run takes the `return(2)` that follows it.
- TMP102.ReadTemperatureRun: the bind-failure `logMessage` call passes a `char` to `%s` (`leylogd/TMP102.cpp:47`), which is undefined behaviour; the run takes the `return(2)` that follows it.
- MPL3115A2.ConfigureRun: the bind-failure `logMessage` call passes a `char` to `%s` (`leylogd/MPL3115A2_Altimeter.cpp:36`), which is undefined behaviour; the run goes on with the configuration writes, as the code does after it.
- MPL3115A2.ReadSensorRun: the bind-failure `logMessage` call passes a `char` to `%s` (`leylogd/MPL3115A2_Altimeter.cpp:78`), which is undefined behaviour; the run takes the `return(-1)` that follows it.
- Bytes and characters: the configuration file is read as a `string`, one `char` per byte, so `fgets`' 99-byte limit and `isspace` are modelled on characters.
- `sigaction` installation is taken as done. The default actions of signals the process does not catch are left out.
- Signal timing is simplified. At most one signal arrives per turn, at a fixed point: after a sample's or reload's work and before its flag is cleared, or during `pause`. Races between the handler and the loop's flag accesses at other points are not modelled.
- Floating point is not modelled. Temperatures, pressures and the elapsed time are exact reals. `%f` formatting of the rows is left out: a row is a `Line` value.
- Config.ScanInt: `%d` does not model 32-bit overflow, because integers here are unbounded.
- The timer's firing is not modelled. An alarm is just a SIGALRM a `World` delivers.
- Daemon.Daemon.Run: a loop that never exits is modelled for finitely many turns, as many as `worlds` gives.
- Daemon.AltimeterMode: the altimeter is built in Barometer mode. The source's constructor call does not name a mode.
- I2C.BufferAfter: the oracle's bytes after a short or failed read stand for whatever the buffer then holds. That includes the stack garbage of `databuffer` in `readSensor`. An oracle that gives a buffer of the wrong length is read as zeros.
