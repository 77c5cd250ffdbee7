/**
 * leylogd's main program: the signal handler that turns SIGHUP, SIGINT,
 * SIGTERM and SIGALRM into pending flags, the interval timer set from the
 * configuration, the data log whose first row is written without a time
 * stamp, start-up, and the main loop that serves the pending flags in the
 * order terminate, alarm, hang-up, or else waits for a signal. What the
 * operating system does — which signal arrives, whether `setitimer`
 * accepts the timer, what `gettimeofday` reads, what the configuration file
 * holds and how the bus answers — is passed in.
 */
module Daemon {
  import opened Opt
  import opened I2C
  import TMP102
  import MPL3115A2
  import Config

  const SIGHUP: int := 1
  const SIGINT: int := 2
  const SIGALRM: int := 14
  const SIGTERM: int := 15

  const EXIT_SUCCESS: int := 0
  const EXIT_FAILURE: int := 1

  /** I2C1 of enum I2C_BUS: the bus both sensors sit on. */
  const I2C1: int := 2

  // ---------------------------------------------------------------------
  // Signals
  // ---------------------------------------------------------------------

  /** The three `sig_atomic_t` flags: termReceived, alrmReceived, hupReceived. */
  datatype Pending = Pending(term: bool, alrm: bool, hup: bool)

  const NonePending := Pending(false, false, false)

  /** interruptHandler: the flag of the arriving signal is set; any other signal changes nothing. */
  function Deliver(p: Pending, sig: int): (q: Pending)
    ensures q.term <==> p.term || sig == SIGINT || sig == SIGTERM
    ensures q.alrm <==> p.alrm || sig == SIGALRM
    ensures q.hup <==> p.hup || sig == SIGHUP
  {
    if sig == SIGHUP then p.(hup := true)
    else if sig == SIGINT || sig == SIGTERM then p.(term := true)
    else if sig == SIGALRM then p.(alrm := true)
    else p
  }

  /** The flags after an optional signal arrives. */
  function Received(p: Pending, signal: Option<int>): Pending
  {
    if signal.Some? then Deliver(p, signal.value) else p
  }

  /** A signal arriving twice, or two signals in either order, leave the same flags. */
  lemma DeliverOrder(p: Pending, a: int, b: int)
    ensures Deliver(Deliver(p, a), a) == Deliver(p, a)
    ensures Deliver(Deliver(p, a), b) == Deliver(Deliver(p, b), a)
  {
  }

  class Flags {
    var termReceived: bool
    var alrmReceived: bool
    var hupReceived: bool

    function State(): Pending
      reads this
    {
      Pending(termReceived, alrmReceived, hupReceived)
    }

    /** The flags are static and start at 0. */
    constructor ()
      ensures State() == NonePending
    {
      termReceived, alrmReceived, hupReceived := false, false, false;
    }

    /** interruptHandler(sig). */
    method InterruptHandler(sig: int)
      modifies this
      ensures State() == Deliver(old(State()), sig)
    {
      if sig == SIGHUP {
        hupReceived := true;
      } else if sig == SIGINT || sig == SIGTERM {
        termReceived := true;
      } else if sig == SIGALRM {
        alrmReceived := true;
      }
    }
  }

  // ---------------------------------------------------------------------
  // The main loop's choice
  // ---------------------------------------------------------------------

  /** The four arms of the loop body. */
  datatype Branch = Terminate | Sample | Reload | Wait

  /** Which arm a turn of the loop takes: terminate before alarm before hang-up, else pause. */
  function Dispatch(p: Pending): (b: Branch)
    ensures b == Terminate <==> p.term
    ensures b == Sample <==> !p.term && p.alrm
    ensures b == Reload <==> !p.term && !p.alrm && p.hup
    ensures b == Wait <==> p == NonePending
  {
    if p.term then Terminate
    else if p.alrm then Sample
    else if p.hup then Reload
    else Wait
  }

  /**
   * What the operating system does during one turn: the signal that arrives
   * (after the arm's work and before its flag is cleared, or the one that
   * ends the pause), the contents of the configuration file (None when it
   * cannot be opened), whether `setitimer` accepts the timer, and what
   * `gettimeofday` reads (None when it fails).
   */
  datatype World = World(signal: Option<int>, file: Option<string>, accepted: bool, clock: Option<TimeVal>)

  /**
   * The flags after a turn that took `b` and did not end the process: the
   * flag of the arm served is clear, and no other pending flag is lost.
   */
  function Settle(p: Pending, b: Branch, w: World): (q: Pending)
    ensures b == Terminate ==> !q.term
    ensures b == Sample ==> !q.alrm
    ensures b == Reload && w.accepted ==> !q.hup
    ensures b != Terminate && p.term ==> q.term
    ensures b != Sample && p.alrm ==> q.alrm
    ensures !(b == Reload && w.accepted) && p.hup ==> q.hup
  {
    match b
    case Terminate => p.(term := false)
    case Sample => Received(p, w.signal).(alrm := false)
    case Reload => if w.accepted then Received(p, w.signal).(hup := false) else Received(p, w.signal)
    case Wait => Received(p, w.signal)
  }

  /** A turn that took `b` under `w` ends the process. */
  predicate Exits(b: Branch, w: World)
  {
    b == Terminate || (b == Reload && !w.accepted)
  }

  /**
   * The arms the loop takes, turn by turn, from flags `p` under the turns
   * `worlds`, up to the turn that ends the process.
   */
  function Schedule(p: Pending, worlds: seq<World>): (bs: seq<Branch>)
    ensures |bs| <= |worlds|
    ensures worlds != [] ==> bs != [] && bs[0] == Dispatch(p)
    decreases |worlds|
  {
    if worlds == [] then []
    else
      var b := Dispatch(p);
      if Exits(b, worlds[0]) then [b] else [b] + Schedule(Settle(p, b, worlds[0]), worlds[1..])
  }

  /**
   * Turn i of a schedule whose first i arms are `done`, reached with flags
   * `p`: the arm Dispatch picks is appended, and either the schedule ends
   * there or it goes on from the flags that turn leaves.
   */
  lemma ScheduleTurn(start: Pending, worlds: seq<World>, done: seq<Branch>, p: Pending, i: nat)
    requires i < |worlds|
    requires Schedule(start, worlds) == done + Schedule(p, worlds[i..])
    ensures Exits(Dispatch(p), worlds[i]) ==> Schedule(start, worlds) == done + [Dispatch(p)]
    ensures !Exits(Dispatch(p), worlds[i]) ==>
      Schedule(start, worlds) == (done + [Dispatch(p)]) + Schedule(Settle(p, Dispatch(p), worlds[i]), worlds[i + 1..])
  {
    var rest, b := worlds[i..], Dispatch(p);
    assert rest[0] == worlds[i] && rest[1..] == worlds[i + 1..];
    if !Exits(b, worlds[i]) {
      var more := Schedule(Settle(p, b, worlds[i]), worlds[i + 1..]);
      assert Schedule(p, rest) == [b] + more;
      assert done + ([b] + more) == (done + [b]) + more;
    }
  }

  /**
   * One arm per turn until the process exits: no arm but the last ends the
   * process, and a schedule shorter than its turns ends with an arm that does.
   */
  lemma {:induction false} ScheduleArms(p: Pending, worlds: seq<World>)
    ensures var bs := Schedule(p, worlds);
      && (forall i :: 0 <= i < |bs| - 1 ==> !Exits(bs[i], worlds[i]))
      && (0 < |bs| < |worlds| ==> Exits(bs[|bs| - 1], worlds[|bs| - 1]))
    decreases |worlds|
  {
    if worlds != [] {
      var b := Dispatch(p);
      if !Exits(b, worlds[0]) {
        var q := Settle(p, b, worlds[0]);
        var rest := Schedule(q, worlds[1..]);
        ScheduleArms(q, worlds[1..]);
        var bs := Schedule(p, worlds);
        assert bs == [b] + rest;
        forall i | 0 <= i < |bs| - 1
          ensures !Exits(bs[i], worlds[i])
        {
          if i > 0 {
            assert bs[i] == rest[i - 1] && worlds[i] == worlds[1..][i - 1];
          }
        }
        if 0 < |bs| < |worlds| {
          assert bs[|bs| - 1] == rest[|rest| - 1] && worlds[|bs| - 1] == worlds[1..][|rest| - 1];
        }
      }
    }
  }

  /**
   * A SIGINT or SIGTERM that arrives in a turn that goes on makes the next
   * turn the last: the loop terminates then.
   */
  lemma {:induction false} TermServedNext(p: Pending, worlds: seq<World>, i: nat)
    requires i + 1 < |Schedule(p, worlds)|
    requires worlds[i].signal == Some(SIGINT) || worlds[i].signal == Some(SIGTERM)
    ensures |Schedule(p, worlds)| == i + 2 && Schedule(p, worlds)[i + 1] == Terminate
    decreases i
  {
    var b := Dispatch(p);
    var q := Settle(p, b, worlds[0]);
    assert Schedule(p, worlds) == [b] + Schedule(q, worlds[1..]);
    if i == 0 {
      assert Dispatch(q) == Terminate;
      assert Schedule(q, worlds[1..])[0] == Terminate;
    } else {
      TermServedNext(q, worlds[1..], i - 1);
    }
  }

  /**
   * An alarm that arrives while a sample is being taken is lost: the flag is
   * cleared after the readings, so the turn ends as if the alarm had not
   * come; any other signal is kept.
   */
  lemma AlarmDuringSampleLost(p: Pending, w: World)
    requires w.signal == Some(SIGALRM)
    ensures Settle(p, Sample, w) == Settle(p, Sample, w.(signal := None))
    ensures !Settle(p, Sample, w).alrm
  {
  }

  /**
   * A pending hang-up is served no later than the turn after the next one,
   * whatever signals arrive, unless a termination comes first: a sample turn
   * clears the alarm flag, so the turn after it reloads.
   */
  lemma ReloadNotStarved(p: Pending, w: World)
    requires p.hup && !p.term
    ensures Dispatch(p) == Sample || Dispatch(p) == Reload
    ensures Dispatch(p) == Sample ==>
      Settle(p, Sample, w).hup && (Settle(p, Sample, w).term || Dispatch(Settle(p, Sample, w)) == Reload)
  {
  }

  /** A signal that ends a pause makes the next turn serve it; any other signal leaves the loop waiting. */
  lemma WaitServes(w: World)
    ensures w.signal == Some(SIGINT) || w.signal == Some(SIGTERM) ==> Dispatch(Settle(NonePending, Wait, w)) == Terminate
    ensures w.signal == Some(SIGALRM) ==> Dispatch(Settle(NonePending, Wait, w)) == Sample
    ensures w.signal == Some(SIGHUP) ==> Dispatch(Settle(NonePending, Wait, w)) == Reload
    ensures w.signal.None? || w.signal.value !in {SIGHUP, SIGINT, SIGALRM, SIGTERM} ==>
      Dispatch(Settle(NonePending, Wait, w)) == Wait
  {
  }

  // ---------------------------------------------------------------------
  // The interval timer
  // ---------------------------------------------------------------------

  datatype TimeVal = TimeVal(sec: int, usec: int)

  /** struct itimerval: the first expiry and the period after it. */
  datatype ITimerVal = ITimerVal(value: TimeVal, interval: TimeVal)

  /**
   * Whether ITIMER_REAL set to `setting` delivers SIGALRM: `setitimer` with a
   * zero `it_value` disarms the timer, whatever the interval.
   */
  predicate Fires(setting: Option<ITimerVal>)
  {
    setting.Some? && setting.value.value != TimeVal(0, 0)
  }

  /**
   * The documented configuration line read back and handed to setTimer: the
   * timer fires exactly when the line's seconds or microseconds are non-zero,
   * so "sec: 0, usec 0" stops the alarms, and with them the data log.
   */
  lemma ConfiguredTimerFires(sec: int, usec: int, rest: string, config: seq<int>)
    requires |config| == 2
    requires |Config.ConfigLine(sec, usec)| < Config.BufferSize
    ensures var c := Config.ConfigAfter(Some(Config.ConfigLine(sec, usec) + rest), config);
      Fires(Some(ITimerVal(TimeVal(c[0], c[1]), TimeVal(c[0], c[1])))) <==> sec != 0 || usec != 0
  {
    Config.ConfigReadBack(sec, usec, rest, config);
  }

  class Timer {
    /** main's `itv`. */
    var itv: ITimerVal
    /** The setting of the process's ITIMER_REAL that `setitimer` last accepted; None before the first. */
    var setting: Option<ITimerVal>

    constructor ()
      ensures setting == None
    {
      setting := None;
    }

    /**
     * setTimer: both the first expiry and the period are the configured
     * interval; -1 when `setitimer` refuses it, which leaves the kernel's
     * timer as it was. An accepted zero interval disarms the timer.
     */
    method SetTimer(config: array<int>, accepted: bool) returns (r: int)
      requires config.Length == 2
      modifies this
      ensures itv.value == itv.interval == TimeVal(config[0], config[1])
      ensures r == 0 <==> accepted
      ensures r == -1 <==> !accepted
      ensures setting == if accepted then Some(itv) else old(setting)
      ensures accepted ==> (Fires(setting) <==> config[0] != 0 || config[1] != 0)
    {
      itv := ITimerVal(TimeVal(config[0], config[1]), TimeVal(config[0], config[1]));
      if !accepted {
        return -1;
      } else {
        setting := Some(itv);
        return 0;
      }
    }
  }

  // ---------------------------------------------------------------------
  // The data log
  // ---------------------------------------------------------------------

  /** What one call of dataLog formats: the header, or one reading of the three values. */
  datatype Line = HeaderLine | Reading(tmp102: real, pressure: real, temperature: real)

  /** A row of the data file: with or without the `%f,` time prefix. */
  datatype Row = Unstamped(line: Line) | Stamped(seconds: real, line: Line)

  /** dataLog's static `initial` and `start`, and the rows it has written. */
  datatype LogState = LogState(initial: bool, start: TimeVal, rows: seq<Row>)

  /** The state before the first call: statics are zero-initialised and the file holds nothing. */
  const Fresh := LogState(false, TimeVal(0, 0), [])

  /** The seconds between two clock readings (exactly, where the source computes in float). */
  function Elapsed(start: TimeVal, now: TimeVal): real
  {
    (now.sec - start.sec) as real + (now.usec - start.usec) as real / 1000000.0
  }

  /**
   * dataLog(line) with the clock reading `clock`: the first call whose clock
   * read succeeds records the start and writes the line without a time
   * prefix; later calls write it prefixed with the seconds since the start,
   * or with 0 when their clock read fails. A first call whose clock read
   * fails writes nothing.
   */
  function Logged(s: LogState, line: Line, clock: Option<TimeVal>): (t: LogState)
    ensures s.initial ==> t.initial && t.start == s.start
    ensures t.rows == s.rows || (|t.rows| == |s.rows| + 1 && t.rows[..|s.rows|] == s.rows && t.rows[|s.rows|].line == line)
  {
    if !s.initial then
      match clock
      case None => s
      case Some(now) => LogState(true, now, s.rows + [Unstamped(line)])
    else
      var seconds := if clock.Some? then Elapsed(s.start, clock.value) else 0.0;
      s.(rows := s.rows + [Stamped(seconds, line)])
  }

  /** The shape dataLog keeps: rows exist once the start is set, only the first has no time prefix. */
  predicate WellFormed(s: LogState)
  {
    && (s.initial <==> s.rows != [])
    && (s.rows != [] ==> s.rows[0].Unstamped?)
    && (forall i :: 0 < i < |s.rows| ==> s.rows[i].Stamped?)
  }

  lemma LoggedWellFormed(s: LogState, line: Line, clock: Option<TimeVal>)
    requires WellFormed(s)
    ensures WellFormed(Logged(s, line, clock))
  {
  }

  /** One call of dataLog: the line and the clock reading it gets. */
  datatype Entry = Entry(line: Line, clock: Option<TimeVal>)

  /** The log after the calls in `entries`, in order. */
  function LogAll(s: LogState, entries: seq<Entry>): LogState
    decreases |entries|
  {
    if entries == [] then s
    else
      var last := entries[|entries| - 1];
      Logged(LogAll(s, entries[..|entries| - 1]), last.line, last.clock)
  }

  /** The index of the first call whose clock read succeeds. */
  function FirstClock(entries: seq<Entry>): (j: Option<nat>)
    ensures j.Some? ==> j.value < |entries| && entries[j.value].clock.Some?
    ensures forall i :: 0 <= i < |entries| && (j.None? || i < j.value) ==> entries[i].clock.None?
    decreases |entries|
  {
    if entries == [] then None
    else
      var front := entries[..|entries| - 1];
      var j := FirstClock(front);
      assert forall i :: 0 <= i < |front| ==> front[i] == entries[i];
      if j.Some? then j
      else if entries[|entries| - 1].clock.Some? then Some(|entries| - 1)
      else None
  }

  /** The time prefix of a row logged with clock reading `clock` after a start at `start`. */
  function Stamp(start: TimeVal, clock: Option<TimeVal>): real
  {
    if clock.Some? then Elapsed(start, clock.value) else 0.0
  }

  /**
   * `s` is the log written by the calls in `entries` when the j-th is the
   * first whose clock read succeeds: that call set the start and wrote the
   * only row without a time prefix, and each later call wrote one row
   * stamped with the seconds since that start.
   */
  ghost predicate LogsFrom(entries: seq<Entry>, j: nat, s: LogState)
    requires j < |entries| && entries[j].clock.Some?
  {
    && s.initial
    && s.start == entries[j].clock.value
    && |s.rows| == |entries| - j
    && s.rows[0] == Unstamped(entries[j].line)
    && forall i :: 0 < i < |s.rows| ==> s.rows[i] == Stamped(Stamp(s.start, entries[j + i].clock), entries[j + i].line)
  }

  /** One more call keeps a log that started at the j-th call in that shape. */
  lemma LogsFromStep(entries: seq<Entry>, j: nat, s: LogState)
    requires entries != [] && j < |entries| - 1 && entries[j].clock.Some?
    requires LogsFrom(entries[..|entries| - 1], j, s)
    ensures LogsFrom(entries, j, Logged(s, entries[|entries| - 1].line, entries[|entries| - 1].clock))
  {
    var front := entries[..|entries| - 1];
    assert forall i :: 0 <= i < |front| ==> front[i] == entries[i];
  }

  /**
   * The header-row property as the code has it: from the zero state, the
   * calls before the first successful clock read write nothing, and from
   * that call on the log has the shape LogsFrom describes.
   */
  lemma {:induction false} LogFromFresh(entries: seq<Entry>)
    ensures FirstClock(entries).None? ==> LogAll(Fresh, entries) == Fresh
    ensures FirstClock(entries).Some? ==> LogsFrom(entries, FirstClock(entries).value, LogAll(Fresh, entries))
    decreases |entries|
  {
    if entries != [] {
      var front := entries[..|entries| - 1];
      LogFromFresh(front);
      if FirstClock(front).Some? {
        LogsFromStep(entries, FirstClock(front).value, LogAll(Fresh, front));
      }
    }
  }

  /** When the header call reads the clock, the header is the first row and every later row is a stamped reading. */
  lemma HeaderFirst(start: TimeVal, readings: seq<Entry>)
    ensures |LogAll(Fresh, [Entry(HeaderLine, Some(start))] + readings).rows| == |readings| + 1
    ensures LogAll(Fresh, [Entry(HeaderLine, Some(start))] + readings).rows[0] == Unstamped(HeaderLine)
    ensures forall i :: 0 < i <= |readings| ==>
      LogAll(Fresh, [Entry(HeaderLine, Some(start))] + readings).rows[i]
        == Stamped(Stamp(start, readings[i - 1].clock), readings[i - 1].line)
  {
    var entries := [Entry(HeaderLine, Some(start))] + readings;
    LogFromFresh(entries);
    assert FirstClock(entries) == Some(0) by {
      FirstClockAt(entries, 0);
    }
    assert forall i :: 0 < i <= |readings| ==> entries[i] == readings[i - 1];
  }

  /** The first successful clock read is the j-th call when the calls before it all fail to read. */
  lemma FirstClockAt(entries: seq<Entry>, j: nat)
    requires j < |entries| && entries[j].clock.Some?
    requires forall i :: 0 <= i < j ==> entries[i].clock.None?
    ensures FirstClock(entries) == Some(j)
  {
  }

  /**
   * When the header call's clock read fails and only readings follow, the
   * header never reaches the file: the next reading whose clock read
   * succeeds is written without a time prefix in its place.
   */
  lemma HeaderLost(start: TimeVal, reading: Line, more: seq<Entry>)
    requires reading.Reading? && forall i :: 0 <= i < |more| ==> more[i].line.Reading?
    ensures |LogAll(Fresh, [Entry(HeaderLine, None), Entry(reading, Some(start))] + more).rows| == |more| + 1
    ensures LogAll(Fresh, [Entry(HeaderLine, None), Entry(reading, Some(start))] + more).rows[0] == Unstamped(reading)
    ensures forall i :: 0 <= i <= |more| ==>
      LogAll(Fresh, [Entry(HeaderLine, None), Entry(reading, Some(start))] + more).rows[i].line.Reading?
  {
    var entries := [Entry(HeaderLine, None), Entry(reading, Some(start))] + more;
    LogFromFresh(entries);
    assert FirstClock(entries) == Some(1) by {
      FirstClockAt(entries, 1);
    }
    assert forall i :: 1 < i < |entries| ==> entries[i] == more[i - 2];
  }

  class DataFile {
    var initial: bool
    var start: TimeVal
    /** The rows of the data file, oldest first. */
    var rows: seq<Row>

    function State(): LogState
      reads this
    {
      LogState(initial, start, rows)
    }

    constructor ()
      ensures State() == Fresh
    {
      initial, start, rows := false, TimeVal(0, 0), [];
    }

    /** dataLog(format, ...) for the line `line`, with `clock` what gettimeofday reads. */
    method DataLog(line: Line, clock: Option<TimeVal>)
      modifies this
      ensures State() == Logged(old(State()), line, clock)
    {
      if !initial {
        if clock.Some? {
          start := clock.value;
          initial := true;
          rows := rows + [Unstamped(line)];
        }
      } else {
        var seconds := 0.0;
        if clock.Some? {
          seconds := Elapsed(start, clock.value);
        }
        rows := rows + [Stamped(seconds, line)];
      }
    }
  }

  // ---------------------------------------------------------------------
  // The process
  // ---------------------------------------------------------------------

  /** The TMP102 configuration main asks for: 8 Hz conversions at 13-bit resolution. */
  const TempConfig := TMP102.ConfigLsb(TMP102.Rate8Hz, TMP102.Bits13)

  /**
   * The mode the altimeter object is built in. main constructs it with only
   * a bus and an address and asks for a barometer reading; the model builds
   * it in Barometer mode.
   */
  const AltimeterMode := MPL3115A2.Barometer

  class Daemon {
    const dev: Bus
    /** main's `int config[2]`: interval seconds and microseconds. */
    const config: array<int>
    const flags: Flags
    const timer: Timer
    const data: DataFile
    const tempSensor: TMP102.Sensor
    const altimeter: MPL3115A2.Sensor
    /** main's `temp_tmp102`, `pressure_mpl` and `temp_mpl`; the last two start uninitialised. */
    var tempTmp102: real
    var pressureMpl: real
    var tempMpl: real
    /** The status the process exited with; None while it runs. */
    var exitStatus: Option<int>

    ghost predicate Valid()
      reads this, tempSensor
    {
      config.Length == 2 && tempSensor.Valid()
    }

    constructor (dev: Bus, config: array<int>, flags: Flags, timer: Timer, data: DataFile,
                 tempSensor: TMP102.Sensor, altimeter: MPL3115A2.Sensor)
      ensures this.dev == dev && this.config == config && this.flags == flags && this.timer == timer
      ensures this.data == data && this.tempSensor == tempSensor && this.altimeter == altimeter
      ensures exitStatus.None?
    {
      this.dev, this.config, this.flags, this.timer := dev, config, flags, timer;
      this.data, this.tempSensor, this.altimeter := data, tempSensor, altimeter;
      exitStatus := None;
    }

    /**
     * One turn of the `for(;;)` loop: the most urgent pending flag is served
     * (terminate, then alarm, then hang-up), or, with none pending, the loop
     * pauses until a signal arrives. `w` is what the operating system does
     * meanwhile; `mplStatus` and `mplEvents` are the altimeter's ignored
     * status and its bus calls on a sample turn.
     */
    method Step(w: World) returns (branch: Branch, ghost mplStatus: int, ghost mplEvents: seq<Event>)
      requires Valid() && exitStatus.None?
      modifies this, flags, timer, data, config, tempSensor, tempSensor.dataBuffer, dev
      ensures Valid()
      ensures branch == Dispatch(old(flags.State()))
      ensures flags.State() == Settle(old(flags.State()), branch, w)
      ensures exitStatus == match branch
        case Terminate => Some(EXIT_SUCCESS)
        case Reload => if w.accepted then None else Some(EXIT_FAILURE)
        case _ => None
      ensures branch == Reload ==>
        && config[..] == Config.ConfigAfter(w.file, old(config[..]))
        && timer.itv == ITimerVal(TimeVal(config[0], config[1]), TimeVal(config[0], config[1]))
        && timer.setting == if w.accepted then Some(timer.itv) else old(timer.setting)
      ensures branch != Reload ==> config[..] == old(config[..]) && timer.itv == old(timer.itv) && timer.setting == old(timer.setting)
      ensures branch == Sample ==>
        var tmp := TMP102.ReadTemperatureRun(dev.oracle, |old(dev.trace)|, tempSensor.bus, tempSensor.address,
                                             old(tempSensor.dataBuffer[..]), old(tempSensor.temperature));
        && tempTmp102 == tmp.status as real
        && tempSensor.dataBuffer[..] == tmp.buffer && tempSensor.temperature == tmp.temperature
        && dev.trace == old(dev.trace) + tmp.events + mplEvents
        && MPL3115A2.SensorOutcome(dev.oracle, |old(dev.trace)| + |tmp.events|, altimeter.bus, altimeter.address,
             altimeter.readState, old(pressureMpl), old(tempMpl), mplEvents)
           == Some(MPL3115A2.SensorRun(mplStatus, mplEvents, pressureMpl, tempMpl))
        && data.State() == Logged(old(data.State()), Reading(tempTmp102, pressureMpl, tempMpl), w.clock)
      ensures branch != Sample ==>
        && dev.trace == old(dev.trace) && data.State() == old(data.State())
        && tempTmp102 == old(tempTmp102) && pressureMpl == old(pressureMpl) && tempMpl == old(tempMpl)
        && tempSensor.dataBuffer[..] == old(tempSensor.dataBuffer[..]) && tempSensor.temperature == old(tempSensor.temperature)
    {
      mplStatus, mplEvents := 0, [];
      branch := Dispatch(flags.State());
      if flags.termReceived {
        flags.termReceived := false;
        exitStatus := Some(EXIT_SUCCESS);
      } else if flags.alrmReceived {
        mplStatus, mplEvents := TakeSample(w);
      } else if flags.hupReceived {
        Reconfigure(w);
      } else if w.signal.Some? {
        // pause() returns once the handler has run
        flags.InterruptHandler(w.signal.value);
      }
    }

    /**
     * The `for(;;)` loop, for as many turns as `worlds` scripts: turn i runs
     * with what worlds[i] says the operating system does, and the loop stops
     * when the process exits. `branches` are the arms taken.
     */
    method Run(worlds: seq<World>) returns (branches: seq<Branch>)
      requires Valid() && exitStatus.None?
      modifies this, flags, timer, data, config, tempSensor, tempSensor.dataBuffer, dev
      ensures Valid()
      ensures branches == Schedule(old(flags.State()), worlds)
      ensures exitStatus.Some? <==> branches != [] && Exits(branches[|branches| - 1], worlds[|branches| - 1])
    {
      ghost var start := flags.State();
      branches := [];
      var i := 0;
      while i < |worlds|
        invariant 0 <= i <= |worlds| && |branches| == i
        invariant Valid() && exitStatus.None?
        invariant Schedule(start, worlds) == branches + Schedule(flags.State(), worlds[i..])
        invariant branches == [] || !Exits(branches[i - 1], worlds[i - 1])
        decreases |worlds| - i
      {
        ghost var before := flags.State();
        var b, _, _ := Step(worlds[i]);
        ScheduleTurn(start, worlds, branches, before, i);
        branches := branches + [b];
        i := i + 1;
        if exitStatus.Some? {
          return;
        }
      }
      assert worlds[i..] == [];
    }

    /** The alarm arm: read both sensors, log the readings, clear the alarm flag. */
    method TakeSample(w: World) returns (ghost mplStatus: int, ghost mplEvents: seq<Event>)
      requires Valid()
      modifies this, flags, data, tempSensor, tempSensor.dataBuffer, dev
      ensures Valid() && exitStatus == old(exitStatus)
      ensures flags.State() == Received(old(flags.State()), w.signal).(alrm := false)
      ensures var tmp := TMP102.ReadTemperatureRun(dev.oracle, |old(dev.trace)|, tempSensor.bus, tempSensor.address,
                                                   old(tempSensor.dataBuffer[..]), old(tempSensor.temperature));
        && tempTmp102 == tmp.status as real
        && tempSensor.dataBuffer[..] == tmp.buffer && tempSensor.temperature == tmp.temperature
        && dev.trace == old(dev.trace) + tmp.events + mplEvents
        && MPL3115A2.SensorOutcome(dev.oracle, |old(dev.trace)| + |tmp.events|, altimeter.bus, altimeter.address,
             altimeter.readState, old(pressureMpl), old(tempMpl), mplEvents)
           == Some(MPL3115A2.SensorRun(mplStatus, mplEvents, pressureMpl, tempMpl))
        && data.State() == Logged(old(data.State()), Reading(tempTmp102, pressureMpl, tempMpl), w.clock)
    {
      // the TMP102 status code is what main stores as temp_tmp102
      var status := tempSensor.ReadTemperature(dev);
      tempTmp102 := status as real;
      ghost var mid := dev.trace;
      var p, t;
      mplStatus, p, t, mplEvents := altimeter.ReadSensor(dev, pressureMpl, tempMpl);
      pressureMpl, tempMpl := p, t;
      data.DataLog(Reading(tempTmp102, pressureMpl, tempMpl), w.clock);
      if w.signal.Some? {
        flags.InterruptHandler(w.signal.value);
      }
      flags.alrmReceived := false;
    }

    /** The hang-up arm: reread the configuration, set the timer again, clear the flag or exit. */
    method Reconfigure(w: World)
      requires Valid()
      modifies this, flags, timer, config
      ensures Valid()
      ensures config[..] == Config.ConfigAfter(w.file, old(config[..]))
      ensures timer.itv == ITimerVal(TimeVal(config[0], config[1]), TimeVal(config[0], config[1]))
      ensures timer.setting == if w.accepted then Some(timer.itv) else old(timer.setting)
      ensures exitStatus == if w.accepted then old(exitStatus) else Some(EXIT_FAILURE)
      ensures flags.State() == if w.accepted then Received(old(flags.State()), w.signal).(hup := false)
                               else Received(old(flags.State()), w.signal)
      ensures tempTmp102 == old(tempTmp102) && pressureMpl == old(pressureMpl) && tempMpl == old(tempMpl)
    {
      Config.ReadConfigFile(w.file, config);
      var r := timer.SetTimer(config, w.accepted);
      if w.signal.Some? {
        flags.InterruptHandler(w.signal.value);
      }
      if r == -1 {
        exitStatus := Some(EXIT_FAILURE);
      } else {
        flags.hupReceived := false;
      }
    }
  }

  /**
   * main up to its loop: read the configuration into an uninitialised
   * `config`, set the timer (exiting with EXIT_FAILURE when that fails, so
   * no Daemon is returned), log the header and build both sensors on bus
   * I2C1. `uninit` stands for the stack garbage `config` starts with.
   */
  method Start(dev: Bus, file: Option<string>, accepted: bool, clock: Option<TimeVal>)
    returns (d: Daemon?, ghost uninit: seq<int>)
    modifies dev
    ensures d == null <==> !accepted
    ensures d == null ==> dev.trace == old(dev.trace)
    ensures d != null ==>
      && fresh(d) && fresh(d.config) && fresh(d.flags) && fresh(d.timer) && fresh(d.data) && fresh(d.tempSensor)
      && d.Valid() && d.dev == dev && d.exitStatus.None?
      && |uninit| == 2 && d.config[..] == Config.ConfigAfter(file, uninit)
      && d.flags.State() == NonePending
      && d.timer.itv == ITimerVal(TimeVal(d.config[0], d.config[1]), TimeVal(d.config[0], d.config[1]))
      && d.timer.setting == Some(d.timer.itv)
      && d.data.State() == Logged(Fresh, HeaderLine, clock)
      && d.tempSensor.bus == I2C1 && d.tempSensor.address == TMP102.AddressValue(TMP102.Ground)
      && d.altimeter.bus == I2C1 && d.altimeter.address == MPL3115A2.DeviceAddressValue(MPL3115A2.Standard)
      && d.altimeter.readState == AltimeterMode
      && dev.trace == old(dev.trace) + SensorSetup(dev.oracle, |old(dev.trace)|)
  {
    var config, timer, r;
    config, timer, r, uninit := ArmTimer(file, accepted);
    if r == -1 {
      return null, uninit;
    }
    var data := new DataFile();
    data.DataLog(HeaderLine, clock);
    var tempSensor, altimeter := BuildSensors(dev);
    var flags := new Flags();
    d := new Daemon(dev, config, flags, timer, data, tempSensor, altimeter);
  }

  /** The bus calls of the two sensor constructors, from the k-th call on. */
  function SensorSetup(o: Oracle, k: nat): seq<Event>
  {
    var tmp := TMP102.ConfigureRun(o, k, I2C1, TMP102.AddressValue(TMP102.Ground),
                                   TMP102.MsbValue(TMP102.DefaultMsb), TMP102.LsbValue(TempConfig)).events;
    tmp + MPL3115A2.ConfigureRun(o, k + |tmp|, I2C1, MPL3115A2.DeviceAddressValue(MPL3115A2.Standard), AltimeterMode)
  }

  /** readConfigFile into a fresh `config`, then setTimer. */
  method ArmTimer(file: Option<string>, accepted: bool)
    returns (config: array<int>, timer: Timer, r: int, ghost uninit: seq<int>)
    ensures fresh(config) && fresh(timer) && config.Length == 2
    ensures |uninit| == 2 && config[..] == Config.ConfigAfter(file, uninit)
    ensures r == -1 <==> !accepted
    ensures timer.itv == ITimerVal(TimeVal(config[0], config[1]), TimeVal(config[0], config[1]))
    ensures timer.setting == if accepted then Some(timer.itv) else None
  {
    config := new int[2];
    uninit := config[..];
    Config.ReadConfigFile(file, config);
    timer := new Timer();
    r := timer.SetTimer(config, accepted);
  }

  /** TMP102 TempSensor1(I2C1, Ground, Default_MSB, CR_8Hz_13bit), then the altimeter on I2C1 at Standard. */
  method BuildSensors(dev: Bus) returns (tempSensor: TMP102.Sensor, altimeter: MPL3115A2.Sensor)
    modifies dev
    ensures fresh(tempSensor) && fresh(tempSensor.dataBuffer) && tempSensor.Valid()
    ensures tempSensor.bus == I2C1 && tempSensor.address == TMP102.AddressValue(TMP102.Ground)
    ensures altimeter.bus == I2C1 && altimeter.address == MPL3115A2.DeviceAddressValue(MPL3115A2.Standard)
    ensures altimeter.readState == AltimeterMode
    ensures dev.trace == old(dev.trace) + SensorSetup(dev.oracle, |old(dev.trace)|)
  {
    tempSensor := new TMP102.Sensor(dev, I2C1, TMP102.Ground, TMP102.DefaultMsb, TempConfig);
    altimeter := new MPL3115A2.Sensor(dev, I2C1, MPL3115A2.Standard, AltimeterMode);
  }
}
