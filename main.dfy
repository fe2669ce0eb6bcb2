/**
 * The sensor node's run cycle: join Wi-Fi (30 one-second polls at most), warm
 * the DHT11 up, take a timestamped reading, post it to the webhook, and on any
 * failure blink the LED and stop; when deployed, sleep INTERVAL seconds after
 * every cycle.
 *
 * Collaborators are oracles: `connected(i)` is the i-th answer of
 * isconnected() in a cycle (0 for the check before the join loop), `Sample`
 * the DHT11's reading or its failure, `TimeReply` and `PostReply` the HTTP
 * responses or a transport failure. Effects and queries are recorded in a
 * trace of `Effects.Event`s.
 */
module Main {
  import opened Effects
  import opened Wrappers
  import Hex

  /** The join loop gives up on the 30th failed poll. */
  const ConnectAttempts: nat := 30
  /** `show_error` blinks ten times. */
  const BlinkCount: nat := 10
  const TimeUrl: string := "http://worldtimeapi.org/api/timezone/Etc/UTC"
  const JsonContentType: string := "application/json"

  /** The settings the core reads from `config` (pin numbers are not modelled). */
  datatype Config = Config(deployed: bool, interval: real, webhookUrl: string,
                           wifiSsid: string, wifiPassword: string)

  /** Process-wide context: the configuration, DEVICE_ID and REQUEST_HEADERS. */
  datatype Device = Device(config: Config, deviceId: string, headers: Headers)

  /** The exceptions the stages raise. */
  datatype Error =
    | WifiTimeout                  // "Failed to connect to WiFi"
    | SensorFailure                // d.measure() raised
    | TimeUnreachable              // requests.get raised
    | TimeRejected(status: int)    // "Cannot get current time!"
    | ReportUnreachable            // requests.post raised
    | ReportRejected(status: int)  // "Cannot send measurement"

  datatype Result<T> = Ok(value: T) | Err(error: Error)

  /** What a stage did (its trace) and how it ended. */
  datatype Step<T> = Step(trace: seq<Event>, result: Result<T>)

  /** Oracle answers of the collaborators. */
  datatype Sample = Sample(celsius: real, humidity: real) | NoSample
  datatype TimeReply = TimeReply(status: int, unixtime: int) | NoTimeReply
  datatype PostReply = PostReply(status: int) | NoPostReply

  /** Everything the collaborators answer during one cycle of `run`. */
  datatype CycleEnv = CycleEnv(connected: nat -> bool,
                               primeSample: Sample, primeTime: TimeReply,
                               sample: Sample, time: TimeReply,
                               post: PostReply)

  // ---------------------------------------------------------------------------
  // Device identity and request headers

  /** DEVICE_ID: the unique id as lowercase hexadecimal. */
  function DeviceId(uniqueId: seq<Hex.byte>): (id: string)
    ensures |id| == 2 * |uniqueId| && Hex.IsLowerHex(id)
    ensures Hex.Unhexlify(id) == Some(uniqueId)
  {
    Hex.UnhexlifyHexlify(uniqueId);
    Hex.Hexlify(uniqueId)
  }

  /** REQUEST_HEADERS. */
  function RequestHeaders(uniqueId: seq<Hex.byte>): Headers
  {
    Headers(JsonContentType, DeviceId(uniqueId))
  }

  /** Importing main.py computes DEVICE_ID and REQUEST_HEADERS once from machine.unique_id(). */
  function LoadDevice(config: Config, uniqueId: seq<Hex.byte>): Device
  {
    Device(config, DeviceId(uniqueId), RequestHeaders(uniqueId))
  }

  // ---------------------------------------------------------------------------
  // wifi_connect

  /** Not yet connected: LED on, station active, association started. */
  function JoinStart(cfg: Config): seq<Event>
  {
    [QueryConnected, LedOn, StaActive(true), Connect(cfg.wifiSsid, cfg.wifiPassword)]
  }

  /** A loop check that found no connection, followed by its one-second sleep. */
  const FailedPoll: seq<Event> := [QueryConnected, Sleep(1.0)]

  /**
   * The join loop from its (attempt + 1)-th check on, after the events `done`:
   * a failed check is followed by a one-second sleep, and the 30th sleep gives up.
   */
  function JoinFrom(connected: nat -> bool, attempt: nat, done: seq<Event>): Step<()>
    requires attempt < ConnectAttempts
    decreases ConnectAttempts - attempt
  {
    if connected(attempt + 1) then Step(done + [QueryConnected, LedOff], Ok(()))
    else if attempt + 1 >= ConnectAttempts then Step(done + FailedPoll, Err(WifiTimeout))
    else JoinFrom(connected, attempt + 1, done + FailedPoll)
  }

  /** wifi_connect: nothing but a check and LED off when already associated, else the join loop. */
  function WifiConnectSpec(cfg: Config, connected: nat -> bool): Step<()>
  {
    if connected(0) then Step([QueryConnected, LedOff], Ok(()))
    else JoinFrom(connected, 0, JoinStart(cfg))
  }

  method WifiConnect(cfg: Config, connected: nat -> bool) returns (trace: seq<Event>, result: Result<()>)
    ensures Step(trace, result) == WifiConnectSpec(cfg, connected)
  {
    trace := [QueryConnected];
    if connected(0) {
      return trace + [LedOff], Ok(());
    }
    trace := trace + [LedOn, StaActive(true), Connect(cfg.wifiSsid, cfg.wifiPassword)];
    assert trace == JoinStart(cfg);
    var attempt := 0;
    // Each pass records the loop check that failed and the sleep after it.
    while !connected(attempt + 1)
      invariant attempt < ConnectAttempts
      invariant JoinFrom(connected, attempt, trace) == WifiConnectSpec(cfg, connected)
      decreases ConnectAttempts - attempt
    {
      attempt := attempt + 1;
      trace := trace + FailedPoll;
      if attempt >= ConnectAttempts {
        return trace, Err(WifiTimeout);
      }
    }
    return trace + [QueryConnected, LedOff], Ok(());
  }

  /** The trace of a join whose (n + 1)-th loop check succeeded. */
  function Joined(cfg: Config, n: nat): seq<Event>
  {
    JoinStart(cfg) + Repeat(FailedPoll, n) + [QueryConnected, LedOff]
  }

  /** The trace of a join that gave up. */
  function TimedOut(cfg: Config): seq<Event>
  {
    JoinStart(cfg) + Repeat(FailedPoll, ConnectAttempts)
  }

  /** Counting over the join traces, block by block. */
  lemma JoinCount(cfg: Config, n: nat, p: Event -> bool)
    ensures CountIf(Joined(cfg, n), p)
      == CountIf(JoinStart(cfg), p) + CountIf(Repeat(FailedPoll, n), p) + Bit(p(QueryConnected)) + Bit(p(LedOff))
  {
    CountIfConcat(JoinStart(cfg) + Repeat(FailedPoll, n), [QueryConnected, LedOff], p);
    CountIfConcat(JoinStart(cfg), Repeat(FailedPoll, n), p);
    CountIfTwo(QueryConnected, LedOff, p);
  }

  lemma TimeoutCount(cfg: Config, p: Event -> bool)
    ensures CountIf(TimedOut(cfg), p)
      == CountIf(JoinStart(cfg), p) + CountIf(Repeat(FailedPoll, ConnectAttempts), p)
  {
    CountIfConcat(JoinStart(cfg), Repeat(FailedPoll, ConnectAttempts), p);
  }

  lemma JoinBlockCounts(cfg: Config, p: Event -> bool)
    ensures CountIf(JoinStart(cfg), p) == Bit(p(QueryConnected)) + Bit(p(LedOn)) + Bit(p(StaActive(true)))
                                          + Bit(p(Connect(cfg.wifiSsid, cfg.wifiPassword)))
    ensures CountIf(FailedPoll, p) == Bit(p(QueryConnected)) + Bit(p(Sleep(1.0)))
  {
    CountIfFour(QueryConnected, LedOn, StaActive(true), Connect(cfg.wifiSsid, cfg.wifiPassword), p);
    CountIfTwo(QueryConnected, Sleep(1.0), p);
  }

  /** The (k)-th check, the first to succeed, ends the loop after the polls before it. */
  lemma {:induction false} JoinFromJoins(connected: nat -> bool, attempt: nat, k: nat, done: seq<Event>)
    requires attempt < k <= ConnectAttempts && connected(k)
    requires forall j :: attempt < j < k ==> !connected(j)
    ensures JoinFrom(connected, attempt, done)
         == Step(done + Repeat(FailedPoll, k - 1 - attempt) + [QueryConnected, LedOff], Ok(()))
    decreases k - attempt
  {
    if attempt + 1 < k {
      JoinFromJoins(connected, attempt + 1, k, done + FailedPoll);
      RepeatPrepend(FailedPoll, k - 2 - attempt);
      assert (done + FailedPoll) + Repeat(FailedPoll, k - 2 - attempt)
          == done + (FailedPoll + Repeat(FailedPoll, k - 2 - attempt));
    } else {
      assert done + Repeat(FailedPoll, 0) == done;
    }
  }

  /** No check from the (attempt + 1)-th on succeeds: a poll for each, then the error. */
  lemma {:induction false} JoinFromTimesOut(connected: nat -> bool, attempt: nat, done: seq<Event>)
    requires attempt < ConnectAttempts
    requires forall j :: attempt < j <= ConnectAttempts ==> !connected(j)
    ensures JoinFrom(connected, attempt, done)
         == Step(done + Repeat(FailedPoll, ConnectAttempts - attempt), Err(WifiTimeout))
    decreases ConnectAttempts - attempt
  {
    if attempt + 1 < ConnectAttempts {
      JoinFromTimesOut(connected, attempt + 1, done + FailedPoll);
      RepeatPrepend(FailedPoll, ConnectAttempts - attempt - 1);
      assert (done + FailedPoll) + Repeat(FailedPoll, ConnectAttempts - attempt - 1)
          == done + (FailedPoll + Repeat(FailedPoll, ConnectAttempts - attempt - 1));
    } else {
      assert Repeat(FailedPoll, 1) == FailedPoll;
    }
  }

  /** The loop returns normally exactly when one of its remaining checks succeeds. */
  lemma {:induction false} JoinFromOkIff(connected: nat -> bool, attempt: nat, done: seq<Event>)
    requires attempt < ConnectAttempts
    ensures JoinFrom(connected, attempt, done).result.Ok? <==>
      exists k :: attempt < k <= ConnectAttempts && connected(k)
    decreases ConnectAttempts - attempt
  {
    if connected(attempt + 1) {
      assert attempt < attempt + 1 <= ConnectAttempts;
    } else if attempt + 1 < ConnectAttempts {
      JoinFromOkIff(connected, attempt + 1, done + FailedPoll);
      if exists k :: attempt < k <= ConnectAttempts && connected(k) {
        var k :| attempt < k <= ConnectAttempts && connected(k);
        assert attempt + 1 < k;
      }
    }
  }

  /** Events other than checks, sleeps and LedOff come only from before the loop. */
  lemma {:induction false} JoinFromCountOther(connected: nat -> bool, attempt: nat, done: seq<Event>,
                                              p: Event -> bool)
    requires attempt < ConnectAttempts
    requires !p(QueryConnected) && !p(LedOff) && !p(Sleep(1.0))
    ensures CountIf(JoinFrom(connected, attempt, done).trace, p) == CountIf(done, p)
    decreases ConnectAttempts - attempt
  {
    CountIfTwo(QueryConnected, LedOff, p);
    CountIfTwo(QueryConnected, Sleep(1.0), p);
    if connected(attempt + 1) {
      CountIfConcat(done, [QueryConnected, LedOff], p);
    } else {
      CountIfConcat(done, FailedPoll, p);
      if attempt + 1 < ConnectAttempts {
        JoinFromCountOther(connected, attempt + 1, done + FailedPoll, p);
      }
    }
  }

  /** The loop switches the LED off when it returns and leaves it alone when it gives up. */
  lemma {:induction false} JoinFromLed(connected: nat -> bool, attempt: nat, done: seq<Event>, lit: bool)
    requires attempt < ConnectAttempts
    ensures var w := JoinFrom(connected, attempt, done);
      LedAfter(w.trace, lit) == if w.result.Ok? then false else LedAfter(done, lit)
    decreases ConnectAttempts - attempt
  {
    LedAfterConcat(done, FailedPoll, lit);
    LedAfterQuiet(FailedPoll, LedAfter(done, lit));
    if connected(attempt + 1) {
      assert done + [QueryConnected, LedOff] == (done + [QueryConnected]) + [LedOff];
      LedAfterSnoc(done + [QueryConnected], LedOff, lit);
    } else if attempt + 1 < ConnectAttempts {
      JoinFromLed(connected, attempt + 1, done + FailedPoll, lit);
    }
  }

  /** An associated station: no LED blink-up, no association, no sleep; the LED ends off. */
  lemma WifiAlreadyConnected(cfg: Config, connected: nat -> bool)
    requires connected(0)
    ensures var w := WifiConnectSpec(cfg, connected);
      && w.result == Ok(())
      && CountIf(w.trace, Is(Connect(cfg.wifiSsid, cfg.wifiPassword))) == 0
      && CountIf(w.trace, IsSleep) == 0
      && CountIf(w.trace, Is(LedOn)) == 0
      && forall lit :: !LedAfter(w.trace, lit)
  {
    CountIfTwo(QueryConnected, LedOff, Is(Connect(cfg.wifiSsid, cfg.wifiPassword)));
    CountIfTwo(QueryConnected, LedOff, Is(LedOn));
    CountIfTwo(QueryConnected, LedOff, IsSleep);
    forall lit: bool ensures !LedAfter([QueryConnected, LedOff], lit) {
      LedAfterSnoc([QueryConnected], LedOff, lit);
    }
  }

  /** A join whose (n + 1)-th loop check succeeded slept n seconds, one per failed check, */
  lemma JoinedSleeps(cfg: Config, n: nat)
    ensures CountIf(Joined(cfg, n), Is(Sleep(1.0))) == n
  {
    JoinCount(cfg, n, Is(Sleep(1.0)));
    JoinBlockCounts(cfg, Is(Sleep(1.0)));
    CountIfRepeatOnce(FailedPoll, n, Is(Sleep(1.0)));
  }

  /** checked n + 2 times, once before the association and n + 1 times in the loop, */
  lemma JoinedChecks(cfg: Config, n: nat)
    ensures CountIf(Joined(cfg, n), Is(QueryConnected)) == n + 2
  {
    JoinCount(cfg, n, Is(QueryConnected));
    JoinBlockCounts(cfg, Is(QueryConnected));
    CountIfRepeatOnce(FailedPoll, n, Is(QueryConnected));
  }

  /** started the association once, */
  lemma JoinedConnects(cfg: Config, n: nat)
    ensures CountIf(Joined(cfg, n), Is(Connect(cfg.wifiSsid, cfg.wifiPassword))) == 1
  {
    var connect := Is(Connect(cfg.wifiSsid, cfg.wifiPassword));
    JoinCount(cfg, n, connect);
    JoinBlockCounts(cfg, connect);
    CountIfRepeatNever(FailedPoll, n, connect);
  }

  /** and left the LED off. */
  lemma JoinedLedOff(cfg: Config, n: nat)
    ensures forall lit :: !LedAfter(Joined(cfg, n), lit)
  {
    var head := JoinStart(cfg) + Repeat(FailedPoll, n) + [QueryConnected];
    assert Joined(cfg, n) == head + [LedOff];
    forall lit: bool ensures !LedAfter(Joined(cfg, n), lit) {
      LedAfterSnoc(head, LedOff, lit);
    }
  }

  /**
   * The k-th loop check finds the station associated: the join returns
   * normally after k - 1 failed polls (counted by the Joined lemmas).
   */
  lemma WifiJoinsAtPoll(cfg: Config, connected: nat -> bool, k: nat)
    requires !connected(0) && 1 <= k <= ConnectAttempts && connected(k)
    requires forall j :: 1 <= j < k ==> !connected(j)
    ensures WifiConnectSpec(cfg, connected) == Step(Joined(cfg, k - 1), Ok(()))
  {
    JoinFromJoins(connected, 0, k, JoinStart(cfg));
  }

  /** A join that gave up slept 30 seconds, */
  lemma TimedOutSleeps(cfg: Config)
    ensures CountIf(TimedOut(cfg), Is(Sleep(1.0))) == ConnectAttempts
  {
    TimeoutCount(cfg, Is(Sleep(1.0)));
    JoinBlockCounts(cfg, Is(Sleep(1.0)));
    CountIfRepeatOnce(FailedPoll, ConnectAttempts, Is(Sleep(1.0)));
  }

  /** checked 31 times, */
  lemma TimedOutChecks(cfg: Config)
    ensures CountIf(TimedOut(cfg), Is(QueryConnected)) == ConnectAttempts + 1
  {
    TimeoutCount(cfg, Is(QueryConnected));
    JoinBlockCounts(cfg, Is(QueryConnected));
    CountIfRepeatOnce(FailedPoll, ConnectAttempts, Is(QueryConnected));
  }

  /** gave up right after its 30th sleep, without checking again, */
  lemma TimedOutLast(cfg: Config)
    ensures TimedOut(cfg)[|TimedOut(cfg)| - 1] == Sleep(1.0)
  {
    var polls := Repeat(FailedPoll, ConnectAttempts);
    assert polls == Repeat(FailedPoll, ConnectAttempts - 1) + FailedPoll;
    assert TimedOut(cfg)[|TimedOut(cfg)| - 1] == polls[|polls| - 1];
  }

  /** Starting the association switches the LED on. */
  lemma JoinStartLedOn(cfg: Config, lit: bool)
    ensures LedAfter(JoinStart(cfg), lit)
  {
    var connect := Connect(cfg.wifiSsid, cfg.wifiPassword);
    assert JoinStart(cfg) == [QueryConnected, LedOn] + [StaActive(true), connect];
    LedAfterSnoc([QueryConnected], LedOn, lit);
    LedAfterConcat([QueryConnected, LedOn], [StaActive(true), connect], lit);
    LedAfterQuiet([StaActive(true), connect], true);
  }

  /** and left the LED on. */
  lemma TimedOutLedOn(cfg: Config)
    ensures forall lit :: LedAfter(TimedOut(cfg), lit)
  {
    forall x: bool ensures LedAfter(FailedPoll, x) == x {
      LedAfterQuiet(FailedPoll, x);
    }
    forall lit: bool ensures LedAfter(TimedOut(cfg), lit) {
      JoinStartLedOn(cfg, lit);
      LedAfterConcat(JoinStart(cfg), Repeat(FailedPoll, ConnectAttempts), lit);
      LedAfterRepeatUntouched(FailedPoll, ConnectAttempts, true);
    }
  }

  /** No loop check succeeds: RuntimeError after the 30th failed poll (counted by the TimedOut lemmas). */
  lemma WifiTimesOut(cfg: Config, connected: nat -> bool)
    requires forall j :: 0 <= j <= ConnectAttempts ==> !connected(j)
    ensures WifiConnectSpec(cfg, connected) == Step(TimedOut(cfg), Err(WifiTimeout))
  {
    JoinFromTimesOut(connected, 0, JoinStart(cfg));
  }

  /** wifi_connect returns normally exactly when one of its 31 isconnected() checks succeeds. */
  lemma WifiOkIff(cfg: Config, connected: nat -> bool)
    ensures WifiConnectSpec(cfg, connected).result.Ok? <==>
      exists k :: 0 <= k <= ConnectAttempts && connected(k)
  {
    if !connected(0) {
      JoinFromOkIff(connected, 0, JoinStart(cfg));
    } else {
      assert 0 <= 0 <= ConnectAttempts && connected(0);
    }
  }

  /** The join touches only the LED, the station interface, isconnected() and one-second sleeps. */
  lemma WifiCountOther(cfg: Config, connected: nat -> bool, p: Event -> bool)
    requires !p(QueryConnected) && !p(LedOn) && !p(LedOff) && !p(StaActive(true))
    requires !p(Connect(cfg.wifiSsid, cfg.wifiPassword)) && !p(Sleep(1.0))
    ensures CountIf(WifiConnectSpec(cfg, connected).trace, p) == 0
  {
    JoinBlockCounts(cfg, p);
    if connected(0) {
      CountIfTwo(QueryConnected, LedOff, p);
    } else {
      JoinFromCountOther(connected, 0, JoinStart(cfg), p);
    }
  }

  /** The LED is off after a join that succeeded and on after one that gave up. */
  lemma WifiLed(cfg: Config, connected: nat -> bool, lit: bool)
    ensures var w := WifiConnectSpec(cfg, connected);
      LedAfter(w.trace, lit) == w.result.Err?
  {
    if connected(0) {
      WifiAlreadyConnected(cfg, connected);
    } else {
      JoinFromLed(connected, 0, JoinStart(cfg), lit);
      JoinStartLedOn(cfg, lit);
    }
  }

  // ---------------------------------------------------------------------------
  // get_current_time, get_measurement, prime_measurement_sensor

  /** The current Unix time; only status 200 is accepted. */
  function GetCurrentTime(reply: TimeReply): (s: Step<int>)
    ensures s.trace == [HttpGet(TimeUrl)]
    ensures s.result.Ok? <==> reply.TimeReply? && reply.status == 200
    ensures s.result.Ok? ==> s.result.value == reply.unixtime
  {
    match reply
    case NoTimeReply => Step([HttpGet(TimeUrl)], Err(TimeUnreachable))
    case TimeReply(status, unixtime) =>
      if status != 200 then Step([HttpGet(TimeUrl)], Err(TimeRejected(status)))
      else Step([HttpGet(TimeUrl)], Ok(unixtime))
  }

  /** Celsius to Fahrenheit, in exact arithmetic. */
  function Fahrenheit(celsius: real): (f: real)
    ensures (f - 32.0) * 5.0 / 9.0 == celsius
  {
    celsius * 9.0 / 5.0 + 32.0
  }

  /** LED on, read the DHT11, LED off, fetch the time, build the reading record. */
  function GetMeasurement(sample: Sample, time: TimeReply): Step<Measurement>
  {
    match sample
    case NoSample => Step([LedOn, Measure], Err(SensorFailure))
    case Sample(celsius, humidity) =>
      var t := GetCurrentTime(time);
      var trace := [LedOn, Measure, LedOff] + t.trace;
      match t.result
      case Err(e) => Step(trace, Err(e))
      case Ok(timestamp) =>
        Step(trace, Ok(Measurement(timestamp, Temperature(celsius, Fahrenheit(celsius)), humidity)))
  }

  /** A reading whose result is discarded, then one second of settling. */
  function PrimeSensor(sample: Sample, time: TimeReply): Step<()>
  {
    Step(GetMeasurement(sample, time).trace + [Sleep(1.0)], Ok(()))
  }

  /**
   * The reading record carries the sensor's values and the server's time; it
   * exists exactly when the sensor answered and the time server said 200, and
   * otherwise the first failure is the error.
   */
  lemma MeasurementRecord(sample: Sample, time: TimeReply)
    ensures var g := GetMeasurement(sample, time);
      && (g.result.Ok? <==> sample.Sample? && time.TimeReply? && time.status == 200)
      && (g.result.Ok? ==>
            && g.result.value.timestamp == time.unixtime
            && g.result.value.temperature.celsius == sample.celsius
            && (g.result.value.temperature.fahrenheit - 32.0) * 5.0 / 9.0 == sample.celsius
            && g.result.value.humidity == sample.humidity)
      && (sample.NoSample? ==> g.result == Err(SensorFailure))
      && (sample.Sample? && g.result.Err? ==> g.result.error == GetCurrentTime(time).result.error)
  {
  }

  /** Which events a reading can produce, counted. */
  lemma MeasurementCount(sample: Sample, time: TimeReply, p: Event -> bool)
    ensures CountIf(GetMeasurement(sample, time).trace, p) ==
      Bit(p(LedOn)) + Bit(p(Measure)) + (if sample.Sample? then Bit(p(LedOff)) + Bit(p(HttpGet(TimeUrl))) else 0)
  {
    if sample.NoSample? {
      CountIfTwo(LedOn, Measure, p);
    } else {
      assert GetMeasurement(sample, time).trace == [LedOn, Measure, LedOff, HttpGet(TimeUrl)];
      CountIfFour(LedOn, Measure, LedOff, HttpGet(TimeUrl), p);
    }
  }

  /** The LED goes on and the sensor is read before anything else. */
  lemma MeasurementStartsWithRead(sample: Sample, time: TimeReply)
    ensures [LedOn, Measure] <= GetMeasurement(sample, time).trace
  {
  }

  /** The sensor is read exactly once. */
  lemma MeasurementReadsOnce(sample: Sample, time: TimeReply)
    ensures CountIf(GetMeasurement(sample, time).trace, Is(Measure)) == 1
  {
    MeasurementCount(sample, time, Is(Measure));
  }

  /** The time server is asked once if the sensor answered, and never otherwise. */
  lemma MeasurementAsksTimeAfterSensor(sample: Sample, time: TimeReply)
    ensures CountIf(GetMeasurement(sample, time).trace, Is(HttpGet(TimeUrl))) == Bit(sample.Sample?)
  {
    MeasurementCount(sample, time, Is(HttpGet(TimeUrl)));
  }

  lemma MeasurementNeverSleeps(sample: Sample, time: TimeReply)
    ensures CountIf(GetMeasurement(sample, time).trace, IsSleep) == 0
  {
    MeasurementCount(sample, time, IsSleep);
  }

  /** The LED is left on exactly when the sensor failed. */
  lemma MeasurementLed(sample: Sample, time: TimeReply)
    ensures forall lit :: LedAfter(GetMeasurement(sample, time).trace, lit) == sample.NoSample?
  {
    var t := GetMeasurement(sample, time).trace;
    forall lit: bool ensures LedAfter(t, lit) == sample.NoSample? {
      if sample.NoSample? {
        assert t == [LedOn] + [Measure];
        LedAfterSnoc([LedOn], Measure, lit);
        LedAfterSnoc([], LedOn, lit);
      } else {
        assert t == [LedOn, Measure, LedOff] + [HttpGet(TimeUrl)];
        LedAfterSnoc([LedOn, Measure, LedOff], HttpGet(TimeUrl), lit);
        LedAfterSnoc([LedOn, Measure], LedOff, lit);
      }
    }
  }

  /**
   * prime_measurement_sensor never fails: whatever the reading does, what
   * follows it is exactly one one-second sleep, and it is the last event.
   */
  lemma PrimeSwallowsFailures(sample: Sample, time: TimeReply)
    ensures var p := PrimeSensor(sample, time);
      && p.result == Ok(())
      && p.trace == GetMeasurement(sample, time).trace + [Sleep(1.0)]
      && CountIf(p.trace, IsSleep) == 1
      && p.trace[|p.trace| - 1] == Sleep(1.0)
  {
    MeasurementNeverSleeps(sample, time);
    CountIfConcat(GetMeasurement(sample, time).trace, [Sleep(1.0)], IsSleep);
    CountIfSingleton(Sleep(1.0), IsSleep);
  }

  // ---------------------------------------------------------------------------
  // send_measurement

  /** POST {device_id, measurement} with REQUEST_HEADERS; a status of 400 or more is a failure. */
  function SendMeasurement(dev: Device, m: Measurement, reply: PostReply): Step<()>
  {
    var post := HttpPost(dev.config.webhookUrl, dev.headers, Payload(dev.deviceId, m));
    match reply
    case NoPostReply => Step([post], Err(ReportUnreachable))
    case PostReply(status) =>
      if status >= 400 then Step([post], Err(ReportRejected(status))) else Step([post], Ok(()))
  }

  /** One POST of the reading to the webhook; it succeeds exactly on a reply below 400. */
  lemma ReportOutcome(dev: Device, m: Measurement, reply: PostReply)
    ensures var s := SendMeasurement(dev, m, reply);
      && (s.result.Ok? <==> reply.PostReply? && reply.status < 400)
      && (s.result.Err? ==> s.result.error == if reply.PostReply? then ReportRejected(reply.status) else ReportUnreachable)
      && s.trace == [HttpPost(dev.config.webhookUrl, dev.headers, Payload(dev.deviceId, m))]
  {
  }

  /**
   * On a loaded device every report names the device in its body and in its
   * header alike, as JSON; the name is the lowercase hexadecimal of the unique
   * id and decodes back to it.
   */
  lemma ReportIdentifiesDevice(config: Config, uniqueId: seq<Hex.byte>, m: Measurement, reply: PostReply)
    ensures var post := SendMeasurement(LoadDevice(config, uniqueId), m, reply).trace[0];
      var mac := post.headers.deviceMac;
      && post.body == Payload(mac, m)
      && post.headers.contentType == JsonContentType
      && |mac| == 2 * |uniqueId| && Hex.IsLowerHex(mac)
      && Hex.Unhexlify(mac) == Some(uniqueId)
  {
  }

  // ---------------------------------------------------------------------------
  // show_error

  /** One blink: a quarter second dark, half a second lit. */
  const Pulse: seq<Event> := [Sleep(0.25), LedOn, Sleep(0.5), LedOff]

  function BlinkTrace(): seq<Event>
  {
    [LedOff] + Repeat(Pulse, BlinkCount)
  }

  method ShowError() returns (trace: seq<Event>)
    ensures trace == BlinkTrace()
  {
    trace := [LedOff];
    for i := 0 to BlinkCount
      invariant trace == [LedOff] + Repeat(Pulse, i)
    {
      trace := trace + [Sleep(0.25)];
      trace := trace + [LedOn];
      trace := trace + [Sleep(0.5)];
      trace := trace + [LedOff];
      assert trace == [LedOff] + (Repeat(Pulse, i) + Pulse);
    }
  }

  /** Counting over the blink sequence. */
  lemma BlinkCountOf(p: Event -> bool)
    ensures CountIf(BlinkTrace(), p) == Bit(p(LedOff)) + CountIf(Repeat(Pulse, BlinkCount), p)
    ensures CountIf(Pulse, p) == Bit(p(Sleep(0.25))) + Bit(p(LedOn)) + Bit(p(Sleep(0.5))) + Bit(p(LedOff))
  {
    CountIfCons(LedOff, Repeat(Pulse, BlinkCount), p);
    CountIfFour(Sleep(0.25), LedOn, Sleep(0.5), LedOff, p);
  }

  /** An event other than the initial LedOff that occurs once per pulse occurs BlinkCount times. */
  lemma BlinkOncePerPulse(e: Event)
    requires e != LedOff
    requires CountIf(Pulse, Is(e)) == 1
    ensures CountIf(BlinkTrace(), Is(e)) == BlinkCount
  {
    CountIfCons(LedOff, Repeat(Pulse, BlinkCount), Is(e));
    CountIfRepeatOnce(Pulse, BlinkCount, Is(e));
  }

  /** Ten quarter-second dark phases. */
  lemma BlinkDarkPhases()
    ensures CountIf(BlinkTrace(), Is(Sleep(0.25))) == BlinkCount
  {
    CountIfFour(Sleep(0.25), LedOn, Sleep(0.5), LedOff, Is(Sleep(0.25)));
    BlinkOncePerPulse(Sleep(0.25));
  }

  /** Ten half-second lit phases. */
  lemma BlinkLitPhases()
    ensures CountIf(BlinkTrace(), Is(Sleep(0.5))) == BlinkCount
  {
    CountIfFour(Sleep(0.25), LedOn, Sleep(0.5), LedOff, Is(Sleep(0.5)));
    BlinkOncePerPulse(Sleep(0.5));
  }

  /** The LED is switched on ten times. */
  lemma BlinkLedOns()
    ensures CountIf(BlinkTrace(), Is(LedOn)) == BlinkCount
  {
    CountIfFour(Sleep(0.25), LedOn, Sleep(0.5), LedOff, Is(LedOn));
    BlinkOncePerPulse(LedOn);
  }

  /** The blink reads no sensor and talks to no server. */
  lemma BlinkOnlyLedAndSleep(p: Event -> bool)
    requires !p(LedOn) && !p(LedOff) && !p(Sleep(0.25)) && !p(Sleep(0.5))
    ensures CountIf(BlinkTrace(), p) == 0
  {
    BlinkCountOf(p);
    CountIfRepeatNever(Pulse, BlinkCount, p);
  }

  /** show_error starts by switching the LED off and leaves it off, whatever it was. */
  lemma BlinkEndsDark()
    ensures BlinkTrace()[0] == LedOff
    ensures forall lit :: !LedAfter(BlinkTrace(), lit)
  {
    forall lit: bool ensures !LedAfter(BlinkTrace(), lit) {
      assert Pulse == [Sleep(0.25), LedOn, Sleep(0.5)] + [LedOff];
      forall x: bool ensures !LedAfter(Pulse, x) {
        LedAfterSnoc([Sleep(0.25), LedOn, Sleep(0.5)], LedOff, x);
      }
      LedAfterConcat([LedOff], Repeat(Pulse, BlinkCount), lit);
      LedAfterRepeat(Pulse, BlinkCount, LedAfter([LedOff], lit), false);
    }
  }

  // ---------------------------------------------------------------------------
  // machine_sleep and run

  function MachineSleep(cfg: Config): seq<Event>
  {
    [Sleep(cfg.interval)]
  }

  /** What happens after a cycle: machine_sleep when deployed, nothing otherwise. */
  function AfterCycle(cfg: Config): seq<Event>
  {
    if cfg.deployed then MachineSleep(cfg) else []
  }

  function Fail<T>(trace: seq<Event>, e: Error): Step<T>
  {
    Step(trace + BlinkTrace(), Err(e))
  }

  /**
   * The body of run's try/except over the stages' results: the four stages in
   * order, and show_error after the first that failed. `report` posts a reading.
   */
  function Compose(w: Step<()>, prime: Step<()>, g: Step<Measurement>,
                   report: Measurement -> Step<()>): Step<()>
  {
    if w.result.Err? then Fail(w.trace, w.result.error)
    else
      var t := w.trace + prime.trace + g.trace;
      if g.result.Err? then Fail(t, g.result.error)
      else
        var s := report(g.result.value);
        if s.result.Err? then Fail(t + s.trace, s.result.error)
        else Step(t + s.trace, Ok(()))
  }

  /** send_measurement for this device and this webhook reply. */
  function Reporter(dev: Device, reply: PostReply): Measurement -> Step<()>
  {
    m => SendMeasurement(dev, m, reply)
  }

  /** One cycle of run: wifi_connect, prime_measurement_sensor, get_measurement, send_measurement. */
  function Cycle(dev: Device, env: CycleEnv): Step<()>
  {
    Compose(WifiConnectSpec(dev.config, env.connected), PrimeSensor(env.primeSample, env.primeTime),
            GetMeasurement(env.sample, env.time), Reporter(dev, env.post))
  }

  lemma PrimeCount(sample: Sample, time: TimeReply, p: Event -> bool)
    ensures CountIf(PrimeSensor(sample, time).trace, p) ==
      CountIf(GetMeasurement(sample, time).trace, p) + Bit(p(Sleep(1.0)))
  {
    CountIfConcat(GetMeasurement(sample, time).trace, [Sleep(1.0)], p);
    CountIfSingleton(Sleep(1.0), p);
  }

  /**
   * Counting over a composed cycle: each stage reached contributes its events,
   * and show_error's come on top when the cycle failed.
   */
  lemma ComposeCount(w: Step<()>, prime: Step<()>, g: Step<Measurement>, report: Measurement -> Step<()>,
                     p: Event -> bool)
    ensures var c := Compose(w, prime, g, report);
      CountIf(c.trace, p) ==
        CountIf(w.trace, p)
        + (if w.result.Err? then 0
           else CountIf(prime.trace, p) + CountIf(g.trace, p)
                + if g.result.Err? then 0 else CountIf(report(g.result.value).trace, p))
        + (if c.result.Err? then CountIf(BlinkTrace(), p) else 0)
  {
    if w.result.Err? {
      CountIfConcat(w.trace, BlinkTrace(), p);
    } else {
      var t := w.trace + prime.trace + g.trace;
      CountIfConcat(w.trace, prime.trace, p);
      CountIfConcat(w.trace + prime.trace, g.trace, p);
      if g.result.Err? {
        CountIfConcat(t, BlinkTrace(), p);
      } else {
        var s := report(g.result.value);
        CountIfConcat(t, s.trace, p);
        CountIfConcat(t + s.trace, BlinkTrace(), p);
      }
    }
  }

  /** The join reads no sensor, posts nothing and does not blink. */
  lemma WifiQuiet(cfg: Config, connected: nat -> bool)
    ensures CountIf(WifiConnectSpec(cfg, connected).trace, Is(Measure)) == 0
    ensures CountIf(WifiConnectSpec(cfg, connected).trace, IsPost) == 0
    ensures CountIf(WifiConnectSpec(cfg, connected).trace, Is(Sleep(0.25))) == 0
  {
    WifiCountOther(cfg, connected, Is(Measure));
    WifiCountOther(cfg, connected, IsPost);
    WifiCountOther(cfg, connected, Is(Sleep(0.25)));
  }

  /** Priming reads the sensor once, posts nothing and does not blink. */
  lemma PrimeQuiet(sample: Sample, time: TimeReply)
    ensures CountIf(PrimeSensor(sample, time).trace, Is(Measure)) == 1
    ensures CountIf(PrimeSensor(sample, time).trace, IsPost) == 0
    ensures CountIf(PrimeSensor(sample, time).trace, Is(Sleep(0.25))) == 0
  {
    PrimeCount(sample, time, Is(Measure));
    MeasurementReadsOnce(sample, time);
    PrimeCount(sample, time, IsPost);
    MeasurementCount(sample, time, IsPost);
    PrimeCount(sample, time, Is(Sleep(0.25)));
    MeasurementCount(sample, time, Is(Sleep(0.25)));
  }

  /** A reading posts nothing and does not blink. */
  lemma MeasurementQuiet(sample: Sample, time: TimeReply)
    ensures CountIf(GetMeasurement(sample, time).trace, IsPost) == 0
    ensures CountIf(GetMeasurement(sample, time).trace, Is(Sleep(0.25))) == 0
  {
    MeasurementCount(sample, time, IsPost);
    MeasurementCount(sample, time, Is(Sleep(0.25)));
  }

  /** Reporting is one POST and nothing else, whatever the reading. */
  lemma ReportQuiet(dev: Device, reply: PostReply)
    ensures forall m :: CountIf(SendMeasurement(dev, m, reply).trace, Is(Measure)) == 0
    ensures forall m :: CountIf(SendMeasurement(dev, m, reply).trace, IsPost) == 1
    ensures forall m :: CountIf(SendMeasurement(dev, m, reply).trace, Is(Sleep(0.25))) == 0
  {
    forall m: Measurement
      ensures CountIf(SendMeasurement(dev, m, reply).trace, Is(Measure)) == 0
      ensures CountIf(SendMeasurement(dev, m, reply).trace, IsPost) == 1
      ensures CountIf(SendMeasurement(dev, m, reply).trace, Is(Sleep(0.25))) == 0
    {
      var e := SendMeasurement(dev, m, reply).trace[0];
      assert SendMeasurement(dev, m, reply).trace == [e];
      CountIfSingleton(e, Is(Measure));
      CountIfSingleton(e, IsPost);
      CountIfSingleton(e, Is(Sleep(0.25)));
    }
  }

  /** The blink reads no sensor and posts nothing. */
  lemma BlinkQuiet()
    ensures CountIf(BlinkTrace(), Is(Measure)) == 0
    ensures CountIf(BlinkTrace(), IsPost) == 0
  {
    BlinkOnlyLedAndSleep(Is(Measure));
    BlinkOnlyLedAndSleep(IsPost);
  }

  /** A cycle whose join failed reads no sensor; one that joined reads it twice (priming included). */
  lemma CycleMeasures(dev: Device, env: CycleEnv)
    ensures CountIf(Cycle(dev, env).trace, Is(Measure)) ==
      if WifiConnectSpec(dev.config, env.connected).result.Ok? then 2 else 0
  {
    WifiQuiet(dev.config, env.connected);
    PrimeQuiet(env.primeSample, env.primeTime);
    MeasurementReadsOnce(env.sample, env.time);
    ReportQuiet(dev, env.post);
    BlinkQuiet();
    var w := WifiConnectSpec(dev.config, env.connected);
    var pr := PrimeSensor(env.primeSample, env.primeTime);
    var g := GetMeasurement(env.sample, env.time);
    ComposeCount(w, pr, g, Reporter(dev, env.post), Is(Measure));
    assert CountIf(Cycle(dev, env).trace, Is(Measure)) ==
      CountIf(w.trace, Is(Measure)) + (if w.result.Err? then 0 else 2);
  }

  /** A report is posted exactly when the join and the reading both succeeded, and at most once. */
  lemma CyclePosts(dev: Device, env: CycleEnv)
    ensures CountIf(Cycle(dev, env).trace, IsPost) ==
      Bit(WifiConnectSpec(dev.config, env.connected).result.Ok? && GetMeasurement(env.sample, env.time).result.Ok?)
  {
    WifiQuiet(dev.config, env.connected);
    PrimeQuiet(env.primeSample, env.primeTime);
    MeasurementQuiet(env.sample, env.time);
    ReportQuiet(dev, env.post);
    BlinkQuiet();
    ComposeCount(WifiConnectSpec(dev.config, env.connected), PrimeSensor(env.primeSample, env.primeTime),
                 GetMeasurement(env.sample, env.time), Reporter(dev, env.post), IsPost);
  }

  /** A failed cycle ends with show_error. */
  lemma CycleEndsWithBlink(dev: Device, env: CycleEnv)
    ensures Cycle(dev, env).result.Err? ==> exists before :: Cycle(dev, env).trace == before + BlinkTrace()
  {
    var w := WifiConnectSpec(dev.config, env.connected);
    var g := GetMeasurement(env.sample, env.time);
    var t := w.trace + PrimeSensor(env.primeSample, env.primeTime).trace + g.trace;
    if w.result.Err? {
      assert Cycle(dev, env).trace == w.trace + BlinkTrace();
    } else if g.result.Err? {
      assert Cycle(dev, env).trace == t + BlinkTrace();
    } else {
      var s := SendMeasurement(dev, g.result.value, env.post);
      assert s.result.Err? ==> Cycle(dev, env).trace == (t + s.trace) + BlinkTrace();
    }
  }

  /** show_error runs exactly when the cycle failed: ten quarter-second dark phases, or none. */
  lemma CycleBlinksOnFailure(dev: Device, env: CycleEnv)
    ensures CountIf(Cycle(dev, env).trace, Is(Sleep(0.25))) == if Cycle(dev, env).result.Err? then BlinkCount else 0
  {
    WifiQuiet(dev.config, env.connected);
    PrimeQuiet(env.primeSample, env.primeTime);
    MeasurementQuiet(env.sample, env.time);
    ReportQuiet(dev, env.post);
    BlinkDarkPhases();
    ComposeCount(WifiConnectSpec(dev.config, env.connected), PrimeSensor(env.primeSample, env.primeTime),
                 GetMeasurement(env.sample, env.time), Reporter(dev, env.post), Is(Sleep(0.25)));
  }

  /** Whatever happens, the LED is off when a cycle ends. */
  lemma CycleEndsDark(dev: Device, env: CycleEnv)
    ensures forall lit :: !LedAfter(Cycle(dev, env).trace, lit)
  {
    var c := Cycle(dev, env);
    var w := WifiConnectSpec(dev.config, env.connected);
    BlinkEndsDark();
    forall lit: bool ensures !LedAfter(c.trace, lit) {
      if c.result.Err? {
        CycleEndsWithBlink(dev, env);
        var before :| c.trace == before + BlinkTrace();
        LedAfterConcat(before, BlinkTrace(), lit);
      } else {
        var pr := PrimeSensor(env.primeSample, env.primeTime);
        var g := GetMeasurement(env.sample, env.time);
        var s := SendMeasurement(dev, g.result.value, env.post);
        assert c.trace == (w.trace + pr.trace) + g.trace + s.trace;
        LedAfterConcat((w.trace + pr.trace) + g.trace, s.trace, lit);
        LedAfterConcat(w.trace + pr.trace, g.trace, lit);
        MeasurementLed(env.sample, env.time);
        LedAfterQuiet(s.trace, false);
      }
    }
  }

  /**
   * A cycle succeeds exactly when one of the join's checks finds the station
   * associated, the sensor answers, the time server says 200 and the webhook
   * answers below 400.
   */
  lemma CycleSucceedsIff(dev: Device, env: CycleEnv)
    ensures Cycle(dev, env).result.Ok? <==>
      && (exists k :: 0 <= k <= ConnectAttempts && env.connected(k))
      && env.sample.Sample? && env.time.TimeReply? && env.time.status == 200
      && env.post.PostReply? && env.post.status < 400
  {
    WifiOkIff(dev.config, env.connected);
    MeasurementRecord(env.sample, env.time);
    var g := GetMeasurement(env.sample, env.time);
    if g.result.Ok? {
      ReportOutcome(dev, g.result.value, env.post);
    }
  }

  method RunCycle(dev: Device, env: CycleEnv) returns (trace: seq<Event>, result: Result<()>)
    ensures Step(trace, result) == Cycle(dev, env)
  {
    var w;
    trace, w := WifiConnect(dev.config, env.connected);
    result := w;
    if w.Ok? {
      var p := PrimeSensor(env.primeSample, env.primeTime);
      trace := trace + p.trace;
      var g := GetMeasurement(env.sample, env.time);
      trace := trace + g.trace;
      if g.result.Err? {
        result := Err(g.result.error);
      } else {
        var s := SendMeasurement(dev, g.result.value, env.post);
        trace := trace + s.trace;
        result := s.result;
      }
    }
    if result.Err? {
      var blink := ShowError();
      trace := trace + blink;
    }
  }

  /** The run as observed: its trace, the cycles it went through, and the final `running` flag. */
  datatype RunRecord = RunRecord(trace: seq<Event>, cycles: nat, running: bool)

  function Prefixed(trace: seq<Event>, cycles: nat, r: RunRecord): RunRecord
  {
    RunRecord(trace + r.trace, cycles + r.cycles, r.running)
  }

  /**
   * The loop of `run` over the outcomes of successive cycles. The firmware may
   * loop forever; a `running` flag still true means the cycles given ran out
   * while the firmware would go on.
   */
  function RunOver(cfg: Config, steps: seq<Step<()>>): RunRecord
    decreases |steps|
  {
    if |steps| == 0 then RunRecord([], 0, true)
    else
      var t := steps[0].trace + AfterCycle(cfg);
      if steps[0].result.Ok? && cfg.deployed then Prefixed(t, 1, RunOver(cfg, steps[1..]))
      else RunRecord(t, 1, false)
  }

  /** The cycles `run` would go through if every one of them were reached. */
  function CycleSteps(dev: Device, envs: seq<CycleEnv>): (steps: seq<Step<()>>)
    ensures |steps| == |envs|
  {
    if |envs| == 0 then [] else [Cycle(dev, envs[0])] + CycleSteps(dev, envs[1..])
  }

  lemma {:induction false} CycleStepsAt(dev: Device, envs: seq<CycleEnv>, i: nat)
    requires i < |envs|
    ensures CycleSteps(dev, envs)[i] == Cycle(dev, envs[i])
  {
    if i > 0 {
      CycleStepsAt(dev, envs[1..], i - 1);
    }
  }

  function RunSpec(dev: Device, envs: seq<CycleEnv>): RunRecord
  {
    RunOver(dev.config, CycleSteps(dev, envs))
  }

  lemma PrefixedTwice(a: seq<Event>, n: nat, b: seq<Event>, m: nat, r: RunRecord)
    ensures Prefixed(a, n, Prefixed(b, m, r)) == Prefixed(a + b, n + m, r)
  {
    assert a + (b + r.trace) == (a + b) + r.trace;
  }

  /** One more cycle of RunOver, from cycle c on. */
  lemma RunOverAt(cfg: Config, steps: seq<Step<()>>, c: nat)
    requires c < |steps|
    ensures var t := steps[c].trace + AfterCycle(cfg);
      RunOver(cfg, steps[c..]) ==
        if steps[c].result.Ok? && cfg.deployed then Prefixed(t, 1, RunOver(cfg, steps[c + 1..]))
        else RunRecord(t, 1, false)
  {
    assert steps[c..][0] == steps[c];
    assert steps[c..][1..] == steps[c + 1..];
  }

  /** One pass of run's loop body: a cycle, then machine_sleep when deployed. */
  method RunBody(dev: Device, envs: seq<CycleEnv>, c: nat, before: seq<Event>)
    returns (trace: seq<Event>, running: bool)
    requires c < |envs|
    ensures trace == before + (CycleSteps(dev, envs)[c].trace + AfterCycle(dev.config))
    ensures running == (CycleSteps(dev, envs)[c].result.Ok? && dev.config.deployed)
  {
    var t, result := RunCycle(dev, envs[c]);
    CycleStepsAt(dev, envs, c);
    trace := before + t;
    running := result.Ok?;
    if dev.config.deployed {
      trace := trace + MachineSleep(dev.config);
    } else {
      running := false;
    }
  }

  /** run's loop from cycle c on, after the events `done`; the same run as RunOver. */
  function RunFrom(cfg: Config, steps: seq<Step<()>>, c: nat, done: seq<Event>): RunRecord
    requires c <= |steps|
    decreases |steps| - c
  {
    if c == |steps| then RunRecord(done, c, true)
    else
      var t := steps[c].trace + AfterCycle(cfg);
      if steps[c].result.Ok? && cfg.deployed then RunFrom(cfg, steps, c + 1, done + t)
      else RunRecord(done + t, c + 1, false)
  }

  lemma {:induction false} RunFromOver(cfg: Config, steps: seq<Step<()>>, c: nat, done: seq<Event>)
    requires c <= |steps|
    ensures RunFrom(cfg, steps, c, done) == Prefixed(done, c, RunOver(cfg, steps[c..]))
    decreases |steps| - c
  {
    if c == |steps| {
      assert steps[c..] == [];
      assert done + [] == done;
    } else {
      var t := steps[c].trace + AfterCycle(cfg);
      RunOverAt(cfg, steps, c);
      if steps[c].result.Ok? && cfg.deployed {
        RunFromOver(cfg, steps, c + 1, done + t);
        PrefixedTwice(done, c, t, 1, RunOver(cfg, steps[c + 1..]));
      }
    }
  }

  method Run(dev: Device, envs: seq<CycleEnv>) returns (trace: seq<Event>, cycles: nat, running: bool)
    ensures RunRecord(trace, cycles, running) == RunSpec(dev, envs)
  {
    ghost var steps := CycleSteps(dev, envs);
    RunFromOver(dev.config, steps, 0, []);
    assert Prefixed([], 0, RunOver(dev.config, steps[0..])) == RunSpec(dev, envs) by {
      assert steps[0..] == steps;
    }
    trace, cycles, running := [], 0, true;
    while running && cycles < |envs|
      invariant cycles <= |envs|
      invariant running ==> RunFrom(dev.config, steps, cycles, trace) == RunSpec(dev, envs)
      invariant !running ==> RunRecord(trace, cycles, false) == RunSpec(dev, envs)
      decreases |envs| - cycles
    {
      trace, running := RunBody(dev, envs, cycles, trace);
      cycles := cycles + 1;
    }
  }

  /** The traces of the given cycles, each followed by machine_sleep. */
  function SleptAfterEach(cfg: Config, steps: seq<Step<()>>): seq<Event>
  {
    if |steps| == 0 then [] else steps[0].trace + MachineSleep(cfg) + SleptAfterEach(cfg, steps[1..])
  }

  /**
   * Deployed: every cycle reached is followed by machine_sleep, a failed one
   * included; the loop stops after the first failed cycle and only then.
   */
  lemma {:induction false} RunOverDeployed(cfg: Config, steps: seq<Step<()>>)
    requires cfg.deployed
    ensures var r := RunOver(cfg, steps);
      && r.cycles <= |steps|
      && r.trace == SleptAfterEach(cfg, steps[..r.cycles])
      && (forall i :: 0 <= i < r.cycles - 1 ==> steps[i].result.Ok?)
      && (r.running <==> r.cycles == |steps| && forall i :: 0 <= i < |steps| ==> steps[i].result.Ok?)
      && (!r.running ==> 0 < r.cycles && steps[r.cycles - 1].result.Err?)
    decreases |steps|
  {
    if |steps| > 0 {
      var t := steps[0].trace + MachineSleep(cfg);
      var r := RunOver(cfg, steps);
      if steps[0].result.Ok? {
        var rest := steps[1..];
        RunOverDeployed(cfg, rest);
        var r' := RunOver(cfg, rest);
        assert steps[..r.cycles][1..] == rest[..r'.cycles];
        assert forall i :: 1 <= i < |steps| ==> steps[i] == rest[i - 1];
      } else {
        assert steps[..1][1..] == [];
      }
    }
  }

  /** Not deployed: exactly one cycle, and no machine_sleep after it. */
  lemma RunNotDeployed(dev: Device, envs: seq<CycleEnv>)
    requires !dev.config.deployed && |envs| > 0
    ensures RunSpec(dev, envs) == RunRecord(Cycle(dev, envs[0]).trace, 1, false)
  {
    CycleStepsAt(dev, envs, 0);
    assert CycleSteps(dev, envs)[0].trace + AfterCycle(dev.config) == CycleSteps(dev, envs)[0].trace;
  }

  /** Deployed: the run stops at its first failed cycle, and every cycle before it succeeded. */
  lemma RunDeployed(dev: Device, envs: seq<CycleEnv>)
    requires dev.config.deployed
    ensures var r := RunSpec(dev, envs);
      && r.cycles <= |envs|
      && r.trace == SleptAfterEach(dev.config, CycleSteps(dev, envs)[..r.cycles])
      && (forall i :: 0 <= i < r.cycles - 1 ==> Cycle(dev, envs[i]).result.Ok?)
      && (!r.running ==> 0 < r.cycles && Cycle(dev, envs[r.cycles - 1]).result.Err?)
  {
    var steps := CycleSteps(dev, envs);
    RunOverDeployed(dev.config, steps);
    forall i | 0 <= i < |envs| ensures steps[i] == Cycle(dev, envs[i]) {
      CycleStepsAt(dev, envs, i);
    }
  }
}
