# DHT11 sensor node firmware, modelled in Dafny

This project models the operating cycle of a MicroPython sensor node, an
ESP8266 with a DHT11 temperature and humidity sensor. It also models the
Wi-Fi helper the node's boot stage uses.

- `firmware/main.py` runs a cycle:
  - join the Wi-Fi network, giving up after 30 one-second polls;
  - prime the DHT11 with a reading whose result is thrown away, then settle for one second;
  - take a real reading and timestamp it from a time server;
  - POST it as `{device_id, measurement}` to a webhook.

  Any exception ends the cycle: the LED blinks ten times and the loop stops.
  When the node is deployed it sleeps `INTERVAL` seconds after every cycle,
  a failed one included. When it is not deployed it runs exactly one cycle.
- `firmware/wlan.py` `connect_wlan` works the same radio with a different policy:
  - it switches the station interface on and the access point off;
  - it polls once per second with no attempt budget;
  - it fails fast on any status other than "connecting" or "got IP".

## How it is modelled

Nothing the firmware talks to is modelled; each collaborator becomes an input:

- the radio, the sensor, the HTTP client, the LED pin and the clock;
- the Wi-Fi checks are an oracle `connected: nat -> bool`, the i-th answer of
  `isconnected()`, and `status: nat -> int` answers `status()`;
- the sensor's reading, the time server's reply and the webhook's reply are
  datatypes, each with a case for the exception the call raises
  (`NoSample`, `NoTimeReply`, `NoPostReply`);
- `machine.unique_id()` is a byte-sequence parameter.

What the firmware does is a trace, a sequence of `Effects.Event`. Every call that
acts on a collaborator or queries it appends one event (`QueryConnected`,
`QueryStatus`, `Measure`, `HttpGet`, `HttpPost`, `LedOn`, `LedOff`,
`Sleep(seconds)`, ...), except the calls listed under "Left out". Properties are then stated over the trace:

- `CountIf` counts the events that pass a test;
- `LedAfter` gives the LED state a trace leaves behind;
- `Repeat` writes one block of events n times.

Modules:

- `Effects`: the event and record types, and the counting and LED lemmas.
- `Hex`: `binascii.hexlify` and `unhexlify`, lowercase Base16 (section 8 of
  RFC 4648), with both round trips proved.
- `Decimal`: Python's `str` of an integer and a parser for it, for the status
  code in wlan's error message.
- `Main`: everything in `main.py`.
  - The loops are methods: `WifiConnect`, `ShowError`, `Run`.
  - Each loop is proved equal to a specification function: `WifiConnectSpec`,
    `BlinkTrace` and `RunSpec`.
  - The stages without loops are functions: `GetCurrentTime`, `GetMeasurement`,
    `PrimeSensor`, `SendMeasurement`, `Cycle`.
  - `Device` holds `DEVICE_ID` and `REQUEST_HEADERS`. `main.py` computes them at
    import, and `LoadDevice` builds them from the unique id.
- `Wlan`: `connect_wlan` as the method `ConnectWlan`, proved equal to `ConnectWlanSpec`.

Two loops may run forever in the firmware, and the model bounds both:

- `run` is driven by a finite sequence of per-cycle oracles. A final
  `running == true` means those cycles ran out while the firmware would go on.
- `connect_wlan` takes `fuel`, the number of loop bodies observed. `StillPolling`
  means the firmware would still be polling.

## Model

| member | source | states |
|---|---|---|
| `Main.DeviceId` | firmware/main.py:10-13 | DEVICE_ID has two lowercase hex characters per unique-id byte and decodes back to the unique id |
| `Hex.Hexlify` | firmware/main.py:13 | hexlify writes two characters per byte, all lowercase hexadecimal |
| `Hex.UnhexlifyHexlify` | firmware/main.py:13 | unhexlify(hexlify(b)) == b for every byte string |
| `Hex.HexlifyUnhexlify` | firmware/main.py:13 | every even-length lowercase hex string is hexlify of exactly the bytes unhexlify gives back |
| `Main.LoadDevice` | firmware/main.py:16-20 | no ensures of its own; builds DEVICE_ID and REQUEST_HEADERS (via `RequestHeaders`) once from the unique id; DeviceId and ReportIdentifiesDevice state what they hold |
| `Main.ReportIdentifiesDevice` | firmware/main.py:16-20 | on a loaded device every POST has JSON content type, and the same id in its `snow-device-mac` header and in its body's `device_id`; that id is the unique id in lowercase hex and decodes back to it |
| `Main.WifiConnect` | firmware/main.py:23-41 | the join's trace and result are exactly those of `WifiConnectSpec`, the check-then-loop over the `isconnected()` oracle |
| `Main.JoinFromJoins` | firmware/main.py:34-38 | when the k-th loop check is the first to succeed, the loop returns normally after the failed polls before it, each a check and a one-second sleep |
| `Main.JoinFromTimesOut` | firmware/main.py:34-38 | when no remaining check succeeds, the loop records one poll per remaining attempt and raises the timeout |
| `Main.JoinFromOkIff` | firmware/main.py:34-38 | the loop returns normally exactly when one of its remaining checks, up to the 30th, succeeds |
| `Main.JoinFromCountOther` | firmware/main.py:34-38 | the loop adds nothing but checks, one-second sleeps and a final LED off |
| `Main.JoinFromLed` | firmware/main.py:34-41 | the loop leaves the LED off when it returns, and as it was when it raises |
| `Main.WifiAlreadyConnected` | firmware/main.py:27-41 | an associated station is neither lit nor asked to connect, nothing sleeps, the result is success and the LED ends off |
| `Main.WifiJoinsAtPoll` | firmware/main.py:27-41 | when the k-th loop check is the first to succeed (k <= 30), the join is exactly the set-up, k - 1 failed polls, the successful check and LED off |
| `Main.JoinedSleeps` | firmware/main.py:34-36 | a join that succeeded at loop check n + 1 slept exactly n one-second periods |
| `Main.JoinedChecks` | firmware/main.py:27-34 | and called `isconnected()` n + 2 times |
| `Main.JoinedConnects` | firmware/main.py:31 | and called `connect` with the configured SSID and password exactly once |
| `Main.JoinedLedOff` | firmware/main.py:41 | and left the LED off |
| `Main.WifiTimesOut` | firmware/main.py:33-38 | when no check succeeds, the join ends with "Failed to connect to WiFi" after exactly 30 failed polls |
| `Main.TimedOutSleeps` | firmware/main.py:35-38 | a timed-out join slept exactly 30 one-second periods, never fewer and never more |
| `Main.TimedOutChecks` | firmware/main.py:34-38 | and called `isconnected()` 31 times, once before the loop and 30 times in it |
| `Main.TimedOutLast` | firmware/main.py:36-38 | and raised straight after its 30th sleep, without checking again |
| `Main.JoinStartLedOn` | firmware/main.py:29-31 | the set-up before the loop leaves the LED lit whatever its earlier state |
| `Main.TimedOutLedOn` | firmware/main.py:29-38 | a timed-out join leaves the LED lit, because the raise comes before `led.off()` |
| `Main.WifiOkIff` | firmware/main.py:27-38 | wifi_connect returns normally exactly when one of its 31 checks succeeds |
| `Main.WifiCountOther` | firmware/main.py:23-41 | the join produces no event outside the LED, the station interface, `isconnected()` and one-second sleeps |
| `Main.WifiLed` | firmware/main.py:29-41 | after a join the LED is lit exactly when the join failed |
| `Main.GetCurrentTime` | firmware/main.py:44-49 | exactly one GET to the time server; the result is the reply's unixtime iff the call returned status 200 |
| `Main.Fahrenheit` | firmware/main.py:60 | the Fahrenheit value converts back to the Celsius reading |
| `Main.GetMeasurement` | firmware/main.py:52-70 | no ensures of its own; LED on, sensor read, LED off, time fetch, record; MeasurementRecord and the Measurement lemmas below state its contract |
| `Main.MeasurementRecord` | firmware/main.py:52-70 | a record exists iff the sensor answered and the time call returned 200; it holds the server's time, the sensor's Celsius and humidity, and the matching Fahrenheit; otherwise the first failure is the error |
| `Main.MeasurementStartsWithRead` | firmware/main.py:55-58 | a reading begins with LED on and the sensor read |
| `Main.MeasurementReadsOnce` | firmware/main.py:58 | a reading reads the DHT11 exactly once |
| `Main.MeasurementAsksTimeAfterSensor` | firmware/main.py:58-64 | the time server is asked once if the sensor answered and never if it failed |
| `Main.MeasurementNeverSleeps` | firmware/main.py:52-70 | a reading does not sleep |
| `Main.MeasurementLed` | firmware/main.py:55-62 | after a reading the LED is lit exactly when the sensor failed |
| `Main.PrimeSensor` | firmware/main.py:73-79 | no ensures of its own; PrimeSwallowsFailures and PrimeQuiet state its contract |
| `Main.PrimeSwallowsFailures` | firmware/main.py:73-79 | priming always succeeds, whatever the sensor and time server do; it is the reading's trace plus one final 1-second sleep |
| `Main.MeasurementQuiet` | firmware/main.py:52-70 | a reading posts nothing and does not blink |
| `Main.PrimeQuiet` | firmware/main.py:73-79 | priming reads the sensor once, posts nothing and does not blink |
| `Main.WifiQuiet` | firmware/main.py:23-41 | the join reads no sensor, posts nothing and does not blink |
| `Main.SendMeasurement` | firmware/main.py:82-90 | no ensures of its own; ReportOutcome, ReportQuiet and ReportIdentifiesDevice state its contract |
| `Main.ReportOutcome` | firmware/main.py:82-90 | exactly one POST of `{device_id, measurement}` to the webhook with REQUEST_HEADERS; success iff the reply status is below 400; otherwise the rejected status or the transport failure is the error |
| `Main.ReportQuiet` | firmware/main.py:82-90 | for every reading, reporting makes exactly one POST, reads no sensor and does not blink (ReportOutcome gives the one-event trace) |
| `Main.ShowError` | firmware/main.py:93-104 | the blink is LED off, then ten pulses of 0.25 s dark, LED on, 0.5 s lit, LED off |
| `Main.BlinkOncePerPulse` | firmware/main.py:100-104 | an event other than the first LED off that occurs once per pulse occurs ten times in the blink |
| `Main.BlinkDarkPhases` | firmware/main.py:100-101 | the blink has ten quarter-second dark phases |
| `Main.BlinkLitPhases` | firmware/main.py:102-103 | and ten half-second lit phases |
| `Main.BlinkLedOns` | firmware/main.py:100-102 | and switches the LED on ten times |
| `Main.BlinkOnlyLedAndSleep` | firmware/main.py:97-104 | the blink touches nothing but the LED and the two sleeps |
| `Main.BlinkQuiet` | firmware/main.py:97-104 | the blink reads no sensor and posts nothing |
| `Main.BlinkEndsDark` | firmware/main.py:98-104 | the blink starts with LED off and leaves the LED off, whatever its earlier state |
| `Main.MachineSleep` | firmware/main.py:107-110 | no ensures of its own; one sleep of INTERVAL seconds, issued after a cycle only when deployed (`AfterCycle`, main.py:139-142); RunBody, RunOverDeployed and RunNotDeployed state where it occurs |
| `Main.RunCycle` | firmware/main.py:119-137 | one pass of run's try/except is exactly `Cycle`: the stages in order, show_error after the first one that fails |
| `Main.ComposeCount` | firmware/main.py:119-137 | a cycle's events are those of the stages it reached, plus the blink's when it failed |
| `Main.CycleMeasures` | firmware/main.py:119-137 | a cycle whose join failed reads no sensor; one whose join succeeded reads it exactly twice, priming included |
| `Main.CyclePosts` | firmware/main.py:119-137 | a cycle posts exactly once if the join and the real reading succeeded, and never otherwise |
| `Main.CycleBlinksOnFailure` | firmware/main.py:134-137 | a cycle contains the ten-pulse blink exactly when it failed |
| `Main.CycleEndsWithBlink` | firmware/main.py:134-137 | a failed cycle ends with show_error |
| `Main.CycleEndsDark` | firmware/main.py:119-137 | every cycle leaves the LED off, whether it succeeded or failed |
| `Main.CycleSucceedsIff` | firmware/main.py:119-137 | a cycle succeeds iff one of the join's checks succeeds, the sensor answers, the time server returns 200 and the webhook returns below 400 |
| `Main.RunBody` | firmware/main.py:119-142 | one loop pass appends the cycle's trace, then machine_sleep when deployed; `running` stays true only for a successful cycle on a deployed node |
| `Main.RunFromOver` | firmware/main.py:118-142 | the loop run from cycle c, after earlier events, is the same run as `RunOver` on the remaining cycles |
| `Main.Run` | firmware/main.py:113-142 | run's trace, cycle count and final `running` flag are exactly `RunSpec` over the cycles' oracles |
| `Main.RunOverDeployed` | firmware/main.py:118-142 | deployed: machine_sleep follows every cycle reached, a failed one included; the loop stops at the first failed cycle and only there |
| `Main.RunNotDeployed` | firmware/main.py:139-142 | not deployed: exactly one cycle, with no machine_sleep after it, whatever its outcome |
| `Main.RunDeployed` | firmware/main.py:116-142 | deployed: the run's trace is each cycle reached followed by a sleep, every cycle before the last succeeded, and a stopped run's last cycle failed |
| `Wlan.ConnectWlan` | firmware/wlan.py:5-33 | connect_wlan's trace and outcome are exactly those of `ConnectWlanSpec`, the set-up then the status-checking loop |
| `Wlan.FailureMessage` | firmware/wlan.py:29 | no ensures of its own; the message every `Raised` outcome carries; FailureMessageCarriesCode states its contract |
| `Wlan.FailureMessageCarriesCode` | firmware/wlan.py:29 | the RuntimeError message is the fixed prefix and the status code in decimal, which parses back to the code |
| `Decimal.IntToStringRoundTrip` | firmware/wlan.py:29 | `str(status)` determines the status: parsing it gives the integer back |
| `Wlan.ActivatesFirst` | firmware/wlan.py:15-20 | station on, access point off and one check come before everything; an associated station returns True at once, without sleeping |
| `Wlan.PollFromExtends` | firmware/wlan.py:24-31 | the loop only appends to the events before it |
| `Wlan.PollFromFailsFast` | firmware/wlan.py:24-29 | from check j on, a rejected status after the k-th sleep raises with that code after exactly the polls up to k |
| `Wlan.FailsFast` | firmware/wlan.py:24-29 | a status other than CONNECTING or GOT_IP read after the k-th sleep raises with that code and its message at once: exactly k one-second sleeps, and the status read is the last event |
| `Wlan.PollFromKeepsPolling` | firmware/wlan.py:24-31 | while the checks fail and the statuses stay in progress, the loop polls through all its fuel |
| `Wlan.KeepsPolling` | firmware/wlan.py:24-31 | there is no budget: for every n, statuses that stay CONNECTING or GOT_IP keep the loop going through n one-second sleeps and it is still polling after them |
| `Wlan.PollFromReturnsTrueIff` | firmware/wlan.py:24-33 | from check j on, the loop returns True iff some check succeeds before any rejected status |
| `Wlan.ReturnsTrueIff` | firmware/wlan.py:20-33 | connect_wlan returns True iff the station was associated at once or became so before a rejected status; it returns no other value |

## Behaviour worth knowing

Where a reader might expect otherwise, the firmware does the following:

- `run` has no OTA (over-the-air update) check and no deep sleep.
  `machine_sleep` is a plain `time.sleep(INTERVAL)`, and the loop starts again
  in the same process.
- A failed cycle sets `running = False` but, on a deployed node, still goes
  through `machine_sleep` before the loop ends.
- There is no Fahrenheit-or-Celsius setting. Every reading carries both values.
- `wifi_connect` has a budget of 30 polls but never reads the status.
- `connect_wlan` reads the status and fails fast, but has no budget.
- A sensor failure in `get_measurement` leaves the LED lit, because `led.off()`
  comes after `d.measure()`. `show_error` switches it off.

## Left out

- The radio, DHT11, HTTP and pin drivers are oracles. Their own behaviour and
  timing are not modelled.
- `machine.unique_id()` is a parameter. `main.py` evaluates it once, at import.
- The `machine.Pin(...)` and `network.WLAN(...)` constructions are not events.
  They configure drivers the model does not have.
- `print`, `sys.print_exception` and `sta_if.ifconfig()` only log, and they are
  not modelled.
- `d.temperature()` and `d.humidity()` are not events: they read values
  `d.measure()` already fetched. The `Sample` oracle gives both.
- JSON is not modelled. The payload and the reading record are datatypes, and
  `response.json()` is taken to hold an integer `unixtime`. A reply with status
  200 but without that key, which raises `KeyError` in the firmware, is not a
  case of `TimeReply`.
- Main.Fahrenheit: computed on exact reals, not IEEE doubles, so the rounding of
  `temperature_c * 9 / 5 + 32` is not captured.
- Sleeps are events carrying their duration in seconds. Real time does not pass.
- `network.STAT_CONNECTING` and `network.STAT_GOT_IP` are not defined in this
  repository. The model uses MicroPython's values, 1 and 5.
- Main.Run: the firmware may loop forever when deployed. The model runs at most
  as many cycles as it is given oracles for, and a true `running` flag marks a
  run cut short there.
- Wlan.ConnectWlan: the polling loop has no bound. The model runs at most `fuel`
  loop bodies and then reports `StillPolling`.
- One-shot behaviour at boot is not part of this model:
  - `firmware/boot.py`, and the `connect_wlan` call it makes;
  - `firmware/ota.py`, the over-the-air updater;
  - the module-level `run()` call.
