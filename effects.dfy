/**
 * What the firmware does to its collaborators, recorded as a trace of events.
 *
 * The radio, the DHT11 sensor, the HTTP client, the LED pin and the clock are
 * not modelled; every call that acts on one of them or queries it is one
 * event, so a trace is the sequence of the firmware's interactions with the
 * outside world. Calls that only read values another call already fetched
 * (the sensor's temperature() and humidity(), a response's json()), log
 * (ifconfig()) or construct a driver object (Pin, WLAN) have no event.
 */
module Effects {

  /** The reading record that `get_measurement` builds (a JSON object in the firmware). */
  datatype Temperature = Temperature(celsius: real, fahrenheit: real)
  datatype Measurement = Measurement(timestamp: int, temperature: Temperature, humidity: real)

  /** The JSON body of the report, `{device_id, measurement}`. */
  datatype Payload = Payload(deviceId: string, measurement: Measurement)

  /** The two request headers sent with every report. */
  datatype Headers = Headers(contentType: string, deviceMac: string)

  datatype Event =
    | LedOn                    // led.on()
    | LedOff                   // led.off()
    | StaActive(on: bool)      // sta_if.active(on)
    | ApActive(on: bool)       // ap_if.active(on)
    | Connect(ssid: string, password: string)   // sta_if.connect(ssid, password)
    | QueryConnected           // sta_if.isconnected()
    | QueryStatus              // sta_if.status()
    | Sleep(seconds: real)     // time.sleep(seconds)
    | Measure                  // d.measure() on the DHT11
    | HttpGet(url: string)     // requests.get(url)
    | HttpPost(url: string, headers: Headers, body: Payload)  // requests.post(url, headers, json)

  predicate IsPost(e: Event) { e.HttpPost? }
  predicate IsSleep(e: Event) { e.Sleep? }

  /** The test "is exactly the event e". */
  function Is(e: Event): Event -> bool { x => x == e }

  function Bit(b: bool): nat { if b then 1 else 0 }

  /** The number of events of t that satisfy p. */
  function CountIf(t: seq<Event>, p: Event -> bool): (n: nat)
    ensures n <= |t|
  {
    if |t| == 0 then 0 else Bit(p(t[0])) + CountIf(t[1..], p)
  }

  /** Whether the LED is lit after the events of t, when it was `lit` before them. */
  function LedAfter(t: seq<Event>, lit: bool): bool
  {
    if |t| == 0 then lit
    else LedAfter(t[1..], if t[0] == LedOn then true else if t[0] == LedOff then false else lit)
  }

  /** n copies of block, one after the other. */
  function Repeat(block: seq<Event>, n: nat): (r: seq<Event>)
    ensures |r| == n * |block|
  {
    if n == 0 then [] else Repeat(block, n - 1) + block
  }

  lemma {:induction false} CountIfConcat(a: seq<Event>, b: seq<Event>, p: Event -> bool)
    ensures CountIf(a + b, p) == CountIf(a, p) + CountIf(b, p)
  {
    if |a| > 0 {
      assert (a + b)[0] == a[0];
      assert (a + b)[1..] == a[1..] + b;
      CountIfConcat(a[1..], b, p);
    } else {
      assert a + b == b;
    }
  }

  lemma CountIfCons(e: Event, t: seq<Event>, p: Event -> bool)
    ensures CountIf([e] + t, p) == Bit(p(e)) + CountIf(t, p)
  {
    assert ([e] + t)[1..] == t;
  }

  lemma CountIfSingleton(e: Event, p: Event -> bool)
    ensures CountIf([e], p) == Bit(p(e))
  {
    assert [e][1..] == [];
  }

  lemma CountIfTwo(a: Event, b: Event, p: Event -> bool)
    ensures CountIf([a, b], p) == Bit(p(a)) + Bit(p(b))
  {
    CountIfCons(a, [b], p);
    assert [a, b] == [a] + [b];
    CountIfSingleton(b, p);
  }

  lemma CountIfThree(a: Event, b: Event, c: Event, p: Event -> bool)
    ensures CountIf([a, b, c], p) == Bit(p(a)) + Bit(p(b)) + Bit(p(c))
  {
    CountIfCons(a, [b, c], p);
    assert [a, b, c] == [a] + [b, c];
    CountIfTwo(b, c, p);
  }

  lemma CountIfFour(a: Event, b: Event, c: Event, d: Event, p: Event -> bool)
    ensures CountIf([a, b, c, d], p) == Bit(p(a)) + Bit(p(b)) + Bit(p(c)) + Bit(p(d))
  {
    CountIfCons(a, [b, c, d], p);
    assert [a, b, c, d] == [a] + [b, c, d];
    CountIfThree(b, c, d, p);
  }

  lemma {:induction false} CountIfNone(t: seq<Event>, p: Event -> bool)
    requires forall i :: 0 <= i < |t| ==> !p(t[i])
    ensures CountIf(t, p) == 0
  {
    if |t| > 0 {
      CountIfNone(t[1..], p);
    }
  }

  /** A block with exactly one matching event, repeated n times, has n. */
  lemma {:induction false} CountIfRepeatOnce(block: seq<Event>, n: nat, p: Event -> bool)
    requires CountIf(block, p) == 1
    ensures CountIf(Repeat(block, n), p) == n
  {
    if n > 0 {
      CountIfRepeatOnce(block, n - 1, p);
      CountIfConcat(Repeat(block, n - 1), block, p);
    }
  }

  lemma {:induction false} CountIfRepeatNever(block: seq<Event>, n: nat, p: Event -> bool)
    requires CountIf(block, p) == 0
    ensures CountIf(Repeat(block, n), p) == 0
  {
    if n > 0 {
      CountIfRepeatNever(block, n - 1, p);
      CountIfConcat(Repeat(block, n - 1), block, p);
    }
  }

  lemma {:induction false} LedAfterConcat(a: seq<Event>, b: seq<Event>, lit: bool)
    ensures LedAfter(a + b, lit) == LedAfter(b, LedAfter(a, lit))
  {
    if |a| > 0 {
      assert (a + b)[0] == a[0];
      assert (a + b)[1..] == a[1..] + b;
      LedAfterConcat(a[1..], b, if a[0] == LedOn then true else if a[0] == LedOff then false else lit);
    } else {
      assert a + b == b;
    }
  }

  /** The last event decides the LED unless it leaves the LED alone. */
  lemma LedAfterSnoc(t: seq<Event>, e: Event, lit: bool)
    ensures LedAfter(t + [e], lit) ==
      if e == LedOn then true else if e == LedOff then false else LedAfter(t, lit)
  {
    LedAfterConcat(t, [e], lit);
    assert [e][1..] == [];
  }

  /** Events other than LedOn and LedOff leave the LED as it was. */
  lemma {:induction false} LedAfterQuiet(t: seq<Event>, lit: bool)
    requires forall i :: 0 <= i < |t| ==> t[i] != LedOn && t[i] != LedOff
    ensures LedAfter(t, lit) == lit
  {
    if |t| > 0 {
      LedAfterQuiet(t[1..], lit);
    }
  }

  /** A block that leaves the LED in the same state whatever it was before leaves it so when repeated. */
  lemma {:induction false} LedAfterRepeat(block: seq<Event>, n: nat, lit: bool, end: bool)
    requires n > 0
    requires forall x: bool :: LedAfter(block, x) == end
    ensures LedAfter(Repeat(block, n), lit) == end
  {
    LedAfterConcat(Repeat(block, n - 1), block, lit);
  }

  /** A block that leaves the LED alone leaves it alone when repeated. */
  lemma {:induction false} LedAfterRepeatUntouched(block: seq<Event>, n: nat, lit: bool)
    requires forall x: bool :: LedAfter(block, x) == x
    ensures LedAfter(Repeat(block, n), lit) == lit
  {
    if n > 0 {
      LedAfterRepeatUntouched(block, n - 1, lit);
      LedAfterConcat(Repeat(block, n - 1), block, lit);
    }
  }

  lemma {:induction false} RepeatPrepend(block: seq<Event>, n: nat)
    ensures block + Repeat(block, n) == Repeat(block, n + 1)
  {
    if n > 0 {
      RepeatPrepend(block, n - 1);
      assert block + Repeat(block, n) == (block + Repeat(block, n - 1)) + block;
    }
  }
}
