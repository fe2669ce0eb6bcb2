/**
 * `connect_wlan` from the boot stage: activate the station interface, switch
 * the access-point interface off, and if not yet associated start the
 * association and poll once per second, failing fast on any status that is
 * neither "connecting" nor "got IP". There is no attempt budget.
 *
 * Oracles: `connected(0)` answers the check before the loop and `connected(j)`
 * the j-th check of the loop condition; `status(j)` answers the status read
 * after the j-th sleep. The loop may poll forever, so the model runs at most
 * `fuel` loop bodies and reports `StillPolling` when the firmware would go on.
 */
module Wlan {
  import opened Effects
  import opened Wrappers
  import Decimal

  /** network.STAT_CONNECTING and network.STAT_GOT_IP of MicroPython's network module. */
  const StatConnecting: int := 1
  const StatGotIp: int := 5

  const FailurePrefix: string := "WLAN Connection Failed. ErrNo: "

  /** The statuses the loop keeps polling on. */
  predicate InProgress(status: int) { status == StatConnecting || status == StatGotIp }

  /**
   * How `connect_wlan` ended: returned True, raised a RuntimeError for the
   * status code with its message, or still polling.
   */
  datatype Outcome = ReturnedTrue | Raised(code: int, message: string) | StillPolling

  datatype WlanRun = WlanRun(trace: seq<Event>, outcome: Outcome)

  /** The message of the RuntimeError raised on a rejected status. */
  function FailureMessage(code: int): string
  {
    FailurePrefix + Decimal.IntToString(code)
  }

  /** The message is the fixed prefix followed by the code, which it gives back. */
  lemma FailureMessageCarriesCode(code: int)
    ensures var m := FailureMessage(code);
      |m| > |FailurePrefix| && m[..|FailurePrefix|] == FailurePrefix &&
      Decimal.ParseInt(m[|FailurePrefix|..]) == Some(code)
  {
    Decimal.IntToStringRoundTrip(code);
    var m := FailureMessage(code);
    assert m[|FailurePrefix|..] == Decimal.IntToString(code);
  }

  /** Interface set-up and the first isconnected() check. */
  const Prelude: seq<Event> := [StaActive(true), ApActive(false), QueryConnected]

  /** One loop body that did not end the loop: check, sleep one second, read the status. */
  const Poll: seq<Event> := [QueryConnected, Sleep(1.0), QueryStatus]

  function Start(ssid: string, password: string): seq<Event>
  {
    Prelude + [StaActive(true), Connect(ssid, password)]
  }

  /** The polling loop from its j-th condition check on, after the events `done`. */
  function PollFrom(connected: nat -> bool, status: nat -> int, fuel: nat, j: nat, done: seq<Event>): WlanRun
    requires 1 <= j <= fuel + 1
    decreases fuel + 1 - j
  {
    if connected(j) then WlanRun(done + [QueryConnected], ReturnedTrue)
    else if j > fuel then WlanRun(done + [QueryConnected], StillPolling)
    else if !InProgress(status(j)) then WlanRun(done + Poll, Raised(status(j), FailureMessage(status(j))))
    else PollFrom(connected, status, fuel, j + 1, done + Poll)
  }

  function ConnectWlanSpec(ssid: string, password: string, connected: nat -> bool,
                           status: nat -> int, fuel: nat): WlanRun
  {
    if connected(0) then WlanRun(Prelude, ReturnedTrue)
    else PollFrom(connected, status, fuel, 1, Start(ssid, password))
  }

  method ConnectWlan(ssid: string, password: string, connected: nat -> bool,
                     status: nat -> int, fuel: nat)
    returns (trace: seq<Event>, outcome: Outcome)
    ensures WlanRun(trace, outcome) == ConnectWlanSpec(ssid, password, connected, status, fuel)
  {
    trace := [StaActive(true), ApActive(false), QueryConnected];
    if connected(0) {
      return trace, ReturnedTrue;
    }
    trace := trace + [StaActive(true), Connect(ssid, password)];
    var j := 1;
    while !connected(j)
      invariant 1 <= j <= fuel + 1
      invariant PollFrom(connected, status, fuel, j, trace) == ConnectWlanSpec(ssid, password, connected, status, fuel)
      decreases fuel + 1 - j
    {
      if j > fuel {
        return trace + [QueryConnected], StillPolling;
      }
      var code := status(j);
      if !InProgress(code) {
        return trace + Poll, Raised(code, FailureMessage(code));
      }
      trace := trace + Poll;
      j := j + 1;
    }
    return trace + [QueryConnected], ReturnedTrue;
  }

  /** The polling loop only appends to the events before it. */
  lemma {:induction false} PollFromExtends(connected: nat -> bool, status: nat -> int,
                                           fuel: nat, j: nat, done: seq<Event>)
    requires 1 <= j <= fuel + 1
    ensures done <= PollFrom(connected, status, fuel, j, done).trace
    decreases fuel + 1 - j
  {
    if !connected(j) && j <= fuel && InProgress(status(j)) {
      PollFromExtends(connected, status, fuel, j + 1, done + Poll);
    }
  }

  /** The interface set-up precedes everything, and an associated station returns at once. */
  lemma ActivatesFirst(ssid: string, password: string, connected: nat -> bool,
                       status: nat -> int, fuel: nat)
    ensures var r := ConnectWlanSpec(ssid, password, connected, status, fuel);
      Prelude <= r.trace &&
      (connected(0) ==>
        r.outcome == ReturnedTrue && r.trace == Prelude && CountIf(r.trace, IsSleep) == 0)
  {
    if !connected(0) {
      PollFromExtends(connected, status, fuel, 1, Start(ssid, password));
    } else {
      CountIfThree(StaActive(true), ApActive(false), QueryConnected, IsSleep);
    }
  }

  /** One second of sleep per poll, none before the loop. */
  lemma PollsSleeps(ssid: string, password: string, n: nat)
    ensures CountIf(Start(ssid, password) + Repeat(Poll, n), Is(Sleep(1.0))) == n
  {
    CountIfNone(Start(ssid, password), Is(Sleep(1.0)));
    CountIfThree(QueryConnected, Sleep(1.0), QueryStatus, Is(Sleep(1.0)));
    CountIfRepeatOnce(Poll, n, Is(Sleep(1.0)));
    CountIfConcat(Start(ssid, password), Repeat(Poll, n), Is(Sleep(1.0)));
  }

  /** The final failed check adds no sleep. */
  lemma PollsThenCheckSleeps(ssid: string, password: string, n: nat)
    ensures CountIf(Start(ssid, password) + Repeat(Poll, n) + [QueryConnected], Is(Sleep(1.0))) == n
  {
    PollsSleeps(ssid, password, n);
    CountIfSingleton(QueryConnected, Is(Sleep(1.0)));
    CountIfConcat(Start(ssid, password) + Repeat(Poll, n), [QueryConnected], Is(Sleep(1.0)));
  }

  /** After at least one poll the status read is the last event. */
  lemma PollsEndWithStatus(ssid: string, password: string, n: nat)
    requires n > 0
    ensures var t := Start(ssid, password) + Repeat(Poll, n); t[|t| - 1] == QueryStatus
  {
    assert Start(ssid, password) + Repeat(Poll, n) == (Start(ssid, password) + Repeat(Poll, n - 1)) + Poll;
  }

  lemma {:induction false} PollFromFailsFast(connected: nat -> bool, status: nat -> int,
                                             fuel: nat, j: nat, k: nat, done: seq<Event>)
    requires 1 <= j <= k <= fuel
    requires forall i :: j <= i <= k ==> !connected(i)
    requires forall i :: j <= i < k ==> InProgress(status(i))
    requires !InProgress(status(k))
    ensures PollFrom(connected, status, fuel, j, done)
         == WlanRun(done + Repeat(Poll, k - j + 1), Raised(status(k), FailureMessage(status(k))))
    decreases k - j
  {
    if j < k {
      PollFromFailsFast(connected, status, fuel, j + 1, k, done + Poll);
      RepeatPrepend(Poll, k - j);
      assert (done + Poll) + Repeat(Poll, k - j) == done + (Poll + Repeat(Poll, k - j));
    } else {
      assert Repeat(Poll, 1) == Poll;
    }
  }

  /**
   * A status outside {CONNECTING, GOT_IP} read after the k-th sleep raises with
   * that code and its message (which carries the code, by FailureMessageCarriesCode):
   * exactly k one-second sleeps, and the status read is the last event.
   */
  lemma FailsFast(ssid: string, password: string, connected: nat -> bool,
                  status: nat -> int, k: nat, fuel: nat)
    requires 1 <= k <= fuel
    requires forall i :: 0 <= i <= k ==> !connected(i)
    requires forall i :: 1 <= i < k ==> InProgress(status(i))
    requires !InProgress(status(k))
    ensures var r := ConnectWlanSpec(ssid, password, connected, status, fuel);
      && r.outcome == Raised(status(k), FailureMessage(status(k)))
      && r.trace == Start(ssid, password) + Repeat(Poll, k)
      && CountIf(r.trace, Is(Sleep(1.0))) == k
      && r.trace[|r.trace| - 1] == QueryStatus
  {
    PollFromFailsFast(connected, status, fuel, 1, k, Start(ssid, password));
    assert ConnectWlanSpec(ssid, password, connected, status, fuel)
        == WlanRun(Start(ssid, password) + Repeat(Poll, k), Raised(status(k), FailureMessage(status(k))));
    PollsSleeps(ssid, password, k);
    PollsEndWithStatus(ssid, password, k);
  }

  lemma {:induction false} PollFromKeepsPolling(connected: nat -> bool, status: nat -> int,
                                                fuel: nat, j: nat, done: seq<Event>)
    requires 1 <= j <= fuel + 1
    requires forall i :: j <= i <= fuel + 1 ==> !connected(i)
    requires forall i :: j <= i <= fuel ==> InProgress(status(i))
    ensures PollFrom(connected, status, fuel, j, done)
         == WlanRun(done + Repeat(Poll, fuel + 1 - j) + [QueryConnected], StillPolling)
    decreases fuel + 1 - j
  {
    if j <= fuel {
      PollFromKeepsPolling(connected, status, fuel, j + 1, done + Poll);
      RepeatPrepend(Poll, fuel - j);
      assert (done + Poll) + Repeat(Poll, fuel - j) == done + (Poll + Repeat(Poll, fuel - j));
    } else {
      assert done + Repeat(Poll, 0) == done;
    }
  }

  /**
   * No budget: for every n, statuses that stay CONNECTING or GOT_IP (GOT_IP
   * included, while isconnected() is still false) keep the loop going through n
   * one-second sleeps and it is still polling after them.
   */
  lemma KeepsPolling(ssid: string, password: string, connected: nat -> bool,
                     status: nat -> int, n: nat)
    requires forall i :: 0 <= i <= n + 1 ==> !connected(i)
    requires forall i :: 1 <= i <= n ==> InProgress(status(i))
    ensures var r := ConnectWlanSpec(ssid, password, connected, status, n);
      && r.outcome == StillPolling
      && r.trace == Start(ssid, password) + Repeat(Poll, n) + [QueryConnected]
      && CountIf(r.trace, Is(Sleep(1.0))) == n
  {
    PollFromKeepsPolling(connected, status, n, 1, Start(ssid, password));
    PollsThenCheckSleeps(ssid, password, n);
  }

  /** The loop, from check j on, returns True iff some check k >= j succeeds before any rejected status. */
  lemma {:induction false} PollFromReturnsTrueIff(connected: nat -> bool, status: nat -> int,
                                                  fuel: nat, j: nat, done: seq<Event>)
    requires 1 <= j <= fuel + 1
    ensures PollFrom(connected, status, fuel, j, done).outcome == ReturnedTrue <==>
      exists k: nat :: j <= k <= fuel + 1 && connected(k) &&
        forall i: nat :: j <= i < k ==> !connected(i) && InProgress(status(i))
    decreases fuel + 1 - j
  {
    if connected(j) {
      assert j <= j <= fuel + 1 && connected(j);
    } else if j <= fuel && InProgress(status(j)) {
      assert PollFrom(connected, status, fuel, j, done) == PollFrom(connected, status, fuel, j + 1, done + Poll);
      PollFromReturnsTrueIff(connected, status, fuel, j + 1, done + Poll);
      if PollFrom(connected, status, fuel, j, done).outcome == ReturnedTrue {
        var k: nat :| j + 1 <= k <= fuel + 1 && connected(k) &&
          forall i: nat :: j + 1 <= i < k ==> !connected(i) && InProgress(status(i));
        assert forall i: nat :: j <= i < k ==> !connected(i) && InProgress(status(i));
      }
    }
  }

  /**
   * `connect_wlan` returns True exactly when isconnected() becomes true before
   * a rejected status; it never returns any other value.
   */
  lemma ReturnsTrueIff(ssid: string, password: string, connected: nat -> bool,
                       status: nat -> int, fuel: nat)
    ensures ConnectWlanSpec(ssid, password, connected, status, fuel).outcome == ReturnedTrue <==>
      connected(0) ||
      exists k: nat :: 1 <= k <= fuel + 1 && connected(k) &&
        forall i: nat :: 1 <= i < k ==> !connected(i) && InProgress(status(i))
  {
    PollFromReturnsTrueIff(connected, status, fuel, 1, Start(ssid, password));
  }
}
