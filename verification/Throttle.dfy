/**
 * The rate limiters (core/src/throttle/mod.rs): a counter of the current window and the
 * time it started. Time is real seconds; each call comes with the clock reading it took
 * on entry and the one it took last, after any sleep.
 */
module Throttle {
  import opened Common

  /** A call: the bytes asked for, the reading on entry and the reading after any sleep. */
  datatype Call = Call(amount: nat, asked: real, done: real)

  /** A limiter: how much it has admitted in the window that started at `since`. */
  datatype Window = Window(used: nat, since: real)

  /** The seconds the call is told to sleep. */
  function BandwidthSleep(limit: nat, w: Window, call: Call): real {
    if limit > 0 && w.used + call.amount >= limit && call.asked - w.since < 1.0 then 1.0 - (call.asked - w.since) else 0.0
  }

  /** BandwidthLimiter::throttle: the call that fills the window waits for its end and starts the next. */
  function AfterThrottle(limit: nat, w: Window, call: Call): Window {
    if limit == 0 then w
    else if w.used + call.amount >= limit then Window(0, call.done)
    else Window(w.used + call.amount, w.since)
  }

  predicate IoExpired(w: Window, call: Call) {
    call.asked - w.since >= 1.0
  }

  predicate IoFull(limit: nat, w: Window, call: Call) {
    (if IoExpired(w, call) then 0 else w.used) >= limit
  }

  function IoSleep(limit: nat, w: Window, call: Call): real {
    if limit > 0 && IoFull(limit, w, call) then
      if 1.0 - (call.asked - w.since) > 0.001 then 1.0 - (call.asked - w.since) else 0.001
    else 0.0
  }

  /** IoLimiter::wait: a new window after a second, and after the sleep of a call that finds the window full. */
  function AfterWait(limit: nat, w: Window, call: Call): Window {
    if limit == 0 then w
    else if IoExpired(w, call) || IoFull(limit, w, call) then Window(1, call.done)
    else Window(w.used + 1, w.since)
  }

  // ---------------------------------------------------------------- runs

  datatype Kind = Bandwidth | Io

  function Sleep(kind: Kind, limit: nat, w: Window, call: Call): real {
    if kind.Bandwidth? then BandwidthSleep(limit, w, call) else IoSleep(limit, w, call)
  }

  function After(kind: Kind, limit: nat, w: Window, call: Call): Window {
    if kind.Bandwidth? then AfterThrottle(limit, w, call) else AfterWait(limit, w, call)
  }

  /** One call after another, a clock that does not go back, and sleeps at least as long as asked. */
  predicate Runs(kind: Kind, limit: nat, w: Window, clock: real, calls: seq<Call>)
    decreases |calls|
  {
    calls == [] ||
    (&& clock <= calls[0].asked
     && calls[0].asked + Sleep(kind, limit, w, calls[0]) <= calls[0].done
     && Runs(kind, limit, After(kind, limit, w, calls[0]), calls[0].done, calls[1..]))
  }

  /** What has been admitted: bytes, or operations. */
  function Admitted(kind: Kind, calls: seq<Call>): nat {
    if calls == [] then 0 else Amount(kind, calls[0]) + Admitted(kind, calls[1..])
  }

  /** The time the last call returned. */
  function Ended(clock: real, calls: seq<Call>): real {
    if calls == [] then clock else calls[|calls| - 1].done
  }

  predicate AtMost(calls: seq<Call>, most: nat) {
    forall i :: 0 <= i < |calls| ==> calls[i].amount <= most
  }

  /** What one window can admit. */
  function Capacity(kind: Kind, limit: nat, most: nat): int {
    if kind.Bandwidth? then limit - 1 + most else limit
  }

  // ---------------------------------------------------------------- the bound

  /** The most a limiter leaves in an open window. */
  predicate Open(kind: Kind, limit: nat, w: Window) {
    if kind.Bandwidth? then w.used < limit else w.used <= limit
  }

  function Amount(kind: Kind, call: Call): nat {
    if kind.Bandwidth? then call.amount else 1
  }

  /** A call that closes a window ends at least a second after the window began. */
  lemma OneCall(kind: Kind, limit: nat, w: Window, call: Call, most: nat) returns (closed: nat)
    requires limit > 0 && Open(kind, limit, w) && w.since <= call.asked && call.amount <= most
    requires call.asked + Sleep(kind, limit, w, call) <= call.done
    ensures closed <= 1 && Open(kind, limit, After(kind, limit, w, call))
    ensures w.used + Amount(kind, call) <= closed * Capacity(kind, limit, most) + After(kind, limit, w, call).used
    ensures w.since + closed as real <= After(kind, limit, w, call).since <= call.done
  {
    if kind.Bandwidth? {
      closed := if w.used + call.amount >= limit then 1 else 0;
    } else {
      closed := if IoExpired(w, call) || IoFull(limit, w, call) then 1 else 0;
    }
  }

  /** Every closed window took a second: r windows take at least r seconds and admit at most r times the capacity. */
  lemma {:induction false} WindowsTakeSeconds(kind: Kind, limit: nat, w: Window, clock: real, calls: seq<Call>, most: nat) returns (windows: nat)
    requires limit > 0 && Open(kind, limit, w) && w.since <= clock && Runs(kind, limit, w, clock, calls) && AtMost(calls, most)
    ensures w.used + Admitted(kind, calls) <= windows * Capacity(kind, limit, most) + limit - One(kind)
    ensures w.since + windows as real <= Ended(clock, calls)
    decreases |calls|
  {
    hide After, Sleep, Capacity;
    if calls == [] {
      windows := 0;
      assert windows * Capacity(kind, limit, most) == 0;
    } else {
      assert calls[0].amount <= most;
      var closed := OneCall(kind, limit, w, calls[0], most);
      EndedCons(clock, calls);
      var rest := WindowsTakeSeconds(kind, limit, After(kind, limit, w, calls[0]), calls[0].done, calls[1..], most);
      Distribute(closed, rest, Capacity(kind, limit, most));
      windows := closed + rest;
    }
  }

  /** A bandwidth window is closed when it reaches the limit, an operations window when it would pass it. */
  function One(kind: Kind): nat {
    if kind.Bandwidth? then 1 else 0
  }

  lemma EndedCons(clock: real, calls: seq<Call>)
    requires calls != []
    ensures Ended(clock, calls) == Ended(calls[0].done, calls[1..])
  {
  }

  lemma Distribute(a: nat, b: nat, c: int)
    ensures (a + b) * c == a * c + b * c
  {
  }

  lemma Scaled(a: nat, t: real, c: int)
    requires a as real <= t && c >= 0
    ensures (a * c) as real <= t * c as real
  {
    assert (a * c) as real == a as real * c as real;
  }

  /**
   * Up to any time T after construction a limiter has admitted at most T + 1 times what one
   * window can admit: limit - 1 + B bytes with calls of at most B bytes, limit operations.
   */
  lemma {:induction false} RateBound(kind: Kind, limit: nat, start: real, calls: seq<Call>, most: nat)
    requires limit > 0 && Runs(kind, limit, Window(0, start), start, calls) && AtMost(calls, most)
    ensures Admitted(kind, calls) as real <= (Ended(start, calls) - start + 1.0) * Capacity(kind, limit, most) as real
  {
    hide Runs, Admitted, Ended;
    var c := Capacity(kind, limit, most);
    var windows := WindowsTakeSeconds(kind, limit, Window(0, start), start, calls, most);
    Scaled(windows, Ended(start, calls) - start, c);
    Unfold(Ended(start, calls) - start, c);
  }

  lemma Unfold(t: real, c: int)
    ensures (t + 1.0) * c as real == t * c as real + c as real
  {
  }

  // ---------------------------------------------------------------- no longer than needed

  /**
   * A call is told to sleep exactly if there is a limit, its window is not a second old and
   * has no room: if it would fill the bytes of a bandwidth window, or finds all operations
   * of the other used. It sleeps to the end of that second, of which a millisecond counts
   * as the least for operations.
   */
  lemma SleepsExactly(kind: Kind, limit: nat, w: Window, call: Call)
    ensures var full := if kind.Bandwidth? then w.used + call.amount >= limit else w.used >= limit;
            var sleeps := limit > 0 && full && call.asked < w.since + 1.0;
            && (Sleep(kind, limit, w, call) > 0.0 <==> sleeps) && (!sleeps ==> Sleep(kind, limit, w, call) == 0.0)
            && (sleeps && kind.Bandwidth? ==> call.asked + Sleep(kind, limit, w, call) == w.since + 1.0)
            && (sleeps && kind.Io? ==>
                  call.asked + Sleep(kind, limit, w, call) ==
                  if w.since + 1.0 > call.asked + 0.001 then w.since + 1.0 else call.asked + 0.001)
  {
  }

  /** Each call comes when the one before has returned, and returns when its sleep is over. */
  predicate Prompt(kind: Kind, limit: nat, w: Window, clock: real, calls: seq<Call>)
    decreases |calls|
  {
    calls == [] ||
    (&& calls[0].asked == clock && calls[0].done == clock + Sleep(kind, limit, w, calls[0])
     && Prompt(kind, limit, After(kind, limit, w, calls[0]), calls[0].done, calls[1..]))
  }

  /** A window that is left promptly has filled up, a second after it began. */
  lemma PromptCall(kind: Kind, limit: nat, w: Window, call: Call) returns (closed: nat)
    requires limit > 0 && call.asked == w.since && call.done == w.since + Sleep(kind, limit, w, call)
    ensures closed <= 1 && After(kind, limit, w, call).since == call.done == w.since + closed as real
    ensures closed * limit + After(kind, limit, w, call).used <= w.used + Amount(kind, call)
  {
    SleepsExactly(kind, limit, w, call);
    closed := if (if kind.Bandwidth? then w.used + call.amount >= limit else w.used >= limit) then 1 else 0;
  }

  lemma {:induction false} PromptFrom(kind: Kind, limit: nat, w: Window, calls: seq<Call>)
    requires limit > 0 && Prompt(kind, limit, w, w.since, calls)
    ensures limit as real * (Ended(w.since, calls) - w.since) <= (w.used + Admitted(kind, calls)) as real
    decreases |calls|
  {
    hide Ended, Sleep, After;
    if calls == [] {
      EndedNone(w.since);
    } else {
      var next := After(kind, limit, w, calls[0]);
      var closed := PromptCall(kind, limit, w, calls[0]);
      PromptFrom(kind, limit, next, calls[1..]);
      EndedCons(w.since, calls);
      Multiplied(limit as real, Ended(next.since, calls[1..]), next.since, w.since);
      assert limit as real * closed as real == (closed * limit) as real;
    }
  }

  lemma EndedNone(clock: real)
    ensures Ended(clock, []) == clock
  {
  }

  lemma Multiplied(a: real, t: real, s: real, r: real)
    ensures a * (t - r) == a * (t - s) + a * (s - r)
  {
  }

  /** Calls that follow promptly are held back by no more than a second for each `limit` bytes or operations they pass. */
  lemma {:induction false} PromptRunsAtLimit(kind: Kind, limit: nat, start: real, calls: seq<Call>)
    requires limit > 0 && Prompt(kind, limit, Window(0, start), start, calls)
    ensures limit as real * (Ended(start, calls) - start) <= Admitted(kind, calls) as real
  {
    PromptFrom(kind, limit, Window(0, start), calls);
  }

  // ---------------------------------------------------------------- no limit

  /** With a zero limit nothing is counted and nobody sleeps: any amounts run in no time. */
  lemma {:induction false} ZeroAdmitsAll(kind: Kind, w: Window, amounts: seq<nat>, now: real) returns (calls: seq<Call>)
    ensures Runs(kind, 0, w, now, calls) && Ended(now, calls) == now && |calls| == |amounts|
    ensures forall i :: 0 <= i < |calls| ==> calls[i].amount == amounts[i]
    decreases |amounts|
  {
    if amounts == [] {
      calls := [];
    } else {
      var rest := ZeroAdmitsAll(kind, w, amounts[1..], now);
      calls := [Call(amounts[0], now, now)] + rest;
      assert calls[1..] == rest;
      EndedCons(now, calls);
    }
  }

  ghost predicate Bounded(kind: Kind, limit: nat) {
    forall start: real, calls: seq<Call>, most: nat ::
      Runs(kind, limit, Window(0, start), start, calls) && AtMost(calls, most) ==>
        Admitted(kind, calls) as real <= (Ended(start, calls) - start + 1.0) * Capacity(kind, limit, most) as real
  }

  lemma {:induction false} ZeroBreaks(kind: Kind)
    ensures var calls := [Call(1, 0.0, 0.0)];
            && Runs(kind, 0, Window(0, 0.0), 0.0, calls) && AtMost(calls, 1)
            && Admitted(kind, calls) == 1 && Ended(0.0, calls) == 0.0 && Capacity(kind, 0, 1) == 0
  {
    var calls := [Call(1, 0.0, 0.0)];
    assert calls[1..] == [];
    assert Runs(kind, 0, After(kind, 0, Window(0, 0.0), calls[0]), 0.0, calls[1..]);
  }

  /** The bound holds of all runs exactly when the limit is not zero. */
  lemma {:induction false} BoundedExactly(kind: Kind, limit: nat)
    ensures Bounded(kind, limit) <==> limit > 0
  {
    hide Runs, Admitted, Ended, Capacity;
    if limit > 0 {
      forall start: real, calls: seq<Call>, most: nat | Runs(kind, limit, Window(0, start), start, calls) && AtMost(calls, most)
        ensures Admitted(kind, calls) as real <= (Ended(start, calls) - start + 1.0) * Capacity(kind, limit, most) as real
      {
        RateBound(kind, limit, start, calls, most);
      }
    } else {
      ZeroBreaks(kind);
      var calls := [Call(1, 0.0, 0.0)];
      assert (Ended(0.0, calls) - 0.0 + 1.0) * Capacity(kind, limit, 1) as real == 0.0;
    }
  }

  // ---------------------------------------------------------------- the limiters

  class BandwidthLimiter {
    const maxBps: nat
    var accumulated: nat
    var lastCheck: real

    ghost function State(): Window
      reads this
    {
      Window(accumulated, lastCheck)
    }

    constructor (maxBps: nat, now: real)
      ensures this.maxBps == maxBps && State() == Window(0, now)
    {
      this.maxBps := maxBps;
      accumulated := 0;
      lastCheck := now;
    }

    /** `done` is the clock after the sleep, if any. */
    method Throttle(amount: nat, asked: real, done: real) returns (slept: real)
      requires lastCheck <= asked
      modifies this
      ensures State() == AfterThrottle(maxBps, old(State()), Call(amount, asked, done))
      ensures slept == BandwidthSleep(maxBps, old(State()), Call(amount, asked, done))
    {
      slept := 0.0;
      if maxBps == 0 {
        return;
      }
      var prev := accumulated;
      accumulated := accumulated + amount;
      var total := prev + amount;
      if total >= maxBps {
        var elapsed := asked - lastCheck;
        if elapsed < 1.0 {
          slept := if 1.0 - elapsed <= 1.0 then 1.0 - elapsed else 1.0;
        }
        accumulated := 0;
        lastCheck := done;
      }
    }
  }

  class IoLimiter {
    const maxIops: nat
    var opsInSecond: nat
    var lastCheck: real

    ghost function State(): Window
      reads this
    {
      Window(opsInSecond, lastCheck)
    }

    constructor (maxIops: nat, now: real)
      ensures this.maxIops == maxIops && State() == Window(0, now)
    {
      this.maxIops := maxIops;
      opsInSecond := 0;
      lastCheck := now;
    }

    method Wait(asked: real, done: real) returns (slept: real)
      modifies this
      ensures State() == AfterWait(maxIops, old(State()), Call(1, asked, done))
      ensures slept == IoSleep(maxIops, old(State()), Call(1, asked, done))
    {
      slept := 0.0;
      if maxIops == 0 {
        return;
      }
      var elapsed := asked - lastCheck;
      if elapsed >= 1.0 {
        opsInSecond := 0;
        lastCheck := done;
      }
      if opsInSecond >= maxIops {
        slept := if 1.0 - elapsed > 0.001 then 1.0 - elapsed else 0.001;
        opsInSecond := 0;
        lastCheck := done;
      }
      opsInSecond := opsInSecond + 1;
    }
  }
}
