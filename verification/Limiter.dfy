/** The fixed-window request limiter. */
module Limiter {
  import opened Prelude

  /** Time is counted in nanoseconds. */
  const SECOND := 1_000_000_000

  const WINDOW := 60 * SECOND

  datatype Window = Window(started: int, count: int)

  /** One request at `now`: the window after it, or nothing if it is refused. */
  function Admit(window: Option<Window>, max: int, now: int): Option<Window> {
    var current := if window.Some? && window.value.started + WINDOW > now then window.value else Window(now, 0);
    if current.count >= max then None else Some(current.(count := current.count + 1))
  }

  /** A whole sequence of requests for one key: the last window, and when the accepted ones came. */
  function Serve(requests: seq<int>, max: int): (Option<Window>, seq<int>) {
    if requests == [] then (None, [])
    else
      var (window, accepted) := Serve(requests[..|requests| - 1], max);
      var now := requests[|requests| - 1];
      match Admit(window, max, now)
      case None => (window, accepted)
      case Some(next) => (Some(next), accepted + [now])
  }

  /** How many of these times are no earlier than `from`. */
  function Since(times: seq<int>, from: int): nat {
    if times == [] then 0
    else Since(times[..|times| - 1], from) + (if times[|times| - 1] >= from then 1 else 0)
  }

  /** How many of these times fall in the half-open interval from `from` to `to`. */
  function Within(times: seq<int>, from: int, to: int): int
    requires from <= to
  {
    Since(times, from) - Since(times, to)
  }

  ghost predicate Nondecreasing(times: seq<int>) {
    forall i, j | 0 <= i < j < |times| :: times[i] <= times[j]
  }

  lemma {:induction false} LaterIsFewer(times: seq<int>, a: int, b: int)
    requires a <= b
    ensures Since(times, a) >= Since(times, b)
  {
    if times != [] {
      LaterIsFewer(times[..|times| - 1], a, b);
    }
  }

  lemma {:induction false} OneMore(times: seq<int>, now: int, from: int)
    ensures Since(times + [now], from) == Since(times, from) + if now >= from then 1 else 0
  {
    assert (times + [now])[..|times|] == times;
  }

  /** What is known between requests. */
  ghost predicate Tidy(window: Option<Window>, accepted: seq<int>, max: int, now: int) {
    && (forall i | 0 <= i < |accepted| :: accepted[i] <= now)
    && (window.None? ==> accepted == [])
    && (window.Some? ==>
          var s := window.value.started;
          && s <= now && 1 <= window.value.count <= max
          && (forall i | 0 <= i < |accepted| :: accepted[i] < s + WINDOW)
          && Since(accepted, s) == window.value.count
          && Since(accepted, s + 1) < Since(accepted, s)
          && Since(accepted, s - WINDOW + 1) - Since(accepted, s) < max)
  }

  ghost predicate Bounded(accepted: seq<int>, max: int) {
    forall from, to | from <= to <= from + WINDOW :: Within(accepted, from, to) < 2 * max
  }

  lemma {:induction false} NoneLater(times: seq<int>, now: int, from: int)
    requires forall i | 0 <= i < |times| :: times[i] <= now
    requires now < from
    ensures Since(times, from) == 0
  {
    if times != [] {
      NoneLater(times[..|times| - 1], now, from);
    }
  }

  lemma AcceptedKeepsTidy(window: Option<Window>, accepted: seq<int>, max: int, last: int, now: int)
    requires Tidy(window, accepted, max, last) && last <= now && Admit(window, max, now).Some?
    ensures Tidy(Admit(window, max, now), accepted + [now], max, now)
  {
    var next := Admit(window, max, now).value;
    var s := next.started;
    OneMore(accepted, now, s);
    OneMore(accepted, now, s + 1);
    OneMore(accepted, now, s - WINDOW + 1);
    if window.Some? && window.value.started + WINDOW <= now {
      LaterIsFewer(accepted, window.value.started + 1, now - WINDOW + 1);
      NoneLater(accepted, window.value.started + WINDOW - 1, now);
      NoneLater(accepted, window.value.started + WINDOW - 1, now + 1);
    } else if window.Some? {
      LaterIsFewer(accepted, s, s + 1);
    }
  }

  lemma AcceptedKeepsBounded(window: Option<Window>, accepted: seq<int>, max: int, last: int, now: int)
    requires Tidy(window, accepted, max, last) && last <= now && Admit(window, max, now).Some?
    requires Bounded(accepted, max)
    ensures Bounded(accepted + [now], max)
  {
    forall from, to | from <= to <= from + WINDOW ensures Within(accepted + [now], from, to) < 2 * max {
      OneMore(accepted, now, from);
      OneMore(accepted, now, to);
      assert Within(accepted, from, to) < 2 * max;
      if from <= now < to {
        NoneLater(accepted, last, to);
        if window.Some? {
          var s := window.value.started;
          if s + WINDOW <= now {
            LaterIsFewer(accepted, s + 1, from);
          } else if from <= s {
            LaterIsFewer(accepted, s - WINDOW + 1, from);
          } else {
            LaterIsFewer(accepted, s, from);
          }
        }
      }
    }
  }

  lemma {:induction false} ServingStaysTidy(requests: seq<int>, max: int)
    requires max >= 1 && Nondecreasing(requests)
    ensures var (window, accepted) := Serve(requests, max);
            && Bounded(accepted, max)
            && (requests == [] ==> window.None?)
            && (requests != [] ==> Tidy(window, accepted, max, requests[|requests| - 1]))
  {
    hide Bounded, Tidy, Admit;
    if requests == [] {
      NothingIsBounded(max);
    } else {
      var n := |requests| - 1;
      ServingStaysTidy(requests[..n], max);
      var (window, accepted) := Serve(requests[..n], max);
      var last := if n == 0 then requests[0] else requests[n - 1];
      NothingIsTidy(max, last);
      if Admit(window, max, requests[n]).Some? {
        AcceptedKeepsTidy(window, accepted, max, last, requests[n]);
        AcceptedKeepsBounded(window, accepted, max, last, requests[n]);
      } else {
        TidyWithTime(window, accepted, max, last, requests[n]);
      }
    }
  }

  lemma NothingIsBounded(max: int)
    requires max >= 1
    ensures Bounded([], max)
  {
  }

  lemma NothingIsTidy(max: int, now: int)
    ensures Tidy(None, [], max, now)
  {
  }

  lemma TidyWithTime(window: Option<Window>, accepted: seq<int>, max: int, last: int, now: int)
    requires Tidy(window, accepted, max, last) && last <= now
    ensures Tidy(window, accepted, max, now)
  {
  }

  /**
   * However requests come, fewer than twice the limit are accepted in any sixty seconds, and no more than the limit since
   * the current window opened.
   */
  lemma {:induction false} RateIsBounded(requests: seq<int>, max: int, from: int)
    requires max >= 1 && Nondecreasing(requests)
    ensures var (window, accepted) := Serve(requests, max);
            && Within(accepted, from, from + WINDOW) <= 2 * max - 1
            && (window.Some? ==> Since(accepted, window.value.started) <= max)
  {
    ServingStaysTidy(requests, max);
  }

  function Repeat(time: int, n: nat): (r: seq<int>)
    ensures |r| == n && forall i | 0 <= i < n :: r[i] == time
  {
    seq(n, _ => time)
  }

  /** One request opens a window, the rest come at its last instant, and a full window follows at once. */
  function Burst(max: nat): (r: seq<int>)
    requires max >= 1
  {
    [0] + Repeat(WINDOW - 1, max - 1) + Repeat(WINDOW, max)
  }

  lemma {:induction false} RepeatIsServed(before: seq<int>, window: Window, accepted: seq<int>, time: int, n: nat, max: nat)
    requires Serve(before, max) == (Some(window), accepted)
    requires window.started <= time < window.started + WINDOW && window.count + n <= max
    ensures Serve(before + Repeat(time, n), max) == (Some(window.(count := window.count + n)), accepted + Repeat(time, n))
  {
    if n == 0 {
      assert before + Repeat(time, 0) == before && accepted + Repeat(time, 0) == accepted;
    } else {
      RepeatIsServed(before, window, accepted, time, n - 1, max);
      var shorter := before + Repeat(time, n - 1);
      assert before + Repeat(time, n) == shorter + [time];
      assert (shorter + [time])[..|shorter|] == shorter;
      assert accepted + Repeat(time, n) == accepted + Repeat(time, n - 1) + [time];
    }
  }

  lemma {:induction false} SinceRepeat(times: seq<int>, time: int, n: nat, from: int)
    ensures Since(times + Repeat(time, n), from) == Since(times, from) + if time >= from then n else 0
  {
    if n == 0 {
      assert times + Repeat(time, 0) == times;
    } else {
      SinceRepeat(times, time, n - 1, from);
      assert times + Repeat(time, n) == (times + Repeat(time, n - 1)) + [time];
      OneMore(times + Repeat(time, n - 1), time, from);
    }
  }

  lemma {:induction false} ServeOneMore(before: seq<int>, window: Option<Window>, accepted: seq<int>,
                                        time: int, next: Window, max: int)
    requires Serve(before, max) == (window, accepted) && Admit(window, max, time) == Some(next)
    ensures Serve(before + [time], max) == (Some(next), accepted + [time])
  {
    assert (before + [time])[..|before|] == before;
  }

  lemma {:induction false} BurstIsServed(max: nat)
    requires max >= 1
    ensures Serve(Burst(max), max).1 == Burst(max)
  {
    hide Serve, Repeat;
    NothingIsServed(max);
    ServeOneMore([], None, [], 0, Window(0, 1), max);
    assert [] + [0] == [0];
    RepeatIsServed([0], Window(0, 1), [0], WINDOW - 1, max - 1, max);
    var full := [0] + Repeat(WINDOW - 1, max - 1);
    ServeOneMore(full, Some(Window(0, max)), full, WINDOW, Window(WINDOW, 1), max);
    var reset := full + [WINDOW];
    RepeatIsServed(reset, Window(WINDOW, 1), reset, WINDOW, max - 1, max);
    assert reset + Repeat(WINDOW, max - 1) == Burst(max) by {
      assert [WINDOW] + Repeat(WINDOW, max - 1) == Repeat(WINDOW, max);
      assert reset + Repeat(WINDOW, max - 1) == full + ([WINDOW] + Repeat(WINDOW, max - 1));
    }
  }

  lemma {:induction false} NothingIsServed(max: int)
    ensures Serve([], max) == (None, [])
  {
  }

  /** The bound is reached: this burst gets one short of twice the limit through in sixty seconds. */
  lemma {:induction false} BoundIsReached(max: nat)
    requires max >= 1
    ensures Nondecreasing(Burst(max))
    ensures Serve(Burst(max), max).1 == Burst(max)
    ensures Within(Burst(max), 1, 1 + WINDOW) == 2 * max - 1
  {
    BurstIsServed(max);
    var full := [0] + Repeat(WINDOW - 1, max - 1);
    SinceRepeat([0], WINDOW - 1, max - 1, 1);
    SinceRepeat([0], WINDOW - 1, max - 1, 1 + WINDOW);
    SinceRepeat(full, WINDOW, max, 1);
    SinceRepeat(full, WINDOW, max, 1 + WINDOW);
    NoneLater([0], 0, 1);
    NoneLater([0], 0, 1 + WINDOW);
  }
}
