/**
 What the two bounded fetchers share: the outside world they act on (a clock that
 never runs backwards and servers that answer anything), the robots verdicts, and
 what an evenly spaced list of admissions means for any window of time.
 */
module Fetching {
  import opened Reals
  import opened Wrappers

  /** A URL split where rate limits and robots rules apply. */
  datatype Url = Url(origin: string, path: string)

  function RobotsUrl(origin: string): Url {
    Url(origin, "/robots.txt")
  }

  /** What one HTTP exchange brings back; a transport error has no status. */
  datatype Response = Response(status: Option<int>, size: nat, rules: string, retryAfter: Option<real>)

  /** A cached robots verdict. */
  datatype Verdict = BudgetExhausted | DisallowAll | NoRules | Rules(text: string)

  datatype Purpose = Robots | Target

  datatype LogEntry = LogEntry(url: Url, status: Option<int>, size: nat, purpose: Purpose)

  /** The clock and the network, driven by arbitrary functions of the number of observations made so far. */
  class World {
    var now: real
    var step: nat
    const drift: nat -> real
    const answer: (nat, Url) -> Response

    constructor (start: real, drift: nat -> real, answer: (nat, Url) -> Response)
      ensures now == start
    {
      this.now := start;
      this.step := 0;
      this.drift := drift;
      this.answer := answer;
    }

    /** Time passes between any two observations, by an unknown non-negative amount. */
    method Tick()
      modifies this
      ensures now >= old(now)
    {
      var d := drift(step);
      step := step + 1;
      if d > 0.0 { now := now + d; }
    }

    method Monotonic() returns (t: real)
      modifies this
      ensures t == now >= old(now)
    {
      Tick();
      t := now;
    }

    method Sleep(seconds: real)
      modifies this
      ensures now >= old(now) && now >= old(now) + seconds
    {
      if seconds > 0.0 { now := now + seconds; }
      Tick();
    }

    method Get(url: Url) returns (r: Response)
      modifies this
      ensures now >= old(now)
    {
      Tick();
      r := answer(step, url);
      Tick();
    }
  }

  // ----- spacing

  /** Any two admissions to one origin are at least `interval` apart. */
  ghost predicate Spaced(log: seq<LogEntry>, admitted: seq<real>, interval: real) {
    && |admitted| == |log|
    && forall i, j :: 0 <= i < j < |log| && log[i].url.origin == log[j].url.origin ==>
      admitted[j] - admitted[i] >= interval
  }

  /** The admissions to one origin that fall within `[t, t + length]`, in order. */
  function Window(log: seq<LogEntry>, admitted: seq<real>, origin: string, t: real, length: real): seq<real>
    requires |admitted| == |log|
  {
    if log == [] then []
    else
      Window(log[..|log| - 1], admitted[..|log| - 1], origin, t, length)
      + if log[|log| - 1].url.origin == origin && t <= admitted[|log| - 1] <= t + length
        then [admitted[|log| - 1]]
        else []
  }

  ghost predicate AdmittedTo(log: seq<LogEntry>, admitted: seq<real>, origin: string, x: real)
    requires |admitted| == |log|
  {
    exists i :: 0 <= i < |log| && log[i].url.origin == origin && admitted[i] == x
  }

  ghost predicate SpacedTimes(w: seq<real>, interval: real) {
    |w| <= 1 || (w[|w| - 1] - w[|w| - 2] >= interval && SpacedTimes(w[..|w| - 1], interval))
  }

  lemma AdmittedEarlier(log: seq<LogEntry>, admitted: seq<real>, origin: string, x: real)
    requires |admitted| == |log| && log != []
    requires AdmittedTo(log[..|log| - 1], admitted[..|log| - 1], origin, x)
    ensures AdmittedTo(log, admitted, origin, x)
  {
    var init, ainit := log[..|log| - 1], admitted[..|log| - 1];
    var i :| 0 <= i < |init| && init[i].url.origin == origin && ainit[i] == x;
    assert log[i].url.origin == origin && admitted[i] == x;
  }

  lemma SpacedPush(log: seq<LogEntry>, admitted: seq<real>, e: LogEntry, at: real, interval: real)
    requires Spaced(log, admitted, interval)
    requires forall i :: 0 <= i < |log| && log[i].url.origin == e.url.origin ==> at - admitted[i] >= interval
    ensures Spaced(log + [e], admitted + [at], interval)
  {}

  lemma LastIsSpaced(log: seq<LogEntry>, admitted: seq<real>, x: real, interval: real)
    requires Spaced(log, admitted, interval) && log != []
    requires AdmittedTo(log[..|log| - 1], admitted[..|log| - 1], log[|log| - 1].url.origin, x)
    ensures admitted[|log| - 1] - x >= interval
  {
    var init, ainit := log[..|log| - 1], admitted[..|log| - 1];
    var i :| 0 <= i < |init| && init[i].url.origin == log[|log| - 1].url.origin && ainit[i] == x;
    assert log[i].url.origin == log[|log| - 1].url.origin;
  }

  lemma {:induction false} WindowIsWithin(log: seq<LogEntry>, admitted: seq<real>, origin: string, t: real,
                                          length: real)
    requires |admitted| == |log|
    ensures forall k :: 0 <= k < |Window(log, admitted, origin, t, length)| ==>
      t <= Window(log, admitted, origin, t, length)[k] <= t + length
  {
    if log != [] { WindowIsWithin(log[..|log| - 1], admitted[..|log| - 1], origin, t, length); }
  }

  lemma {:induction false} WindowIsAdmitted(log: seq<LogEntry>, admitted: seq<real>, origin: string, t: real,
                                            length: real)
    requires |admitted| == |log|
    ensures var w := Window(log, admitted, origin, t, length);
      w != [] ==> AdmittedTo(log, admitted, origin, w[|w| - 1])
  {
    if log != [] {
      var n := |log| - 1;
      if log[n].url.origin == origin && t <= admitted[n] <= t + length {
      } else {
        var v := Window(log[..n], admitted[..n], origin, t, length);
        WindowIsAdmitted(log[..n], admitted[..n], origin, t, length);
        if v != [] { AdmittedEarlier(log, admitted, origin, v[|v| - 1]); }
      }
    }
  }

  lemma {:induction false} WindowIsSpaced(log: seq<LogEntry>, admitted: seq<real>, origin: string, t: real,
                                          length: real, interval: real)
    requires Spaced(log, admitted, interval)
    ensures SpacedTimes(Window(log, admitted, origin, t, length), interval)
  {
    if log != [] {
      var n := |log| - 1;
      var v := Window(log[..n], admitted[..n], origin, t, length);
      WindowIsSpaced(log[..n], admitted[..n], origin, t, length, interval);
      if log[n].url.origin == origin && t <= admitted[n] <= t + length {
        var w := v + [admitted[n]];
        assert w[..|w| - 1] == v;
        if v != [] {
          WindowIsAdmitted(log[..n], admitted[..n], origin, t, length);
          LastIsSpaced(log, admitted, v[|v| - 1], interval);
        }
      } else {
        assert v + [] == v;
      }
    }
  }

  function Times(n: int, interval: real): real {
    n as real * interval
  }

  lemma {:induction false} Stretch(w: seq<real>, interval: real)
    requires w != [] && SpacedTimes(w, interval)
    ensures w[|w| - 1] - w[0] >= Times(|w| - 1, interval)
  {
    if |w| > 1 {
      Stretch(w[..|w| - 1], interval);
      OneMore(|w| - 2, interval);
    } else {
      NoTime(interval);
    }
  }

  lemma OneMore(n: int, interval: real)
    ensures Times(n + 1, interval) == Times(n, interval) + interval
  {}

  lemma NoTime(interval: real)
    ensures Times(0, interval) == 0.0
  {}

  lemma FitsIn(n: int, length: real, interval: real)
    requires interval > 0.0 && Times(n, interval) <= length
    ensures n as real <= length / interval
  {
    var q := length / interval;
    assert q * interval == length;
    PositiveProduct(n as real - q, interval);
    assert (n as real - q) * interval == n as real * interval - q * interval;
  }

  lemma NoNegativeQuotient(length: real, interval: real)
    requires interval > 0.0 && length >= 0.0
    ensures length / interval >= 0.0
  {}

  lemma SpacedFit(w: seq<real>, t: real, length: real, interval: real)
    requires w != [] && SpacedTimes(w, interval) && interval > 0.0
    requires t <= w[0] && w[|w| - 1] <= t + length
    ensures (|w| - 1) as real <= length / interval
  {
    Stretch(w, interval);
    FitsIn(|w| - 1, length, interval);
  }

  /** No window of the given length holds more than `length / interval + 1` admissions to one origin. */
  lemma WindowHoldsFew(log: seq<LogEntry>, admitted: seq<real>, origin: string, t: real, length: real, interval: real)
    requires Spaced(log, admitted, interval) && interval > 0.0 && length >= 0.0
    ensures |Window(log, admitted, origin, t, length)| as real <= length / interval + 1.0
  {
    var w := Window(log, admitted, origin, t, length);
    WindowIsSpaced(log, admitted, origin, t, length, interval);
    WindowIsWithin(log, admitted, origin, t, length);
    NoNegativeQuotient(length, interval);
    if w != [] {
      SpacedFit(w, t, length, interval);
    }
  }
}
