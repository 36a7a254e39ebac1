/** The run-time stopping criterion (alns/stop/MaxRuntime.py). The clock is
    an input: each call is given the reading taken for the start time
    (used on the first call only) and the reading it compares with. */
module MaxRuntime {
  import opened Wrappers

  /** `start` is `None` before the first call. */
  datatype Criterion = Criterion(maxRuntime: real, start: Option<real>)

  function New(maxRuntime: real): (r: Result<Criterion, string>)
    ensures r.Ok? <==> maxRuntime >= 0.0
    ensures r.Err? ==> r.error == "Max runtime must be non-negative."
    ensures r.Ok? ==> r.value == Criterion(maxRuntime, None)
  {
    if maxRuntime < 0.0 then Err("Max runtime must be non-negative.")
    else Ok(Criterion(maxRuntime, None))
  }

  /** One call: record the start on the first call, then stop when strictly
      more than the maximum has elapsed since it. */
  function Stop(c: Criterion, startReading: real, now: real): (r: (Criterion, bool))
    ensures r.0.maxRuntime == c.maxRuntime
    ensures c.start.Some? ==> r.0.start == c.start
    ensures c.start.None? ==> r.0.start == Some(startReading)
    ensures r.1 <==> now - r.0.start.value > c.maxRuntime
  {
    var c' := if c.start.None? then c.(start := Some(startReading)) else c;
    (c', now - c'.start.value > c.maxRuntime)
  }

  /** Later calls never move the start time and ignore their start
      reading. */
  lemma StartFixed(c: Criterion, s1: real, s2: real, now: real)
    requires c.start.Some?
    ensures Stop(c, s1, now) == Stop(c, s2, now)
    ensures Stop(c, s1, now).0 == c
  {
  }

  /** With a clock that does not run backwards, once the criterion answers
      stop every later call answers stop too. */
  lemma StaysStopped(c: Criterion, s1: real, now1: real, s2: real, now2: real)
    requires Stop(c, s1, now1).1 && now1 <= now2
    ensures Stop(Stop(c, s1, now1).0, s2, now2).1
  {
  }
}
