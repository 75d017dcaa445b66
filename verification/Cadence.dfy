/** How often telemetry is sent (agent/src/agent.py, the cadence part of `_telemetry_loop`): every minute,
    or every three seconds while provisioning is active or just after a change, with a ceiling on the
    latter. Times are in seconds. */
module Cadence {
  import opened Options

  const FAST := 3.0
  const SLOW := 60.0
  const SETTLE := 15.0

  /** The two settings of the ceiling. */
  datatype Config = Config(max: real, backoff: real)

  /** What the tick sees: provisioning going on or not, simulation switched off, or a failing query. */
  datatype Activity = Active | Idle | Off | Unknown

  datatype Tick = Tick(now: real, activity: Activity, changed: bool)

  datatype State = State(fastSince: Option<real>, capped: bool, burstUntil: real)

  const START := State(None, false, 0.0)

  function Next(cfg: Config, s: State, t: Tick): State {
    var burst := if t.changed then t.now + SETTLE else s.burstUntil;
    match t.activity
    case Active =>
      if s.fastSince.None? then State(Some(t.now), s.capped, burst)
      else State(s.fastSince, s.capped || t.now - s.fastSince.value > cfg.max, burst)
    case Idle => State(None, false, burst)
    case _ => s.(burstUntil := burst)
  }

  /** The pause after the tick. */
  function Interval(cfg: Config, s: State, t: Tick): real {
    var after := Next(cfg, s, t);
    var chosen :=
      if !t.activity.Active? then SLOW
      else if s.fastSince.Some? && t.now - s.fastSince.value > cfg.max then cfg.backoff else FAST;
    if t.now < after.burstUntil && !after.capped && FAST < chosen then FAST else chosen
  }

  class Telemetry {
    var fastSince: Option<real>
    var capped: bool
    var burstUntil: real

    constructor ()
      ensures Now() == START
    {
      fastSince, capped, burstUntil := None, false, 0.0;
    }

    function Now(): State
      reads this
    {
      State(fastSince, capped, burstUntil)
    }

    method Step(cfg: Config, t: Tick) returns (interval: real)
      modifies this
      ensures Now() == Next(cfg, old(Now()), t)
      ensures interval == Interval(cfg, old(Now()), t)
    {
      if t.changed {
        burstUntil := t.now + SETTLE;
      }
      interval := SLOW;
      if t.activity.Active? {
        interval := FAST;
        if fastSince.None? {
          fastSince := Some(t.now);
        } else if t.now - fastSince.value > cfg.max {
          interval := cfg.backoff;
          if !capped {
            capped := true;
          }
        }
      } else if t.activity.Idle? {
        fastSince := None;
        capped := false;
      }
      if t.now < burstUntil {
        interval := if !capped then (if interval < FAST then interval else FAST) else interval;
      }
    }
  }

  function After(cfg: Config, ticks: seq<Tick>): State {
    if ticks == [] then START else Next(cfg, After(cfg, ticks[..|ticks| - 1]), ticks[|ticks| - 1])
  }

  /** The pause after the last tick of a run. */
  function LastPause(cfg: Config, ticks: seq<Tick>): real
    requires ticks != []
  {
    Interval(cfg, After(cfg, ticks[..|ticks| - 1]), ticks[|ticks| - 1])
  }

  /** A possible run: each tick comes no sooner than the pause before it lets it. */
  predicate Paced(cfg: Config, ticks: seq<Tick>) {
    |ticks| <= 1
    || (Paced(cfg, ticks[..|ticks| - 1])
        && ticks[|ticks| - 1].now >= ticks[|ticks| - 2].now + LastPause(cfg, ticks[..|ticks| - 1]))
  }

  // ── the state read off the history ─────────────────────────────────────────

  /** The first active tick since the last idle one. */
  function Onset(ticks: seq<Tick>): Option<real> {
    if ticks == [] then None
    else
      var before, last := Onset(ticks[..|ticks| - 1]), ticks[|ticks| - 1];
      if last.activity.Idle? then None
      else if last.activity.Active? && before.None? then Some(last.now) else before
  }

  /** Some active tick since the last idle one came later than the ceiling allows. */
  predicate Overdue(cfg: Config, ticks: seq<Tick>) {
    ticks != []
    && var front, last := ticks[..|ticks| - 1], ticks[|ticks| - 1];
       !last.activity.Idle?
       && (Overdue(cfg, front)
           || (last.activity.Active? && Onset(front).Some? && last.now - Onset(front).value > cfg.max))
  }

  lemma {:induction false} StateIsHistory(cfg: Config, ticks: seq<Tick>)
    ensures After(cfg, ticks).fastSince == Onset(ticks)
    ensures After(cfg, ticks).capped <==> Overdue(cfg, ticks)
    ensures Overdue(cfg, ticks) ==> Onset(ticks).Some?
  {
    if ticks != [] {
      StateIsHistory(cfg, ticks[..|ticks| - 1]);
    }
  }

  /** Once the ceiling is reached, no tick before the next idle one is faster than the back-off: not an
      active one, not one in the window after a change, not one whose query fails. */
  lemma NoFastTickOnceOverdue(cfg: Config, ticks: seq<Tick>)
    requires ticks != [] && !ticks[|ticks| - 1].activity.Idle? && cfg.backoff <= SLOW && Forward(ticks)
    requires Overdue(cfg, ticks)
    ensures LastPause(cfg, ticks) >= cfg.backoff
  {
    var front := ticks[..|ticks| - 1];
    StateIsHistory(cfg, front);
    StateIsHistory(cfg, ticks);
    OverdueStays(cfg, ticks);
  }

  /** The clock does not go back. */
  predicate Forward(ticks: seq<Tick>) {
    forall i, j | 0 <= i <= j < |ticks| :: ticks[i].now <= ticks[j].now
  }

  lemma {:induction false} OverdueStays(cfg: Config, ticks: seq<Tick>)
    requires Forward(ticks) && Overdue(cfg, ticks)
    ensures Onset(ticks).Some? && ticks[|ticks| - 1].now - Onset(ticks).value > cfg.max
  {
    var front := ticks[..|ticks| - 1];
    StateIsHistory(cfg, front);
    if Overdue(cfg, front) {
      OverdueStays(cfg, front);
    }
  }

  /** Some change was seen less than fifteen seconds before the last tick, or at it. */
  predicate JustChanged(ticks: seq<Tick>) {
    exists k :: 0 <= k < |ticks| && ticks[k].changed && ticks[|ticks| - 1].now < ticks[k].now + 15.0
  }

  lemma {:induction false} BurstIsLastChange(cfg: Config, ticks: seq<Tick>, now: real)
    requires Forward(ticks) && now >= 0.0
    ensures now < After(cfg, ticks).burstUntil <==> exists k :: 0 <= k < |ticks| && ticks[k].changed && now < ticks[k].now + 15.0
  {
    if ticks != [] {
      var front, last := ticks[..|ticks| - 1], ticks[|ticks| - 1];
      BurstIsLastChange(cfg, front, now);
      assert last.changed ==> forall k | 0 <= k < |ticks| :: ticks[k].now <= last.now;
      assert !last.changed ==> forall k | 0 <= k < |ticks| && ticks[k].changed :: k < |front| && front[k].changed;
    }
  }

  /** The pause after every tick, by the history alone. An active tick: three seconds, past the ceiling the back-off.
      Any other: three seconds in the fifteen seconds after a change, unless the ceiling was reached before it and no
      idle tick came since; else a minute. */
  lemma PauseIsHistory(cfg: Config, ticks: seq<Tick>)
    requires ticks != [] && Forward(ticks) && ticks[0].now >= 0.0 && cfg.max >= 0.0
    ensures var last := ticks[|ticks| - 1];
            LastPause(cfg, ticks) ==
              if last.activity.Active? then
                (if Onset(ticks).Some? && last.now - Onset(ticks).value > cfg.max then cfg.backoff else 3.0)
              else if JustChanged(ticks) && !Overdue(cfg, ticks) then 3.0
              else 60.0
  {
    var last := ticks[|ticks| - 1];
    StateIsHistory(cfg, ticks);
    BurstIsLastChange(cfg, ticks, last.now);
    if last.activity.Active? {
      FastIffWithinCeiling(cfg, ticks);
    }
  }

  // ── the ceiling ────────────────────────────────────────────────────────────

  /** After any history, an active tick is fast exactly when it comes within the ceiling of the first active
      tick since the last idle one; else it is followed by the back-off, change or no change. */
  lemma FastIffWithinCeiling(cfg: Config, ticks: seq<Tick>)
    requires ticks != [] && ticks[|ticks| - 1].activity.Active? && Forward(ticks) && cfg.max >= 0.0
    ensures Onset(ticks).Some?
    ensures LastPause(cfg, ticks)
         == if ticks[|ticks| - 1].now - Onset(ticks).value > cfg.max then cfg.backoff else FAST
  {
    var front := ticks[..|ticks| - 1];
    StateIsHistory(cfg, front);
    StateIsHistory(cfg, ticks);
    if Overdue(cfg, front) {
      OverdueStays(cfg, front);
    }
  }

  /** From tick `k` on every tick is active. */
  predicate ActiveFrom(ticks: seq<Tick>, k: nat) {
    forall i | k <= i < |ticks| :: ticks[i].activity.Active?
  }

  /** The ticks from `k` on that were followed by the fast pause. */
  function FastFrom(cfg: Config, ticks: seq<Tick>, k: nat): nat
    requires k <= |ticks|
  {
    if |ticks| == k then 0
    else FastFrom(cfg, ticks[..|ticks| - 1], k) + if LastPause(cfg, ticks) == FAST then 1 else 0
  }

  /** While ticks stay active the onset stays, and it is no later than the first of them. */
  lemma {:induction false} OnsetStays(ticks: seq<Tick>, k: nat)
    requires k < |ticks| && ActiveFrom(ticks, k) && Forward(ticks)
    ensures Onset(ticks).Some? && Onset(ticks) == Onset(ticks[..k + 1]) && Onset(ticks).value <= ticks[k].now
  {
    if k == |ticks| - 1 {
      assert ticks[..k + 1] == ticks;
      OnsetIsPast(ticks[..k]);
    } else {
      var front := ticks[..|ticks| - 1];
      OnsetStays(front, k);
      assert front[..k + 1] == ticks[..k + 1];
    }
  }

  lemma {:induction false} OnsetIsPast(ticks: seq<Tick>)
    requires Forward(ticks)
    ensures Onset(ticks).Some? ==> ticks != [] && Onset(ticks).value <= ticks[|ticks| - 1].now
  {
    if ticks != [] {
      OnsetIsPast(ticks[..|ticks| - 1]);
    }
  }

  /** In any unbroken run of active ticks, whatever came before it, at most the ceiling over three, plus one,
      are fast (unless the back-off is configured to be the fast pause itself). */
  lemma {:induction false} FastTicksAreBounded(cfg: Config, ticks: seq<Tick>, k: nat)
    requires k < |ticks| && ActiveFrom(ticks, k)
    requires Forward(ticks) && Paced(cfg, ticks) && cfg.max >= 0.0 && cfg.backoff != FAST
    ensures FAST * (FastFrom(cfg, ticks, k) as real - 1.0) <= cfg.max
    ensures FAST * (FastFrom(cfg, ticks, k) as real - 1.0) <= ticks[|ticks| - 1].now - ticks[k].now
  {
    FastIffWithinCeiling(cfg, ticks);
    OnsetStays(ticks, k);
    if k < |ticks| - 1 {
      var front := ticks[..|ticks| - 1];
      FastTicksAreBounded(cfg, front, k);
      FastIffWithinCeiling(cfg, front);
      OnsetStays(front, k);
      assert front[..k + 1] == ticks[..k + 1];
      assert ticks[|ticks| - 1].now >= front[|front| - 1].now + LastPause(cfg, front);
    }
  }

  /** A pause in which simulation is off does not give a new run its own ceiling: 700 seconds after the
      first active tick the very first tick of the second run gets the back-off. */
  lemma OffDoesNotReset(cfg: Config)
    requires cfg == Config(600.0, 15.0)
    ensures var ticks := [Tick(0.0, Active, false), Tick(300.0, Off, false), Tick(700.0, Active, false)];
            Forward(ticks) && Paced(cfg, ticks) && LastPause(cfg, ticks) == cfg.backoff
  {
    var a, b, c := Tick(0.0, Active, false), Tick(300.0, Off, false), Tick(700.0, Active, false);
    assert [a, b, c][..2] == [a, b] && [a, b][..1] == [a] && [a][..0] == [];
    assert After(cfg, [a]) == State(Some(0.0), false, 0.0);
    assert After(cfg, [a, b]) == State(Some(0.0), false, 0.0);
  }
}
