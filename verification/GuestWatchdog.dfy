/** The guest-agent watchdog: a timed escalation ladder over persisted per-VM records
    (agent/src/guest_watchdog.py, `run_pass`). Times are seconds on the host clock. */
module GuestWatchdog {
  import opened Options

  datatype Action = Start | Reset | PowerCycle

  /** The persisted record of one VM. */
  datatype Rec = Rec(lastOk: Option<real>, lastAction: Option<Action>, lastActionTs: Option<real>,
                     actions: nat, pingErrorTs: Option<real>, pingErrorStreak: nat)

  const NO_RECORD := Rec(None, None, None, 0, None, 0)

  datatype Ladder = Ladder(grace: real, hard: real, cooldown: real)

  /** `Hung`: the ping itself timed out. It counts as silence, and is remembered in the record. */
  datatype Ping = Alive | Refused | Hung

  /** What the host answers about one VM during a pass: `works` is whether the commands of an attempted
      action succeed. */
  datatype View = View(template: bool, ping: Ping, works: bool)

  /** How a pass ends: with its records saved, with a save that fails (which is swallowed), or abandoned because it
      took too long, when it had dealt with the VMs given. */
  datatype Ending = Completed | Unsaved | Abandoned(reached: set<int>)

  datatype Pass = Pass(now: real, fleet: set<int>, floor: int, protected: set<int>, busy: set<int>,
                       view: int -> View, ending: Ending)

  datatype Decision = Heartbeat | Hold | Try(action: Action)

  datatype Outcome = Responding | Waiting | Did(action: Action) | Failed(action: Action)

  predicate Checked(p: Pass, v: int) {
    v in p.fleet && v > p.floor && v !in p.protected && v !in p.busy && !p.view(v).template
  }

  /** The pass has got to the VM. */
  predicate Visited(p: Pass, v: int) {
    Checked(p, v) && (p.ending.Abandoned? ==> v in p.ending.reached)
  }

  function RecOf(records: map<int, Rec>, v: int): Rec {
    if v in records then records[v] else NO_RECORD
  }

  // ── one VM in one pass ─────────────────────────────────────────────────────

  function Decide(ladder: Ladder, rec: Rec, now: real, ping: Ping): Decision {
    if ping.Alive? then Heartbeat
    else if rec.lastActionTs.Some? && now - rec.lastActionTs.value < ladder.cooldown then Hold
    else if rec.lastOk.None? then Try(Start)
    else
      var silent := now - rec.lastOk.value;
      if silent > ladder.hard then Try(PowerCycle)
      else if silent > ladder.grace then Try(Reset)
      else Hold
  }

  function OutcomeOf(ladder: Ladder, rec: Rec, now: real, view: View): Outcome {
    match Decide(ladder, rec, now, view.ping)
    case Heartbeat => Responding
    case Hold => Waiting
    case Try(action) => if view.works then Did(action) else Failed(action)
  }

  function NextRec(ladder: Ladder, rec: Rec, now: real, view: View): Rec {
    var noted := if view.ping.Hung?
                 then rec.(pingErrorTs := Some(now), pingErrorStreak := rec.pingErrorStreak + 1) else rec;
    match OutcomeOf(ladder, rec, now, view)
    case Responding => noted.(lastOk := Some(now), pingErrorStreak := 0)
    case Did(action) =>
      noted.(lastAction := Some(action), lastActionTs := Some(now), actions := noted.actions + 1)
    case _ => noted
  }

  // ── one completed pass ─────────────────────────────────────────────────────

  /** The records a completed pass saves: checked VMs stepped, others kept, absent VMs forgotten. */
  function AfterPass(ladder: Ladder, records: map<int, Rec>, p: Pass): map<int, Rec> {
    map v | v in p.fleet && (v in records || Checked(p, v)) ::
      if Checked(p, v) then NextRec(ladder, RecOf(records, v), p.now, p.view(v)) else records[v]
  }

  /** What a completed pass finds for the VMs it checks. */
  function PassOutcomes(ladder: Ladder, records: map<int, Rec>, p: Pass): map<int, Outcome> {
    map v | v in p.fleet && Checked(p, v) :: OutcomeOf(ladder, RecOf(records, v), p.now, p.view(v))
  }

  /** Which VMs a pass deals with: those of the fleet above the floor that are not protected, not busy and no templates.
      Any other VM of the fleet keeps its record as it is, a VM outside the fleet loses it. */
  lemma PassChecksIff(ladder: Ladder, records: map<int, Rec>, p: Pass, v: int)
    ensures var left := v <= p.floor || v in p.protected || v in p.busy || p.view(v).template;
            var after := AfterPass(ladder, records, p);
            && (v in PassOutcomes(ladder, records, p) <==> v in p.fleet && !left)
            && (v in p.fleet && left ==>
                  (v in after <==> v in records) && (v in after ==> after[v] == records[v]))
            && (v in p.fleet && !left ==> v in after)
            && (v !in p.fleet ==> v !in after)
  {
  }

  lemma SomeUnseen(all: set<int>, seen: set<int>)
    requires seen <= all && seen != all
    ensures exists v :: v in all && v !in seen
  {
    assert (forall v :: v in all ==> v in seen) ==> seen == all;
  }

  class Watchdog {
    var records: map<int, Rec>
    var outcomes: map<int, Outcome>

    constructor ()
      ensures records == map[] && outcomes == map[]
    {
      records, outcomes := map[], map[];
    }

    /** `run_pass`. Without a VM listing the pass ends before it touches any record; an abandoned one saves and
        publishes nothing, and a failing save leaves the records as they were. */
    method RunPass(ladder: Ladder, p: Pass, listed: bool)
      modifies this
      ensures records == if listed && p.ending.Completed? then AfterPass(ladder, old(records), p) else old(records)
      ensures outcomes == if !listed then map[]
                          else if !p.ending.Abandoned? then PassOutcomes(ladder, old(records), p) else old(outcomes)
      ensures listed && !p.ending.Abandoned? ==> forall v :: v in outcomes <==>
        v in p.fleet && v > p.floor && v !in p.protected && v !in p.busy && !p.view(v).template
    {
      if !listed {
        outcomes := map[];
        return;
      }
      var state, result := records, map[];
      var all := if p.ending.Abandoned? then p.fleet * p.ending.reached else p.fleet;
      var seen: set<int> := {};
      while seen != all
        invariant seen <= all && records == old(records) && outcomes == old(outcomes)
        invariant StateSoFar(ladder, records, p, seen, state) && OutcomesSoFar(ladder, records, p, seen, result)
        decreases all - seen
      {
        SomeUnseen(all, seen);
        var v :| v in all && v !in seen;
        seen := seen + {v};
        if v > p.floor && v !in p.protected && v !in p.busy && !p.view(v).template {
          var rec, outcome := CheckVm(ladder, if v in state then state[v] else NO_RECORD, p.now, p.view(v));
          state := state[v := rec];
          result := result[v := outcome];
        }
      }
      if p.ending.Abandoned? {
        return;
      }
      SoFarToEnd(ladder, records, p, state, result);
      if p.ending.Completed? {
        records := map v | v in state && v in p.fleet :: state[v];
      }
      outcomes := result;
    }

    /** One VM: the record is updated as the pass goes down the ladder. */
    method CheckVm(ladder: Ladder, was: Rec, now: real, view: View) returns (rec: Rec, outcome: Outcome)
      ensures rec == NextRec(ladder, was, now, view)
      ensures outcome == OutcomeOf(ladder, was, now, view)
    {
      rec := was;
      if view.ping.Hung? {
        rec := rec.(pingErrorTs := Some(now), pingErrorStreak := rec.pingErrorStreak + 1);
      }
      if view.ping.Alive? {
        rec := rec.(lastOk := Some(now), pingErrorStreak := 0);
        return rec, Responding;
      }
      if rec.lastActionTs.Some? && now - rec.lastActionTs.value < ladder.cooldown {
        return rec, Waiting;
      }
      var action := Start;
      if rec.lastOk.Some? {
        var silentFor := now - rec.lastOk.value;
        if silentFor > ladder.hard {
          action := PowerCycle;
        } else if silentFor > ladder.grace {
          action := Reset;
        } else {
          return rec, Waiting;
        }
      }
      if !view.works {
        return rec, Failed(action);
      }
      rec := rec.(lastAction := Some(action), lastActionTs := Some(now), actions := rec.actions + 1);
      outcome := Did(action);
    }
  }

  /** The records while a pass goes through the fleet, with the VMs in `seen` done. */
  ghost predicate StateSoFar(ladder: Ladder, records: map<int, Rec>, p: Pass, seen: set<int>, state: map<int, Rec>) {
    && (forall v :: v in state <==> v in records || (v in seen && Checked(p, v)))
    && (forall v | v in state :: state[v] == if v in seen && Checked(p, v)
                                           then NextRec(ladder, RecOf(records, v), p.now, p.view(v)) else records[v])
  }

  ghost predicate OutcomesSoFar(ladder: Ladder, records: map<int, Rec>, p: Pass, seen: set<int>, outcomes: map<int, Outcome>) {
    && (forall v :: v in outcomes <==> v in seen && Checked(p, v))
    && (forall v | v in outcomes :: outcomes[v] == OutcomeOf(ladder, RecOf(records, v), p.now, p.view(v)))
  }

  lemma SoFarToEnd(ladder: Ladder, records: map<int, Rec>, p: Pass, state: map<int, Rec>, outcomes: map<int, Outcome>)
    requires StateSoFar(ladder, records, p, p.fleet, state) && OutcomesSoFar(ladder, records, p, p.fleet, outcomes)
    ensures (map v | v in state && v in p.fleet :: state[v]) == AfterPass(ladder, records, p)
    ensures outcomes == PassOutcomes(ladder, records, p)
  {
    var found := PassOutcomes(ladder, records, p);
    forall v ensures (v in outcomes <==> v in found) && (v in outcomes ==> outcomes[v] == found[v]) {
    }
    var saved, after := (map v | v in state && v in p.fleet :: state[v]), AfterPass(ladder, records, p);
    forall v ensures (v in saved <==> v in after) && (v in saved ==> saved[v] == after[v]) {
    }
  }

  // ── sequences of passes ────────────────────────────────────────────────────

  /** The saved records before pass `k`. */
  function RecordsAt(ladder: Ladder, start: map<int, Rec>, passes: seq<Pass>, k: nat): map<int, Rec>
    requires k <= |passes|
  {
    if k == 0 then start
    else
      var before := RecordsAt(ladder, start, passes, k - 1);
      if passes[k - 1].ending.Completed? then AfterPass(ladder, before, passes[k - 1]) else before
  }

  /** What pass `k` finds or does for the VM; a pass that is not completed does it without recording it. */
  function OutcomeAt(ladder: Ladder, start: map<int, Rec>, passes: seq<Pass>, k: nat, v: int): Option<Outcome>
    requires k < |passes|
  {
    if Visited(passes[k], v)
    then Some(OutcomeOf(ladder, RecOf(RecordsAt(ladder, start, passes, k), v), passes[k].now, passes[k].view(v)))
    else None
  }

  predicate Acts(ladder: Ladder, start: map<int, Rec>, passes: seq<Pass>, k: nat, v: int)
    requires k < |passes|
  {
    var o := OutcomeAt(ladder, start, passes, k, v);
    o.Some? && o.value.Did?
  }

  /** The VM's record is not pruned by the passes `i` up to `j` (excluded). */
  predicate Kept(passes: seq<Pass>, i: nat, j: nat, v: int)
    requires j <= |passes|
  {
    forall k | i <= k < j && passes[k].ending.Completed? :: v in passes[k].fleet
  }

  predicate ClockRuns(passes: seq<Pass>) {
    forall i, j | 0 <= i < j < |passes| :: passes[i].now <= passes[j].now
  }

  /** No heartbeat of `v` is recorded by the passes `i` up to `j` (excluded). */
  predicate SilentDuring(passes: seq<Pass>, i: nat, j: nat, v: int)
    requires j <= |passes|
  {
    forall k | i <= k < j && passes[k].ending.Completed? && Checked(passes[k], v) :: !passes[k].view(v).ping.Alive?
  }

  /** One pass seen from one VM whose record is not pruned. */
  lemma RecordAfterPass(ladder: Ladder, start: map<int, Rec>, passes: seq<Pass>, k: nat, v: int)
    requires k < |passes| && (passes[k].ending.Completed? ==> v in passes[k].fleet)
    ensures var rec := RecOf(RecordsAt(ladder, start, passes, k), v);
            RecOf(RecordsAt(ladder, start, passes, k + 1), v)
            == if passes[k].ending.Completed? && Checked(passes[k], v)
               then NextRec(ladder, rec, passes[k].now, passes[k].view(v)) else rec
  {
  }

  /** After an action of a completed pass `i`, the record keeps an action time at least that late. */
  lemma {:induction false} LastActionRemembered(ladder: Ladder, start: map<int, Rec>, passes: seq<Pass>,
                                                 i: nat, j: nat, v: int)
    requires i < j <= |passes| && ClockRuns(passes) && Kept(passes, i, j, v)
    requires Acts(ladder, start, passes, i, v) && passes[i].ending.Completed?
    ensures var rec := RecOf(RecordsAt(ladder, start, passes, j), v);
            rec.lastActionTs.Some? && passes[i].now <= rec.lastActionTs.value
    decreases j
  {
    RecordAfterPass(ladder, start, passes, j - 1, v);
    if i + 1 < j {
      LastActionRemembered(ladder, start, passes, i, j - 1, v);
    }
  }

  /** Over all sequences of passes, however they end: after an action of a completed pass the next one on
      that VM, recorded or not, comes no sooner than the cooldown. */
  lemma ActionsAreCooldownApart(ladder: Ladder, start: map<int, Rec>, passes: seq<Pass>, i: nat, j: nat, v: int)
    requires i < j < |passes| && ClockRuns(passes) && Kept(passes, i, j, v)
    requires Acts(ladder, start, passes, i, v) && passes[i].ending.Completed? && Acts(ladder, start, passes, j, v)
    ensures passes[j].now - passes[i].now >= ladder.cooldown
  {
    LastActionRemembered(ladder, start, passes, i, j, v);
  }

  lemma {:induction false} RecordsOfPrefix(ladder: Ladder, start: map<int, Rec>, passes: seq<Pass>, more: seq<Pass>, k: nat)
    requires k <= |passes|
    ensures RecordsAt(ladder, start, passes + more, k) == RecordsAt(ladder, start, passes, k)
  {
    if k > 0 {
      RecordsOfPrefix(ladder, start, passes, more, k - 1);
    }
  }

  /** Whatever passes follow, the next action on the VM is at least the cooldown after the last pass of
      `passes`. */
  ghost predicate SpacedAfter(ladder: Ladder, start: map<int, Rec>, passes: seq<Pass>, v: int)
    requires passes != []
  {
    forall more: seq<Pass> | more != [] && Continues(ladder, start, passes, more, v) ::
      more[|more| - 1].now - passes[|passes| - 1].now >= ladder.cooldown
  }

  /** `more` can follow `passes`, keeps the VM's record, and ends with an action on the VM. */
  predicate Continues(ladder: Ladder, start: map<int, Rec>, passes: seq<Pass>, more: seq<Pass>, v: int)
    requires passes != [] && more != []
  {
    var all := passes + more;
    ClockRuns(all) && Kept(all, |passes| - 1, |all| - 1, v) && Acts(ladder, start, all, |all| - 1, v)
  }

  /** A pass that has just acted on a VM: the cooldown holds after it, over all continuations, exactly when the
      pass is completed. An abandoned one, or one whose save fails, forgets, and the next may act at once. */
  lemma CooldownHoldsIff(ladder: Ladder, start: map<int, Rec>, passes: seq<Pass>, v: int)
    requires passes != [] && ClockRuns(passes) && Acts(ladder, start, passes, |passes| - 1, v)
    requires ladder.cooldown > 0.0
    ensures SpacedAfter(ladder, start, passes, v) <==> passes[|passes| - 1].ending.Completed?
  {
    var i := |passes| - 1;
    if passes[i].ending.Completed? {
      forall more: seq<Pass> | more != [] && Continues(ladder, start, passes, more, v)
        ensures more[|more| - 1].now - passes[i].now >= ladder.cooldown
      {
        RecordsOfPrefix(ladder, start, passes, more, i);
        ActionsAreCooldownApart(ladder, start, passes + more, i, |passes + more| - 1, v);
      }
    } else {
      ActsAgainAtOnce(ladder, start, passes, v);
    }
  }

  lemma ActsAgainAtOnce(ladder: Ladder, start: map<int, Rec>, passes: seq<Pass>, v: int)
    requires passes != [] && ClockRuns(passes) && Acts(ladder, start, passes, |passes| - 1, v)
    requires ladder.cooldown > 0.0 && !passes[|passes| - 1].ending.Completed?
    ensures !SpacedAfter(ladder, start, passes, v)
  {
    var i := |passes| - 1;
    var next := passes[i].(now := passes[i].now + ladder.cooldown / 2.0, ending := Completed);
    var all := passes + [next];
    RecordsOfPrefix(ladder, start, passes, [next], i);
    assert RecordsAt(ladder, start, all, i + 1) == RecordsAt(ladder, start, all, i);
    var rec := RecOf(RecordsAt(ladder, start, passes, i), v);
    assert OutcomeOf(ladder, rec, passes[i].now, passes[i].view(v)).Did?;
    assert OutcomeOf(ladder, rec, next.now, next.view(v)).Did?;
    assert Visited(next, v);
    assert Continues(ladder, start, passes, [next], v);
  }

  /** A pass abandoned after it acted saves no records, and the next pass acts on the old ones: two power cycles
      less than a cooldown apart. */
  lemma AbandonedPassBreaksCooldown(ladder: Ladder) returns (saved: map<int, Rec>, lost: Pass, next: Pass, v: int)
    requires ladder.cooldown > 0.0
    ensures lost.ending.Abandoned? && next.ending.Completed? && 0.0 < next.now - lost.now < ladder.cooldown
    ensures OutcomeAt(ladder, saved, [lost, next], 0, v) == Some(Did(PowerCycle))
    ensures OutcomeAt(ladder, saved, [lost, next], 1, v) == Some(Did(PowerCycle))
  {
    v := 90001;
    saved := map[v := NO_RECORD.(lastOk := Some(0.0))];
    lost := Pass(ladder.hard + 1.0, {v}, 90000, {}, {}, (_: int) => View(false, Refused, true), Abandoned({v}));
    next := lost.(now := lost.now + ladder.cooldown / 2.0, ending := Completed);
    assert RecordsAt(ladder, saved, [lost, next], 0) == saved;
    assert RecordsAt(ladder, saved, [lost, next], 1) == saved;
  }

  lemma {:induction false} HeartbeatStaysPut(ladder: Ladder, start: map<int, Rec>, passes: seq<Pass>,
                                              i: nat, j: nat, v: int)
    requires i <= j <= |passes| && Kept(passes, i, j, v) && SilentDuring(passes, i, j, v)
    ensures RecOf(RecordsAt(ladder, start, passes, j), v).lastOk == RecOf(RecordsAt(ladder, start, passes, i), v).lastOk
    decreases j
  {
    if i < j {
      HeartbeatStaysPut(ladder, start, passes, i, j - 1, v);
      SilentPassKeepsHeartbeat(ladder, start, passes, j - 1, v);
    }
  }

  lemma SilentPassKeepsHeartbeat(ladder: Ladder, start: map<int, Rec>, passes: seq<Pass>, k: nat, v: int)
    requires k < |passes| && (passes[k].ending.Completed? ==> v in passes[k].fleet)
    requires passes[k].ending.Completed? && Checked(passes[k], v) ==> !passes[k].view(v).ping.Alive?
    ensures RecOf(RecordsAt(ladder, start, passes, k + 1), v).lastOk == RecOf(RecordsAt(ladder, start, passes, k), v).lastOk
  {
    RecordAfterPass(ladder, start, passes, k, v);
  }

  /** Within one silence of a VM that was once healthy, whatever follows a recorded action is a power
      cycle, also when passes in between are abandoned. */
  lemma LaterActionsArePowerCycles(ladder: Ladder, start: map<int, Rec>, passes: seq<Pass>, i: nat, j: nat, v: int)
    requires ladder.grace + ladder.cooldown >= ladder.hard
    requires i < j < |passes| && ClockRuns(passes) && Kept(passes, i, j, v) && SilentDuring(passes, i, j + 1, v)
    requires Acts(ladder, start, passes, i, v) && passes[i].ending.Completed? && Acts(ladder, start, passes, j, v)
    requires OutcomeAt(ladder, start, passes, i, v).value.action != Start
    ensures OutcomeAt(ladder, start, passes, j, v).value.action == PowerCycle
  {
    LastActionRemembered(ladder, start, passes, i, j, v);
    HeartbeatStaysPut(ladder, start, passes, i, j, v);
  }

  /** "No reset follows a recorded reset in a silence", as a property of the ladder's three thresholds. */
  ghost predicate OneResetPerSilence(ladder: Ladder) {
    forall start: map<int, Rec>, passes: seq<Pass>, i: nat, j: nat, v: int
      | i < j < |passes| && ClockRuns(passes) && Kept(passes, i, j, v) && SilentDuring(passes, i, j + 1, v)
        && passes[i].ending.Completed?
      :: !(OutcomeAt(ladder, start, passes, i, v) == Some(Did(Reset))
           && OutcomeAt(ladder, start, passes, j, v) == Some(Did(Reset)))
  }

  /** With non-negative thresholds, a silence never sees two resets exactly when the grace period plus
      the cooldown reaches the hard limit. */
  lemma OneResetIff(ladder: Ladder)
    requires ladder.grace >= 0.0 && ladder.cooldown >= 0.0
    ensures OneResetPerSilence(ladder) <==> ladder.grace + ladder.cooldown >= ladder.hard
  {
    if ladder.grace + ladder.cooldown >= ladder.hard {
      forall start: map<int, Rec>, passes: seq<Pass>, i: nat, j: nat, v: int
        | i < j < |passes| && ClockRuns(passes) && Kept(passes, i, j, v) && SilentDuring(passes, i, j + 1, v)
          && passes[i].ending.Completed?
        ensures !(OutcomeAt(ladder, start, passes, i, v) == Some(Did(Reset))
                  && OutcomeAt(ladder, start, passes, j, v) == Some(Did(Reset)))
      {
        if OutcomeAt(ladder, start, passes, i, v) == Some(Did(Reset))
           && OutcomeAt(ladder, start, passes, j, v) == Some(Did(Reset)) {
          LaterActionsArePowerCycles(ladder, start, passes, i, j, v);
        }
      }
    } else {
      TwoResets(ladder);
    }
  }

  /** A VM last healthy at 0, silent at two passes a cooldown apart, the second at the hard limit. */
  lemma TwoResets(ladder: Ladder)
    requires ladder.grace >= 0.0 && ladder.cooldown >= 0.0
    requires ladder.grace + ladder.cooldown < ladder.hard
    ensures !OneResetPerSilence(ladder)
  {
    var v := 90001;
    var view := (_: int) => View(false, Refused, true);
    var first := Pass(ladder.hard - ladder.cooldown, {v}, 90000, {}, {}, view, Completed);
    var second := first.(now := ladder.hard);
    var passes := [first, second];
    var start := map[v := NO_RECORD.(lastOk := Some(0.0))];
    assert RecordsAt(ladder, start, passes, 0) == start;
    assert OutcomeAt(ladder, start, passes, 0, v) == Some(Did(Reset));
    assert RecordsAt(ladder, start, passes, 1) == AfterPass(ladder, start, first);
    assert OutcomeAt(ladder, start, passes, 1, v) == Some(Did(Reset));
  }

  // ── the records read off the history ───────────────────────────────────────

  /** The last heartbeat the saved passes before pass `k` have seen. */
  function LastBeat(start: map<int, Rec>, passes: seq<Pass>, k: nat, v: int): Option<real>
    requires k <= |passes|
  {
    if k == 0 then RecOf(start, v).lastOk
    else
      var p := passes[k - 1];
      if !p.ending.Completed? then LastBeat(start, passes, k - 1, v)
      else if v !in p.fleet then None
      else if Checked(p, v) && p.view(v).ping.Alive? then Some(p.now)
      else LastBeat(start, passes, k - 1, v)
  }

  /** What a silent VM is due at `now`: nothing within the cooldown of the last action; a start if it was never
      seen healthy, a power cycle past the hard limit, a reset between grace and limit. */
  predicate Due(ladder: Ladder, beat: Option<real>, done: Option<real>, now: real, action: Action) {
    && (done.Some? ==> now >= done.value + ladder.cooldown)
    && match action
       case Start => beat.None?
       case PowerCycle => beat.Some? && now > beat.value + ladder.hard
       case Reset => beat.Some? && beat.value + ladder.grace < now <= beat.value + ladder.hard
  }

  /** The action pass `k` carries out on the VM, whether its records are saved or not. */
  predicate CarriesOut(ladder: Ladder, start: map<int, Rec>, passes: seq<Pass>, k: nat, v: int, action: Action)
    requires k < |passes|
    decreases k, 1
  {
    var p := passes[k];
    && Checked(p, v) && (p.ending.Abandoned? ==> v in p.ending.reached)
    && !p.view(v).ping.Alive? && p.view(v).works
    && Due(ladder, LastBeat(start, passes, k, v), LastDone(ladder, start, passes, k, v), p.now, action)
  }

  /** The time of the last action that a saved pass before pass `k` carried out. */
  function LastDone(ladder: Ladder, start: map<int, Rec>, passes: seq<Pass>, k: nat, v: int): Option<real>
    requires k <= |passes|
    decreases k, 0
  {
    if k == 0 then RecOf(start, v).lastActionTs
    else
      var p := passes[k - 1];
      if !p.ending.Completed? then LastDone(ladder, start, passes, k - 1, v)
      else if v !in p.fleet then None
      else if CarriesOut(ladder, start, passes, k - 1, v, Start) || CarriesOut(ladder, start, passes, k - 1, v, Reset)
           || CarriesOut(ladder, start, passes, k - 1, v, PowerCycle) then Some(p.now)
      else LastDone(ladder, start, passes, k - 1, v)
  }

  /** The hung pings that saved passes have counted since the last heartbeat. */
  function Hangs(start: map<int, Rec>, passes: seq<Pass>, k: nat, v: int): nat
    requires k <= |passes|
  {
    if k == 0 then RecOf(start, v).pingErrorStreak
    else
      var p, before := passes[k - 1], Hangs(start, passes, k - 1, v);
      if !p.ending.Completed? then before
      else if v !in p.fleet then 0
      else if !Checked(p, v) then before
      else match p.view(v).ping
        case Alive => 0
        case Hung => before + 1
        case Refused => before
  }

  /** Over all sequences of passes the saved times and the streak of hung pings are what the passes have seen and
      done. */
  lemma {:induction false} RecordIsHistory(ladder: Ladder, start: map<int, Rec>, passes: seq<Pass>, k: nat, v: int)
    requires k <= |passes|
    ensures var rec := RecOf(RecordsAt(ladder, start, passes, k), v);
            && rec.lastOk == LastBeat(start, passes, k, v)
            && rec.lastActionTs == LastDone(ladder, start, passes, k, v)
            && rec.pingErrorStreak == Hangs(start, passes, k, v)
  {
    if k > 0 {
      RecordIsHistory(ladder, start, passes, k - 1, v);
      if passes[k - 1].ending.Completed? && v in passes[k - 1].fleet {
        RecordAfterPass(ladder, start, passes, k - 1, v);
        if Checked(passes[k - 1], v) {
          NextRecIs(ladder, RecOf(RecordsAt(ladder, start, passes, k - 1), v), passes[k - 1].now, passes[k - 1].view(v));
        }
      }
    }
  }

  lemma NextRecIs(ladder: Ladder, rec: Rec, now: real, view: View)
    ensures var next, o := NextRec(ladder, rec, now, view), OutcomeOf(ladder, rec, now, view);
            && next.lastOk == (if view.ping.Alive? then Some(now) else rec.lastOk)
            && next.lastActionTs == (if o.Did? then Some(now) else rec.lastActionTs)
            && next.lastAction == (if o.Did? then Some(o.action) else rec.lastAction)
            && next.actions == rec.actions + (if o.Did? then 1 else 0)
            && next.pingErrorTs == (if view.ping.Hung? then Some(now) else rec.pingErrorTs)
            && next.pingErrorStreak == (match view.ping case Alive => 0 case Hung => rec.pingErrorStreak + 1
                                                        case Refused => rec.pingErrorStreak)
            && (forall a :: o == Did(a) <==>
                  !view.ping.Alive? && view.works && Due(ladder, rec.lastOk, rec.lastActionTs, now, a))
            && (forall a :: o == Failed(a) <==>
                  !view.ping.Alive? && !view.works && Due(ladder, rec.lastOk, rec.lastActionTs, now, a))
            && (o.Responding? <==> view.ping.Alive?)
  {
  }

  /** What a pass does to a VM, over every sequence of passes, by the history alone: it carries out an action if and
      only if it gets to the VM, the VM is silent, the action is due and its commands work. */
  lemma ActsIff(ladder: Ladder, start: map<int, Rec>, passes: seq<Pass>, k: nat, v: int, action: Action)
    requires k < |passes|
    ensures OutcomeAt(ladder, start, passes, k, v) == Some(Did(action)) <==>
            CarriesOut(ladder, start, passes, k, v, action)
  {
    RecordIsHistory(ladder, start, passes, k, v);
    NextRecIs(ladder, RecOf(RecordsAt(ladder, start, passes, k), v), passes[k].now, passes[k].view(v));
  }

  /** No pass acts on a VM that is busy, protected, a template, below the floor or not on the host. */
  lemma LeftAlone(ladder: Ladder, start: map<int, Rec>, passes: seq<Pass>, k: nat, v: int)
    requires k < |passes| && Acts(ladder, start, passes, k, v)
    ensures var p := passes[k];
            v in p.fleet && v > p.floor && v !in p.protected && v !in p.busy && !p.view(v).template
            && !p.view(v).ping.Alive?
  {
  }

  // ── recovery within a bound ────────────────────────────────────────────────

  function Max(a: real, b: real): real { if a < b then b else a }

  /** The VM answers at pass 0 and never again; every later pass checks it, completes, and its commands work. */
  predicate GoesSilent(passes: seq<Pass>, v: int) {
    && passes != [] && Checked(passes[0], v) && passes[0].view(v).ping.Alive?
    && (forall k | 0 <= k < |passes| :: passes[k].ending.Completed?)
    && forall k | 0 < k < |passes| ::
         Checked(passes[k], v) && !passes[k].view(v).ping.Alive? && passes[k].view(v).works
  }

  predicate AtMostApart(passes: seq<Pass>, gap: real) {
    forall k | 0 < k < |passes| :: passes[k].now - passes[k - 1].now <= gap
  }

  predicate ActedBetween(ladder: Ladder, start: map<int, Rec>, passes: seq<Pass>, i: nat, j: nat, v: int)
    requires j <= |passes|
  {
    exists k :: i <= k < j && OutcomeAt(ladder, start, passes, k, v).Some?
                && OutcomeAt(ladder, start, passes, k, v).value.Did?
  }

  lemma {:induction false} NoActionKeepsActionTime(ladder: Ladder, start: map<int, Rec>, passes: seq<Pass>,
                                                    i: nat, j: nat, v: int)
    requires i <= j <= |passes| && Kept(passes, i, j, v) && !ActedBetween(ladder, start, passes, i, j, v)
    ensures RecOf(RecordsAt(ladder, start, passes, j), v).lastActionTs
         == RecOf(RecordsAt(ladder, start, passes, i), v).lastActionTs
    decreases j
  {
    if i < j {
      NoActionKeepsActionTime(ladder, start, passes, i, j - 1, v);
      RecordAfterPass(ladder, start, passes, j - 1, v);
      assert OutcomeAt(ladder, start, passes, j - 1, v).Some? ==> !OutcomeAt(ladder, start, passes, j - 1, v).value.Did?;
    }
  }

  /** The first pass after `i` that is strictly later than `bound`, or at least at it. */
  lemma {:induction false} FirstPassPast(passes: seq<Pass>, gap: real, i: nat, bound: real, strict: bool) returns (k: nat)
    requires i < |passes| && AtMostApart(passes, gap) && gap >= 0.0
    requires passes[i].now <= bound && bound + gap < passes[|passes| - 1].now
    ensures i < k < |passes| && passes[k].now <= bound + gap
    ensures if strict then bound < passes[k].now else bound <= passes[k].now
    decreases |passes| - i
  {
    k := i + 1;
    if passes[k].now < bound || (strict && passes[k].now == bound) {
      k := FirstPassPast(passes, gap, k, bound, strict);
    }
  }

  lemma SilentRecord(ladder: Ladder, start: map<int, Rec>, passes: seq<Pass>, k: nat, v: int)
    requires GoesSilent(passes, v) && 0 < k < |passes|
    ensures RecOf(RecordsAt(ladder, start, passes, k), v).lastOk == Some(passes[0].now)
  {
    RecordAfterPass(ladder, start, passes, 0, v);
    HeartbeatStaysPut(ladder, start, passes, 1, k, v);
  }

  /** A silent VM that was left alone since `i` and whose cooldown is over is acted on past the grace. */
  lemma ActsWhenFree(ladder: Ladder, start: map<int, Rec>, passes: seq<Pass>, i: nat, k: nat, v: int)
    requires GoesSilent(passes, v) && 0 < i <= k < |passes| && !ActedBetween(ladder, start, passes, i, k, v)
    requires var acted := RecOf(RecordsAt(ladder, start, passes, i), v).lastActionTs;
             acted.Some? ==> passes[k].now - acted.value >= ladder.cooldown
    requires passes[k].now - passes[0].now > ladder.grace
    ensures OutcomeAt(ladder, start, passes, k, v) in {Some(Did(Reset)), Some(Did(PowerCycle))}
  {
    SilentRecord(ladder, start, passes, k, v);
    NoActionKeepsActionTime(ladder, start, passes, i, k, v);
  }

  lemma SilentVmIsNeverStarted(ladder: Ladder, start: map<int, Rec>, passes: seq<Pass>, k: nat, v: int)
    requires GoesSilent(passes, v) && 0 < k < |passes|
    ensures OutcomeAt(ladder, start, passes, k, v) != Some(Did(Start))
  {
    SilentRecord(ladder, start, passes, k, v);
  }

  /** The heartbeat of the first pass leaves the time of the last action as it was. */
  lemma FirstPassKeepsActionTime(ladder: Ladder, start: map<int, Rec>, passes: seq<Pass>, v: int)
    requires GoesSilent(passes, v)
    ensures RecOf(RecordsAt(ladder, start, passes, 1), v).lastActionTs == RecOf(start, v).lastActionTs
  {
    RecordAfterPass(ladder, start, passes, 0, v);
  }

  /** An action recorded on a silent VM is a reset or a power cycle. */
  lemma SomeActionBetween(ladder: Ladder, start: map<int, Rec>, passes: seq<Pass>, i: nat, j: nat, v: int)
    returns (m: nat)
    requires GoesSilent(passes, v) && 0 < i && j <= |passes| && ActedBetween(ladder, start, passes, i, j, v)
    ensures i <= m < j && OutcomeAt(ladder, start, passes, m, v) in {Some(Did(Reset)), Some(Did(PowerCycle))}
  {
    m :| i <= m < j && OutcomeAt(ladder, start, passes, m, v).Some? && OutcomeAt(ladder, start, passes, m, v).value.Did?;
    SilentVmIsNeverStarted(ladder, start, passes, m, v);
  }

  lemma LaterIsNoEarlier(passes: seq<Pass>, i: nat, j: nat)
    requires ClockRuns(passes) && i <= j < |passes|
    ensures passes[i].now <= passes[j].now
  {
  }

  /** Some action is recorded once the grace period and any earlier cooldown are over. */
  lemma ActsOnceGraceIsOver(ladder: Ladder, start: map<int, Rec>, passes: seq<Pass>, gap: real, v: int)
    returns (k: nat)
    requires ClockRuns(passes) && AtMostApart(passes, gap) && GoesSilent(passes, v)
    requires var seen := RecOf(start, v).lastActionTs; seen.Some? ==> seen.value <= passes[0].now
    requires ladder.grace >= 0.0 && ladder.cooldown >= 0.0 && gap >= 0.0
    requires passes[|passes| - 1].now > passes[0].now + Max(ladder.grace, ladder.cooldown) + gap
    ensures 0 < k < |passes|
    ensures OutcomeAt(ladder, start, passes, k, v) in {Some(Did(Reset)), Some(Did(PowerCycle))}
    ensures passes[k].now <= passes[0].now + Max(ladder.grace, ladder.cooldown) + gap
  {
    k := FirstPassPast(passes, gap, 0, passes[0].now + Max(ladder.grace, ladder.cooldown), true);
    if ActedBetween(ladder, start, passes, 1, k, v) {
      var m := SomeActionBetween(ladder, start, passes, 1, k, v);
      LaterIsNoEarlier(passes, m, k);
      k := m;
    } else {
      FirstPassKeepsActionTime(ladder, start, passes, v);
      ActsWhenFree(ladder, start, passes, 1, k, v);
    }
  }

  /** After a reset of a silent VM the next action follows within the cooldown and one gap. */
  lemma NextActionInTime(ladder: Ladder, start: map<int, Rec>, passes: seq<Pass>, gap: real, first: nat, v: int)
    returns (k: nat)
    requires ClockRuns(passes) && AtMostApart(passes, gap) && GoesSilent(passes, v) && 0 < first < |passes|
    requires ladder.cooldown >= 0.0 && gap >= 0.0
    requires OutcomeAt(ladder, start, passes, first, v) == Some(Did(Reset))
    requires passes[|passes| - 1].now > passes[first].now + ladder.cooldown + gap
    ensures first < k < |passes| && passes[k].now <= passes[first].now + ladder.cooldown + gap
    ensures OutcomeAt(ladder, start, passes, k, v) in {Some(Did(Reset)), Some(Did(PowerCycle))}
  {
    SilentRecord(ladder, start, passes, first, v);
    k := FirstPassPast(passes, gap, first, passes[first].now + ladder.cooldown, false);
    LaterIsNoEarlier(passes, first, k);
    if ActedBetween(ladder, start, passes, first + 1, k, v) {
      var m := SomeActionBetween(ladder, start, passes, first + 1, k, v);
      LaterIsNoEarlier(passes, m, k);
      k := m;
    } else {
      RecordAfterPass(ladder, start, passes, first, v);
      ActsWhenFree(ladder, start, passes, first + 1, k, v);
    }
  }

  /** A VM that answers once and then stays silent, is checked by every pass and whose commands work is
      power-cycled within max(grace, cooldown) + cooldown + 2 gaps of its last heartbeat. */
  lemma RecoveredInTime(ladder: Ladder, start: map<int, Rec>, passes: seq<Pass>, gap: real, v: int)
    returns (k: nat)
    requires ClockRuns(passes) && AtMostApart(passes, gap) && GoesSilent(passes, v)
    requires var seen := RecOf(start, v).lastActionTs; seen.Some? ==> seen.value <= passes[0].now
    requires ladder.grace >= 0.0 && ladder.cooldown >= 0.0 && gap >= 0.0
    requires ladder.grace + ladder.cooldown >= ladder.hard
    requires passes[|passes| - 1].now > passes[0].now + Max(ladder.grace, ladder.cooldown) + ladder.cooldown + 2.0 * gap
    ensures k < |passes| && OutcomeAt(ladder, start, passes, k, v) == Some(Did(PowerCycle))
    ensures passes[k].now <= passes[0].now + Max(ladder.grace, ladder.cooldown) + ladder.cooldown + 2.0 * gap
  {
    var first := ActsOnceGraceIsOver(ladder, start, passes, gap, v);
    if OutcomeAt(ladder, start, passes, first, v) == Some(Did(PowerCycle)) {
      return first;
    }
    k := NextActionInTime(ladder, start, passes, gap, first, v);
    LaterActionsArePowerCycles(ladder, start, passes, first, k, v);
  }
}
