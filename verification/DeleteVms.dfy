/** The batch teardown and its bookkeeping (agent/src/cs_sim.py, `_delete_vms`). */
module DeleteVms {
  import opened Options
  import opened SimGuard
  import Locks = TeardownLocks

  // ── the list of VMs ────────────────────────────────────────────────────────

  function Distinct(vms: seq<int>): seq<int> {
    if vms == [] then []
    else
      var front, last := Distinct(vms[..|vms| - 1]), vms[|vms| - 1];
      if last in front then front else front + [last]
  }

  function ValidVms(raw: seq<RawVmid>, protected: set<int>): seq<int> {
    if raw == [] then []
    else
      var front, last := ValidVms(raw[..|raw| - 1], protected), AssertSimVm(raw[|raw| - 1], protected);
      if last.Ok? then front + [last.vm] else front
  }

  function InvalidVms(raw: seq<RawVmid>, protected: set<int>): seq<RawVmid> {
    if raw == [] then []
    else
      var front, last := InvalidVms(raw[..|raw| - 1], protected), raw[|raw| - 1];
      if IsSimVm(last, protected) then front else front + [last]
  }

  /** The validation loop: guard failures are set aside one by one, repeated VMs are skipped. */
  method CollectTargets(raw: seq<RawVmid>, protected: set<int>) returns (targets: seq<int>, invalid: seq<RawVmid>)
    ensures targets == Distinct(ValidVms(raw, protected))
    ensures invalid == InvalidVms(raw, protected)
  {
    targets, invalid := [], [];
    var seen: set<int> := {};
    for i := 0 to |raw|
      invariant targets == Distinct(ValidVms(raw[..i], protected))
      invariant invalid == InvalidVms(raw[..i], protected)
      invariant forall v :: v in seen <==> v in targets
    {
      assert raw[..i + 1][..i] == raw[..i];
      var checked := AssertSimVm(raw[i], protected);
      if checked.Err? {
        invalid := invalid + [raw[i]];
      } else {
        var valid := ValidVms(raw[..i], protected);
        assert (valid + [checked.vm])[..|valid|] == valid;
        if checked.vm !in seen {
          seen := seen + {checked.vm};
          targets := targets + [checked.vm];
        }
      }
    }
    assert raw[..|raw|] == raw;
  }

  predicate NoRepeats(vms: seq<int>) {
    forall i, j | 0 <= i < j < |vms| :: vms[i] != vms[j]
  }

  /** The targets are exactly the VMs that pass the guard, each once. */
  lemma {:induction false} TargetsAreTheValidVms(raw: seq<RawVmid>, protected: set<int>)
    ensures NoRepeats(Distinct(ValidVms(raw, protected)))
    ensures forall v :: v in Distinct(ValidVms(raw, protected)) <==> Some(v) in raw && v !in protected && v >= SIM_VMIN
  {
    if raw != [] {
      var front := raw[..|raw| - 1];
      assert raw == front + [raw[|raw| - 1]];
      TargetsAreTheValidVms(front, protected);
      var valid := ValidVms(front, protected);
      if IsSimVm(raw[|raw| - 1], protected) {
        assert (valid + [raw[|raw| - 1].value])[..|valid|] == valid;
      }
    }
  }

  /** The refused ids are the others, as often as they were listed. */
  lemma {:induction false} InvalidAreTheOthers(raw: seq<RawVmid>, protected: set<int>, x: RawVmid)
    ensures multiset(InvalidVms(raw, protected))[x] ==
      if x.Some? && x.value !in protected && x.value >= 90000 then 0 else multiset(raw)[x]
  {
    if raw != [] {
      var front, last := raw[..|raw| - 1], raw[|raw| - 1];
      assert raw == front + [last];
      InvalidAreTheOthers(front, protected, x);
    }
  }

  /** And they come in the order in which they are listed. */
  lemma {:induction false} InvalidKeepOrder(raw: seq<RawVmid>, more: seq<RawVmid>, protected: set<int>)
    ensures InvalidVms(raw + more, protected) == InvalidVms(raw, protected) + InvalidVms(more, protected)
  {
    if more == [] {
      assert raw + more == raw;
    } else {
      assert (raw + more)[..|raw + more| - 1] == raw + more[..|more| - 1];
      InvalidKeepOrder(raw, more[..|more| - 1], protected);
    }
  }

  /** The id stands somewhere in the list before every place of the other one. */
  predicate StandsBefore(raw: seq<RawVmid>, v: int, w: int) {
    exists i :: 0 <= i < |raw| && raw[i] == Some(v) && forall j | 0 <= j < |raw| && raw[j] == Some(w) :: i < j
  }

  /** The targets come in the order in which they are first listed. */
  lemma {:induction false} TargetsKeepOrder(raw: seq<RawVmid>, protected: set<int>, m: nat, n: nat)
    requires m < n < |Distinct(ValidVms(raw, protected))|
    ensures var targets := Distinct(ValidVms(raw, protected)); StandsBefore(raw, targets[m], targets[n])
  {
    if raw != [] {
      var front, last := raw[..|raw| - 1], raw[|raw| - 1];
      var valid, before := ValidVms(front, protected), Distinct(ValidVms(front, protected));
      assert raw == front + [last];
      TargetsAreTheValidVms(raw, protected);
      TargetsAreTheValidVms(front, protected);
      if IsSimVm(last, protected) {
        assert (valid + [last.value])[..|valid|] == valid;
      }
      if n < |before| {
        TargetsKeepOrder(front, protected, m, n);
        var i :| 0 <= i < |front| && front[i] == Some(before[m])
                 && forall j | 0 <= j < |front| && front[j] == Some(before[n]) :: i < j;
        assert raw[i] == Some(before[m]);
      } else {
        assert before[m] in before;
        var i :| 0 <= i < |front| && front[i] == Some(before[m]);
        assert raw[i] == Some(before[m]);
        assert last == Some(Distinct(ValidVms(raw, protected))[n]) && last.value !in before;
      }
    }
  }

  // ── counting the outcomes ──────────────────────────────────────────────────

  /** The shared counters: workers finish in any order, each updates them once under the lock. */
  datatype Tally = Tally(total: nat, done: nat, ok: seq<int>, failed: seq<int>, percents: seq<nat>)

  datatype Outcome = Outcome(vm: int, ok: bool)

  /** `int(100 * done / total)` */
  function Percent(done: nat, total: nat): nat
    requires total > 0
  {
    100 * done / total
  }

  function Counted(t: Tally, o: Outcome): Tally
    requires t.total > 0
  {
    t.(done := t.done + 1,
       ok := if o.ok then t.ok + [o.vm] else t.ok,
       failed := if o.ok then t.failed else t.failed + [o.vm],
       percents := t.percents + [Percent(t.done + 1, t.total)])
  }

  function Tallied(t: Tally, outcomes: seq<Outcome>): (r: Tally)
    requires t.total > 0
    ensures r.total == t.total
  {
    if outcomes == [] then t else Counted(Tallied(t, outcomes[..|outcomes| - 1]), outcomes[|outcomes| - 1])
  }

  function Opening(targets: nat, invalid: nat): Tally {
    Tally(targets + invalid, invalid, [], [], [])
  }

  class BatchTally {
    var total: nat
    var done: nat
    var ok: seq<int>
    var failed: seq<int>
    var percents: seq<nat>

    function Snapshot(): Tally
      reads this
    {
      Tally(total, done, ok, failed, percents)
    }

    constructor (targets: nat, invalid: nat)
      ensures Snapshot() == Opening(targets, invalid)
    {
      total, done, ok, failed, percents := targets + invalid, invalid, [], [], [];
    }

    method Count(vm: int, succeeded: bool) returns (percent: nat)
      requires total > 0
      modifies this
      ensures Snapshot() == Counted(old(Snapshot()), Outcome(vm, succeeded))
      ensures percents == old(percents) + [percent]
    {
      done := done + 1;
      if succeeded {
        ok := ok + [vm];
      } else {
        failed := failed + [vm];
      }
      percent := Percent(done, total);
      percents := percents + [percent];
    }
  }

  function Vms(outcomes: seq<Outcome>): (vms: seq<int>)
    ensures |vms| == |outcomes|
  {
    if outcomes == [] then [] else Vms(outcomes[..|outcomes| - 1]) + [outcomes[|outcomes| - 1].vm]
  }

  lemma {:induction false} TallyCounts(t: Tally, outcomes: seq<Outcome>)
    requires t.total > 0 && t.ok == [] && t.failed == []
    ensures var r := Tallied(t, outcomes);
            && r.done == t.done + |outcomes| && |r.ok| + |r.failed| == |outcomes|
            && multiset(r.ok) + multiset(r.failed) == multiset(Vms(outcomes))
  {
    if outcomes != [] {
      TallyCounts(t, outcomes[..|outcomes| - 1]);
    }
  }

  /** The VMs whose teardown came out one way, in the order they were counted. */
  function Those(outcomes: seq<Outcome>, ok: bool): seq<int> {
    if outcomes == [] then []
    else
      var front, last := Those(outcomes[..|outcomes| - 1], ok), outcomes[|outcomes| - 1];
      if last.ok == ok then front + [last.vm] else front
  }

  lemma {:induction false} ThoseFacts(outcomes: seq<Outcome>, ok: bool, v: int)
    ensures v in Those(outcomes, ok) <==> Outcome(v, ok) in outcomes
  {
    if outcomes != [] {
      var front := outcomes[..|outcomes| - 1];
      ThoseFacts(front, ok, v);
      assert outcomes == front + [outcomes[|outcomes| - 1]];
    }
  }

  lemma {:induction false} TallyIsHistory(t: Tally, outcomes: seq<Outcome>)
    requires t.total > 0 && t.ok == [] && t.failed == []
    ensures Tallied(t, outcomes).ok == Those(outcomes, true) && Tallied(t, outcomes).failed == Those(outcomes, false)
  {
    if outcomes != [] {
      TallyIsHistory(t, outcomes[..|outcomes| - 1]);
    }
  }

  lemma {:induction false} TallyPercents(t: Tally, outcomes: seq<Outcome>)
    requires t.total > 0 && t.percents == []
    ensures var r := Tallied(t, outcomes);
            r.done == t.done + |outcomes| && |r.percents| == |outcomes|
    ensures forall k | 0 <= k < |outcomes| ::
              Tallied(t, outcomes).percents[k] == Percent(t.done + k + 1, t.total)
  {
    if outcomes != [] {
      TallyPercents(t, outcomes[..|outcomes| - 1]);
    }
  }

  lemma ProductMonotone(x: nat, y: nat, n: nat)
    requires x <= y
    ensures x * n <= y * n
  {
  }

  lemma DivisionMonotone(a: nat, b: nat, n: nat)
    requires a <= b && n > 0
    ensures a / n <= b / n
  {
    var qa, qb := a / n, b / n;
    assert a >= qa * n && b < (qb + 1) * n;
    if qb + 1 <= qa {
      ProductMonotone(qb + 1, qa, n);
    }
  }

  lemma WholeQuotient(a: nat, n: nat)
    requires n > 0
    ensures (a * n) / n == a
  {
    var x := a * n;
    var q := x / n;
    assert q * n <= x < (q + 1) * n;
    if q < a {
      ProductMonotone(q + 1, a, n);
    } else if a < q {
      ProductMonotone(a + 1, q, n);
    }
  }

  lemma PercentsRise(i: nat, j: nat, total: nat)
    requires i <= j <= total && total > 0
    ensures Percent(i, total) <= Percent(j, total) <= 100
    ensures j == total ==> Percent(j, total) == 100
  {
    DivisionMonotone(100 * i, 100 * j, total);
    DivisionMonotone(100 * j, 100 * total, total);
    WholeQuotient(100, total);
  }

  // ── the workers ────────────────────────────────────────────────────────────

  /** The agent with a batch running: the outcomes counted so far, in their order, and the VMs of the workers
      that were cancelled before they could count. */
  datatype Batch = Batch(s: Locks.State, counted: seq<Outcome>, lost: set<int>)

  /** One event of the agent; `ok` is what the teardown of a worker that leaves its locked section came to. */
  datatype Step = Step(e: Locks.Event, ok: bool)

  predicate IsWorker(p: Locks.Proc, batch: nat) {
    p.kind.Worker? && p.kind.batch == batch
  }

  /** A worker counts its outcome in the step in which it gives its permit back. */
  function Moved(b: Batch, batch: nat, st: Step): Batch
    requires Locks.Can(b.s, st.e)
  {
    var s' := Locks.Next(b.s, st.e);
    match st.e
    case Advance(i) =>
      var p := b.s.procs[i];
      if IsWorker(p, batch) && p.pc.Inside? then Batch(s', b.counted + [Outcome(p.kind.vm, st.ok)], b.lost)
      else b.(s := s')
    case Abort(i) =>
      var p := b.s.procs[i];
      if IsWorker(p, batch) && !p.pc.Reporting? then b.(s := s', lost := b.lost + {p.kind.vm}) else b.(s := s')
    case _ => b.(s := s')
  }

  /** The batch after some steps of the agent; those that cannot happen are passed over. */
  function Run(b: Batch, batch: nat, steps: seq<Step>): Batch {
    if steps == [] then b
    else
      var before, last := Run(b, batch, steps[..|steps| - 1]), steps[|steps| - 1];
      if Locks.Can(before.s, last.e) then Moved(before, batch, last) else before
  }

  /** A batch that starts after `earlier` events, and its workers. */
  function Started(earlier: seq<Locks.Event>, targets: seq<int>): Batch {
    Batch(Locks.Next(Locks.After(Locks.START, earlier), Locks.StartBatch(targets)), [], {})
  }

  function BatchNo(earlier: seq<Locks.Event>): nat {
    |Locks.After(Locks.START, earlier).batchFree|
  }

  function Base(earlier: seq<Locks.Event>): nat {
    |Locks.After(Locks.START, earlier).procs|
  }

  /** The workers of the batch are the operations from `base` on, one per target, and no others. */
  predicate Placed(s: Locks.State, batch: nat, base: nat, targets: seq<int>) {
    && batch < |s.batchFree| && base + |targets| <= |s.procs|
    && (forall k | 0 <= k < |targets| :: s.procs[base + k].kind == Locks.Worker(batch, targets[k]))
    && (forall i | 0 <= i < |s.procs| && !(base <= i < base + |targets|) :: !IsWorker(s.procs[i], batch))
  }

  /** What is counted and what is lost of target `k`, by how far its worker has come. */
  predicate Accounted(b: Batch, base: nat, targets: seq<int>, k: nat)
    requires k < |targets| && base + k < |b.s.procs|
  {
    var v, pc := targets[k], b.s.procs[base + k].pc;
    && (v in Vms(b.counted) ==> v !in b.lost && pc in {Locks.Reporting, Locks.Over})
    && (v in b.lost ==> pc == Locks.Over)
    && (pc in {Locks.Reporting, Locks.Over} ==> v in Vms(b.counted) || v in b.lost)
  }

  predicate Books(b: Batch, batch: nat, base: nat, targets: seq<int>) {
    && Placed(b.s, batch, base, targets)
    && (forall k | 0 <= k < |targets| :: Accounted(b, base, targets, k))
    && NoRepeats(Vms(b.counted)) && (forall v | v in Vms(b.counted) :: v in targets) && (forall v | v in b.lost :: v in targets)
  }

  lemma {:induction false} WorkersAre(batch: nat, vms: seq<int>)
    ensures |Locks.Workers(batch, vms)| == |vms|
    ensures forall k | 0 <= k < |vms| :: Locks.Workers(batch, vms)[k] == Locks.Proc(Locks.Worker(batch, vms[k]), Locks.Waiting)
  {
    if vms != [] {
      WorkersAre(batch, vms[1..]);
    }
  }

  lemma StartKeepsBooks(earlier: seq<Locks.Event>, targets: seq<int>)
    ensures Books(Started(earlier, targets), BatchNo(earlier), Base(earlier), targets)
  {
    Locks.AfterKeepsInv(Locks.START, earlier);
    WorkersAre(BatchNo(earlier), targets);
  }

  /** New operations leave the workers of a batch where they are. */
  lemma ArrivalKeepsPlace(s: Locks.State, e: Locks.Event, batch: nat, base: nat, targets: seq<int>)
    requires Placed(s, batch, base, targets) && Locks.Can(s, e) && (e.Arrive? || e.StartBatch?)
    ensures Placed(Locks.Next(s, e), batch, base, targets)
    ensures forall i | 0 <= i < |s.procs| :: Locks.Next(s, e).procs[i] == s.procs[i]
  {
    if e.StartBatch? {
      WorkersAre(|s.batchFree|, e.vms);
    }
  }

  /** A step of one operation changes its place in the program and nothing else about any operation. */
  lemma StepKeepsPlace(s: Locks.State, e: Locks.Event, batch: nat, base: nat, targets: seq<int>)
    requires Placed(s, batch, base, targets) && Locks.Can(s, e) && (e.Advance? || e.Abort?)
    ensures Placed(Locks.Next(s, e), batch, base, targets)
    ensures var s' := Locks.Next(s, e);
            && |s'.procs| == |s.procs| && (forall j | 0 <= j < |s.procs| && j != e.i :: s'.procs[j] == s.procs[j])
            && s'.procs[e.i].pc ==
               if e.Abort? || s.procs[e.i].pc.Reporting? then Locks.Over
               else if s.procs[e.i].pc.Waiting? then Locks.Admitted
               else if s.procs[e.i].pc.Admitted? then Locks.Inside else Locks.Reporting
  {
  }

  lemma {:induction false} VmsAppend(outcomes: seq<Outcome>, o: Outcome)
    ensures Vms(outcomes + [o]) == Vms(outcomes) + [o.vm]
  {
    assert (outcomes + [o])[..|outcomes|] == outcomes;
  }

  lemma StepKeepsBooks(b: Batch, batch: nat, base: nat, targets: seq<int>, st: Step)
    requires Books(b, batch, base, targets) && NoRepeats(targets) && Locks.Can(b.s, st.e)
    ensures Books(Moved(b, batch, st), batch, base, targets)
  {
    var b' := Moved(b, batch, st);
    if st.e.Arrive? || st.e.StartBatch? {
      ArrivalKeepsPlace(b.s, st.e, batch, base, targets);
      assert forall k | 0 <= k < |targets| :: Accounted(b, base, targets, k) ==> Accounted(b', base, targets, k);
    } else {
      var i := st.e.i;
      StepKeepsPlace(b.s, st.e, batch, base, targets);
      if IsWorker(b.s.procs[i], batch) {
        WorkerStep(b, batch, base, targets, st);
      } else {
        assert forall k | 0 <= k < |targets| :: Accounted(b, base, targets, k) ==> Accounted(b', base, targets, k);
      }
    }
  }

  lemma WorkerStep(b: Batch, batch: nat, base: nat, targets: seq<int>, st: Step)
    requires Books(b, batch, base, targets) && NoRepeats(targets) && Locks.Can(b.s, st.e)
    requires (st.e.Advance? || st.e.Abort?) && IsWorker(b.s.procs[st.e.i], batch)
    ensures Books(Moved(b, batch, st), batch, base, targets)
  {
    var b', i := Moved(b, batch, st), st.e.i;
    StepKeepsPlace(b.s, st.e, batch, base, targets);
    var m := i - base;
    var v := targets[m];
    assert Accounted(b, base, targets, m) && b.s.procs[i].kind.vm == v;
    VmsAppend(b.counted, Outcome(v, st.ok));
    AddsAtMost(b, batch, st, v);
    OwnStep(b, batch, base, targets, st, m);
    forall k | 0 <= k < |targets| && k != m ensures Accounted(b', base, targets, k) {
      OthersStay(b, b', base, targets, k, m);
    }
    if b'.counted != b.counted {
      assert b.s.procs[i].pc == Locks.Inside && v !in Vms(b.counted);
    }
  }

  /** A worker whose VM is neither counted nor lost in the step stays as accounted for. */
  lemma OthersStay(b: Batch, b': Batch, base: nat, targets: seq<int>, k: nat, m: nat)
    requires k < |targets| && m < |targets| && k != m && NoRepeats(targets)
    requires base + k < |b.s.procs| && |b'.s.procs| == |b.s.procs| && b'.s.procs[base + k] == b.s.procs[base + k]
    requires Vms(b'.counted) in {Vms(b.counted), Vms(b.counted) + [targets[m]]}
    requires b'.lost in {b.lost, b.lost + {targets[m]}}
    requires Accounted(b, base, targets, k)
    ensures Accounted(b', base, targets, k)
  {
    assert targets[k] != targets[m];
  }

  /** A worker's step adds nothing but its own VM to what is counted or lost. */
  lemma AddsAtMost(b: Batch, batch: nat, st: Step, v: int)
    requires Locks.Can(b.s, st.e) && (st.e.Advance? || st.e.Abort?)
    requires IsWorker(b.s.procs[st.e.i], batch) && b.s.procs[st.e.i].kind.vm == v
    ensures var b', p := Moved(b, batch, st), b.s.procs[st.e.i];
            && Vms(b'.counted) == Vms(b.counted) + (if st.e.Advance? && p.pc.Inside? then [v] else [])
            && b'.lost == b.lost + (if st.e.Abort? && !p.pc.Reporting? then {v} else {})
  {
    VmsAppend(b.counted, Outcome(v, st.ok));
  }

  lemma OwnStep(b: Batch, batch: nat, base: nat, targets: seq<int>, st: Step, m: nat)
    requires Placed(b.s, batch, base, targets) && Locks.Can(b.s, st.e) && (st.e.Advance? || st.e.Abort?)
    requires m < |targets| && st.e.i == base + m && Accounted(b, base, targets, m)
    ensures base + m < |Moved(b, batch, st).s.procs| && Accounted(Moved(b, batch, st), base, targets, m)
  {
    StepKeepsPlace(b.s, st.e, batch, base, targets);
    AddsAtMost(b, batch, st, targets[m]);
  }

  /** In every reachable state of a batch's run, whatever else the agent does meanwhile. */
  lemma {:induction false} RunKeepsBooks(earlier: seq<Locks.Event>, targets: seq<int>, steps: seq<Step>)
    requires NoRepeats(targets)
    ensures Books(Run(Started(earlier, targets), BatchNo(earlier), steps), BatchNo(earlier), Base(earlier), targets)
  {
    if steps == [] {
      StartKeepsBooks(earlier, targets);
    } else {
      var front, last := steps[..|steps| - 1], steps[|steps| - 1];
      RunKeepsBooks(earlier, targets, front);
      var b := Run(Started(earlier, targets), BatchNo(earlier), front);
      if Locks.Can(b.s, last.e) {
        StepKeepsBooks(b, BatchNo(earlier), Base(earlier), targets, last);
      }
    }
  }

  function EventsOf(steps: seq<Step>): seq<Locks.Event> {
    if steps == [] then [] else EventsOf(steps[..|steps| - 1]) + [steps[|steps| - 1].e]
  }

  /** The bookkeeping only watches: the operations, permits and locks are those of the same events without it. */
  lemma {:induction false} RunIsTheAgents(b: Batch, batch: nat, steps: seq<Step>)
    ensures Run(b, batch, steps).s == Locks.After(b.s, EventsOf(steps))
  {
    if steps != [] {
      var front, last := steps[..|steps| - 1], steps[|steps| - 1];
      RunIsTheAgents(b, batch, front);
      Locks.AfterAppend(b.s, EventsOf(front), [last.e]);
      assert [last.e][1..] == [];
    }
  }

  /** In step `n` the worker of a VM left its locked section, with the teardown come out one way. */
  predicate LeftWith(earlier: seq<Locks.Event>, targets: seq<int>, steps: seq<Step>, n: nat, v: int, ok: bool) {
    n < |steps|
    && var s, e := Run(Started(earlier, targets), BatchNo(earlier), steps[..n]).s, steps[n].e;
       && Locks.Can(s, e) && e.Advance? && s.procs[e.i].kind == Locks.Worker(BatchNo(earlier), v)
       && s.procs[e.i].pc.Inside? && steps[n].ok == ok
  }

  lemma {:induction false} CountedAreSteps(earlier: seq<Locks.Event>, targets: seq<int>, steps: seq<Step>, o: Outcome)
    ensures o in Run(Started(earlier, targets), BatchNo(earlier), steps).counted <==>
            exists n :: LeftWith(earlier, targets, steps, n, o.vm, o.ok)
  {
    if steps != [] {
      var front, n := steps[..|steps| - 1], |steps| - 1;
      CountedAreSteps(earlier, targets, front, o);
      forall m: nat | m < n
        ensures LeftWith(earlier, targets, steps, m, o.vm, o.ok) <==> LeftWith(earlier, targets, front, m, o.vm, o.ok)
      {
        assert front[..m] == steps[..m];
      }
      var b := Run(Started(earlier, targets), BatchNo(earlier), front);
      LastStepCounts(b, BatchNo(earlier), steps[n], o);
      assert LeftWith(earlier, targets, steps, n, o.vm, o.ok) <==>
             Locks.Can(b.s, steps[n].e) && Counts(b, BatchNo(earlier), steps[n], o);
    }
  }

  predicate Counts(b: Batch, batch: nat, st: Step, o: Outcome)
    requires Locks.Can(b.s, st.e)
  {
    st.e.Advance? && b.s.procs[st.e.i].kind == Locks.Worker(batch, o.vm) && b.s.procs[st.e.i].pc.Inside? && st.ok == o.ok
  }

  lemma LastStepCounts(b: Batch, batch: nat, st: Step, o: Outcome)
    ensures var b' := if Locks.Can(b.s, st.e) then Moved(b, batch, st) else b;
            o in b'.counted <==> o in b.counted || (Locks.Can(b.s, st.e) && Counts(b, batch, st, o))
  {
  }

  // ── the batch adds up ──────────────────────────────────────────────────────

  /** A batch command: the targets it has, the ids it refused, and where its run has got to. */
  function TargetsOf(raw: seq<RawVmid>, protected: set<int>): seq<int> {
    Distinct(ValidVms(raw, protected))
  }

  function BatchAt(earlier: seq<Locks.Event>, raw: seq<RawVmid>, protected: set<int>, steps: seq<Step>): Batch {
    Run(Started(earlier, TargetsOf(raw, protected)), BatchNo(earlier), steps)
  }

  function TallyAt(earlier: seq<Locks.Event>, raw: seq<RawVmid>, protected: set<int>, steps: seq<Step>): Tally
    requires |TargetsOf(raw, protected)| + |InvalidVms(raw, protected)| > 0
  {
    Tallied(Opening(|TargetsOf(raw, protected)|, |InvalidVms(raw, protected)|), BatchAt(earlier, raw, protected, steps).counted)
  }

  /** The worker of target `k`. */
  function WorkerPc(earlier: seq<Locks.Event>, raw: seq<RawVmid>, protected: set<int>, steps: seq<Step>, k: nat): Locks.Pc
    requires k < |TargetsOf(raw, protected)|
  {
    var procs := BatchAt(earlier, raw, protected, steps).s.procs;
    if Base(earlier) + k < |procs| then procs[Base(earlier) + k].pc else Locks.Waiting
  }

  lemma {:induction false} TallyMembers(t: Tally, outcomes: seq<Outcome>)
    requires t.total > 0 && t.ok == [] && t.failed == []
    ensures var r := Tallied(t, outcomes);
            forall v :: (v in r.ok || v in r.failed) <==> v in Vms(outcomes)
  {
    TallyCounts(t, outcomes);
    var r := Tallied(t, outcomes);
    forall v ensures (v in r.ok || v in r.failed) <==> v in Vms(outcomes) {
      assert (multiset(r.ok) + multiset(r.failed))[v] == multiset(Vms(outcomes))[v];
      assert v in multiset(r.ok) <==> v in r.ok;
      assert v in multiset(r.failed) <==> v in r.failed;
      assert v in multiset(Vms(outcomes)) <==> v in Vms(outcomes);
    }
  }

  lemma {:induction false} OnceEach(vms: seq<int>)
    requires NoRepeats(vms)
    ensures forall v :: multiset(vms)[v] == if v in vms then 1 else 0
  {
    if vms != [] {
      var front, last := vms[..|vms| - 1], vms[|vms| - 1];
      OnceEach(front);
      assert vms == front + [last];
      assert last !in front;
    }
  }

  /** In every reachable state, in every interleaving: no VM is counted twice, as a success and a failure or as
      either; a target is counted exactly when its worker has given its permit back; the counter is the refused
      ids plus the workers that counted. */
  lemma EveryStateAddsUp(earlier: seq<Locks.Event>, raw: seq<RawVmid>, protected: set<int>, steps: seq<Step>)
    requires |TargetsOf(raw, protected)| + |InvalidVms(raw, protected)| > 0
    ensures var t, b := TallyAt(earlier, raw, protected, steps), BatchAt(earlier, raw, protected, steps);
            && t.done == |InvalidVms(raw, protected)| + |t.ok| + |t.failed| <= t.total
            && (forall v :: (multiset(t.ok) + multiset(t.failed))[v] <= 1)
            && (forall v | v in t.ok || v in t.failed :: v in TargetsOf(raw, protected) && v !in b.lost)
            && (forall k: nat | k < |TargetsOf(raw, protected)| ::
                 (var v, pc := TargetsOf(raw, protected)[k], WorkerPc(earlier, raw, protected, steps, k);
                  (v in t.ok || v in t.failed) <==> pc in {Locks.Reporting, Locks.Over} && v !in b.lost))
  {
    var targets := TargetsOf(raw, protected);
    var b, t := BatchAt(earlier, raw, protected, steps), TallyAt(earlier, raw, protected, steps);
    TargetsAreTheValidVms(raw, protected);
    RunKeepsBooks(earlier, targets, steps);
    var opening := Opening(|targets|, |InvalidVms(raw, protected)|);
    TallyCounts(opening, b.counted);
    TallyMembers(opening, b.counted);
    OnceEach(Vms(b.counted));
    AtMostAsMany(Vms(b.counted), targets);
    forall k: nat | k < |targets|
      ensures targets[k] in Vms(b.counted) <==> WorkerPc(earlier, raw, protected, steps, k) in {Locks.Reporting, Locks.Over} && targets[k] !in b.lost
    {
      assert Accounted(b, Base(earlier), targets, k);
    }
    forall v | v in Vms(b.counted) ensures v !in b.lost {
      var k :| 0 <= k < |targets| && targets[k] == v;
      assert Accounted(b, Base(earlier), targets, k);
    }
  }

  lemma {:induction false} AtMostAsMany(some: seq<int>, all: seq<int>)
    requires NoRepeats(some) && NoRepeats(all) && forall v | v in some :: v in all
    ensures |some| <= |all|
  {
    if some != [] {
      var front, last := some[..|some| - 1], some[|some| - 1];
      assert some == front + [last] && last in some;
      var m :| 0 <= m < |all| && all[m] == last;
      var rest := all[..m] + all[m + 1..];
      forall v | v in front ensures v in rest {
        assert v in some && v in all && v != last;
      }
      AtMostAsMany(front, rest);
    }
  }

  /** What the batch reports about a VM is what its worker's teardown came to, in every reachable state: a VM is among
      the deleted exactly when its worker left its locked section with success, among the failed exactly when it left
      it without. */
  lemma ReportedAsItCameOut(earlier: seq<Locks.Event>, raw: seq<RawVmid>, protected: set<int>, steps: seq<Step>, v: int)
    requires |TargetsOf(raw, protected)| + |InvalidVms(raw, protected)| > 0
    ensures var t := TallyAt(earlier, raw, protected, steps);
            && (v in t.ok <==> exists n :: LeftWith(earlier, TargetsOf(raw, protected), steps, n, v, true))
            && (v in t.failed <==> exists n :: LeftWith(earlier, TargetsOf(raw, protected), steps, n, v, false))
  {
    var targets := TargetsOf(raw, protected);
    var b := BatchAt(earlier, raw, protected, steps);
    TallyIsHistory(Opening(|targets|, |InvalidVms(raw, protected)|), b.counted);
    ThoseFacts(b.counted, true, v);
    ThoseFacts(b.counted, false, v);
    CountedAreSteps(earlier, targets, steps, Outcome(v, true));
    CountedAreSteps(earlier, targets, steps, Outcome(v, false));
  }

  /** When all workers are over: the successes, the failures and the VMs whose workers were cancelled are
      together the targets, each once. */
  lemma OverBatchAddsUp(earlier: seq<Locks.Event>, raw: seq<RawVmid>, protected: set<int>, steps: seq<Step>)
    requires |TargetsOf(raw, protected)| + |InvalidVms(raw, protected)| > 0
    requires forall k: nat | k < |TargetsOf(raw, protected)| :: WorkerPc(earlier, raw, protected, steps, k) == Locks.Over
    ensures var t, b := TallyAt(earlier, raw, protected, steps), BatchAt(earlier, raw, protected, steps);
            && multiset(t.ok) + multiset(t.failed) + multiset(b.lost) == multiset(TargetsOf(raw, protected))
            && (t.done == t.total <==> b.lost == {})
  {
    var targets := TargetsOf(raw, protected);
    var b, t := BatchAt(earlier, raw, protected, steps), TallyAt(earlier, raw, protected, steps);
    TargetsAreTheValidVms(raw, protected);
    RunKeepsBooks(earlier, targets, steps);
    TallyCounts(Opening(|targets|, |InvalidVms(raw, protected)|), b.counted);
    forall v | v in targets ensures (v in Vms(b.counted)) != (v in b.lost) {
      var k :| 0 <= k < |targets| && targets[k] == v;
      assert Accounted(b, Base(earlier), targets, k) && WorkerPc(earlier, raw, protected, steps, k) == Locks.Over;
    }
    PartsMakeWhole(Vms(b.counted), b.lost, targets);
  }

  lemma PartsMakeWhole(some: seq<int>, rest: set<int>, all: seq<int>)
    requires NoRepeats(some) && NoRepeats(all)
    requires (forall v | v in some || v in rest :: v in all) && forall v | v in all :: (v in some) != (v in rest)
    ensures multiset(some) + multiset(rest) == multiset(all) && |some| + |rest| == |all|
  {
    OnceEach(some);
    OnceEach(all);
    forall v ensures (multiset(some) + multiset(rest))[v] == multiset(all)[v] {
      assert multiset(rest)[v] == if v in rest then 1 else 0;
      assert v in some || v in rest <==> v in all;
    }
    assert multiset(some) + multiset(rest) == multiset(all);
    assert |multiset(some) + multiset(rest)| == |multiset(all)|;
  }

  /** A batch that was not cancelled: the successes and failures are together a permutation of the distinct
      valid VMs, and deleted plus failed is the total. */
  lemma BatchAddsUp(earlier: seq<Locks.Event>, raw: seq<RawVmid>, protected: set<int>, steps: seq<Step>)
    requires |TargetsOf(raw, protected)| + |InvalidVms(raw, protected)| > 0
    requires forall k: nat | k < |TargetsOf(raw, protected)| :: WorkerPc(earlier, raw, protected, steps, k) == Locks.Over
    requires BatchAt(earlier, raw, protected, steps).lost == {}
    ensures var t := TallyAt(earlier, raw, protected, steps);
            && multiset(t.ok) + multiset(t.failed) == multiset(TargetsOf(raw, protected))
            && |t.ok| + |t.failed| + |InvalidVms(raw, protected)| == t.total == t.done
  {
    OverBatchAddsUp(earlier, raw, protected, steps);
    EveryStateAddsUp(earlier, raw, protected, steps);
  }

  /** `percent` out of a hundred is the whole part of `done` out of `total`. */
  predicate IsShare(percent: nat, done: nat, total: nat) {
    percent * total <= 100 * done < (percent + 1) * total
  }

  lemma PercentIsShare(done: nat, total: nat)
    requires total > 0
    ensures IsShare(Percent(done, total), done, total)
  {
    var a := 100 * done;
    assert a == (a / total) * total + a % total;
  }

  /** In every reachable state: one percentage for each VM counted, the share of the refused ids and the VMs counted by
      then in all. */
  lemma PercentsAreShares(earlier: seq<Locks.Event>, raw: seq<RawVmid>, protected: set<int>, steps: seq<Step>, k: nat)
    requires |TargetsOf(raw, protected)| + |InvalidVms(raw, protected)| > 0
    requires k < |TallyAt(earlier, raw, protected, steps).percents|
    ensures var t := TallyAt(earlier, raw, protected, steps);
            |t.percents| == |t.ok| + |t.failed| && IsShare(t.percents[k], |InvalidVms(raw, protected)| + k + 1, t.total)
  {
    var opening := Opening(|TargetsOf(raw, protected)|, |InvalidVms(raw, protected)|);
    var counted := BatchAt(earlier, raw, protected, steps).counted;
    TallyPercents(opening, counted);
    TallyCounts(opening, counted);
    PercentIsShare(opening.done + k + 1, opening.total);
  }

  lemma BelowHundred(done: nat, total: nat)
    requires done < total
    ensures Percent(done, total) < 100
  {
    var q := 100 * done / total;
    assert q * total <= 100 * done;
    if q >= 100 {
      ProductMonotone(100, q, total);
    }
  }

  /** In every reachable state the percentages sent so far never fall and stay within 100; the last one is 100
      exactly when every worker has counted. */
  lemma PercentsRiseToHundred(earlier: seq<Locks.Event>, raw: seq<RawVmid>, protected: set<int>, steps: seq<Step>)
    requires |TargetsOf(raw, protected)| + |InvalidVms(raw, protected)| > 0
    ensures var t := TallyAt(earlier, raw, protected, steps);
            && |t.percents| == |t.ok| + |t.failed|
            && (forall i, j | 0 <= i <= j < |t.percents| :: t.percents[i] <= t.percents[j] <= 100)
            && (t.percents != [] ==> (t.percents[|t.percents| - 1] == 100 <==> t.done == t.total))
  {
    var opening := Opening(|TargetsOf(raw, protected)|, |InvalidVms(raw, protected)|);
    var counted, t := BatchAt(earlier, raw, protected, steps).counted, TallyAt(earlier, raw, protected, steps);
    TallyPercents(opening, counted);
    TallyCounts(opening, counted);
    EveryStateAddsUp(earlier, raw, protected, steps);
    forall i, j | 0 <= i <= j < |t.percents|
      ensures t.percents[i] <= t.percents[j] <= 100
    {
      PercentsRise(opening.done + i + 1, opening.done + j + 1, t.total);
    }
    if t.percents != [] {
      if t.done == t.total {
        PercentsRise(t.total, t.total, t.total);
      } else {
        BelowHundred(t.done, t.total);
      }
    }
  }

  /** `failed` is reported for a batch that deleted nothing although something failed. */
  predicate ReportsFailed(ok: seq<int>, failures: nat) {
    ok == [] && failures > 0
  }

  /** A batch that names any VM and was not cancelled is reported as failed exactly when every worker's
      teardown failed. */
  lemma FailedIffNothingDeleted(earlier: seq<Locks.Event>, raw: seq<RawVmid>, protected: set<int>, steps: seq<Step>)
    requires |TargetsOf(raw, protected)| + |InvalidVms(raw, protected)| > 0
    requires forall k: nat | k < |TargetsOf(raw, protected)| :: WorkerPc(earlier, raw, protected, steps, k) == Locks.Over
    requires BatchAt(earlier, raw, protected, steps).lost == {}
    ensures var t := TallyAt(earlier, raw, protected, steps);
            ReportsFailed(t.ok, |t.failed| + |InvalidVms(raw, protected)|)
            <==> forall o | o in BatchAt(earlier, raw, protected, steps).counted :: !o.ok
  {
    BatchAddsUp(earlier, raw, protected, steps);
    NoSuccess(Opening(|TargetsOf(raw, protected)|, |InvalidVms(raw, protected)|), BatchAt(earlier, raw, protected, steps).counted);
  }

  lemma {:induction false} NoSuccess(t: Tally, outcomes: seq<Outcome>)
    requires t.total > 0 && t.ok == []
    ensures Tallied(t, outcomes).ok == [] <==> forall o | o in outcomes :: !o.ok
  {
    if outcomes != [] {
      var front := outcomes[..|outcomes| - 1];
      NoSuccess(t, front);
      assert outcomes == front + [outcomes[|outcomes| - 1]];
    }
  }
}
