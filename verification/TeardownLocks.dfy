/** Who may tear down a VM, and when: the global limit of two single operations, the limit of two per
    batch, and the per-VM lock (agent/src/cs_sim.py: `run_long_op`, `_vm_lock`, `_destroy_sim_vm`,
    `_delete_vms`, `_reclone_vm`, `_quarantine_dongle_and_destroy`, `_clone_lxc`, `_provision_unassigned`,
    `_reseed`, `_reclone_all`; the
    teardowns of agent/src/usb_provision.py and agent/src/template_ops.py). */
module TeardownLocks {

  const LIMIT: nat := 2

  /** `Single`: delete_vm, reclone_vm or quarantine_dongle_and_destroy on one VM. Three more hold the global
      permit but no VM lock: `Clone`, clone_lxc and the container it destroys; `Provision`, the pass of
      provision_unassigned and a VM it tears down; `Reseed`, reseed and the id it restores over. `Plain`: a
      single operation that tears down nothing. `Worker`: one VM of a delete_vms batch. `Fleet`: one VM of a
      fleet reclone, `Loop`: a teardown of the provisioning loop or of a template refresh; they take neither. */
  datatype Kind = Single(vm: int) | Clone(vm: int) | Provision(vm: int) | Reseed(vm: int) | Plain
                | Worker(batch: nat, vm: int) | Fleet(vm: int) | Loop(vm: int)

  /** `Waiting` for a permit; `Admitted` with a permit, before the VM lock; `Inside` the locked section
      (the handler's work, for kinds without a lock); `Reporting` the outcome; `Over`. */
  datatype Pc = Waiting | Admitted | Inside | Reporting | Over

  datatype Proc = Proc(kind: Kind, pc: Pc)

  /** `locks` maps a VM to the operation holding its lock; `free` counts the free global permits,
      `batchFree` those of each batch. */
  datatype State = State(procs: seq<Proc>, locks: map<int, nat>, free: nat, batchFree: seq<nat>)

  const START := State([], map[], LIMIT, [])

  predicate TakesLock(k: Kind) { k.Single? || k.Worker? }

  predicate TakesGlobal(k: Kind) { k.Single? || k.Clone? || k.Provision? || k.Reseed? || k.Plain? }

  predicate HasGlobal(p: Proc) {
    TakesGlobal(p.kind) && p.pc in {Admitted, Inside, Reporting}
  }

  /** A worker's permit ends with its locked section: it reports without one. */
  predicate HasBatch(p: Proc, b: nat) {
    p.kind.Worker? && p.kind.batch == b && p.pc in {Admitted, Inside}
  }

  // ── steps ──────────────────────────────────────────────────────────────────

  datatype Event =
    | Arrive(kind: Kind)
    | StartBatch(vms: seq<int>)
    | Advance(i: nat)
    | Abort(i: nat)

  predicate CanAdvance(s: State, i: nat) {
    i < |s.procs| &&
    var p := s.procs[i];
    match p.pc
    case Waiting =>
      if TakesGlobal(p.kind) then s.free > 0
      else if p.kind.Worker? then p.kind.batch < |s.batchFree| && s.batchFree[p.kind.batch] > 0
      else true
    case Admitted => TakesLock(p.kind) ==> p.kind.vm !in s.locks
    case Inside => true
    case Reporting => true
    case Over => false
  }

  predicate Can(s: State, e: Event) {
    match e
    case Arrive(kind) => !kind.Worker?
    case StartBatch(_) => true
    case Advance(i) => CanAdvance(s, i)
    case Abort(i) => i < |s.procs| && s.procs[i].pc != Over
  }

  function At(s: State, i: nat, pc: Pc): State
    requires i < |s.procs|
  {
    s.(procs := s.procs[i := s.procs[i].(pc := pc)])
  }

  /** What leaving the blocks it is in gives back: the VM lock, the permit. */
  function GivenBack(s: State, p: Proc, pc: Pc): State {
    var s1 := if TakesLock(p.kind) && p.pc == Inside && pc != Inside then s.(locks := s.locks - {p.kind.vm}) else s;
    var s2 := if HasGlobal(p) && !HasGlobal(p.(pc := pc)) then s1.(free := s1.free + 1) else s1;
    if p.kind.Worker? && p.kind.batch < |s.batchFree|
       && HasBatch(p, p.kind.batch) && !HasBatch(p.(pc := pc), p.kind.batch)
    then s2.(batchFree := s2.batchFree[p.kind.batch := s2.batchFree[p.kind.batch] + 1]) else s2
  }

  function Advanced(s: State, i: nat): State
    requires CanAdvance(s, i)
  {
    var p := s.procs[i];
    match p.pc
    case Waiting =>
      var s' := At(s, i, Admitted);
      if TakesGlobal(p.kind) then s'.(free := s.free - 1)
      else if p.kind.Worker? then s'.(batchFree := s.batchFree[p.kind.batch := s.batchFree[p.kind.batch] - 1])
      else s'
    case Admitted =>
      var s' := At(s, i, Inside);
      if TakesLock(p.kind) then s'.(locks := s.locks[p.kind.vm := i]) else s'
    case Inside => At(GivenBack(s, p, Reporting), i, Reporting)
    case Reporting => At(GivenBack(s, p, Over), i, Over)
    case Over => s
  }

  function Workers(batch: nat, vms: seq<int>): seq<Proc> {
    if vms == [] then [] else [Proc(Worker(batch, vms[0]), Waiting)] + Workers(batch, vms[1..])
  }

  function Next(s: State, e: Event): State
    requires Can(s, e)
  {
    match e
    case Arrive(kind) => s.(procs := s.procs + [Proc(kind, Waiting)])
    case StartBatch(vms) =>
      s.(procs := s.procs + Workers(|s.batchFree|, vms), batchFree := s.batchFree + [LIMIT])
    case Advance(i) => Advanced(s, i)
    case Abort(i) => At(GivenBack(s, s.procs[i], Over), i, Over)
  }

  function After(s: State, events: seq<Event>): State
    decreases |events|
  {
    if events == [] then s
    else After(if Can(s, events[0]) then Next(s, events[0]) else s, events[1..])
  }

  // ── counting permits ───────────────────────────────────────────────────────

  function GlobalHolders(procs: seq<Proc>): nat {
    if procs == [] then 0
    else GlobalHolders(procs[..|procs| - 1]) + if HasGlobal(procs[|procs| - 1]) then 1 else 0
  }

  function BatchHolders(procs: seq<Proc>, b: nat): nat {
    if procs == [] then 0
    else BatchHolders(procs[..|procs| - 1], b) + if HasBatch(procs[|procs| - 1], b) then 1 else 0
  }

  lemma {:induction false} GlobalUpdate(procs: seq<Proc>, i: nat, p: Proc)
    requires i < |procs|
    ensures GlobalHolders(procs[i := p])
         == GlobalHolders(procs) - (if HasGlobal(procs[i]) then 1 else 0) + (if HasGlobal(p) then 1 else 0)
  {
    var n := |procs| - 1;
    if i == n {
      assert procs[i := p][..n] == procs[..n];
    } else {
      assert procs[i := p][..n] == procs[..n][i := p];
      GlobalUpdate(procs[..n], i, p);
    }
  }

  lemma {:induction false} BatchUpdate(procs: seq<Proc>, b: nat, i: nat, p: Proc)
    requires i < |procs|
    ensures BatchHolders(procs[i := p], b)
         == BatchHolders(procs, b) - (if HasBatch(procs[i], b) then 1 else 0) + (if HasBatch(p, b) then 1 else 0)
  {
    var n := |procs| - 1;
    if i == n {
      assert procs[i := p][..n] == procs[..n];
    } else {
      assert procs[i := p][..n] == procs[..n][i := p];
      BatchUpdate(procs[..n], b, i, p);
    }
  }

  lemma {:induction false} AppendWaiting(procs: seq<Proc>, more: seq<Proc>, b: nat)
    requires forall p | p in more :: p.pc == Waiting
    ensures GlobalHolders(procs + more) == GlobalHolders(procs)
    ensures BatchHolders(procs + more, b) == BatchHolders(procs, b)
  {
    if more == [] {
      assert procs + more == procs;
    } else {
      var n := |more| - 1;
      assert (procs + more)[..|procs| + n] == procs + more[..n];
      AppendWaiting(procs, more[..n], b);
    }
  }

  lemma {:induction false} SomeGlobalHolder(procs: seq<Proc>) returns (i: nat)
    requires GlobalHolders(procs) > 0
    ensures i < |procs| && HasGlobal(procs[i])
  {
    i := |procs| - 1;
    if !HasGlobal(procs[i]) {
      i := SomeGlobalHolder(procs[..i]);
    }
  }

  lemma {:induction false} SomeBatchHolder(procs: seq<Proc>, b: nat) returns (i: nat)
    requires BatchHolders(procs, b) > 0
    ensures i < |procs| && HasBatch(procs[i], b)
  {
    i := |procs| - 1;
    if !HasBatch(procs[i], b) {
      i := SomeBatchHolder(procs[..i], b);
    }
  }

  lemma {:induction false} NoBatchHolder(procs: seq<Proc>, b: nat)
    requires forall p | p in procs && p.kind.Worker? :: p.kind.batch != b
    ensures BatchHolders(procs, b) == 0
  {
    if procs != [] {
      NoBatchHolder(procs[..|procs| - 1], b);
    }
  }

  // ── invariant ──────────────────────────────────────────────────────────────

  predicate InLock(p: Proc, vm: int) {
    TakesLock(p.kind) && p.kind.vm == vm && p.pc == Inside
  }

  /** The lock of a VM is held exactly by the one operation inside its locked section. */
  predicate LocksTrue(s: State) {
    && (forall vm | vm in s.locks :: s.locks[vm] < |s.procs| && InLock(s.procs[s.locks[vm]], vm))
    && (forall i | 0 <= i < |s.procs| && TakesLock(s.procs[i].kind) && s.procs[i].pc == Inside ::
          s.procs[i].kind.vm in s.locks && s.locks[s.procs[i].kind.vm] == i)
  }

  predicate Inv(s: State) {
    && LocksTrue(s)
    && s.free + GlobalHolders(s.procs) == LIMIT
    && (forall i | 0 <= i < |s.procs| && s.procs[i].kind.Worker? :: s.procs[i].kind.batch < |s.batchFree|)
    && (forall b | 0 <= b < |s.batchFree| :: s.batchFree[b] + BatchHolders(s.procs, b) == LIMIT)
  }

  lemma MoveKeepsLocks(s: State, i: nat, pc: Pc)
    requires LocksTrue(s) && i < |s.procs| && s.procs[i].pc != Waiting && pc in {Reporting, Over}
    requires s.procs[i].pc == Inside || pc == Over
    ensures LocksTrue(At(GivenBack(s, s.procs[i], pc), i, pc))
  {
  }

  /** The batch permits after one operation has gone on. */
  lemma BatchesUpdate(procs: seq<Proc>, i: nat, p: Proc)
    requires i < |procs|
    ensures forall b: nat ::
      BatchHolders(procs[i := p], b)
      == BatchHolders(procs, b) - (if HasBatch(procs[i], b) then 1 else 0) + (if HasBatch(p, b) then 1 else 0)
  {
    forall b: nat ensures BatchHolders(procs[i := p], b)
         == BatchHolders(procs, b) - (if HasBatch(procs[i], b) then 1 else 0) + (if HasBatch(p, b) then 1 else 0)
    {
      BatchUpdate(procs, b, i, p);
    }
  }

  lemma MoveKeepsInv(s: State, i: nat, pc: Pc)
    requires Inv(s) && i < |s.procs| && s.procs[i].pc != Waiting && pc in {Reporting, Over}
    requires s.procs[i].pc == Inside || pc == Over
    ensures Inv(At(GivenBack(s, s.procs[i], pc), i, pc))
  {
    var p, s' := s.procs[i], At(GivenBack(s, s.procs[i], pc), i, pc);
    var q := p.(pc := pc);
    MoveKeepsLocks(s, i, pc);
    GlobalUpdate(s.procs, i, q);
    BatchesUpdate(s.procs, i, q);
    forall b | 0 <= b < |s'.batchFree| ensures s'.batchFree[b] + BatchHolders(s'.procs, b) == LIMIT {
      assert s.batchFree[b] + BatchHolders(s.procs, b) == LIMIT;
    }
  }

  lemma AdvanceKeepsLocks(s: State, i: nat)
    requires LocksTrue(s) && CanAdvance(s, i) && s.procs[i].pc in {Waiting, Admitted}
    ensures LocksTrue(Advanced(s, i))
  {
  }

  lemma AdvanceKeepsInv(s: State, i: nat)
    requires Inv(s) && CanAdvance(s, i)
    ensures Inv(Advanced(s, i))
  {
    var p := s.procs[i];
    if p.pc in {Waiting, Admitted} {
      var q := p.(pc := if p.pc == Waiting then Admitted else Inside);
      AdvanceKeepsLocks(s, i);
      GlobalUpdate(s.procs, i, q);
      BatchesUpdate(s.procs, i, q);
    } else {
      MoveKeepsInv(s, i, if p.pc == Inside then Reporting else Over);
    }
  }

  lemma AbortKeepsInv(s: State, i: nat)
    requires Inv(s) && i < |s.procs| && s.procs[i].pc != Over
    ensures Inv(At(GivenBack(s, s.procs[i], Over), i, Over))
  {
    if s.procs[i].pc != Waiting {
      MoveKeepsInv(s, i, Over);
    } else {
      var q := s.procs[i].(pc := Over);
      GlobalUpdate(s.procs, i, q);
      BatchesUpdate(s.procs, i, q);
    }
  }

  lemma {:induction false} WorkersFacts(batch: nat, vms: seq<int>)
    ensures forall p | p in Workers(batch, vms) :: p.pc == Waiting && p.kind.Worker? && p.kind.batch == batch
    ensures |Workers(batch, vms)| == |vms|
  {
    if vms != [] {
      WorkersFacts(batch, vms[1..]);
    }
  }

  lemma ArrivalKeepsInv(s: State, more: seq<Proc>, batches: seq<nat>)
    requires Inv(s) && (batches == [] || batches == [LIMIT])
    requires forall p | p in more :: p.pc == Waiting && (p.kind.Worker? ==> p.kind.batch < |s.batchFree| + |batches|)
    ensures Inv(s.(procs := s.procs + more, batchFree := s.batchFree + batches))
  {
    var s' := s.(procs := s.procs + more, batchFree := s.batchFree + batches);
    AppendWaiting(s.procs, more, 0);
    forall b | 0 <= b < |s'.batchFree| ensures s'.batchFree[b] + BatchHolders(s'.procs, b) == LIMIT {
      AppendWaiting(s.procs, more, b);
      if b >= |s.batchFree| {
        NoBatchHolder(s.procs, b);
      }
    }
    assert forall i | |s.procs| <= i < |s'.procs| :: s'.procs[i] in more;
  }

  lemma NextKeepsInv(s: State, e: Event)
    requires Inv(s) && Can(s, e)
    ensures Inv(Next(s, e))
  {
    match e
    case Arrive(kind) =>
      ArrivalKeepsInv(s, [Proc(kind, Waiting)], []);
      assert s.batchFree + [] == s.batchFree;
    case StartBatch(vms) =>
      WorkersFacts(|s.batchFree|, vms);
      ArrivalKeepsInv(s, Workers(|s.batchFree|, vms), [LIMIT]);
    case Advance(i) => AdvanceKeepsInv(s, i);
    case Abort(i) => AbortKeepsInv(s, i);
  }

  lemma {:induction false} AfterKeepsInv(s: State, events: seq<Event>)
    requires Inv(s)
    ensures Inv(After(s, events))
    decreases |events|
  {
    if events != [] {
      if Can(s, events[0]) {
        NextKeepsInv(s, events[0]);
      }
      AfterKeepsInv(if Can(s, events[0]) then Next(s, events[0]) else s, events[1..]);
    }
  }

  // ── safety over all runs ───────────────────────────────────────────────────

  /** At most one operation is inside the locked section of a VM. */
  lemma OneInsidePerVm(events: seq<Event>, vm: int, i: nat, j: nat)
    requires var s := After(START, events); i < |s.procs| && j < |s.procs| && InLock(s.procs[i], vm) && InLock(s.procs[j], vm)
    ensures i == j
  {
    AfterKeepsInv(START, events);
  }

  /** A single operation from its admission to its end, whatever it tears down. */
  predicate Permitted(p: Proc) {
    && (p.kind.Single? || p.kind.Clone? || p.kind.Provision? || p.kind.Reseed? || p.kind.Plain?)
    && (p.pc.Admitted? || p.pc.Inside? || p.pc.Reporting?)
  }

  /** A worker of the batch from its admission to the end of its locked section. */
  predicate BatchPermitted(p: Proc, b: nat) {
    p.kind.Worker? && p.kind.batch == b && (p.pc.Admitted? || p.pc.Inside?)
  }

  function Count(procs: seq<Proc>, holds: Proc -> bool): nat {
    if procs == [] then 0 else Count(procs[..|procs| - 1], holds) + if holds(procs[|procs| - 1]) then 1 else 0
  }

  predicate Some(procs: seq<Proc>, holds: Proc -> bool) {
    exists i :: 0 <= i < |procs| && holds(procs[i])
  }

  predicate Two(procs: seq<Proc>, holds: Proc -> bool) {
    exists i, j :: 0 <= i < j < |procs| && holds(procs[i]) && holds(procs[j])
  }

  predicate Three(procs: seq<Proc>, holds: Proc -> bool) {
    exists i, j, k :: 0 <= i < j < k < |procs| && holds(procs[i]) && holds(procs[j]) && holds(procs[k])
  }

  lemma {:induction false} CountAt(procs: seq<Proc>, holds: Proc -> bool, i: nat)
    requires i < |procs| && holds(procs[i])
    ensures Count(procs, holds) >= Count(procs[..i], holds) + 1
  {
    var n := |procs| - 1;
    if i < n {
      CountAt(procs[..n], holds, i);
      assert procs[..n][..i] == procs[..i];
    }
  }

  lemma {:induction false} LastOf(procs: seq<Proc>, holds: Proc -> bool) returns (i: nat)
    requires Count(procs, holds) >= 1
    ensures i < |procs| && holds(procs[i]) && Count(procs[..i], holds) == Count(procs, holds) - 1
  {
    i := |procs| - 1;
    if !holds(procs[i]) {
      var n := i;
      i := LastOf(procs[..n], holds);
      assert procs[..n][..i] == procs[..i];
    }
  }

  lemma CountTwo(procs: seq<Proc>, holds: Proc -> bool, i: nat, j: nat)
    requires i < j < |procs| && holds(procs[i]) && holds(procs[j])
    ensures Count(procs, holds) >= 2
  {
    CountAt(procs, holds, j);
    CountAt(procs[..j], holds, i);
  }

  lemma CountThree(procs: seq<Proc>, holds: Proc -> bool, i: nat, j: nat, k: nat)
    requires i < j < k < |procs| && holds(procs[i]) && holds(procs[j]) && holds(procs[k])
    ensures Count(procs, holds) >= 3
  {
    CountAt(procs, holds, k);
    CountTwo(procs[..k], holds, i, j);
  }

  lemma TwoIff(procs: seq<Proc>, holds: Proc -> bool)
    ensures Count(procs, holds) >= 2 <==> Two(procs, holds)
  {
    if Count(procs, holds) >= 2 {
      var j := LastOf(procs, holds);
      var i := LastOf(procs[..j], holds);
    }
    if i, j :| 0 <= i < j < |procs| && holds(procs[i]) && holds(procs[j]) {
      CountTwo(procs, holds, i, j);
    }
  }

  lemma NotThree(procs: seq<Proc>, holds: Proc -> bool)
    requires Count(procs, holds) <= 2
    ensures !Three(procs, holds)
  {
    if i, j, k :| 0 <= i < j < k < |procs| && holds(procs[i]) && holds(procs[j]) && holds(procs[k]) {
      CountThree(procs, holds, i, j, k);
    }
  }

  lemma {:induction false} HoldersAreCounted(procs: seq<Proc>, b: nat)
    ensures GlobalHolders(procs) == Count(procs, Permitted)
    ensures BatchHolders(procs, b) == Count(procs, p => BatchPermitted(p, b))
  {
    if procs != [] {
      HoldersAreCounted(procs[..|procs| - 1], b);
    }
  }

  /** Never three single operations between their permit and their end, nor three workers of a batch between theirs
      and the end of the locked section. */
  lemma PermitsAreBounded(events: seq<Event>, b: nat)
    ensures !Three(After(START, events).procs, Permitted)
    ensures !Three(After(START, events).procs, p => BatchPermitted(p, b))
  {
    AfterKeepsInv(START, events);
    var s := After(START, events);
    HoldersAreCounted(s.procs, b);
    if b >= |s.batchFree| {
      NoBatchHolder(s.procs, b);
    }
    NotThree(s.procs, Permitted);
    NotThree(s.procs, p => BatchPermitted(p, b));
  }

  /** When an operation that waits for a permit is let in, in every reachable state: a worker unless two of its batch
      have theirs, one of a fleet reclone or of the loops at once, any other unless two single ones have theirs. */
  lemma LetInIff(events: seq<Event>, i: nat)
    requires i < |After(START, events).procs| && After(START, events).procs[i].pc.Waiting?
    ensures var s := After(START, events);
            CanAdvance(s, i) <==>
              match s.procs[i].kind
              case Worker(b, _) => !Two(s.procs, q => BatchPermitted(q, b))
              case Fleet(_) => true
              case Loop(_) => true
              case _ => !Two(s.procs, Permitted)
  {
    AfterKeepsInv(START, events);
    var s := After(START, events);
    var kind := s.procs[i].kind;
    var b := if kind.Worker? then kind.batch else 0;
    HoldersAreCounted(s.procs, b);
    TwoIff(s.procs, Permitted);
    TwoIff(s.procs, q => BatchPermitted(q, b));
  }

  /** When an operation that has been let in gets to work: a single teardown or a worker unless another one is at work
      on its VM under the lock, the rest at once; and from there to its end nothing keeps it waiting. */
  lemma GoesOnIff(events: seq<Event>, i: nat)
    requires i < |After(START, events).procs| && !After(START, events).procs[i].pc.Waiting?
    ensures var s := After(START, events);
            var p := s.procs[i];
            CanAdvance(s, i) <==>
              !p.pc.Over?
              && (p.pc.Admitted? && (p.kind.Single? || p.kind.Worker?) ==> !Some(s.procs, q => AtWork(q, p.kind.vm)))
  {
    AfterKeepsInv(START, events);
    var s := After(START, events);
    var p := s.procs[i];
    if p.pc.Admitted? && TakesLock(p.kind) {
      LockedIff(s, p.kind.vm);
    }
  }

  /** A single teardown or a worker in the locked section of the VM. */
  predicate AtWork(p: Proc, vm: int) {
    (p.kind.Single? || p.kind.Worker?) && p.kind.vm == vm && p.pc.Inside?
  }

  lemma LockedIff(s: State, vm: int)
    requires LocksTrue(s)
    ensures vm in s.locks <==> Some(s.procs, q => AtWork(q, vm))
  {
    var atWork := (q: Proc) => AtWork(q, vm);
    if vm in s.locks {
      assert atWork(s.procs[s.locks[vm]]);
    }
    if i :| 0 <= i < |s.procs| && AtWork(s.procs[i], vm) {
      assert TakesLock(s.procs[i].kind);
    }
  }

  // ── progress ───────────────────────────────────────────────────────────────

  predicate AllOver(s: State) {
    forall i | 0 <= i < |s.procs| :: s.procs[i].pc == Over
  }

  lemma HolderLeadsOn(s: State, i: nat) returns (j: nat)
    requires Inv(s) && i < |s.procs| && s.procs[i].pc !in {Waiting, Over}
    ensures CanAdvance(s, j)
  {
    j := i;
    var p := s.procs[i];
    if p.pc == Admitted && TakesLock(p.kind) && p.kind.vm in s.locks {
      j := s.locks[p.kind.vm];
    }
  }

  /** No reachable state is stuck: while some operation is not over, some operation can go on. The holder
      of a VM lock never waits, so every wait leads to an operation that can move. */
  lemma NeverStuck(events: seq<Event>) returns (j: nat)
    requires !AllOver(After(START, events))
    ensures CanAdvance(After(START, events), j)
  {
    AfterKeepsInv(START, events);
    j := SomeStep(After(START, events));
  }

  lemma SomeStep(s: State) returns (j: nat)
    requires Inv(s) && !AllOver(s)
    ensures CanAdvance(s, j)
  {
    var i :| 0 <= i < |s.procs| && s.procs[i].pc != Over;
    j := i;
    if s.procs[i].pc != Waiting {
      j := HolderLeadsOn(s, i);
    } else if TakesGlobal(s.procs[i].kind) && s.free == 0 {
      var k := SomeGlobalHolder(s.procs);
      j := HolderLeadsOn(s, k);
    } else if s.procs[i].kind.Worker? && s.batchFree[s.procs[i].kind.batch] == 0 {
      var k := SomeBatchHolder(s.procs, s.procs[i].kind.batch);
      j := HolderLeadsOn(s, k);
    }
  }

  function Left(pc: Pc): nat {
    match pc case Waiting => 4 case Admitted => 3 case Inside => 2 case Reporting => 1 case Over => 0
  }

  function Work(procs: seq<Proc>): nat {
    if procs == [] then 0 else Work(procs[..|procs| - 1]) + Left(procs[|procs| - 1].pc)
  }

  lemma {:induction false} WorkUpdate(procs: seq<Proc>, i: nat, p: Proc)
    requires i < |procs|
    ensures Work(procs[i := p]) == Work(procs) - Left(procs[i].pc) + Left(p.pc)
  {
    var n := |procs| - 1;
    if i == n {
      assert procs[i := p][..n] == procs[..n];
    } else {
      assert procs[i := p][..n] == procs[..n][i := p];
      WorkUpdate(procs[..n], i, p);
    }
  }

  predicate Arrives(e: Event) { e.Arrive? || e.StartBatch? }

  lemma StepUsesWork(s: State, e: Event)
    requires Inv(s) && Can(s, e) && !Arrives(e)
    ensures Work(Next(s, e).procs) < Work(s.procs)
  {
    var i := match e case Advance(k) => k case Abort(k) => k;
    WorkUpdate(s.procs, i, Next(s, e).procs[i]);
  }

  /** Every step of an operation uses up work, so a run without arrivals has at most as many steps as
      there is work left. */
  lemma {:induction false} RunsAreBounded(s: State, events: seq<Event>)
    requires Inv(s) && forall e | e in events :: !Arrives(e)
    requires AllHappen(s, events)
    ensures |events| <= Work(s.procs)
    decreases |events|
  {
    if events != [] {
      var e := events[0];
      assert e in events;
      NextKeepsInv(s, e);
      StepUsesWork(s, e);
      RunsAreBounded(Next(s, e), events[1..]);
    }
  }

  /** Every event of the run can happen when its turn comes. */
  predicate AllHappen(s: State, events: seq<Event>)
    decreases |events|
  {
    events == [] || (Can(s, events[0]) && AllHappen(Next(s, events[0]), events[1..]))
  }

  /** From every reachable state, once no more operations arrive, letting any operation that can go on
      do so ends with all of them over. */
  lemma EverythingEnds(events: seq<Event>) returns (rest: seq<Event>)
    ensures var s := After(START, events); AllHappen(s, rest) && AllOver(After(s, rest))
    ensures forall e | e in rest :: e.Advance?
  {
    AfterKeepsInv(START, events);
    rest := Drain(After(START, events));
  }

  lemma {:induction false} Drain(s: State) returns (rest: seq<Event>)
    requires Inv(s)
    ensures AllHappen(s, rest) && AllOver(After(s, rest)) && forall e | e in rest :: e.Advance?
    decreases Work(s.procs)
  {
    if AllOver(s) {
      rest := [];
    } else {
      var j := SomeStep(s);
      NextKeepsInv(s, Advance(j));
      StepUsesWork(s, Advance(j));
      var more := Drain(Advanced(s, j));
      rest := [Advance(j)] + more;
      assert rest[1..] == more;
    }
  }

  // ── what the lock does not cover ───────────────────────────────────────────

  predicate TearsDown(p: Proc, vm: int) {
    !p.kind.Plain? && p.kind.vm == vm && p.pc == Inside
  }

  /** The same sort of operation on the same VM; batches are not told apart. */
  predicate Alike(k: Kind, l: Kind) {
    match k
    case Worker(_, vm) => l.Worker? && l.vm == vm
    case _ => k == l
  }

  /** In state `s` an operation like `k` and another like `l` are both tearing down `vm`. */
  predicate BothAtWork(s: State, k: Kind, l: Kind, vm: int) {
    exists i, j | 0 <= i < |s.procs| && 0 <= j < |s.procs| ::
      i != j && Alike(k, s.procs[i].kind) && Alike(l, s.procs[j].kind)
      && TearsDown(s.procs[i], vm) && TearsDown(s.procs[j], vm)
  }

  /** Some run brings an operation like `k` and another like `l` to work on one VM at once. */
  ghost predicate CanMeet(k: Kind, l: Kind, vm: int) {
    exists events: seq<Event> :: BothAtWork(After(START, events), k, l, vm)
  }

  /** In no reachable state are two operations that take the lock at work on one VM. */
  lemma LockKeepsApart(events: seq<Event>, vm: int, i: nat, j: nat)
    requires var s := After(START, events);
             i < |s.procs| && j < |s.procs| && i != j && TearsDown(s.procs[i], vm) && TearsDown(s.procs[j], vm)
    ensures var k, l := After(START, events).procs[i].kind, After(START, events).procs[j].kind;
            !((k.Single? || k.Worker?) && (l.Single? || l.Worker?))
  {
    AfterKeepsInv(START, events);
  }

  lemma {:induction false} AfterAppend(s: State, a: seq<Event>, b: seq<Event>)
    ensures After(s, a + b) == After(After(s, a), b)
    decreases |a|
  {
    if a == [] {
      assert a + b == b;
    } else {
      assert (a + b)[1..] == a[1..] + b;
      AfterAppend(if Can(s, a[0]) then Next(s, a[0]) else s, a[1..], b);
    }
  }

  /** An operation like `k` as it arrives in state `s`. */
  function Incoming(s: State, k: Kind): Kind {
    if k.Worker? then Worker(|s.batchFree|, k.vm) else k
  }

  lemma Arriving(s: State, k: Kind) returns (e: Event)
    ensures Can(s, e)
    ensures var s' := Next(s, e);
            && s'.procs == s.procs + [Proc(Incoming(s, k), Waiting)] && s'.locks == s.locks && s'.free == s.free
            && s'.batchFree == if k.Worker? then s.batchFree + [LIMIT] else s.batchFree
  {
    if k.Worker? {
      e := StartBatch([k.vm]);
      assert [k.vm][1..] == [];
      assert Workers(|s.batchFree|, [k.vm]) == [Proc(Incoming(s, k), Waiting)] + Workers(|s.batchFree|, []);
    } else {
      e := Arrive(k);
    }
  }

  /** With a permit left and the lock free, an operation can arrive and get to work, whatever else is going on. */
  lemma BringIn(s: State, k: Kind) returns (events: seq<Event>)
    requires !k.Plain? && (k.Worker? || k.Fleet? || k.Loop? || s.free > 0)
    requires k.Single? || k.Worker? ==> k.vm !in s.locks
    ensures var s' := After(s, events);
            && s'.procs == s.procs + [Proc(Incoming(s, k), Inside)]
            && s'.free + (if k.Worker? || k.Fleet? || k.Loop? then 0 else 1) == s.free
            && (forall vm :: vm in s'.locks <==> vm in s.locks || ((k.Single? || k.Worker?) && vm == k.vm))
  {
    var n := |s.procs|;
    var arrival := Arriving(s, k);
    var s1 := Next(s, arrival);
    assert s1.procs[n] == Proc(Incoming(s, k), Waiting) && CanAdvance(s1, n);
    var s2 := Advanced(s1, n);
    assert s2.procs[n] == Proc(Incoming(s, k), Admitted) && CanAdvance(s2, n);
    var s3 := Advanced(s2, n);
    assert s3.procs == s.procs + [Proc(Incoming(s, k), Inside)];
    events := [arrival, Advance(n), Advance(n)];
    ThreeSteps(s, arrival, Advance(n), Advance(n));
  }

  lemma ThreeSteps(s: State, a: Event, b: Event, c: Event)
    requires Can(s, a) && Can(Next(s, a), b) && Can(Next(Next(s, a), b), c)
    ensures After(s, [a, b, c]) == Next(Next(Next(s, a), b), c)
  {
    var s1, s2 := Next(s, a), Next(Next(s, a), b);
    assert [a, b, c][1..] == [b, c] && [b, c][1..] == [c] && [c][1..] == [];
    assert After(s2, [c]) == Next(s2, c);
    assert After(s1, [b, c]) == After(s2, [c]);
  }

  /** A run in which two operations, not both of which take the lock, are at work together. */
  lemma Meeting(k: Kind, l: Kind) returns (events: seq<Event>)
    requires !k.Plain? && !l.Plain? && k.vm == l.vm && !(TakesLock(k) && TakesLock(l))
    ensures BothAtWork(After(START, events), k, l, k.vm)
  {
    var first := BringIn(START, k);
    var s := After(START, first);
    var second := BringIn(s, l);
    events := first + second;
    AfterAppend(START, first, second);
    var s' := After(s, second);
    assert s'.procs[0] == Proc(Incoming(START, k), Inside) && s'.procs[1] == Proc(Incoming(s, l), Inside);
  }

  /** Two operations on one VM can be at work on it together if and only if they are not both single teardowns or
      workers: one of them takes no VM lock, clone_lxc, provision_unassigned, reseed, a fleet reclone, a teardown of the provisioning loop or of a
      template refresh. */
  lemma MeetIff(k: Kind, l: Kind)
    requires !k.Plain? && !l.Plain? && k.vm == l.vm
    ensures CanMeet(k, l, k.vm) <==> !((k.Single? || k.Worker?) && (l.Single? || l.Worker?))
  {
    if !(TakesLock(k) && TakesLock(l)) {
      var events := Meeting(k, l);
    }
    forall events: seq<Event> | BothAtWork(After(START, events), k, l, k.vm) ensures !(TakesLock(k) && TakesLock(l)) {
      var s := After(START, events);
      var i, j :| 0 <= i < |s.procs| && 0 <= j < |s.procs| && i != j && Alike(k, s.procs[i].kind)
                  && Alike(l, s.procs[j].kind) && TearsDown(s.procs[i], k.vm) && TearsDown(s.procs[j], k.vm);
      LockKeepsApart(events, k.vm, i, j);
    }
  }
}
