/** The handlers of the long operations and the task around them, as far as their control flow decides whether a
    result is reported (agent/src/cs_sim.py, the ten handlers and `run_long_op`). What a step does is left open:
    it may go through, raise or be cancelled. */
module Handlers {

  /** `Do`: work that may go through, raise or be cancelled. `Calm`: work that goes through. `Tell`: `_terminal`, which
      records the result first and then sends it, and the sending may fail like any work. `If`: the condition is left
      open. `Try`: with `all` every exception is caught, without it some are. `Guarded`: cancellations run `cancelled`
      and go on, exceptions run `failed`. */
  datatype Code =
    | Do(step: string)
    | Calm(step: string)
    | Tell(ok: bool)
    | Return
    | Continue
    | Seq(first: Code, second: Code)
    | If(yes: Code, no: Code)
    | Loop(body: Code)
    | Try(body: Code, on: Code, all: bool)
    | Finally(body: Code, last: Code)
    | Guarded(body: Code, cancelled: Code, failed: Code)

  datatype End = Falls | Returns | Continues | Raises | Cancelled

  // ── runs ───────────────────────────────────────────────────────────────────

  /** One execution. `One`: a single step; `Took`: the branch of an `If`; `Only`: the first part decided the end;
      `Both`: the second part decided it; `Last`: a `finally`, which decides only when it does not fall through;
      `Again`: a cancellation, which goes on when its clause falls through. */
  datatype Run =
    | One(told: seq<bool>, end: End)
    | Took(yes: bool, inner: Run)
    | Only(first: Run)
    | Both(first: Run, second: Run)
    | Last(first: Run, second: Run)
    | Again(first: Run, second: Run)

  function EndOf(r: Run): End {
    match r
    case One(_, end) => end
    case Took(_, inner) => EndOf(inner)
    case Only(first) => EndOf(first)
    case Both(_, second) => EndOf(second)
    case Last(first, second) => if EndOf(second).Falls? then EndOf(first) else EndOf(second)
    case Again(_, second) => if EndOf(second).Falls? then Cancelled else EndOf(second)
  }

  /** The results reported, in order; true for a completed operation. */
  function Tells(r: Run): seq<bool> {
    match r
    case One(told, _) => told
    case Took(_, inner) => Tells(inner)
    case Only(first) => Tells(first)
    case Both(first, second) => Tells(first) + Tells(second)
    case Last(first, second) => Tells(first) + Tells(second)
    case Again(first, second) => Tells(first) + Tells(second)
  }

  predicate AnyWork(end: End) {
    end in {Falls, Raises, Cancelled}
  }

  predicate IsRun(c: Code, r: Run)
    decreases r
  {
    match c
    case Do(_) => r.One? && r.told == [] && AnyWork(r.end)
    case Calm(_) => r == One([], Falls)
    case Tell(ok) => r.One? && r.told == [ok] && AnyWork(r.end)
    case Return => r == One([], Returns)
    case Continue => r == One([], Continues)
    case Seq(a, b) =>
      || (r.Only? && IsRun(a, r.first) && !EndOf(r.first).Falls?)
      || (r.Both? && IsRun(a, r.first) && EndOf(r.first).Falls? && IsRun(b, r.second))
    case If(a, b) => r.Took? && IsRun(if r.yes then a else b, r.inner)
    case Loop(body) =>
      || r == One([], Falls)
      || (r.Only? && IsRun(body, r.first) && EndOf(r.first) !in {Falls, Continues})
      || (r.Both? && IsRun(body, r.first) && EndOf(r.first) in {Falls, Continues} && IsRun(c, r.second))
    case Try(body, on, all) =>
      || (r.Only? && IsRun(body, r.first) && (all ==> !EndOf(r.first).Raises?))
      || (r.Both? && IsRun(body, r.first) && EndOf(r.first).Raises? && IsRun(on, r.second))
    case Finally(body, last) => r.Last? && IsRun(body, r.first) && IsRun(last, r.second)
    case Guarded(body, cancelled, failed) =>
      || (r.Only? && IsRun(body, r.first) && EndOf(r.first) !in {Raises, Cancelled})
      || (r.Both? && IsRun(body, r.first) && EndOf(r.first).Raises? && IsRun(failed, r.second))
      || (r.Again? && IsRun(body, r.first) && EndOf(r.first).Cancelled? && IsRun(cancelled, r.second))
  }

  // ── when code reports ──────────────────────────────────────────────────────

  /** The body of a loop that reports nothing and does not leave the handler. */
  predicate Skips(c: Code) {
    match c
    case Do(_) => true
    case Calm(_) => true
    case Continue => true
    case Seq(a, b) => Skips(a) && Skips(b)
    case If(a, b) => Skips(a) && Skips(b)
    case Loop(body) => Skips(body)
    case Try(body, on, _) => Skips(body) && Skips(on)
    case Finally(body, last) => Skips(body) && Skips(last)
    case _ => false
  }

  /** Nothing is reported, and nothing but an exception or a cancellation keeps it from going through. */
  predicate Quiet(c: Code) {
    match c
    case Do(_) => true
    case Calm(_) => true
    case Seq(a, b) => Quiet(a) && Quiet(b)
    case If(a, b) => Quiet(a) && Quiet(b)
    case Loop(body) => Skips(body)
    case Try(body, on, _) => Quiet(body) && Quiet(on)
    case Finally(body, last) => Quiet(body) && Quiet(last)
    case _ => false
  }

  /** Comes back from the handler without reporting. */
  predicate Leaves(c: Code) {
    c.Return? || (c.Seq? && Quiet(c.first) && Leaves(c.second))
  }

  /** Goes through without reporting, or reports and comes back from the handler. */
  predicate Exits(c: Code) {
    || Quiet(c)
    || (c.Seq? && Exits(c.first) && Exits(c.second))
    || (c.Seq? && c.first.Tell? && Leaves(c.second))
    || (c.If? && Exits(c.yes) && Exits(c.no))
    || (c.Try? && Quiet(c.body) && Exits(c.on))
  }

  /** Reports before it comes back. */
  predicate Reports(c: Code) {
    || c.Tell?
    || (c.Seq? && Exits(c.first) && Reports(c.second))
    || (c.If? && Reports(c.yes) && Reports(c.no))
    || (c.Finally? && Reports(c.body) && Quiet(c.last))
  }

  predicate ComesBack(end: End) {
    end in {Falls, Returns}
  }

  lemma {:induction false} SkipsRuns(c: Code, r: Run)
    requires Skips(c) && IsRun(c, r)
    ensures Tells(r) == [] && !EndOf(r).Returns?
    decreases r
  {
    match c
    case Seq(a, b) =>
      SkipsRuns(a, r.first);
      if r.Both? {
        SkipsRuns(b, r.second);
      }
    case If(a, b) => SkipsRuns(if r.yes then a else b, r.inner);
    case Loop(body) =>
      if !r.One? {
        SkipsRuns(body, r.first);
        if r.Both? {
          SkipsRuns(c, r.second);
        }
      }
    case Try(body, on, _) =>
      SkipsRuns(body, r.first);
      if r.Both? {
        SkipsRuns(on, r.second);
      }
    case Finally(body, last) =>
      SkipsRuns(body, r.first);
      SkipsRuns(last, r.second);
    case _ =>
  }

  lemma {:induction false} QuietRuns(c: Code, r: Run)
    requires Quiet(c) && IsRun(c, r)
    ensures Tells(r) == [] && AnyWork(EndOf(r))
    decreases r
  {
    match c
    case Seq(a, b) =>
      QuietRuns(a, r.first);
      if r.Both? {
        QuietRuns(b, r.second);
      }
    case If(a, b) => QuietRuns(if r.yes then a else b, r.inner);
    case Loop(body) =>
      if !r.One? {
        SkipsRuns(body, r.first);
        if r.Both? {
          QuietRuns(c, r.second);
        }
      }
    case Try(body, on, _) =>
      QuietRuns(body, r.first);
      if r.Both? {
        QuietRuns(on, r.second);
      }
    case Finally(body, last) =>
      QuietRuns(body, r.first);
      QuietRuns(last, r.second);
    case _ =>
  }

  lemma {:induction false} LeavesRuns(c: Code, r: Run)
    requires Leaves(c) && IsRun(c, r)
    ensures Tells(r) == [] && EndOf(r) in {Returns, Raises, Cancelled}
    decreases r
  {
    if c.Seq? {
      QuietRuns(c.first, r.first);
      if r.Both? {
        LeavesRuns(c.second, r.second);
      }
    }
  }

  lemma {:induction false} ExitsRuns(c: Code, r: Run)
    requires Exits(c) && IsRun(c, r)
    ensures !EndOf(r).Continues? && |Tells(r)| <= 1
    ensures (EndOf(r).Falls? ==> Tells(r) == []) && (EndOf(r).Returns? ==> |Tells(r)| == 1)
    decreases r
  {
    if Quiet(c) {
      QuietRuns(c, r);
    } else if c.Seq? && c.first.Tell? && Leaves(c.second) {
      if r.Both? {
        LeavesRuns(c.second, r.second);
      }
    } else if c.Seq? {
      ExitsRuns(c.first, r.first);
      if r.Both? {
        ExitsRuns(c.second, r.second);
      }
    } else if c.If? {
      ExitsRuns(if r.yes then c.yes else c.no, r.inner);
    } else {
      QuietRuns(c.body, r.first);
      if r.Both? {
        ExitsRuns(c.on, r.second);
      }
    }
  }

  lemma {:induction false} ReportsRuns(c: Code, r: Run)
    requires Reports(c) && IsRun(c, r)
    ensures !EndOf(r).Continues? && |Tells(r)| <= 1 && (ComesBack(EndOf(r)) ==> |Tells(r)| == 1)
    decreases r
  {
    if c.Seq? {
      ExitsRuns(c.first, r.first);
      if r.Both? {
        ReportsRuns(c.second, r.second);
      }
    } else if c.If? {
      ReportsRuns(if r.yes then c.yes else c.no, r.inner);
    } else if c.Finally? {
      ReportsRuns(c.body, r.first);
      QuietRuns(c.last, r.second);
    }
  }

  // ── the handlers ───────────────────────────────────────────────────────────

  function When(c: Code): Code {
    If(c, Calm("go on"))
  }

  function TellAndReturn(ok: bool): Code {
    Seq(Tell(ok), Return)
  }

  /** The result depends on what came before. */
  function TellOutcome(): Code {
    If(Tell(true), Tell(false))
  }

  /** `async with`: waiting may be cancelled, leaving gives back what was taken. */
  function Holding(c: Code): Code {
    Seq(Do("wait"), Finally(c, Calm("give back")))
  }

  function DeleteVm(): Code {
    Seq(Do("guard"), Seq(Do("progress"), Seq(Do("tear down"), TellOutcome())))
  }

  function DeleteVms(): Code {
    Seq(Do("read the request"),
    Seq(Loop(Seq(Try(Do("guard one id"), Continue, false), Seq(When(Continue), Calm("add target")))),
    Seq(When(TellAndReturn(true)),
    Seq(Do("progress"),
    Seq(Loop(Do("progress of a refused id")),
    Seq(Do("gather the workers"), TellOutcome()))))))
  }

  function Quarantine(): Code {
    Seq(Do("guard and resolve the bus"),
    Seq(Holding(Seq(When(Do("quarantine the bus")), Seq(Do("progress"), Do("tear down")))), TellOutcome()))
  }

  function RecloneVm(): Code {
    Seq(Do("guard"), Seq(Holding(Do("reclone")), Seq(When(TellAndReturn(false)), Tell(true))))
  }

  function RecloneAll(): Code {
    Seq(Do("read the request"),
    Seq(When(TellAndReturn(false)),
    Seq(Try(Do("list the VMs"), TellAndReturn(false), true),
    Seq(Loop(Candidate()),
    Seq(When(TellAndReturn(true)),
    Seq(Do("start the batch"),
    Seq(Finally(Do("gather the workers"), Do("close the batch")), TellOutcome())))))))
  }

  function Candidate(): Code {
    Seq(When(Continue), Seq(When(Continue), Seq(Try(Do("guard"), Continue, false), Seq(When(Continue), Do("name it")))))
  }

  function CloneLxc(): Code {
    Seq(Do("guard and look for a template"),
    Seq(When(TellAndReturn(false)),
    Seq(When(TellAndReturn(false)),
    Seq(Do("read the settings and destroy"),
    Seq(When(TellAndReturn(false)),
    Seq(Do("clone, set and start"), Tell(true)))))))
  }

  function ProvisionUnassigned(): Code {
    Seq(Do("clear exclusions and quarantine"),
    Seq(Try(Do("one provisioning pass"), TellAndReturn(false), true), Tell(true)))
  }

  function Backup(): Code {
    Seq(Do("read the request"),
    Seq(When(TellAndReturn(false)), Seq(When(TellAndReturn(false)), Seq(Loop(BackupOne()), TellOutcome()))))
  }

  function BackupOne(): Code {
    Seq(Try(Do("guard"), GiveUp(), false),
    Seq(Do("dump directory and progress"),
    Seq(Try(Do("vzdump"), GiveUp(), false),
    Seq(Do("find the archive"),
    Seq(When(GiveUp()), Seq(Do("upload"), Seq(When(GiveUp()), Do("progress and clean up"))))))))
  }

  function GiveUp(): Code {
    Seq(Do("progress and clean up"), Continue)
  }

  function Reseed(): Code {
    Seq(Do("read the request"),
    Seq(When(TellAndReturn(false)),
    Seq(When(TellAndReturn(false)),
    Seq(Try(Do("create the lock file"), Calm("go on"), false), Finally(Restore(), Calm("remove the lock file"))))))
  }

  function Restore(): Code {
    Seq(Do("progress"),
    Seq(When(TellAndReturn(false)),
    Seq(Do("download"),
    Seq(When(Seq(Tell(false), Seq(Calm("clean up"), Return))),
    Seq(Do("restore over the VM"),
    Seq(When(Seq(Tell(false), Seq(Calm("clean up"), Return))),
    Seq(Do("make it a template"), Seq(When(TellAndReturn(false)), Tell(true)))))))))
  }

  function UpdateAgent(): Code {
    Seq(Do("progress"), Seq(Try(Do("update"), TellAndReturn(false), true), Tell(true)))
  }

  const BATCHES := {"proxmox_reclone_all", "delete_vms"}

  /** The handler of an action; an unknown action is reported as failed. */
  function Handler(action: string): Code {
    match action
    case "delete_vm" => DeleteVm()
    case "delete_vms" => DeleteVms()
    case "reclone_vm" => RecloneVm()
    case "proxmox_reclone_all" => RecloneAll()
    case "clone_lxc" => CloneLxc()
    case "provision_unassigned" => ProvisionUnassigned()
    case "backup" => Backup()
    case "reseed" => Reseed()
    case "update_agent" => UpdateAgent()
    case "quarantine_dongle_and_destroy" => Quarantine()
    case _ => Tell(false)
  }

  const ACTIONS := {"delete_vm", "delete_vms", "reclone_vm", "proxmox_reclone_all", "clone_lxc",
                    "provision_unassigned", "backup", "reseed", "update_agent", "quarantine_dongle_and_destroy"}

  /** The task of a long operation: a batch runs at once, anything else under the global permit. */
  function RunLongOp(action: string): Code {
    if action in ACTIONS then Guarded(UnderPermit(action), Tell(false), Tell(false)) else Tell(false)
  }

  function UnderPermit(action: string): Code {
    if action in BATCHES then Handler(action) else Holding(Handler(action))
  }

  // ── what they promise ──────────────────────────────────────────────────────

  lemma DeleteVmReports()
    ensures Reports(DeleteVm())
  {
  }

  lemma DeleteVmsReports()
    ensures Reports(DeleteVms())
  {
  }

  lemma RecloneVmReports()
    ensures Reports(RecloneVm())
  {
  }

  lemma RecloneAllReports()
    ensures Reports(RecloneAll())
  {
  }

  lemma CloneLxcReports()
    ensures Reports(CloneLxc())
  {
  }

  lemma ProvisionUnassignedReports()
    ensures Reports(ProvisionUnassigned())
  {
  }

  lemma BackupReports()
    ensures Reports(Backup())
  {
  }

  lemma ReseedReports()
    ensures Reports(Reseed())
  {
  }

  lemma UpdateAgentReports()
    ensures Reports(UpdateAgent())
  {
  }

  lemma QuarantineReports()
    ensures Reports(Quarantine())
  {
  }

  lemma HandlersReport(action: string)
    ensures Reports(Handler(action))
  {
    match action
    case "delete_vm" => DeleteVmReports();
    case "delete_vms" => DeleteVmsReports();
    case "reclone_vm" => RecloneVmReports();
    case "proxmox_reclone_all" => RecloneAllReports();
    case "clone_lxc" => CloneLxcReports();
    case "provision_unassigned" => ProvisionUnassignedReports();
    case "backup" => BackupReports();
    case "reseed" => ReseedReports();
    case "update_agent" => UpdateAgentReports();
    case "quarantine_dongle_and_destroy" => QuarantineReports();
    case _ =>
  }

  /** A handler that comes back has reported exactly one result; one that is left by an exception or a cancellation
      at most one. */
  lemma HandlerReportsOnce(action: string, r: Run)
    requires IsRun(Handler(action), r)
    ensures !EndOf(r).Continues? && |Tells(r)| <= 1 && (ComesBack(EndOf(r)) ==> |Tells(r)| == 1)
  {
    HandlersReport(action);
    ReportsRuns(Handler(action), r);
  }

  // ── what they can come to ──────────────────────────────────────────────────

  /** Can go through without reporting. */
  predicate CanPass(c: Code) {
    match c
    case Do(_) => true
    case Calm(_) => true
    case Seq(a, b) => CanPass(a) && CanPass(b)
    case If(a, b) => CanPass(a) || CanPass(b)
    case Loop(_) => true
    case Try(body, _, _) => CanPass(body)
    case Finally(body, last) => CanPass(body) && CanPass(last)
    case _ => false
  }

  /** Can come back from the handler without reporting. */
  predicate CanLeave(c: Code) {
    c.Return? || (c.Seq? && CanPass(c.first) && CanLeave(c.second))
  }

  /** Can report this outcome and come back from the handler at once. */
  predicate CanTellAndLeave(c: Code, ok: bool) {
    || (c.Seq? && CanTellAndLeave(c.first, ok))
    || (c.Seq? && CanPass(c.first) && CanTellAndLeave(c.second, ok))
    || (c.Seq? && c.first == Tell(ok) && CanLeave(c.second))
    || (c.If? && (CanTellAndLeave(c.yes, ok) || CanTellAndLeave(c.no, ok)))
    || (c.Try? && c.body.Do? && CanTellAndLeave(c.on, ok))
    || (c.Finally? && CanTellAndLeave(c.body, ok) && CanPass(c.last))
  }

  /** Can report this outcome and go through. */
  predicate CanTell(c: Code, ok: bool) {
    || c == Tell(ok)
    || (c.Seq? && CanPass(c.first) && CanTell(c.second, ok))
    || (c.If? && (CanTell(c.yes, ok) || CanTell(c.no, ok)))
    || (c.Finally? && CanTell(c.body, ok) && CanPass(c.last))
  }

  predicate CanReport(c: Code, ok: bool) {
    CanTell(c, ok) || CanTellAndLeave(c, ok)
  }

  lemma {:induction false} PassingRun(c: Code) returns (r: Run)
    requires CanPass(c)
    ensures IsRun(c, r) && EndOf(r) == Falls && Tells(r) == []
  {
    match c
    case Seq(a, b) =>
      var first := PassingRun(a);
      var second := PassingRun(b);
      r := Both(first, second);
    case If(a, b) =>
      var inner := PassingRun(if CanPass(a) then a else b);
      r := Took(CanPass(a), inner);
    case Try(body, _, _) =>
      var first := PassingRun(body);
      r := Only(first);
    case Finally(body, last) =>
      var first := PassingRun(body);
      var second := PassingRun(last);
      r := Last(first, second);
    case _ =>
      r := One([], Falls);
  }

  lemma {:induction false} LeavingRun(c: Code) returns (r: Run)
    requires CanLeave(c)
    ensures IsRun(c, r) && EndOf(r) == Returns && Tells(r) == []
  {
    r := One([], Returns);
    if c.Seq? {
      var first := PassingRun(c.first);
      var second := LeavingRun(c.second);
      r := Both(first, second);
    }
  }

  lemma {:induction false} TellingAndLeavingRun(c: Code, ok: bool) returns (r: Run)
    requires CanTellAndLeave(c, ok)
    ensures IsRun(c, r) && EndOf(r) == Returns && Tells(r) == [ok]
  {
    if c.Seq? && CanTellAndLeave(c.first, ok) {
      var first := TellingAndLeavingRun(c.first, ok);
      r := Only(first);
    } else if c.Seq? && CanPass(c.first) && CanTellAndLeave(c.second, ok) {
      var first := PassingRun(c.first);
      var second := TellingAndLeavingRun(c.second, ok);
      r := Both(first, second);
    } else if c.Seq? {
      assert IsRun(c.first, One([ok], Falls));
      var second := LeavingRun(c.second);
      r := Both(One([ok], Falls), second);
    } else if c.If? {
      var yes := CanTellAndLeave(c.yes, ok);
      var inner := TellingAndLeavingRun(if yes then c.yes else c.no, ok);
      r := Took(yes, inner);
    } else if c.Try? {
      assert IsRun(c.body, One([], Raises));
      var second := TellingAndLeavingRun(c.on, ok);
      r := Both(One([], Raises), second);
    } else {
      var first := TellingAndLeavingRun(c.body, ok);
      var second := PassingRun(c.last);
      r := Last(first, second);
    }
  }

  lemma {:induction false} TellingRun(c: Code, ok: bool) returns (r: Run)
    requires CanTell(c, ok)
    ensures IsRun(c, r) && EndOf(r) == Falls && Tells(r) == [ok]
  {
    if c.Seq? {
      var first := PassingRun(c.first);
      var second := TellingRun(c.second, ok);
      r := Both(first, second);
    } else if c.If? {
      var yes := CanTell(c.yes, ok);
      var inner := TellingRun(if yes then c.yes else c.no, ok);
      r := Took(yes, inner);
    } else if c.Finally? {
      var first := TellingRun(c.body, ok);
      var second := PassingRun(c.last);
      r := Last(first, second);
    } else {
      r := One([ok], Falls);
    }
  }

  lemma DeleteVmCanReport(ok: bool)
    ensures CanReport(DeleteVm(), ok)
  {
  }

  lemma PassThenTell(a: Code, b: Code, ok: bool)
    requires CanPass(a) && CanTell(b, ok)
    ensures CanTell(Seq(a, b), ok)
  {
  }

  lemma DeleteVmsCanReport(ok: bool)
    ensures CanReport(DeleteVms(), ok)
  {
    var c := DeleteVms();
    var loop, rest := c.second.first, c.second.second;
    var tail := rest.second.second;
    PassThenTell(tail.second.first, tail.second.second, ok);
    PassThenTell(tail.first, tail.second, ok);
    PassThenTell(rest.second.first, tail, ok);
    PassThenTell(rest.first, rest.second, ok);
    PassThenTell(loop, rest, ok);
    PassThenTell(c.first, c.second, ok);
  }

  lemma RecloneVmCanReport(ok: bool)
    ensures CanReport(RecloneVm(), ok)
  {
  }

  lemma RecloneAllCanReport(ok: bool)
    ensures CanReport(RecloneAll(), ok)
  {
  }

  lemma CloneLxcCanReport(ok: bool)
    ensures CanReport(CloneLxc(), ok)
  {
  }

  lemma ProvisionUnassignedCanReport(ok: bool)
    ensures CanReport(ProvisionUnassigned(), ok)
  {
  }

  lemma BackupCanReport(ok: bool)
    ensures CanReport(Backup(), ok)
  {
  }

  lemma RestoreCanReport(ok: bool)
    ensures CanTell(Restore(), true) && CanTellAndLeave(Restore(), false)
  {
  }

  lemma ReseedCanReport(ok: bool)
    ensures CanReport(Reseed(), ok)
  {
    RestoreCanReport(ok);
  }

  lemma UpdateAgentCanReport(ok: bool)
    ensures CanReport(UpdateAgent(), ok)
  {
  }

  lemma QuarantineCanReport(ok: bool)
    ensures CanReport(Quarantine(), ok)
  {
  }

  lemma AllCanReport(action: string, ok: bool)
    requires action in ACTIONS
    ensures CanReport(Handler(action), ok)
  {
    match action
    case "delete_vm" => DeleteVmCanReport(ok);
    case "delete_vms" => DeleteVmsCanReport(ok);
    case "reclone_vm" => RecloneVmCanReport(ok);
    case "proxmox_reclone_all" => RecloneAllCanReport(ok);
    case "clone_lxc" => CloneLxcCanReport(ok);
    case "provision_unassigned" => ProvisionUnassignedCanReport(ok);
    case "backup" => BackupCanReport(ok);
    case "reseed" => ReseedCanReport(ok);
    case "update_agent" => UpdateAgentCanReport(ok);
    case "quarantine_dongle_and_destroy" => QuarantineCanReport(ok);
    case _ =>
  }

  /** Every handler can come back having reported completed, and having reported failed. */
  lemma HandlerCanReport(action: string, ok: bool) returns (r: Run)
    requires action in ACTIONS
    ensures IsRun(Handler(action), r) && ComesBack(EndOf(r)) && Tells(r) == [ok]
  {
    AllCanReport(action, ok);
    if CanTell(Handler(action), ok) {
      r := TellingRun(Handler(action), ok);
    } else {
      r := TellingAndLeavingRun(Handler(action), ok);
    }
  }

  lemma UnderPermitReports(action: string)
    ensures Reports(UnderPermit(action))
  {
    HandlersReport(action);
    HoldingReports(Handler(action));
  }

  lemma HoldingReports(c: Code)
    requires Reports(c)
    ensures Reports(Holding(c))
  {
    assert Exits(Do("wait"));
    assert Reports(Finally(c, Calm("give back")));
  }

  /** However a task ends that took its first step, it has reported: once, or twice when its handler was left by an
      exception or a cancellation after it had reported; the second report then says failed. */
  lemma TaskReports(action: string, r: Run)
    requires IsRun(RunLongOp(action), r)
    ensures Tells(r) != [] && |Tells(r)| <= 2 && (|Tells(r)| == 2 ==> !Tells(r)[1])
    ensures action in ACTIONS ==>
      && (r.Only? || r.Both? || r.Again?)
      && (|Tells(r)| == 2 <==> !ComesBack(EndOf(r.first)) && Tells(r.first) != [])
      && Tells(r) == Tells(r.first) + (if ComesBack(EndOf(r.first)) then [] else [false])
      && (EndOf(r.first).Cancelled? && EndOf(r.second).Falls? ==> EndOf(r).Cancelled?)
    ensures action !in ACTIONS ==> Tells(r) == [false]
  {
    if action in ACTIONS {
      UnderPermitReports(action);
      GuardedReports(UnderPermit(action), r);
    }
  }

  /** The two batch operations run their handler at once; any other waits for the permit first, which a cancellation can
      end, and holds it to the handler's end. */
  lemma BatchesNeedNoPermit(action: string, r: Run)
    requires action in ACTIONS && IsRun(RunLongOp(action), r)
    ensures r.Only? || r.Both? || r.Again?
    ensures if action in {"proxmox_reclone_all", "delete_vms"} then IsRun(Handler(action), r.first)
            else r.first in {Only(One([], Raises)), Only(One([], Cancelled))}
                 || (r.first.Both? && r.first.second.Last? && IsRun(Handler(action), r.first.second.first))
  {
    GuardedRuns(UnderPermit(action), r);
    if action !in BATCHES {
      HoldingRuns(Handler(action), r.first);
    }
  }

  lemma GuardedRuns(c: Code, r: Run)
    requires IsRun(Guarded(c, Tell(false), Tell(false)), r)
    ensures (r.Only? || r.Both? || r.Again?) && IsRun(c, r.first)
  {
  }

  lemma HoldingRuns(c: Code, r: Run)
    requires IsRun(Holding(c), r)
    ensures r in {Only(One([], Raises)), Only(One([], Cancelled))}
            || (r.Both? && r.second.Last? && IsRun(c, r.second.first))
  {
    var wait, held := Do("wait"), Finally(c, Calm("give back"));
    assert IsRun(Seq(wait, held), r);
    if r.Both? {
      assert IsRun(held, r.second);
    } else {
      assert IsRun(wait, r.first);
    }
  }

  lemma GuardedReports(c: Code, r: Run)
    requires Reports(c) && IsRun(Guarded(c, Tell(false), Tell(false)), r)
    ensures Tells(r) != [] && |Tells(r)| <= 2 && (|Tells(r)| == 2 ==> !Tells(r)[1])
    ensures (r.Only? || r.Both? || r.Again?) && (|Tells(r)| == 2 <==> !ComesBack(EndOf(r.first)) && Tells(r.first) != [])
    ensures Tells(r) == Tells(r.first) + (if ComesBack(EndOf(r.first)) then [] else [false])
    ensures EndOf(r.first).Cancelled? && EndOf(r.second).Falls? ==> EndOf(r).Cancelled?
  {
    ReportsRuns(c, r.first);
    if r.Both? || r.Again? {
      assert IsRun(Tell(false), r.second) && r.second.One?;
      assert Tells(r.second) == [false] && Tells(r) == Tells(r.first) + Tells(r.second);
      OneMore(Tells(r.first), Tells(r));
    }
  }

  lemma OneMore(before: seq<bool>, all: seq<bool>)
    requires |before| <= 1 && all == before + [false]
    ensures all != [] && |all| <= 2 && (|all| == 2 <==> before != []) && (|all| == 2 ==> !all[1])
  {
  }

  /** A teardown that went through and was reported can be reported failed after it: the sending of the first result
      is interrupted. */
  lemma ReportedTwice() returns (r: Run)
    ensures IsRun(RunLongOp("delete_vm"), r) && Tells(r) == [true, false]
  {
    var steps := Both(One([], Falls), Both(One([], Falls), Both(One([], Falls), Took(true, One([true], Cancelled)))));
    InterruptedTell(steps);
    r := InterruptedTask(DeleteVm(), steps);
    assert "delete_vm" in ACTIONS && "delete_vm" !in BATCHES;
  }

  lemma InterruptedTask(c: Code, steps: Run) returns (r: Run)
    requires IsRun(c, steps) && EndOf(steps) == Cancelled
    ensures IsRun(Guarded(Holding(c), Tell(false), Tell(false)), r) && Tells(r) == Tells(steps) + [false]
  {
    var held := Last(steps, One([], Falls));
    assert IsRun(Finally(c, Calm("give back")), held);
    assert IsRun(Do("wait"), One([], Falls));
    assert IsRun(Holding(c), Both(One([], Falls), held));
    assert Tells(held) == Tells(steps) + [] == Tells(steps);
    r := Again(Both(One([], Falls), held), One([false], Falls));
    assert Tells(r.first) == [] + Tells(held) == Tells(steps);
  }

  lemma InterruptedTell(r: Run)
    requires r == Both(One([], Falls), Both(One([], Falls), Both(One([], Falls), Took(true, One([true], Cancelled)))))
    ensures IsRun(DeleteVm(), r) && EndOf(r) == Cancelled && Tells(r) == [true]
  {
    assert IsRun(TellOutcome(), r.second.second.second);
    assert IsRun(Seq(Do("tear down"), TellOutcome()), r.second.second);
    assert IsRun(Seq(Do("progress"), Seq(Do("tear down"), TellOutcome())), r.second);
  }
}
