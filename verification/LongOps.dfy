/** The long-op command protocol: a delivered command is accepted at once and runs as a background task;
    a redelivered one is recognised by its id (agent/src/cs_commands.py, `handle_cs_command`, and
    agent/src/cs_sim.py, `run_long_op` and `_terminal`). A stretch between two suspension points of the
    original is one event here. */
module LongOps {
  import opened Options
  import Handlers

  /** Seconds a command id is remembered, counted from the spawn of its task. */
  const TTL := 600.0

  datatype Reply =
    | Refused
    | Accepted(action: string, cmd: string)
    | Terminal(ok: bool, message: string, action: string, cmd: string)

  /** `Closing`: the handler was left by an exception and the failure is being sent. */
  datatype Phase = Created | Running | Closing | Done

  /** A background task. `started`, `returned` (the handler came back by itself) and `mark` (how many results had
      been emitted when it was spawned) are history: nothing reads them but the properties. */
  datatype Task = Task(cmd: string, action: string, spawned: real, phase: Phase, started: bool, returned: bool, mark: nat)

  datatype Entry = Entry(ts: real, accept: Reply, task: nat, terminal: Option<Reply>)

  /** A CS_COMMAND_RESULT sent up by a task. */
  datatype Emission = Emission(task: nat, reply: Reply)

  datatype System = System(clock: real, enabled: bool, seen: map<string, Entry>, tasks: seq<Task>,
                           results: seq<Emission>)

  predicate Live(t: Task) {
    t.phase != Done
  }

  // ── delivery ───────────────────────────────────────────────────────────────

  function Pruned(seen: map<string, Entry>, now: real): map<string, Entry> {
    map id | id in seen && !(now - seen[id].ts > TTL) :: seen[id]
  }

  /** The entry answers for the command: its task still runs, or a result was recorded. */
  predicate Answers(e: Entry, tasks: seq<Task>) {
    (e.task < |tasks| && Live(tasks[e.task])) || e.terminal.Some?
  }

  function AnswerOf(e: Entry, tasks: seq<Task>): Reply
    requires Answers(e, tasks)
  {
    if e.task < |tasks| && Live(tasks[e.task]) then e.accept else e.terminal.value
  }

  function Spawned(s: System, action: string, id: string): System {
    s.(tasks := s.tasks + [Task(id, action, s.clock, Created, false, false, |s.results|)],
       seen := Pruned(s.seen, s.clock)[id := Entry(s.clock, Accepted(action, id), |s.tasks|, None)])
  }

  /** A CS_COMMAND naming a long action arrives; `minted` is the id made up when the hub sent none. */
  function Deliver(s: System, action: string, cmd: string, minted: string): System {
    if !s.enabled then s
    else
      var id, seen := if cmd != "" then cmd else minted, Pruned(s.seen, s.clock);
      if id in seen && Answers(seen[id], s.tasks) then s.(seen := seen) else Spawned(s, action, id)
  }

  function ReplyTo(s: System, action: string, cmd: string, minted: string): Reply {
    if !s.enabled then Refused
    else
      var id, seen := if cmd != "" then cmd else minted, Pruned(s.seen, s.clock);
      if id in seen && Answers(seen[id], s.tasks) then AnswerOf(seen[id], s.tasks) else Accepted(action, id)
  }

  // ── a running operation's side ────────────────────────────────────────────────────────

  /** `_terminal`: the result is recorded on the id's entry, if there is one, and emitted. */
  function Recorded(s: System, t: nat, ok: bool, message: string): System
    requires t < |s.tasks|
  {
    var id := s.tasks[t].cmd;
    var reply := Terminal(ok, message, s.tasks[t].action, id);
    s.(results := s.results + [Emission(t, reply)],
       seen := if id in s.seen then s.seen[id := s.seen[id].(terminal := Some(reply))] else s.seen)
  }

  function InPhase(s: System, t: nat, phase: Phase): System
    requires t < |s.tasks|
  {
    s.(tasks := s.tasks[t := s.tasks[t].(phase := phase, started := s.tasks[t].started || phase == Running)])
  }

  function Returned(s: System, t: nat): System
    requires t < |s.tasks|
  {
    s.(tasks := s.tasks[t := s.tasks[t].(phase := Done, returned := true)])
  }

  /** `Report`: the handler records a result. `Return`: it comes back. `Fail`: it raises. `Cancel`: a cancellation
      reaches a task, which may not have taken its first step. */
  datatype Event =
    | Tick(dt: real)
    | Enable(on: bool)
    | Delivery(action: string, cmd: string, minted: string)
    | Begin(t: nat)
    | Report(t: nat, ok: bool, message: string)
    | Return(t: nat)
    | Fail(t: nat, message: string)
    | Cancel(t: nat)
    | Finish(t: nat)

  predicate HasReported(s: System, t: nat) {
    exists k :: 0 <= k < |s.results| && s.results[k].task == t
  }

  predicate Can(s: System, e: Event) {
    match e
    case Tick(dt) => dt >= 0.0
    case Enable(_) => true
    case Delivery(_, cmd, minted) => cmd != "" || minted != ""
    case Begin(t) => t < |s.tasks| && s.tasks[t].phase == Created
    case Report(t, _, _) => t < |s.tasks| && s.tasks[t].phase == Running
    case Return(t) => t < |s.tasks| && s.tasks[t].phase == Running
    case Fail(t, _) => t < |s.tasks| && s.tasks[t].phase == Running
    case Cancel(t) => t < |s.tasks| && s.tasks[t].phase != Done
    case Finish(t) => t < |s.tasks| && s.tasks[t].phase == Closing
  }

  function Next(s: System, e: Event): System
    requires Can(s, e)
  {
    match e
    case Tick(dt) => s.(clock := s.clock + dt)
    case Enable(on) => s.(enabled := on)
    case Delivery(action, cmd, minted) => Deliver(s, action, cmd, minted)
    case Begin(t) => InPhase(s, t, Running)
    case Report(t, ok, message) => Recorded(s, t, ok, message)
    case Return(t) => Returned(s, t)
    case Fail(t, message) => InPhase(Recorded(s, t, false, message), t, Closing)
    case Cancel(t) =>
      if s.tasks[t].phase == Running then InPhase(Recorded(s, t, false, s.tasks[t].action + " cancelled"), t, Closing)
      else InPhase(s, t, Done)
    case Finish(t) => InPhase(s, t, Done)
  }

  /** The system after a run; events that cannot happen are passed over. */
  function After(s: System, events: seq<Event>): System
    decreases |events|
  {
    if events == [] then s
    else After(if Can(s, events[0]) then Next(s, events[0]) else s, events[1..])
  }

  function Initial(clock: real, enabled: bool): System {
    System(clock, enabled, map[], [], [])
  }

  /** The agent's own state, updated in place. */
  class LongOpAgent {
    var clock: real
    var enabled: bool
    var seen: map<string, Entry>
    var tasks: seq<Task>
    var results: seq<Emission>

    function Snapshot(): System
      reads this
    {
      System(clock, enabled, seen, tasks, results)
    }

    constructor (now: real, on: bool)
      ensures Snapshot() == Initial(now, on)
    {
      clock, enabled, seen, tasks, results := now, on, map[], [], [];
    }

    /** Expired ids are forgotten, one by one. */
    method PruneSeen()
      modifies `seen
      ensures seen == Pruned(old(seen), clock)
    {
      var stale := set k | k in seen && clock - seen[k].ts > TTL;
      ghost var before := seen;
      while stale != {}
        invariant seen.Keys == (set k | k in before && !(clock - before[k].ts > TTL)) + stale
        invariant forall k | k in seen :: k in before && seen[k] == before[k]
        invariant forall k | k in stale :: k in before && clock - before[k].ts > TTL
        decreases stale
      {
        var k :| k in stale;
        seen := seen - {k};
        stale := stale - {k};
      }
      assert seen == Pruned(before, clock);
    }

    method HandleLongOp(action: string, cmd: string, minted: string) returns (reply: Reply)
      modifies this
      ensures Snapshot() == Deliver(old(Snapshot()), action, cmd, minted)
      ensures reply == ReplyTo(old(Snapshot()), action, cmd, minted)
    {
      if !enabled {
        return Refused;
      }
      var id := if cmd != "" then cmd else minted;
      PruneSeen();
      if id in seen {
        var prior := seen[id];
        if prior.task < |tasks| && Live(tasks[prior.task]) {
          return prior.accept;
        }
        if prior.terminal.Some? {
          return prior.terminal.value;
        }
      }
      reply := Accepted(action, id);
      tasks := tasks + [Task(id, action, clock, Created, false, false, |results|)];
      seen := seen[id := Entry(clock, reply, |tasks| - 1, None)];
    }

    method SendTerminal(t: nat, ok: bool, message: string)
      requires t < |tasks|
      modifies this
      ensures Snapshot() == Recorded(old(Snapshot()), t, ok, message)
      ensures results == old(results) + [Emission(t, Terminal(ok, message, tasks[t].action, tasks[t].cmd))]
      ensures tasks[t].cmd in seen ==> seen[tasks[t].cmd].terminal == Some(results[|results| - 1].reply)
    {
      var id := tasks[t].cmd;
      var reply := Terminal(ok, message, tasks[t].action, id);
      if id in seen {
        seen := seen[id := seen[id].(terminal := Some(reply))];
      }
      results := results + [Emission(t, reply)];
    }
  }

  // ── the protocol's history, read off the tasks and results ─────────────────

  /** Task `l` is the latest one spawned for the id. */
  predicate IsLatest(s: System, id: string, l: nat) {
    l < |s.tasks| && s.tasks[l].cmd == id && forall j | l < j < |s.tasks| :: s.tasks[j].cmd != id
  }

  /** The last result emitted for the id at or after position `mark`. */
  function LastResult(results: seq<Emission>, id: string, mark: nat): Option<Reply> {
    if |results| <= mark then None
    else
      var last := results[|results| - 1];
      if last.reply.Terminal? && last.reply.cmd == id then Some(last.reply)
      else LastResult(results[..|results| - 1], id, mark)
  }

  // ── invariant ──────────────────────────────────────────────────────────────

  predicate TimesOrdered(s: System) {
    && (forall i | 0 <= i < |s.tasks| :: s.tasks[i].spawned <= s.clock && s.tasks[i].mark <= |s.results|)
    && (forall i, j | 0 <= i < j < |s.tasks| :: s.tasks[i].spawned <= s.tasks[j].spawned)
  }

  /** An entry is what the history says about the latest task of its id. */
  predicate EntryTrue(s: System, id: string) {
    id in s.seen ==>
      var e := s.seen[id];
      && IsLatest(s, id, e.task)
      && e.ts == s.tasks[e.task].spawned
      && e.accept == Accepted(s.tasks[e.task].action, id)
      && e.terminal == LastResult(s.results, id, s.tasks[e.task].mark)
  }

  /** The latest task of an id has an entry until its time is over. */
  predicate Remembered(s: System, l: nat) {
    l < |s.tasks| && IsLatest(s, s.tasks[l].cmd, l) ==>
      || (s.tasks[l].cmd in s.seen && s.seen[s.tasks[l].cmd].task == l)
      || s.clock - s.tasks[l].spawned > TTL
  }

  /** Two tasks of one id can only be live together when spawned more than the TTL apart. */
  predicate ApartWhileLive(s: System) {
    forall i, j | 0 <= i < j < |s.tasks| && s.tasks[i].cmd == s.tasks[j].cmd && Live(s.tasks[i]) ::
      s.tasks[j].spawned - s.tasks[i].spawned > TTL
  }

  /** What each phase says about the results a task has emitted. */
  predicate ReportsTrue(s: System) {
    && (forall k | 0 <= k < |s.results| :: s.results[k].task < |s.tasks| && s.results[k].reply.Terminal?
          && s.results[k].reply.cmd == s.tasks[s.results[k].task].cmd && s.tasks[s.results[k].task].mark <= k)
    && (forall t | 0 <= t < |s.tasks| ::
          && (s.tasks[t].phase == Created ==> !s.tasks[t].started)
          && (s.tasks[t].phase in {Running, Closing} ==> s.tasks[t].started)
          && (!s.tasks[t].started ==> !HasReported(s, t))
          && (s.tasks[t].phase == Closing ==> HasReported(s, t))
          && (s.tasks[t].phase == Done && s.tasks[t].started && !s.tasks[t].returned ==> HasReported(s, t)))
  }

  ghost predicate Inv(s: System) {
    && TimesOrdered(s) && ApartWhileLive(s) && ReportsTrue(s)
    && (forall id :: EntryTrue(s, id))
    && (forall l: nat :: Remembered(s, l))
  }

  lemma LastResultAppend(results: seq<Emission>, e: Emission, id: string, mark: nat)
    requires mark <= |results| && e.reply.Terminal?
    ensures LastResult(results + [e], id, mark) == if e.reply.cmd == id then Some(e.reply) else LastResult(results, id, mark)
  {
    assert (results + [e])[..|results|] == results;
  }

  lemma ReportedAfter(s: System, t: nat, ok: bool, message: string)
    requires t < |s.tasks|
    ensures forall u: nat :: HasReported(Recorded(s, t, ok, message), u) <==> u == t || HasReported(s, u)
  {
    var s' := Recorded(s, t, ok, message);
    assert forall k | 0 <= k < |s.results| :: s'.results[k] == s.results[k];
    assert s'.results[|s.results|].task == t;
  }

  lemma RecordKeepsInv(s: System, t: nat, ok: bool, message: string)
    requires Inv(s) && t < |s.tasks| && s.tasks[t].phase == Running
    ensures Inv(Recorded(s, t, ok, message)) && HasReported(Recorded(s, t, ok, message), t)
  {
    var s' := Recorded(s, t, ok, message);
    var e := s'.results[|s.results|];
    ReportedAfter(s, t, ok, message);
    forall id ensures EntryTrue(s', id) {
      assert EntryTrue(s, id);
      if id in s.seen {
        LastResultAppend(s.results, e, id, s.tasks[s.seen[id].task].mark);
      }
    }
    forall l: nat ensures Remembered(s', l) {
      assert Remembered(s, l);
    }
    assert ReportsTrue(s');
  }

  lemma PhaseKeepsInv(s: System, t: nat, phase: Phase)
    requires Inv(s) && t < |s.tasks|
    requires match s.tasks[t].phase
             case Created => phase in {Running, Done}
             case Running => phase == Closing && HasReported(s, t)
             case Closing => phase == Done
             case Done => false
    ensures Inv(InPhase(s, t, phase))
  {
    var s' := InPhase(s, t, phase);
    SameCommands(s, s');
    forall id ensures EntryTrue(s', id) {
      assert EntryTrue(s, id);
    }
    forall l: nat ensures Remembered(s', l) {
      assert Remembered(s, l);
    }
    assert forall u: nat :: HasReported(s', u) <==> HasReported(s, u);
  }

  lemma ReturnKeepsInv(s: System, t: nat)
    requires Inv(s) && t < |s.tasks| && s.tasks[t].phase == Running
    ensures Inv(Returned(s, t))
  {
    var s' := Returned(s, t);
    SameCommands(s, s');
    forall id ensures EntryTrue(s', id) {
      assert EntryTrue(s, id);
    }
    forall l: nat ensures Remembered(s', l) {
      assert Remembered(s, l);
    }
    assert forall u: nat :: HasReported(s', u) <==> HasReported(s, u);
  }

  lemma PruneKeepsInv(s: System)
    requires Inv(s)
    ensures Inv(s.(seen := Pruned(s.seen, s.clock)))
  {
    var s' := s.(seen := Pruned(s.seen, s.clock));
    forall id ensures EntryTrue(s', id) {
      assert EntryTrue(s, id);
    }
    forall l: nat ensures Remembered(s', l) {
      assert Remembered(s, l);
      if l < |s.tasks| {
        assert EntryTrue(s, s.tasks[l].cmd);
      }
    }
    assert forall u: nat :: HasReported(s', u) <==> HasReported(s, u);
  }

  lemma SameCommands(s: System, s': System)
    requires |s.tasks| == |s'.tasks| && forall j | 0 <= j < |s.tasks| :: s.tasks[j].cmd == s'.tasks[j].cmd
    ensures forall id, l: nat :: IsLatest(s', id, l) <==> IsLatest(s, id, l)
  {
    forall id, l: nat ensures IsLatest(s', id, l) <==> IsLatest(s, id, l) {
    }
  }

  lemma SpawnedLatest(s: System, action: string, id: string, k: string, l: nat)
    ensures IsLatest(Spawned(s, action, id), k, l) <==> if k == id then l == |s.tasks| else IsLatest(s, k, l)
  {
    var s', n := Spawned(s, action, id), |s.tasks|;
    assert s'.tasks[n].cmd == id && forall j | 0 <= j < n :: s'.tasks[j] == s.tasks[j];
  }

  lemma SpawnKeepsEntries(s: System, action: string, id: string)
    requires Inv(s)
    ensures var s' := Spawned(s, action, id);
            (forall k :: EntryTrue(s', k)) && (forall l: nat :: Remembered(s', l))
  {
    PruneKeepsInv(s);
    var p := s.(seen := Pruned(s.seen, s.clock));
    var s' := Spawned(s, action, id);
    forall k ensures EntryTrue(s', k) {
      assert EntryTrue(p, k);
      if k in s'.seen {
        SpawnedLatest(s, action, id, k, s'.seen[k].task);
      }
    }
    forall l: nat ensures Remembered(s', l) {
      if l < |s'.tasks| {
        SpawnedLatest(s, action, id, s'.tasks[l].cmd, l);
        assert Remembered(p, l);
      }
    }
  }

  lemma SpawnKeepsReports(s: System, action: string, id: string)
    requires TimesOrdered(s) && ReportsTrue(s)
    ensures TimesOrdered(Spawned(s, action, id)) && ReportsTrue(Spawned(s, action, id))
  {
    var s', n := Spawned(s, action, id), |s.tasks|;
    forall u: nat ensures HasReported(s', u) <==> HasReported(s, u) {
    }
    assert !HasReported(s, n);
    assert s'.tasks[n] == Task(id, action, s.clock, Created, false, false, |s.results|);
    assert forall t | 0 <= t < n :: s'.tasks[t] == s.tasks[t];
  }

  lemma SpawnKeepsInv(s: System, action: string, id: string)
    requires Inv(s)
    requires var seen := Pruned(s.seen, s.clock); !(id in seen && Answers(seen[id], s.tasks))
    ensures Inv(Spawned(s, action, id))
  {
    PruneKeepsInv(s);
    SpawnKeepsEntries(s, action, id);
    SpawnKeepsReports(s, action, id);
    var p := s.(seen := Pruned(s.seen, s.clock));
    forall i | 0 <= i < |s.tasks| && s.tasks[i].cmd == id && Live(s.tasks[i]) ensures s.clock - s.tasks[i].spawned > TTL {
      LiveMeansExpired(p, id, i);
    }
    SpawnKeepsApart(s, action, id);
  }

  lemma SpawnKeepsApart(s: System, action: string, id: string)
    requires ApartWhileLive(s)
    requires forall i | 0 <= i < |s.tasks| && s.tasks[i].cmd == id && Live(s.tasks[i]) :: s.clock - s.tasks[i].spawned > TTL
    ensures ApartWhileLive(Spawned(s, action, id))
  {
  }

  lemma LatestOf(s: System, i: nat) returns (l: nat)
    requires i < |s.tasks|
    ensures i <= l && IsLatest(s, s.tasks[i].cmd, l)
    decreases |s.tasks| - i
  {
    if exists j :: i < j < |s.tasks| && s.tasks[j].cmd == s.tasks[i].cmd {
      var j :| i < j < |s.tasks| && s.tasks[j].cmd == s.tasks[i].cmd;
      l := LatestOf(s, j);
    } else {
      l := i;
    }
  }

  /** When nothing answers for an id, every task of it that still runs is past its time. */
  lemma LiveMeansExpired(s: System, id: string, i: nat)
    requires Inv(s) && i < |s.tasks| && s.tasks[i].cmd == id && Live(s.tasks[i])
    requires !(id in s.seen && Answers(s.seen[id], s.tasks))
    ensures s.clock - s.tasks[i].spawned > TTL
  {
    var l := LatestOf(s, i);
    assert Remembered(s, l) && EntryTrue(s, id);
  }

  lemma NextKeepsInv(s: System, e: Event)
    requires Inv(s) && Can(s, e)
    ensures Inv(Next(s, e))
  {
    match e
    case Tick(dt) => ClockKeepsInv(s, dt);
    case Enable(on) => EnableKeepsInv(s, on);
    case Delivery(action, cmd, minted) =>
      var id := if cmd != "" then cmd else minted;
      if s.enabled {
        PruneKeepsInv(s);
        if !(id in Pruned(s.seen, s.clock) && Answers(Pruned(s.seen, s.clock)[id], s.tasks)) {
          SpawnKeepsInv(s, action, id);
        }
      }
    case Begin(t) => PhaseKeepsInv(s, t, Running);
    case Report(t, ok, message) => RecordKeepsInv(s, t, ok, message);
    case Return(t) => ReturnKeepsInv(s, t);
    case Fail(t, message) =>
      RecordKeepsInv(s, t, false, message);
      PhaseKeepsInv(Recorded(s, t, false, message), t, Closing);
    case Cancel(t) =>
      if s.tasks[t].phase == Running {
        RecordKeepsInv(s, t, false, s.tasks[t].action + " cancelled");
        PhaseKeepsInv(Recorded(s, t, false, s.tasks[t].action + " cancelled"), t, Closing);
      } else {
        PhaseKeepsInv(s, t, Done);
      }
    case Finish(t) => PhaseKeepsInv(s, t, Done);
  }

  lemma ClockKeepsInv(s: System, dt: real)
    requires Inv(s) && dt >= 0.0
    ensures Inv(s.(clock := s.clock + dt))
  {
    var s' := s.(clock := s.clock + dt);
    forall id ensures EntryTrue(s', id) {
      assert EntryTrue(s, id);
    }
    forall l: nat ensures Remembered(s', l) {
      assert Remembered(s, l);
    }
    assert forall u: nat :: HasReported(s', u) <==> HasReported(s, u);
  }

  lemma EnableKeepsInv(s: System, on: bool)
    requires Inv(s)
    ensures Inv(s.(enabled := on))
  {
    var s' := s.(enabled := on);
    forall id ensures EntryTrue(s', id) {
      assert EntryTrue(s, id);
    }
    forall l: nat ensures Remembered(s', l) {
      assert Remembered(s, l);
    }
    assert forall u: nat :: HasReported(s', u) <==> HasReported(s, u);
  }

  lemma {:induction false} AfterKeepsInv(s: System, events: seq<Event>)
    requires Inv(s)
    ensures Inv(After(s, events))
    decreases |events|
  {
    if events != [] {
      if Can(s, events[0]) {
        NextKeepsInv(s, events[0]);
      }
      AfterKeepsInv(if Can(s, events[0]) then Next(s, events[0]) else s, events[1..]);
    }
  }

  // ── the protocol over all runs ─────────────────────────────────────────────

  /** Whatever is delivered, run, cancelled and delayed: two tasks of one command id that are live at the
      same time were spawned more than the TTL apart. */
  lemma LiveTasksAreApart(clock: real, enabled: bool, events: seq<Event>, i: nat, j: nat)
    requires var s := After(Initial(clock, enabled), events);
             i < j < |s.tasks| && s.tasks[i].cmd == s.tasks[j].cmd && Live(s.tasks[i]) && Live(s.tasks[j])
    ensures var s := After(Initial(clock, enabled), events); s.tasks[j].spawned - s.tasks[i].spawned > TTL
  {
    AfterKeepsInv(Initial(clock, enabled), events);
  }

  /** The command runs again: no task of the id was ever spawned, the latest one's time is over, or it is
      done and no task of the id has emitted a result since it was spawned. */
  ghost predicate MustSpawn(s: System, id: string) {
    forall l: nat | IsLatest(s, id, l) ::
      || s.clock - s.tasks[l].spawned > TTL
      || (!Live(s.tasks[l]) && LastResult(s.results, id, s.tasks[l].mark).None?)
  }

  /** The answer the history gives for the id whose latest task is `l`. */
  function HistoryReply(s: System, id: string, l: nat): Option<Reply>
    requires l < |s.tasks|
  {
    if Live(s.tasks[l]) then Some(Accepted(s.tasks[l].action, id)) else LastResult(s.results, id, s.tasks[l].mark)
  }

  /** A delivery in any reachable state, told by the history alone: it spawns exactly when `MustSpawn`
      says so; otherwise it changes no task, and answers ACCEPTED while the latest task runs and the last
      result emitted for the id after that. */
  lemma DeliveryIsDecidedByHistory(clock: real, enabled: bool, events: seq<Event>, action: string, cmd: string)
    requires cmd != "" && After(Initial(clock, enabled), events).enabled
    ensures var s := After(Initial(clock, enabled), events);
            var s', reply := Deliver(s, action, cmd, ""), ReplyTo(s, action, cmd, "");
            && (|s'.tasks| == |s.tasks| + 1 <==> MustSpawn(s, cmd))
            && (MustSpawn(s, cmd) ==> reply == Accepted(action, cmd))
            && (!MustSpawn(s, cmd) ==> s'.tasks == s.tasks
                                       && exists l: nat :: IsLatest(s, cmd, l) && Some(reply) == HistoryReply(s, cmd, l))
  {
    var s := After(Initial(clock, enabled), events);
    AfterKeepsInv(Initial(clock, enabled), events);
    EntryDecides(s, cmd);
  }

  lemma EntryDecides(s: System, id: string)
    requires Inv(s)
    ensures var seen := Pruned(s.seen, s.clock);
            && (id in seen && Answers(seen[id], s.tasks) <==> !MustSpawn(s, id))
            && (!MustSpawn(s, id) ==>
                  && IsLatest(s, id, seen[id].task)
                  && Some(AnswerOf(seen[id], s.tasks)) == HistoryReply(s, id, seen[id].task))
  {
    assert EntryTrue(s, id);
    if !MustSpawn(s, id) {
      var l: nat :| IsLatest(s, id, l) && !(s.clock - s.tasks[l].spawned > TTL)
               && (Live(s.tasks[l]) || LastResult(s.results, id, s.tasks[l].mark).Some?);
      assert Remembered(s, l);
      assert s.seen[id].task == l;
    } else if id in Pruned(s.seen, s.clock) {
      assert IsLatest(s, id, s.seen[id].task);
    }
  }

  /** The task ended without telling anyone: cancelled before its first step, or its handler came back without a
      result. */
  predicate EndedSilently(s: System, t: nat)
    requires t < |s.tasks|
  {
    s.tasks[t].phase == Done && (!s.tasks[t].started || (s.tasks[t].returned && !HasReported(s, t)))
  }

  /** Some other task of the same command, still at work from an earlier spawn, has emitted a result since. */
  predicate OtherReported(s: System, t: nat)
    requires t < |s.tasks|
  {
    exists k :: s.tasks[t].mark <= k < |s.results| && s.results[k].task != t && s.results[k].reply.Terminal?
                && s.results[k].reply.cmd == s.tasks[t].cmd
  }

  /** A task that is over, took its first step and did not come back by itself (an exception, a guard's refusal, a
      cancellation) has emitted a result; one that never started has not. */
  lemma EveryOtherEndReports(clock: real, enabled: bool, events: seq<Event>, t: nat)
    requires var s := After(Initial(clock, enabled), events); t < |s.tasks| && s.tasks[t].phase == Done
    ensures var s := After(Initial(clock, enabled), events);
            && (s.tasks[t].started && !s.tasks[t].returned ==> HasReported(s, t))
            && (!s.tasks[t].started ==> !HasReported(s, t))
            && (EndedSilently(s, t) <==> !HasReported(s, t))
  {
    AfterKeepsInv(Initial(clock, enabled), events);
  }

  /** Within the TTL a command runs again if and only if its latest task ended silently and no earlier task of it
      has reported since. */
  lemma RerunIffEndedSilently(clock: real, enabled: bool, events: seq<Event>, t: nat)
    requires var s := After(Initial(clock, enabled), events);
             t < |s.tasks| && IsLatest(s, s.tasks[t].cmd, t) && s.clock - s.tasks[t].spawned <= TTL
    ensures var s := After(Initial(clock, enabled), events);
            MustSpawn(s, s.tasks[t].cmd) <==> EndedSilently(s, t) && !OtherReported(s, t)
  {
    var s := After(Initial(clock, enabled), events);
    var id, mark := s.tasks[t].cmd, s.tasks[t].mark;
    AfterKeepsInv(Initial(clock, enabled), events);
    assert MustSpawn(s, id) <==> !Live(s.tasks[t]) && LastResult(s.results, id, mark).None?;
    if LastResult(s.results, id, mark).Some? {
      var k := SomeResult(s.results, id, mark);
      assert s.results[k].task == t ==> HasReported(s, t);
    }
    if k :| 0 <= k < |s.results| && s.results[k].task == t {
      LastResultSees(s.results, id, mark, k);
    }
    if k :| mark <= k < |s.results| && s.results[k].reply.Terminal? && s.results[k].reply.cmd == id {
      LastResultSees(s.results, id, mark, k);
    }
  }

  // ── what is reported, told by the events alone ─────────────────────────────

  function IdOf(cmd: string, minted: string): string {
    if cmd != "" then cmd else minted
  }

  /** The result an event reports, and for which task. */
  function ReportedBy(s: System, e: Event): Option<Emission>
    requires Can(s, e)
  {
    match e
    case Report(t, ok, message) => Some(Emission(t, Terminal(ok, message, s.tasks[t].action, s.tasks[t].cmd)))
    case Fail(t, message) => Some(Emission(t, Terminal(false, message, s.tasks[t].action, s.tasks[t].cmd)))
    case Cancel(t) =>
      if s.tasks[t].phase != Running then None
      else Some(Emission(t, Terminal(false, s.tasks[t].action + " cancelled", s.tasks[t].action, s.tasks[t].cmd)))
    case _ => None
  }

  /** The event starts a task, with the id and the action of the delivery. */
  predicate Spawns(s: System, e: Event)
    requires Can(s, e)
  {
    |Next(s, e).tasks| > |s.tasks|
  }

  /** What one event sends up, and what it makes of the tasks: a report says what the handler, the exception or the
      cancellation said, of the task's own action and id; only a delivery starts a task, one, with its own action
      and id; and the id and action of a task never change. */
  lemma EventIsReported(s: System, e: Event)
    requires Can(s, e)
    ensures var s', told := Next(s, e), ReportedBy(s, e);
            && s'.results == s.results + (if told.Some? then [told.value] else [])
            && |s.tasks| <= |s'.tasks| <= |s.tasks| + 1
            && (forall t | 0 <= t < |s.tasks| ::
                  s'.tasks[t].cmd == s.tasks[t].cmd && s'.tasks[t].action == s.tasks[t].action
                  && s'.tasks[t].spawned == s.tasks[t].spawned && s'.tasks[t].mark == s.tasks[t].mark)
            && (Spawns(s, e) ==>
                  && e.Delivery? && s.enabled
                  && s'.tasks[|s.tasks|] == Task(IdOf(e.cmd, e.minted), e.action, s.clock, Created, false, false,
                                                 |s.results|))
  {
  }

  /** How far a task has come after one more event, which may be one that cannot happen yet or any more: it starts
      once; while it runs it can come back, which ends it, or be left by an exception or a cancellation, which it
      reports before it ends; a cancellation ends it at once before its start or while it reports. */
  lemma OneEvent(s: System, e: Event, u: nat)
    requires u < |s.tasks|
    ensures var s', was := After(s, [e]), s.tasks[u].phase;
            && u < |s'.tasks|
            && s'.tasks[u].phase ==
               (match e
                case Begin(t) => if t == u && was.Created? then Running else was
                case Return(t) => if t == u && was.Running? then Done else was
                case Fail(t, _) => if t == u && was.Running? then Closing else was
                case Finish(t) => if t == u && was.Closing? then Done else was
                case Cancel(t) => if t == u && was.Running? then Closing else if t == u then Done else was
                case _ => was)
            && s'.clock == (if e.Tick? && e.dt >= 0.0 then s.clock + e.dt else s.clock)
            && s'.enabled == (if e.Enable? then e.on else s.enabled)
            && (e.Delivery? && IdOf(e.cmd, e.minted) != "" ==> s' == Deliver(s, e.action, e.cmd, e.minted))
  {
    assert [e][1..] == [];
  }

  /** A delivery leaves no entry in the table that is past its time: the table does not grow for ever. */
  lemma DeliveryPrunes(s: System, action: string, cmd: string, minted: string, id: string)
    requires s.enabled && id in Deliver(s, action, cmd, minted).seen
    ensures s.clock - Deliver(s, action, cmd, minted).seen[id].ts <= TTL
  {
  }

  /** The last result reported for the id since its latest task was started, told by the events: which of them ended
      or reported a task of the id, and what they said. */
  function LastOutcome(s: System, events: seq<Event>, id: string): Option<Reply>
    decreases |events|
  {
    if events == [] then None
    else
      var front, e := events[..|events| - 1], events[|events| - 1];
      var f := After(s, front);
      if !Can(f, e) then LastOutcome(s, front, id)
      else if Spawns(f, e) && e.Delivery? && IdOf(e.cmd, e.minted) == id then None
      else
        var told := ReportedBy(f, e);
        if told.Some? && f.tasks[e.t].cmd == id then Some(told.value.reply) else LastOutcome(s, front, id)
  }

  lemma {:induction false} AfterLast(s: System, events: seq<Event>, e: Event)
    ensures var f := After(s, events); After(s, events + [e]) == if Can(f, e) then Next(f, e) else f
    decreases |events|
  {
    if events == [] {
      assert [] + [e] == [e] && [e][1..] == [];
    } else {
      assert (events + [e])[1..] == events[1..] + [e];
      AfterLast(if Can(s, events[0]) then Next(s, events[0]) else s, events[1..], e);
    }
  }

  lemma NothingLater(results: seq<Emission>, id: string, mark: nat)
    requires |results| <= mark
    ensures LastResult(results, id, mark) == None
  {
  }

  lemma OutcomeStep(s: System, e: Event, id: string, l: nat)
    requires Inv(s) && Can(s, e) && IsLatest(Next(s, e), id, l)
    ensures var s', told := Next(s, e), ReportedBy(s, e);
            LastResult(s'.results, id, s'.tasks[l].mark) ==
              if Spawns(s, e) && e.Delivery? && IdOf(e.cmd, e.minted) == id then None
              else if told.Some? && s.tasks[e.t].cmd == id then Some(told.value.reply)
              else LastResult(s.results, id, s'.tasks[l].mark)
    ensures !(Spawns(s, e) && e.Delivery? && IdOf(e.cmd, e.minted) == id) ==> IsLatest(s, id, l)
  {
    var s', told := Next(s, e), ReportedBy(s, e);
    EventIsReported(s, e);
    if told.Some? {
      LastResultAppend(s.results, told.value, id, s'.tasks[l].mark);
    } else {
      assert s'.results == s.results;
    }
  }

  /** The results on record are those the events have told. */
  lemma {:induction false} ResultsAreOutcomes(clock: real, enabled: bool, events: seq<Event>, id: string, l: nat)
    requires IsLatest(After(Initial(clock, enabled), events), id, l)
    ensures var s := After(Initial(clock, enabled), events);
            LastResult(s.results, id, s.tasks[l].mark) == LastOutcome(Initial(clock, enabled), events, id)
    decreases |events|
  {
    var start := Initial(clock, enabled);
    if events != [] {
      var front, e := events[..|events| - 1], events[|events| - 1];
      assert events == front + [e];
      AfterLast(start, front, e);
      AfterKeepsInv(start, front);
      var f := After(start, front);
      if Can(f, e) {
        OutcomeStep(f, e, id, l);
        EventIsReported(f, e);
        if IsLatest(f, id, l) {
          ResultsAreOutcomes(clock, enabled, front, id, l);
        }
      } else {
        ResultsAreOutcomes(clock, enabled, front, id, l);
      }
    }
  }

  /** What a delivery is answered in every reachable state, by the events alone. Simulation off: refused. Within the
      TTL of the id's latest task: ACCEPTED with that task's action while it runs; once it is over, the outcome and
      message that the last event to report on the id since gave, completed or failed. Otherwise a new task is
      accepted. */
  lemma DeliveryIsAnswered(clock: real, enabled: bool, events: seq<Event>, action: string, cmd: string,
                           minted: string, t: nat)
    requires cmd != "" || minted != ""
    requires IsLatest(After(Initial(clock, enabled), events), IdOf(cmd, minted), t)
    ensures var s, id := After(Initial(clock, enabled), events), IdOf(cmd, minted);
            var told := LastOutcome(Initial(clock, enabled), events, id);
            ReplyTo(s, action, cmd, minted) ==
              if !s.enabled then Refused
              else if s.clock - s.tasks[t].spawned > 600.0 then Accepted(action, id)
              else if s.tasks[t].phase != Done then Accepted(s.tasks[t].action, id)
              else if told.Some? then told.value else Accepted(action, id)
  {
    var s, id := After(Initial(clock, enabled), events), IdOf(cmd, minted);
    AfterKeepsInv(Initial(clock, enabled), events);
    ResultsAreOutcomes(clock, enabled, events, id, t);
    EntryDecides(s, id);
    assert EntryTrue(s, id) && Remembered(s, t);
  }

  /** A delivery changes nothing while simulation is off, and an id that never had a task is accepted. */
  lemma FirstDelivery(clock: real, enabled: bool, events: seq<Event>, action: string, cmd: string, minted: string)
    requires cmd != "" || minted != ""
    ensures var s, id := After(Initial(clock, enabled), events), IdOf(cmd, minted);
            && (!s.enabled ==> Deliver(s, action, cmd, minted) == s)
            && (s.enabled && (forall t | 0 <= t < |s.tasks| :: s.tasks[t].cmd != id) ==>
                  ReplyTo(s, action, cmd, minted) == Accepted(action, id)
                  && |Deliver(s, action, cmd, minted).tasks| == |s.tasks| + 1)
  {
    var s, id := After(Initial(clock, enabled), events), IdOf(cmd, minted);
    AfterKeepsInv(Initial(clock, enabled), events);
    assert EntryTrue(s, id);
  }

  /** A teardown that failed is answered as failed: the run in which a wrong outcome would show. */
  lemma FailureIsAnsweredAsFailure(clock: real, message: string)
    ensures var events := [Delivery("delete_vm", "c1", ""), Begin(0), Fail(0, message), Finish(0)];
            ReplyTo(After(Initial(clock, true), events), "delete_vm", "c1", "")
            == Terminal(false, message, "delete_vm", "c1")
  {
    var s0 := Initial(clock, true);
    var s1 := Next(s0, Delivery("delete_vm", "c1", ""));
    assert s1.tasks == [Task("c1", "delete_vm", clock, Created, false, false, 0)];
    var s2 := Next(s1, Begin(0));
    var s3 := Next(s2, Fail(0, message));
    var s4 := Next(s3, Finish(0));
    FourEvents(s0, Delivery("delete_vm", "c1", ""), Begin(0), Fail(0, message), Finish(0));
    assert s4.clock == clock && "c1" in s4.seen && s4.seen["c1"].ts == clock && s4.tasks[0].phase == Done;
  }

  lemma FourEvents(s: System, a: Event, b: Event, c: Event, d: Event)
    requires Can(s, a) && Can(Next(s, a), b) && Can(Next(Next(s, a), b), c) && Can(Next(Next(Next(s, a), b), c), d)
    ensures After(s, [a, b, c, d]) == Next(Next(Next(Next(s, a), b), c), d)
  {
    assert [a, b, c, d] == [] + [a] + [b] + [c] + [d];
    AfterLast(s, [], a);
    AfterLast(s, [] + [a], b);
    AfterLast(s, [] + [a] + [b], c);
    AfterLast(s, [] + [a] + [b] + [c], d);
  }

  // ── what the handlers add ──────────────────────────────────────────────────

  /** How many results a task has emitted. */
  function Emitted(results: seq<Emission>, t: nat): nat {
    if results == [] then 0
    else Emitted(results[..|results| - 1], t) + if results[|results| - 1].task == t then 1 else 0
  }

  lemma {:induction false} EmittedIsReported(results: seq<Emission>, t: nat)
    ensures Emitted(results, t) > 0 ==> exists k :: 0 <= k < |results| && results[k].task == t
  {
    if results != [] {
      EmittedIsReported(results[..|results| - 1], t);
    }
  }

  /** The task's handler can come back with as many results as the task has emitted. */
  ghost predicate CameThrough(s: System, t: nat)
    requires t < |s.tasks|
  {
    exists r :: Handlers.IsRun(Handlers.Handler(s.tasks[t].action), r) && Handlers.ComesBack(Handlers.EndOf(r))
                && |Handlers.Tells(r)| == Emitted(s.results, t)
  }

  /** In the run from `s`, tasks come back only as their handlers do. */
  ghost predicate ByHandlers(s: System, events: seq<Event>)
    decreases |events|
  {
    events == [] ||
    var e := events[0];
    && (e.Return? && Can(s, e) ==> CameThrough(s, e.t))
    && ByHandlers(if Can(s, e) then Next(s, e) else s, events[1..])
  }

  predicate ReturnedReported(s: System) {
    forall t | 0 <= t < |s.tasks| && s.tasks[t].returned :: HasReported(s, t)
  }

  lemma NextKeepsReturnedReported(s: System, e: Event)
    requires Inv(s) && ReturnedReported(s) && Can(s, e) && (e.Return? ==> CameThrough(s, e.t))
    ensures ReturnedReported(Next(s, e))
  {
    var s' := Next(s, e);
    ResultsStay(s, e);
    if e.Return? {
      var r :| Handlers.IsRun(Handlers.Handler(s.tasks[e.t].action), r) && Handlers.ComesBack(Handlers.EndOf(r))
               && |Handlers.Tells(r)| == Emitted(s.results, e.t);
      Handlers.HandlerReportsOnce(s.tasks[e.t].action, r);
      EmittedIsReported(s.results, e.t);
    }
    forall t | 0 <= t < |s'.tasks| && s'.tasks[t].returned ensures HasReported(s', t) {
      assert HasReported(s, t);
    }
  }

  lemma ResultsStay(s: System, e: Event)
    requires Can(s, e)
    ensures forall t: nat :: HasReported(s, t) ==> HasReported(Next(s, e), t)
    ensures |s.tasks| <= |Next(s, e).tasks|
    ensures forall t | 0 <= t < |Next(s, e).tasks| && Next(s, e).tasks[t].returned ::
      e == Return(t) || (t < |s.tasks| && s.tasks[t].returned)
  {
    assert s.results <= Next(s, e).results;
  }

  lemma {:induction false} AfterKeepsReturnedReported(s: System, events: seq<Event>)
    requires Inv(s) && ReturnedReported(s) && ByHandlers(s, events)
    ensures ReturnedReported(After(s, events))
    decreases |events|
  {
    if events != [] {
      var e := events[0];
      if Can(s, e) {
        NextKeepsInv(s, e);
        NextKeepsReturnedReported(s, e);
      }
      AfterKeepsReturnedReported(if Can(s, e) then Next(s, e) else s, events[1..]);
    }
  }

  /** With the agent's own handlers every task that took its first step and is over has reported, and within the TTL
      a command runs again if and only if its latest task was cancelled before its first step and no earlier task of
      it has reported since. */
  lemma RerunIffNeverStarted(clock: real, enabled: bool, events: seq<Event>, t: nat)
    requires ByHandlers(Initial(clock, enabled), events)
    requires var s := After(Initial(clock, enabled), events);
             t < |s.tasks| && IsLatest(s, s.tasks[t].cmd, t) && s.clock - s.tasks[t].spawned <= TTL
    ensures var s := After(Initial(clock, enabled), events);
            && (s.tasks[t].phase == Done && s.tasks[t].started ==> HasReported(s, t))
            && (MustSpawn(s, s.tasks[t].cmd) <==>
                s.tasks[t].phase == Done && !s.tasks[t].started && !OtherReported(s, t))
  {
    AfterKeepsInv(Initial(clock, enabled), events);
    AfterKeepsReturnedReported(Initial(clock, enabled), events);
    RerunIffEndedSilently(clock, enabled, events, t);
  }

  lemma {:induction false} SomeResult(results: seq<Emission>, id: string, mark: nat) returns (k: nat)
    requires LastResult(results, id, mark).Some?
    ensures mark <= k < |results| && results[k].reply.Terminal? && results[k].reply.cmd == id
  {
    k := |results| - 1;
    if !(results[k].reply.Terminal? && results[k].reply.cmd == id) {
      k := SomeResult(results[..k], id, mark);
    }
  }

  lemma {:induction false} LastResultSees(results: seq<Emission>, id: string, mark: nat, k: nat)
    requires mark <= k < |results| && results[k].reply.Terminal? && results[k].reply.cmd == id
    ensures LastResult(results, id, mark).Some?
  {
    if k < |results| - 1 {
      LastResultSees(results[..|results| - 1], id, mark, k);
    }
  }
}
