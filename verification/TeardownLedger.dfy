/** What a VM teardown leaves in the books (agent/src/cs_sim.py, `destroy_vm`; agent/src/usb_quarantine.py;
    agent/src/usb_state_store.py): the failure counters, the orphan registry, the dongle assignments and the
    excluded buses. An attempt is two events with any others between them: it resolves the bus it works
    with, and minutes later it settles the books with that bus. */
module TeardownLedger {
  import opened Options
  import opened UsbState

  const MAX_FAILS := 3

  datatype Orphan = Orphan(vm: int, bus: string)

  datatype Books = Books(p: Pairing, fails: map<int, int>, orphans: seq<Orphan>, excluded: set<string>)

  const BLANK := Books(EMPTY, map[], [], {})

  /** How an attempt ends: nothing there any more, destroyed, or not destroyed. */
  datatype Outcome = Gone | Destroyed | Failed

  datatype Result = Done(bus: string, alreadyGone: bool) | Fail(bus: string, orphaned: bool, count: int)

  /** The registry without a VM. */
  function Others(orphans: seq<Orphan>, v: int): seq<Orphan> {
    if orphans == [] then []
    else
      var front, last := Others(orphans[..|orphans| - 1], v), orphans[|orphans| - 1];
      if last.vm != v then front + [last] else front
  }

  predicate Registered(orphans: seq<Orphan>, v: int) {
    exists o | o in orphans :: o.vm == v
  }

  function FailsOf(b: Books, v: int): int {
    if v in b.fails then b.fails[v] else 0
  }

  function Excluding(excluded: set<string>, bus: string, exclude: bool): set<string> {
    if exclude && bus != "" then excluded + {bus} else excluded
  }

  /** The bus an attempt works with: the caller's, or else the one on record. */
  function Resolved(p: Pairing, v: int, hint: string): string {
    if hint != "" then hint else if v in p.busOf then p.busOf[v] else ""
  }

  /** The books after an attempt that found the VM gone or destroyed it, working with `bus`. */
  function Settled(b: Books, v: int, bus: string, exclude: bool): Books {
    Books(Cleared(b.p, v, bus), b.fails - {v}, Others(b.orphans, v), Excluding(b.excluded, bus, exclude))
  }

  /** The books after a failed attempt: one more failure, or at the third an orphan and a free bus. */
  function Missed(b: Books, v: int, bus: string, exclude: bool): Books {
    if FailsOf(b, v) + 1 >= MAX_FAILS then
      Books(Cleared(b.p, v, bus), b.fails - {v}, Others(b.orphans, v) + [Orphan(v, bus)],
            Excluding(b.excluded, bus, exclude))
    else b.(fails := b.fails[v := FailsOf(b, v) + 1])
  }

  /** `Resolve`: an attempt has passed the guards and looked up its bus. `Settle`: it ends. `Drop`: it is
      cancelled or raises before it settles anything. */
  datatype Event =
    | Resolve(vm: int, hint: string)
    | Settle(vm: int, bus: string, outcome: Outcome, exclude: bool)
    | Drop(vm: int, bus: string)
    | Assign(vm: int, bus: string)
    | Reprovisioned(vm: int)

  function NextBooks(b: Books, e: Event): Books {
    match e
    case Settle(v, bus, outcome, exclude) =>
      if outcome.Failed? then Missed(b, v, bus, exclude) else Settled(b, v, bus, exclude)
    case Assign(v, bus) => b.(p := Assigned(b.p, v, bus))
    case Reprovisioned(v) => b.(orphans := Others(b.orphans, v))
    case _ => b
  }

  function After(events: seq<Event>): Books {
    if events == [] then BLANK else NextBooks(After(events[..|events| - 1]), events[|events| - 1])
  }

  // ── attempts in flight ─────────────────────────────────────────────────────

  /** An attempt between its two events. */
  datatype Flight = Flight(vm: int, bus: string)

  function NextFlights(flights: multiset<Flight>, b: Books, e: Event): multiset<Flight> {
    if e.Resolve? then flights + multiset{Flight(e.vm, Resolved(b.p, e.vm, e.hint))}
    else if e.Settle? || e.Drop? then flights - multiset{Flight(e.vm, e.bus)} else flights
  }

  function Flights(events: seq<Event>): multiset<Flight> {
    if events == [] then multiset{}
    else NextFlights(Flights(events[..|events| - 1]), After(events[..|events| - 1]), events[|events| - 1])
  }

  /** Only attempts in flight end. */
  predicate Possible(events: seq<Event>) {
    events == []
    || (var front, last := events[..|events| - 1], events[|events| - 1];
        Possible(front) && (last.Settle? || last.Drop? ==> Flight(last.vm, last.bus) in Flights(front)))
  }

  /** The attempt's bus is the one resolved at event `k`. */
  predicate ResolvedAt(events: seq<Event>, f: Flight, k: nat) {
    k < |events| && events[k].Resolve? && events[k].vm == f.vm
    && f.bus == Resolved(After(events[..k]).p, f.vm, events[k].hint)
  }

  /** Every attempt in flight works with what the maps said when it looked, not with what they say now. */
  lemma {:induction false} FlightsWereResolved(events: seq<Event>, f: Flight) returns (k: nat)
    requires f in Flights(events)
    ensures ResolvedAt(events, f, k)
  {
    var front, last := events[..|events| - 1], events[|events| - 1];
    if f in Flights(front) {
      k := FlightsWereResolved(front, f);
      assert front[..k] == events[..k];
    } else {
      k := |events| - 1;
    }
  }

  /** What an attempt reports when it settles. */
  function Report(b: Books, e: Event): Result
    requires e.Settle?
  {
    match e.outcome
    case Failed => Fail(e.bus, FailsOf(b, e.vm) + 1 >= MAX_FAILS, FailsOf(b, e.vm) + 1)
    case Gone => Done(e.bus, true)
    case Destroyed => Done(e.bus, false)
  }

  /** The four stores on disk. */
  class Host {
    const usb: Store
    var fails: map<int, int>
    var orphans: seq<Orphan>
    var excluded: set<string>

    constructor ()
      ensures fresh(usb) && Now() == BLANK
    {
      usb := new Store();
      fails, orphans, excluded := map[], [], {};
    }

    ghost function Now(): Books
      reads this, usb
    {
      Books(usb.p, fails, orphans, excluded)
    }

    method ClearDestroyFails(v: int)
      modifies `fails
      ensures fails == old(fails) - {v}
    {
      fails := fails - {v};
    }

    method RemoveOrphan(v: int)
      modifies `orphans
      ensures orphans == Others(old(orphans), v)
    {
      var kept := [];
      for i := 0 to |orphans|
        invariant orphans == old(orphans) && kept == Others(orphans[..i], v)
      {
        assert orphans[..i + 1][..i] == orphans[..i];
        if orphans[i].vm != v {
          kept := kept + [orphans[i]];
        }
      }
      assert orphans[..|orphans|] == orphans;
      orphans := kept;
    }

    /** `add_orphan_vm`: at most one entry per VM. */
    method AddOrphan(v: int, bus: string)
      modifies `orphans
      ensures orphans == Others(old(orphans), v) + [Orphan(v, bus)]
    {
      RemoveOrphan(v);
      orphans := orphans + [Orphan(v, bus)];
    }

    /** `record_destroy_fail`. */
    method RecordDestroyFail(v: int, bus: string) returns (count: int, orphaned: bool)
      modifies `fails, `orphans
      ensures count == (if v in old(fails) then old(fails)[v] else 0) + 1
      ensures orphaned <==> count >= MAX_FAILS
      ensures fails == if orphaned then old(fails) - {v} else old(fails)[v := count]
      ensures orphans == if orphaned then Others(old(orphans), v) + [Orphan(v, bus)] else old(orphans)
    {
      count := (if v in fails then fails[v] else 0) + 1;
      var counters := fails[v := count];
      orphaned := count >= MAX_FAILS;
      if orphaned {
        counters := counters - {v};
        AddOrphan(v, bus);
      }
      fails := counters;
      assert orphaned ==> fails == old(fails) - {v};
    }

    /** `destroy_vm` up to its first look at the hypervisor; a guard may refuse the VM. */
    method BeginDestroy(v: int, hint: string, allowed: bool) returns (bus: Option<string>)
      ensures bus == if allowed then Some(Resolved(usb.p, v, hint)) else None
    {
      if !allowed {
        return None;
      }
      bus := Some(if hint != "" then hint else if v in usb.p.busOf then usb.p.busOf[v] else "");
    }

    /** `destroy_vm` from the hypervisor's answer on, with the bus it resolved before. */
    method EndDestroy(v: int, bus: string, outcome: Outcome, exclude: bool) returns (r: Result)
      modifies this, usb
      ensures Now() == NextBooks(old(Now()), Settle(v, bus, outcome, exclude))
      ensures r == Report(old(Now()), Settle(v, bus, outcome, exclude))
    {
      if outcome.Gone? || outcome.Destroyed? {
        usb.ClearAssignment(v, bus);
        ClearDestroyFails(v);
        RemoveOrphan(v);
        if exclude && bus != "" {
          excluded := excluded + {bus};
        }
        return Done(bus, outcome.Gone?);
      }
      var count, orphaned := RecordDestroyFail(v, bus);
      if orphaned {
        usb.ClearAssignment(v, bus);
        if exclude && bus != "" {
          excluded := excluded + {bus};
        }
      }
      r := Fail(bus, orphaned, count);
    }
  }

  // ── counters read off the history ──────────────────────────────────────────

  /** Failed attempts on a VM since the last one that succeeded or found it gone. Nothing here knows of
      orphans or of a limit. */
  function Failures(events: seq<Event>, v: int): nat {
    if events == [] then 0
    else
      var before, last := Failures(events[..|events| - 1], v), events[|events| - 1];
      if last.Settle? && last.vm == v then (if last.outcome.Failed? then before + 1 else 0) else before
  }

  lemma FailuresStep(events: seq<Event>, v: int)
    requires events != []
    ensures var before, e := Failures(events[..|events| - 1], v), events[|events| - 1];
            Failures(events, v) ==
              if !e.Settle? || e.vm != v then before else if e.outcome.Failed? then before + 1 else 0
  {
  }

  lemma CounterStep(b: Books, e: Event, v: int)
    ensures FailsOf(NextBooks(b, e), v) ==
      if !e.Settle? || e.vm != v then FailsOf(b, v)
      else if e.outcome.Failed? && FailsOf(b, v) + 1 < MAX_FAILS then FailsOf(b, v) + 1 else 0
  {
  }

  /** Over every run, attempts in flight at the same time included, the stored counter is the number of
      failures modulo three: it stays in 0..2, and each third failure in a row, and no other event, makes an
      orphan. Other VMs' attempts do not enter into it. */
  lemma {:induction false} CounterIsFailuresModThree(events: seq<Event>, v: int)
    ensures FailsOf(After(events), v) == Failures(events, v) % MAX_FAILS
  {
    if events != [] {
      var front, last := events[..|events| - 1], events[|events| - 1];
      CounterIsFailuresModThree(front, v);
      CounterStep(After(front), last, v);
      ThirdIsMultiple(Failures(front, v));
      FailuresStep(events, v);
    }
  }

  /** An attempt reports an orphan exactly when it is the third, sixth, … failure in a row. */
  lemma OrphanedEveryThird(events: seq<Event>, e: Event)
    requires e.Settle? && e.outcome.Failed?
    ensures var r := Report(After(events), e);
            r.Fail? && (r.orphaned <==> Failures(events + [e], e.vm) % MAX_FAILS == 0)
  {
    CounterIsFailuresModThree(events, e.vm);
    assert (events + [e])[..|events|] == events;
    ThirdIsMultiple(Failures(events, e.vm));
  }

  lemma ThirdIsMultiple(n: nat)
    ensures n % MAX_FAILS + 1 >= MAX_FAILS <==> (n + 1) % MAX_FAILS == 0
    ensures (n + 1) % MAX_FAILS == if n % MAX_FAILS + 1 < MAX_FAILS then n % MAX_FAILS + 1 else 0
  {
  }

  lemma {:induction false} OthersFacts(orphans: seq<Orphan>, v: int)
    ensures forall o :: o in Others(orphans, v) <==> o in orphans && o.vm != v
  {
    if orphans != [] {
      OthersFacts(orphans[..|orphans| - 1], v);
    }
  }

  /** A VM is on the orphan list from a third failure until it is destroyed, found gone or provisioned
      again. */
  predicate Orphaned(events: seq<Event>, v: int) {
    if events == [] then false
    else
      var front, last := events[..|events| - 1], events[|events| - 1];
      match last
      case Settle(w, _, outcome, _) =>
        if w != v then Orphaned(front, v)
        else outcome.Failed? && (Failures(events, v) % MAX_FAILS == 0 || Orphaned(front, v))
      case Reprovisioned(w) => w != v && Orphaned(front, v)
      case _ => Orphaned(front, v)
  }

  lemma RegisteredAfter(orphans: seq<Orphan>, v: int, w: int, bus: string)
    ensures Registered(Others(orphans, w), v) <==> v != w && Registered(orphans, v)
    ensures Registered(Others(orphans, w) + [Orphan(w, bus)], v) <==> v == w || Registered(orphans, v)
  {
    OthersFacts(orphans, w);
    var more := Others(orphans, w) + [Orphan(w, bus)];
    assert Orphan(w, bus) in more;
    if o :| o in orphans && o.vm == v {
      assert v != w ==> o in Others(orphans, w) && o in more;
    }
  }

  lemma RegistryStep(b: Books, e: Event, v: int)
    ensures Registered(NextBooks(b, e).orphans, v) <==>
      match e
      case Settle(w, _, outcome, _) =>
        if w != v then Registered(b.orphans, v)
        else outcome.Failed? && (FailsOf(b, v) + 1 >= MAX_FAILS || Registered(b.orphans, v))
      case Reprovisioned(w) => w != v && Registered(b.orphans, v)
      case _ => Registered(b.orphans, v)
  {
    match e
    case Settle(w, bus, _, _) => RegisteredAfter(b.orphans, v, w, bus);
    case Reprovisioned(w) => RegisteredAfter(b.orphans, v, w, "");
    case _ =>
  }

  lemma {:induction false} RegistryIsHistory(events: seq<Event>, v: int)
    ensures Registered(After(events).orphans, v) <==> Orphaned(events, v)
  {
    if events != [] {
      var front, last := events[..|events| - 1], events[|events| - 1];
      RegistryIsHistory(front, v);
      RegistryStep(After(front), last, v);
      CounterIsFailuresModThree(front, v);
      ThirdIsMultiple(Failures(front, v));
    }
  }

  /** A bus is excluded from the first attempt on that asked for it and released that bus: by succeeding, by finding
      the VM gone, or as a third failure in a row. */
  predicate WasExcluded(events: seq<Event>, bus: string) {
    events != []
    && var front, last := events[..|events| - 1], events[|events| - 1];
       || WasExcluded(front, bus)
       || (last.Settle? && last.exclude && last.bus == bus && bus != ""
           && (last.outcome.Failed? ==> Failures(events, last.vm) % MAX_FAILS == 0))
  }

  lemma {:induction false} ExcludedIsHistory(events: seq<Event>, bus: string)
    ensures bus in After(events).excluded <==> WasExcluded(events, bus)
  {
    if events != [] {
      var front, last := events[..|events| - 1], events[|events| - 1];
      ExcludedIsHistory(front, bus);
      if last.Settle? {
        CounterIsFailuresModThree(front, last.vm);
        ThirdIsMultiple(Failures(front, last.vm));
        FailuresStep(events, last.vm);
      }
    }
  }

  /** The registry keeps its order: taking a VM out of it goes entry by entry. */
  lemma {:induction false} OthersKeepOrder(a: seq<Orphan>, b: seq<Orphan>, v: int)
    ensures Others(a + b, v) == Others(a, v) + Others(b, v)
  {
    if b == [] {
      assert a + b == a;
    } else {
      assert (a + b)[..|a + b| - 1] == a + b[..|b| - 1];
      OthersKeepOrder(a, b[..|b| - 1], v);
    }
  }

  /** A new orphan comes last, with the bus of the attempt, behind the other VMs' entries. */
  lemma NewOrphanIsLast(events: seq<Event>, e: Event)
    requires e.Settle? && e.outcome.Failed? && Failures(events + [e], e.vm) % MAX_FAILS == 0
    ensures After(events + [e]).orphans == Others(After(events).orphans, e.vm) + [Orphan(e.vm, e.bus)]
  {
    Grows(events, e);
    OrphanedEveryThird(events, e);
  }

  /** What an attempt reports, by the history: whether it found the VM gone, or which failure in a row it was, counted
      from one to three. */
  lemma ReportIsHistory(events: seq<Event>, e: Event)
    requires e.Settle?
    ensures Report(After(events), e) ==
      match e.outcome
      case Gone => Done(e.bus, true)
      case Destroyed => Done(e.bus, false)
      case Failed => (var n := Failures(events, e.vm) % 3; Fail(e.bus, n == 2, n + 1))
  {
    CounterIsFailuresModThree(events, e.vm);
  }

  /** How many attempts on the VM have looked up this bus, and how many of them are over. */
  function Opened(events: seq<Event>, f: Flight): nat {
    if events == [] then 0
    else
      var front, last := events[..|events| - 1], events[|events| - 1];
      Opened(front, f) + if last.Resolve? && last.vm == f.vm && Resolved(After(front).p, last.vm, last.hint) == f.bus
                         then 1 else 0
  }

  function Closed(events: seq<Event>, f: Flight): nat {
    if events == [] then 0
    else
      var front, last := events[..|events| - 1], events[|events| - 1];
      Closed(front, f) + if (last.Settle? || last.Drop?) && last.vm == f.vm && last.bus == f.bus then 1 else 0
  }

  /** In every possible run the attempts in flight are those opened and neither settled nor dropped. */
  lemma {:induction false} FlightsAreOpen(events: seq<Event>, f: Flight)
    requires Possible(events)
    ensures Flights(events)[f] == Opened(events, f) - Closed(events, f)
  {
    if events != [] {
      FlightsAreOpen(events[..|events| - 1], f);
    }
  }

  // ── the assignments ────────────────────────────────────────────────────────

  /** The event releases a bus: an attempt that ends well, or fails for the third time. */
  predicate Releases(b: Books, e: Event) {
    e.Settle? && (e.outcome.Failed? ==> FailsOf(b, e.vm) + 1 >= MAX_FAILS)
  }

  /** When the attempt settles, its VM still has a bus, or the bus it resolved serves nobody; assignments name
      their bus. */
  predicate FairEvent(b: Books, e: Event) {
    && (Releases(b, e) ==> e.vm in b.p.busOf || e.bus !in b.p.vmOf)
    && (e.Assign? ==> e.bus != "")
  }

  predicate FairRun(events: seq<Event>) {
    events == [] || (FairRun(events[..|events| - 1])
                     && FairEvent(After(events[..|events| - 1]), events[|events| - 1]))
  }

  predicate MatchedThroughout(events: seq<Event>) {
    Matched(After(events).p) && (events == [] || MatchedThroughout(events[..|events| - 1]))
  }

  /** One event keeps the assignments one-to-one exactly when it is fair. */
  lemma StaysMatchedIff(b: Books, e: Event)
    requires Matched(b.p)
    ensures Matched(NextBooks(b, e).p) <==> FairEvent(b, e)
  {
    if e.Settle? {
      ClearKeepsMatchedIff(b.p, e.vm, e.bus);
    } else if e.Assign? {
      AssignKeepsMatchedIff(b.p, e.vm, e.bus);
    }
  }

  /** Over every run of interleaved attempts and assignments: the maps are one-to-one all the way exactly when
      every event is fair at its turn. */
  lemma {:induction false} MatchedThroughoutIff(events: seq<Event>)
    ensures MatchedThroughout(events) <==> FairRun(events)
  {
    if events != [] {
      var front := events[..|events| - 1];
      MatchedThroughoutIff(front);
      if FairRun(front) {
        assert Matched(After(front).p) by {
          assert MatchedThroughout(front);
        }
        StaysMatchedIff(After(front), events[|events| - 1]);
      }
    }
  }

  lemma FairRunsStayMatched(events: seq<Event>)
    requires FairRun(events)
    ensures Matched(After(events).p)
  {
    MatchedThroughoutIff(events);
  }

  /** A bus resolved for a VM that has lost it since is the bus of somebody else: two attempts on one VM
      overlap, no caller gives a hint, every assignment is fair, and the second attempt, which finds its VM
      gone, takes the bus out of the reverse map while it serves another VM. */
  lemma StaleBusSplitsTheMaps(v: int, w: int, bus: string) returns (front: seq<Event>, last: Event)
    requires v != w && bus != ""
    ensures Possible(front + [last]) && NoHints(front) && last == Settle(v, bus, Gone, false)
    ensures MatchedThroughout(front) && FairRun(front) && Served(After(front).p, w)
    ensures var p := After(front + [last]).p; !Matched(p) && w in p.busOf && p.busOf[w] == bus && !Served(p, w)
  {
    front := HandedOn(v, w, bus);
    last := Settle(v, bus, Gone, false);
    var b := After(front);
    assert b.p.vmOf[bus] == w;
    Grows(front, last);
    MatchedThroughoutIff(front);
    StaysMatchedIff(b, last);
    assert NextBooks(b, last).p.vmOf == map[];
  }

  /** No attempt of the run is told its bus by the caller. */
  predicate NoHints(events: seq<Event>) {
    forall e | e in events && e.Resolve? :: e.hint == ""
  }

  /** Two attempts on one VM that both looked its bus up. */
  lemma TwoInFlight(v: int, bus: string) returns (events: seq<Event>)
    requires bus != ""
    ensures Possible(events) && FairRun(events) && NoHints(events)
    ensures Flights(events) == multiset{Flight(v, bus), Flight(v, bus)}
    ensures After(events).p == Pairing(map[v := bus], map[bus := v]) && After(events).fails == map[]
  {
    var e1 := [Assign(v, bus)];
    var e2 := e1 + [Resolve(v, "")];
    events := e2 + [Resolve(v, "")];
    assert [] + e1 == e1;
    Grows([], Assign(v, bus));
    Grows(e1, Resolve(v, ""));
    Grows(e2, Resolve(v, ""));
  }

  /** One of them ends. */
  lemma OneInFlight(v: int, bus: string) returns (events: seq<Event>)
    requires bus != ""
    ensures Possible(events) && FairRun(events) && NoHints(events)
    ensures Flights(events) == multiset{Flight(v, bus)} && After(events).p == EMPTY
  {
    var two := TwoInFlight(v, bus);
    var ends := Settle(v, bus, Destroyed, false);
    Grows(two, ends);
    var p := NextBooks(After(two), ends).p;
    assert p.busOf == map[] && p.vmOf == map[];
    events := two + [ends];
  }

  /** And the bus is given to another VM. */
  lemma HandedOn(v: int, w: int, bus: string) returns (events: seq<Event>)
    requires v != w && bus != ""
    ensures Possible(events) && FairRun(events) && NoHints(events) && Flights(events) == multiset{Flight(v, bus)}
    ensures After(events).p == Pairing(map[w := bus], map[bus := w])
  {
    var one := OneInFlight(v, bus);
    Grows(one, Assign(w, bus));
    events := one + [Assign(w, bus)];
  }

  lemma Grows(events: seq<Event>, e: Event)
    ensures After(events + [e]) == NextBooks(After(events), e)
    ensures FairRun(events + [e]) <==> FairRun(events) && FairEvent(After(events), e)
    ensures Possible(events + [e]) <==>
            Possible(events) && (e.Settle? || e.Drop? ==> Flight(e.vm, e.bus) in Flights(events))
    ensures Flights(events + [e]) == NextFlights(Flights(events), After(events), e)
  {
    assert (events + [e])[..|events|] == events;
  }

  /** Nothing in `mid` settles the VM, moves it to a bus or gives its bus away. */
  predicate Undisturbed(mid: seq<Event>, v: int, bus: string) {
    forall e | e in mid :: !(e.Settle? && e.vm == v) && !(e.Assign? && (e.vm == v || e.bus == bus))
  }

  lemma {:induction false} KeepsItsBus(front: seq<Event>, mid: seq<Event>, v: int)
    requires v in After(front).p.busOf && Undisturbed(mid, v, After(front).p.busOf[v])
    requires FairRun(front + mid)
    ensures var p := After(front + mid).p; v in p.busOf && p.busOf[v] == After(front).p.busOf[v]
    decreases |mid|
  {
    if mid == [] {
      assert front + mid == front;
    } else {
      var m, e := mid[..|mid| - 1], mid[|mid| - 1];
      assert front + mid == (front + m) + [e];
      Grows(front + m, e);
      assert forall x | x in m :: x in mid;
      KeepsItsBus(front, m, v);
      assert e in mid;
      FairRunsStayMatched(front + m);
      StepKeepsBus(After(front + m), e, v);
    }
  }

  lemma StepKeepsBus(b: Books, e: Event, v: int)
    requires Matched(b.p) && v in b.p.busOf
    requires !(e.Settle? && e.vm == v) && !(e.Assign? && (e.vm == v || e.bus == b.p.busOf[v]))
    ensures var p := NextBooks(b, e).p; v in p.busOf && p.busOf[v] == b.p.busOf[v]
  {
    if e.Assign? {
      AssignKeepsMatchedIff(b.p, e.vm, e.bus);
    }
  }

  /** An attempt that looks its bus up itself is fair whenever, while it is in flight, nobody else settles its
      VM, moves the VM or gives its bus away: what a lock held by every teardown and assignment would give. */
  lemma UndisturbedIsFair(front: seq<Event>, mid: seq<Event>, v: int, outcome: Outcome, exclude: bool)
    requires FairRun(front + mid)
    requires var p := After(front).p; v in p.busOf ==> Undisturbed(mid, v, p.busOf[v])
    ensures FairRun(front + mid + [Settle(v, Resolved(After(front).p, v, ""), outcome, exclude)])
  {
    var bus := Resolved(After(front).p, v, "");
    FairRunsStayMatched(front + mid);
    if v in After(front).p.busOf {
      KeepsItsBus(front, mid, v);
    }
    Grows(front + mid, Settle(v, bus, outcome, exclude));
  }

  /** Over every fair run, however attempts overlap: once an attempt ends well, no counter, no orphan entry and
      no assignment mentions its VM. */
  lemma NothingMentionsTheDead(events: seq<Event>, e: Event)
    requires FairRun(events) && e.Settle? && e.outcome in {Gone, Destroyed}
    ensures var b := After(events + [e]);
            e.vm !in b.fails && !Registered(b.orphans, e.vm) && e.vm !in b.p.busOf && !Served(b.p, e.vm)
  {
    Grows(events, e);
    var b := After(events);
    FairRunsStayMatched(events);
    RegisteredAfter(b.orphans, e.vm, e.vm, "");
    ClearedIsNotServed(b.p, e.vm, e.bus);
  }

  /** An orphan has no bus any more, and the bus it had is free for another VM. */
  lemma OrphanReleasesItsBus(events: seq<Event>, e: Event)
    requires FairRun(events) && e.Settle? && e.outcome.Failed? && Failures(events + [e], e.vm) % MAX_FAILS == 0
    ensures var before, b := After(events), After(events + [e]);
            && Registered(b.orphans, e.vm) && e.vm !in b.p.busOf && !Served(b.p, e.vm)
            && (e.vm in before.p.busOf ==> before.p.busOf[e.vm] !in b.p.vmOf)
  {
    Grows(events, e);
    OrphanedEveryThird(events, e);
    FairRunsStayMatched(events);
    ThirdFailureReleases(After(events), e);
  }

  lemma ThirdFailureReleases(b: Books, e: Event)
    requires Matched(b.p) && e.Settle? && e.outcome.Failed? && FailsOf(b, e.vm) + 1 >= MAX_FAILS
    ensures var c := NextBooks(b, e);
            && Registered(c.orphans, e.vm) && e.vm !in c.p.busOf && !Served(c.p, e.vm)
            && (e.vm in b.p.busOf ==> b.p.busOf[e.vm] !in c.p.vmOf)
  {
    RegisteredAfter(b.orphans, e.vm, e.vm, e.bus);
    ClearedIsNotServed(b.p, e.vm, e.bus);
  }

  /** An attempt on one VM leaves every other VM's counter, orphan entry and forward entry as they were, and a
      fair one its reverse entry. */
  lemma OtherVmsAreUntouched(b: Books, e: Event, w: int)
    requires e.Settle? && w != e.vm
    ensures var c := NextBooks(b, e);
            && (w in c.fails <==> w in b.fails) && (w in b.fails ==> c.fails[w] == b.fails[w])
            && (Registered(c.orphans, w) <==> Registered(b.orphans, w))
            && (w in c.p.busOf <==> w in b.p.busOf) && (w in b.p.busOf ==> c.p.busOf[w] == b.p.busOf[w])
            && (Matched(b.p) && FairEvent(b, e) ==> (Served(c.p, w) <==> Served(b.p, w)))
  {
    RegisteredAfter(b.orphans, w, e.vm, e.bus);
    if Matched(b.p) && FairEvent(b, e) {
      StaysMatchedIff(b, e);
    }
  }

  /** A wrong hint for a VM without a bus takes another VM's bus out of the reverse map only. */
  lemma WrongHintSplitsTheMaps(v: int, w: int, bus: string)
    requires v != w && bus != ""
    ensures var b := BLANK.(p := Assigned(EMPTY, w, bus));
            var c := NextBooks(b, Settle(v, Resolved(b.p, v, bus), Destroyed, false));
            Matched(b.p) && w in c.p.busOf && !Served(c.p, w) && !Matched(c.p)
  {
    var p := Assigned(EMPTY, w, bus);
    AssignKeepsMatchedIff(EMPTY, w, bus);
    ClearKeepsMatchedIff(p, v, bus);
    assert Cleared(p, v, bus).vmOf == map[];
  }
}
