/** The dongle quarantine (agent/src/usb_quarantine.py) with the recovery sweep of the provision loop
    (agent/src/usb_provision.py): a ladder of strikes per USB bus that survives recovery and ends in a
    permanent quarantine. */
module Quarantine {
  import opened Options

  const MAX_FAILS := 3
  const PERMANENT_STRIKES := 5
  const RECOVERY_S := 3600

  datatype Entry = Entry(fails: int, since: int, reason: string, strikes: int, permanent: bool,
                         firstStrike: int, lastStrike: int)

  const UNKNOWN := Entry(0, 0, "", 0, false, 0, 0)

  type Buses = map<string, Entry>

  datatype Event = Fault(bus: string, reason: string, at: int) | Sweep(at: int) | Clear(bus: string)

  function EntryOf(q: Buses, bus: string): Entry {
    if bus in q then q[bus] else UNKNOWN
  }

  function Struck(e: Entry, reason: string, now: int): Entry {
    Entry(MAX_FAILS, now, reason, e.strikes + 1, e.strikes + 1 >= PERMANENT_STRIKES,
          if e.firstStrike != 0 then e.firstStrike else now, now)
  }

  predicate Sidelined(e: Entry) {
    e.permanent || e.fails >= MAX_FAILS
  }

  predicate Recovers(e: Entry, now: int) {
    !e.permanent && e.fails >= MAX_FAILS && now - e.since >= RECOVERY_S
  }

  function Recovered(e: Entry, now: int): Entry {
    if Recovers(e, now) then e.(fails := 0) else e
  }

  /** The store after one event. */
  function Next(q: Buses, e: Event): Buses {
    match e
    case Fault(bus, reason, now) =>
      if Sidelined(EntryOf(q, bus)) then q else q[bus := Struck(EntryOf(q, bus), reason, now)]
    case Sweep(now) => map b | b in q :: Recovered(q[b], now)
    case Clear(bus) => if bus != "" then q - {bus} else map[]
  }

  /** The store after a run that starts with nothing quarantined. */
  function After(events: seq<Event>): Buses {
    if events == [] then map[] else Next(After(events[..|events| - 1]), events[|events| - 1])
  }

  class Store {
    var buses: Buses

    constructor ()
      ensures buses == map[]
    {
      buses := map[];
    }

    /** `quarantine_bus`. */
    method QuarantineBus(bus: string, reason: string, now: int)
      modifies this
      ensures buses == Next(old(buses), Fault(bus, reason, now))
    {
      var entry := if bus in buses then buses[bus] else UNKNOWN;
      if entry.permanent {
        return;
      }
      if entry.fails >= MAX_FAILS {
        return;
      }
      var strikes := entry.strikes + 1;
      var permanent := strikes >= PERMANENT_STRIKES;
      var first := if entry.firstStrike != 0 then entry.firstStrike else now;
      buses := buses[bus := Entry(MAX_FAILS, now, reason, strikes, permanent, first, now)];
    }

    /** `clear_quarantine`; no bus means all of them. */
    method ClearQuarantine(bus: string)
      modifies this
      ensures buses == Next(old(buses), Clear(bus))
    {
      if bus != "" {
        buses := buses - {bus};
      } else {
        buses := map[];
      }
    }

    /** The sweep over the quarantined buses, saved only when something changed. */
    method Recover(now: int)
      modifies this
      ensures buses == Next(old(buses), Sweep(now))
    {
      var quarantine, left, changed := buses, buses.Keys, false;
      while left != {}
        invariant left <= buses.Keys == quarantine.Keys && buses == old(buses)
        invariant forall b | b in buses :: quarantine[b] == if b in left then buses[b] else Recovered(buses[b], now)
        invariant !changed ==> quarantine == buses
        decreases |left|
      {
        var bus :| bus in left;
        left := left - {bus};
        var entry := quarantine[bus];
        if entry.permanent || entry.fails < MAX_FAILS {
          continue;
        }
        if now - entry.since >= RECOVERY_S {
          quarantine, changed := quarantine[bus := entry.(fails := 0)], true;
        }
      }
      if changed {
        buses := quarantine;
      }
      assert buses == quarantine;
    }
  }

  // ── the ladder read off the history ────────────────────────────────────────

  /** Episodes of one bus since it was last cleared, and the start of the one still open. An episode opens
      with a fault outside any episode and ends with the first sweep an hour or more after that. Nothing
      here knows of strikes or of a limit. */
  datatype Past = Past(episodes: nat, open: Option<int>)

  function PastOf(events: seq<Event>, bus: string): Past {
    if events == [] then Past(0, None)
    else
      var before := PastOf(events[..|events| - 1], bus);
      match events[|events| - 1]
      case Fault(b, _, now) => if b == bus && before.open.None? then Past(before.episodes + 1, Some(now)) else before
      case Sweep(now) =>
        if before.open.Some? && now - before.open.value >= 3600 then before.(open := None) else before
      case Clear(b) => if b in {"", bus} then Past(0, None) else before
  }

  predicate Agrees(e: Entry, past: Past) {
    && e.strikes == (if past.episodes < 5 then past.episodes else 5)
    && (e.permanent <==> past.episodes >= 5)
    && (e.fails == 0 || e.fails == MAX_FAILS) && (e.permanent ==> e.fails == MAX_FAILS)
    && (!e.permanent ==> (e.fails == MAX_FAILS <==> past.open.Some?) && (past.open.Some? ==> past.open.value == e.since))
  }

  /** Over every run the strikes of a bus are its episodes since the last clear, up to the limit; it is
      permanent exactly from the fifth episode on, until cleared; it is sidelined exactly during an episode
      or for good. */
  lemma {:induction false} StrikesAreEpisodes(events: seq<Event>, bus: string)
    ensures Agrees(EntryOf(After(events), bus), PastOf(events, bus))
  {
    if events != [] {
      StrikesAreEpisodes(events[..|events| - 1], bus);
    }
  }

  // ── one bus does not touch another ─────────────────────────────────────────

  predicate Concerns(e: Event, bus: string) {
    match e
    case Fault(b, _, _) => b == bus
    case Sweep(_) => true
    case Clear(b) => b in {"", bus}
  }

  function Concerning(events: seq<Event>, bus: string): seq<Event> {
    if events == [] then []
    else
      var front, last := Concerning(events[..|events| - 1], bus), events[|events| - 1];
      if Concerns(last, bus) then front + [last] else front
  }

  /** What is stored for a bus depends on its own faults, its own clears and the sweeps alone. */
  lemma {:induction false} BusesAreIndependent(events: seq<Event>, bus: string)
    ensures EntryOf(After(events), bus) == EntryOf(After(Concerning(events, bus)), bus)
    ensures bus in After(events) <==> bus in After(Concerning(events, bus))
  {
    if events != [] {
      var front, last := events[..|events| - 1], events[|events| - 1];
      BusesAreIndependent(front, bus);
      var mine := Concerning(front, bus);
      if Concerns(last, bus) {
        assert (mine + [last])[..|mine|] == mine;
      }
    }
  }

  /** Repeated faults inside an episode change nothing: not the strikes, not the reason, not the clock of
      the recovery. */
  lemma {:induction false} RepeatsChangeNothing(q: Buses, bus: string, repeats: seq<Event>)
    requires Sidelined(EntryOf(q, bus))
    requires forall e | e in repeats :: e.Fault? && e.bus == bus
    ensures Replayed(q, repeats) == q
  {
    if repeats != [] {
      var n := |repeats| - 1;
      assert repeats[n] in repeats;
      RepeatsChangeNothing(q, bus, repeats[..n]);
    }
  }

  function Replayed(q: Buses, events: seq<Event>): Buses {
    if events == [] then q else Next(Replayed(q, events[..|events| - 1]), events[|events| - 1])
  }

  // ── how long the ladder takes ──────────────────────────────────────────────

  function Time(e: Event, otherwise: int): int {
    match e
    case Fault(_, _, at) => at
    case Sweep(at) => at
    case Clear(_) => otherwise
  }

  function LastTime(events: seq<Event>): int {
    if events == [] then 1 else Time(events[|events| - 1], LastTime(events[..|events| - 1]))
  }

  /** The clock is past the epoch and does not go back. */
  predicate Timely(events: seq<Event>) {
    events == [] || (Timely(events[..|events| - 1]) && LastTime(events[..|events| - 1]) <= LastTime(events))
  }

  predicate Spread(e: Entry, now: int) {
    if e.strikes == 0 then e.firstStrike == 0
    else
      && 0 < e.firstStrike && e.lastStrike <= now && e.since == e.lastStrike
      && e.lastStrike - e.firstStrike >= RECOVERY_S * (e.strikes - 1)
      && (e.fails < MAX_FAILS ==> now - e.since >= RECOVERY_S)
  }

  /** Consecutive strikes are an hour apart: no bus is sidelined for good before it has been failing for
      four hours. */
  lemma {:induction false} PermanenceTakesHours(events: seq<Event>, bus: string)
    requires Timely(events)
    ensures Spread(EntryOf(After(events), bus), LastTime(events))
    ensures EntryOf(After(events), bus).permanent ==>
      EntryOf(After(events), bus).lastStrike - EntryOf(After(events), bus).firstStrike >= 4 * 3600
    ensures 1 <= LastTime(events)
  {
    StrikesAreEpisodes(events, bus);
    if events != [] {
      var front := events[..|events| - 1];
      StrikesAreEpisodes(front, bus);
      PermanenceTakesHours(front, bus);
    }
  }
}
