/** The dongle assignments (agent/src/usb_state_store.py): which USB bus each VM holds and which VM each bus
    serves, kept as two maps that should be each other's inverse. */
module UsbState {
  datatype Pairing = Pairing(busOf: map<int, string>, vmOf: map<string, int>)

  const EMPTY := Pairing(map[], map[])

  /** One bus per VM, one VM per bus, and the two maps say the same. */
  predicate Matched(p: Pairing) {
    && "" !in p.vmOf
    && (forall v | v in p.busOf :: p.busOf[v] in p.vmOf && p.vmOf[p.busOf[v]] == v)
    && (forall b | b in p.vmOf :: p.vmOf[b] in p.busOf && p.busOf[p.vmOf[b]] == b)
  }

  /** The VM's own bus, or else the hint ("" is no bus). */
  function BusOr(p: Pairing, v: int, hint: string): string {
    if v in p.busOf && p.busOf[v] != "" then p.busOf[v] else hint
  }

  function Cleared(p: Pairing, v: int, hint: string): Pairing {
    var b := BusOr(p, v, hint);
    Pairing(p.busOf - {v}, if b != "" then p.vmOf - {b} else p.vmOf)
  }

  function Assigned(p: Pairing, v: int, bus: string): Pairing {
    var vmOf := if v in p.busOf && p.busOf[v] != "" && p.busOf[v] != bus then p.vmOf - {p.busOf[v]} else p.vmOf;
    var busOf := if bus in vmOf && vmOf[bus] != v then p.busOf - {vmOf[bus]} else p.busOf;
    Pairing(busOf[v := bus], vmOf[bus := v])
  }

  /** What a release does to any maps, matched or not: the VM loses its entry, and the bus that leaves the reverse map
      is the VM's own, or else the hint; neither is ever "". */
  lemma ClearIs(p: Pairing, v: int, hint: string, w: int, b: string)
    ensures var q := Cleared(p, v, hint);
            && (w in q.busOf <==> w in p.busOf && w != v) && (w in q.busOf ==> q.busOf[w] == p.busOf[w])
            && (b in q.vmOf ==> b in p.vmOf && q.vmOf[b] == p.vmOf[b])
            && (b in p.vmOf && b !in q.vmOf <==>
                  b in p.vmOf && b != "" && (if v in p.busOf && p.busOf[v] != "" then b == p.busOf[v] else b == hint))
  {
  }

  /** What an assignment does to any maps: the VM and the bus point to each other; the VM that the bus served before
      loses its entry, the bus that the VM had before leaves the reverse map, and nothing else changes. */
  lemma AssignIs(p: Pairing, v: int, bus: string, w: int, b: string)
    ensures var q := Assigned(p, v, bus);
            && v in q.busOf && q.busOf[v] == bus && bus in q.vmOf && q.vmOf[bus] == v
            && (w != v ==> (w in q.busOf <==> w in p.busOf && !(bus in p.vmOf && p.vmOf[bus] == w)))
            && (w != v && w in q.busOf ==> q.busOf[w] == p.busOf[w])
            && (b != bus ==> (b in q.vmOf <==> b in p.vmOf && !(b != "" && v in p.busOf && p.busOf[v] == b)))
            && (b != bus && b in q.vmOf ==> q.vmOf[b] == p.vmOf[b])
  {
  }

  /** Some bus is recorded as serving the VM. */
  predicate Served(p: Pairing, v: int) {
    exists b | b in p.vmOf :: p.vmOf[b] == v
  }

  /** Clearing a VM keeps the maps matched exactly when the VM had a bus, or the hint names no other VM's
      bus. */
  lemma ClearKeepsMatchedIff(p: Pairing, v: int, hint: string)
    requires Matched(p)
    ensures Matched(Cleared(p, v, hint)) <==> v in p.busOf || hint !in p.vmOf
  {
    var q := Cleared(p, v, hint);
    if v !in p.busOf && hint in p.vmOf {
      var other := p.vmOf[hint];
      assert other in q.busOf && q.busOf[other] == hint && hint !in q.vmOf;
    }
  }

  /** Assigning a bus takes it from whoever had it, releases the VM's former bus, touches nobody else, and
      keeps the maps matched exactly when the bus has a name. */
  lemma AssignKeepsMatchedIff(p: Pairing, v: int, bus: string)
    requires Matched(p)
    ensures Matched(Assigned(p, v, bus)) <==> bus != ""
    ensures forall w | w != v :: (w in Assigned(p, v, bus).busOf <==> w in p.busOf && p.busOf[w] != bus)
    ensures forall w | w != v && w in Assigned(p, v, bus).busOf :: Assigned(p, v, bus).busOf[w] == p.busOf[w]
  {
    var q := Assigned(p, v, bus);
    assert bus in q.vmOf;
    if bus != "" {
      forall w | w in q.busOf ensures q.busOf[w] in q.vmOf && q.vmOf[q.busOf[w]] == w {
        assert w != v ==> w in p.busOf && q.busOf[w] == p.busOf[w];
      }
    }
  }

  /** In matched maps the VM a bus serves is gone with the VM's own bus. */
  lemma ClearedIsNotServed(p: Pairing, v: int, hint: string)
    requires Matched(p)
    ensures v !in Cleared(p, v, hint).busOf && !Served(Cleared(p, v, hint), v)
  {
  }

  // ── repair ─────────────────────────────────────────────────────────────────

  /** The buses of a VM, in the order the reverse map lists them. */
  function BusesOf(p: Pairing, order: seq<string>, v: int): seq<string> {
    if order == [] then []
    else
      var front, last := BusesOf(p, order[..|order| - 1], v), order[|order| - 1];
      if last in p.vmOf && p.vmOf[last] == v then front + [last] else front
  }

  /** `order` lists the reverse map. */
  ghost predicate Lists(p: Pairing, order: seq<string>) {
    && (forall b :: b in p.vmOf <==> b in order)
    && (forall i, j | 0 <= i < j < |order| :: order[i] != order[j])
  }

  lemma {:induction false} BusesOfFacts(p: Pairing, order: seq<string>, v: int)
    ensures forall b :: b in BusesOf(p, order, v) <==> b in order && b in p.vmOf && p.vmOf[b] == v
  {
    if order != [] {
      BusesOfFacts(p, order[..|order| - 1], v);
    }
  }

  /** The bus a VM keeps: the one the forward map names if it is among its buses, else the newest. */
  function Keep(busOf: map<int, string>, buses: seq<string>, v: int): string
    requires buses != []
  {
    if v in busOf && busOf[v] in buses then busOf[v] else buses[|buses| - 1]
  }

  function Kept(p: Pairing, order: seq<string>, v: int): string {
    var buses := BusesOf(p, order, v);
    if buses == [] then "" else Keep(p.busOf, buses, v)
  }

  /** A VM whose forward entry names none of its buses keeps the one listed last. */
  lemma {:induction false} KeptIsNewest(p: Pairing, order: seq<string>, v: int, i: nat)
    requires i < |order| && order[i] in p.vmOf && p.vmOf[order[i]] == v
    requires forall j | i < j < |order| :: !(order[j] in p.vmOf && p.vmOf[order[j]] == v)
    requires v in p.busOf ==> !(p.busOf[v] in order && p.busOf[v] in p.vmOf && p.vmOf[p.busOf[v]] == v)
    ensures Kept(p, order, v) == order[i]
  {
    BusesOfFacts(p, order, v);
    LastBus(p, order, v, i);
  }

  lemma {:induction false} LastBus(p: Pairing, order: seq<string>, v: int, i: nat)
    requires i < |order| && order[i] in p.vmOf && p.vmOf[order[i]] == v
    requires forall j | i < j < |order| :: !(order[j] in p.vmOf && p.vmOf[order[j]] == v)
    ensures BusesOf(p, order, v) != [] && BusesOf(p, order, v)[|BusesOf(p, order, v)| - 1] == order[i]
  {
    if i < |order| - 1 {
      LastBus(p, order[..|order| - 1], v, i);
    }
  }

  function Reconciled(p: Pairing, order: seq<string>): Pairing {
    Pairing(p.busOf + map v | v in p.vmOf.Values :: Kept(p, order, v),
            map b | b in p.vmOf && b == Kept(p, order, p.vmOf[b]) :: p.vmOf[b])
  }

  lemma KeptIsOwn(p: Pairing, order: seq<string>, v: int)
    requires Lists(p, order) && Served(p, v)
    ensures Kept(p, order, v) in p.vmOf && p.vmOf[Kept(p, order, v)] == v && v in p.vmOf.Values
  {
    BusesOfFacts(p, order, v);
    var b :| b in p.vmOf && p.vmOf[b] == v;
    var buses := BusesOf(p, order, v);
    assert b in buses;
    assert buses[|buses| - 1] in buses;
  }

  /** The repair takes no VM out of the reverse map, leaves each exactly one bus, one of those it had, and
      makes the forward map say so; a VM no bus serves is left as it is. */
  lemma ReconcileKeepsEveryVm(p: Pairing, order: seq<string>, v: int)
    requires Lists(p, order)
    ensures var q := Reconciled(p, order);
            && (Served(q, v) <==> Served(p, v))
            && (Served(p, v) ==> v in q.busOf && forall b :: (b in q.vmOf && q.vmOf[b] == v <==> b == q.busOf[v]))
            && (Served(p, v) ==> q.busOf[v] in p.vmOf && p.vmOf[q.busOf[v]] == v)
            && (Served(p, v) && v in p.busOf && p.busOf[v] in p.vmOf && p.vmOf[p.busOf[v]] == v ==>
                q.busOf[v] == p.busOf[v])
            && (!Served(p, v) ==> (v in q.busOf <==> v in p.busOf) && (v in p.busOf ==> q.busOf[v] == p.busOf[v]))
  {
    BusesOfFacts(p, order, v);
    if Served(p, v) {
      KeptIsOwn(p, order, v);
      assert Reconciled(p, order).vmOf[Kept(p, order, v)] == v;
    }
  }

  lemma RepairedBus(p: Pairing, order: seq<string>, v: int)
    requires Lists(p, order) && Served(p, v)
    ensures var q, b := Reconciled(p, order), Kept(p, order, v);
            v in q.busOf && q.busOf[v] == b && b in q.vmOf && q.vmOf[b] == v
  {
    KeptIsOwn(p, order, v);
  }

  /** The repaired maps are a clean one-to-one pairing exactly when the forward map held no VM that no bus
      serves: the repair never drops such an entry. */
  lemma ReconcileIsCleanIff(p: Pairing, order: seq<string>)
    requires Lists(p, order) && "" !in p.vmOf
    ensures Matched(Reconciled(p, order)) <==> forall v | v in p.busOf :: Served(p, v)
  {
    forall v | v in p.busOf && !Served(p, v) ensures !Matched(Reconciled(p, order)) {
      StrayStays(p, order, v);
    }
    if forall v | v in p.busOf :: Served(p, v) {
      ServedIsClean(p, order);
    }
  }

  lemma StrayStays(p: Pairing, order: seq<string>, v: int)
    requires v in p.busOf && !Served(p, v)
    ensures !Matched(Reconciled(p, order))
  {
    var q := Reconciled(p, order);
    assert v in q.busOf;
    assert forall b | b in q.vmOf :: b in p.vmOf && q.vmOf[b] == p.vmOf[b] != v;
  }

  lemma ServedIsClean(p: Pairing, order: seq<string>)
    requires Lists(p, order) && "" !in p.vmOf && forall v | v in p.busOf :: Served(p, v)
    ensures Matched(Reconciled(p, order))
  {
    var q := Reconciled(p, order);
    forall v | v in q.busOf ensures q.busOf[v] in q.vmOf && q.vmOf[q.busOf[v]] == v {
      RepairedBus(p, order, v);
    }
    forall b | b in q.vmOf ensures q.vmOf[b] in q.busOf && q.busOf[q.vmOf[b]] == b {
      assert Served(p, q.vmOf[b]);
      RepairedBus(p, order, q.vmOf[b]);
    }
  }

  /** Matched maps need no repair. */
  lemma MatchedNeedsNoRepair(p: Pairing, order: seq<string>)
    requires Lists(p, order) && Matched(p)
    ensures Reconciled(p, order) == p
  {
    var q := Reconciled(p, order);
    forall v ensures (v in q.busOf <==> v in p.busOf) && (v in p.busOf ==> q.busOf[v] == p.busOf[v]) {
      ReconcileKeepsEveryVm(p, order, v);
    }
    forall b | b in p.vmOf ensures b in q.vmOf && q.vmOf[b] == p.vmOf[b] {
      assert Served(p, p.vmOf[b]);
      ReconcileKeepsEveryVm(p, order, p.vmOf[b]);
    }
    assert q.busOf == p.busOf && q.vmOf == p.vmOf;
  }

  ghost predicate Grouped(p: Pairing, order: seq<string>, groups: map<int, seq<string>>) {
    forall v :: (v in groups <==> BusesOf(p, order, v) != []) && (v in groups ==> groups[v] == BusesOf(p, order, v))
  }

  /** The maps half way through the repair: the VMs in `done` have theirs. */
  ghost predicate Forward(p: Pairing, order: seq<string>, busOf: map<int, string>, done: set<int>) {
    && (forall v :: v in busOf <==> v in p.busOf || v in done)
    && (forall v | v in busOf :: busOf[v] == if v in done then Kept(p, order, v) else p.busOf[v])
  }

  ghost predicate Reverse(p: Pairing, order: seq<string>, vmOf: map<string, int>, done: set<int>) {
    && (forall b :: b in vmOf <==> b in p.vmOf && (p.vmOf[b] !in done || b == Kept(p, order, p.vmOf[b])))
    && (forall b | b in vmOf :: vmOf[b] == p.vmOf[b])
  }

  lemma OneMore(p: Pairing, order: seq<string>, vmOf: map<string, int>, done: set<int>, v: int)
    requires Lists(p, order) && Reverse(p, order, vmOf, done) && v !in done && BusesOf(p, order, v) != []
    ensures var buses := BusesOf(p, order, v);
            Reverse(p, order, map b | b in vmOf && (b !in buses || b == Keep(p.busOf, buses, v)) :: vmOf[b], done + {v})
  {
    BusesOfFacts(p, order, v);
    var buses := BusesOf(p, order, v);
    var keep := Keep(p.busOf, buses, v);
    var next := map b | b in vmOf && (b !in buses || b == keep) :: vmOf[b];
    assert Kept(p, order, v) == keep;
    forall b ensures b in next <==> b in p.vmOf && (p.vmOf[b] !in done + {v} || b == Kept(p, order, p.vmOf[b])) {
      assert b in buses <==> b in p.vmOf && p.vmOf[b] == v;
    }
  }

  lemma AllForward(p: Pairing, order: seq<string>, busOf: map<int, string>)
    requires Forward(p, order, busOf, p.vmOf.Values)
    ensures busOf == Reconciled(p, order).busOf
  {
    var r := Reconciled(p, order).busOf;
    forall v ensures (v in busOf <==> v in r) && (v in busOf ==> busOf[v] == r[v]) {
    }
  }

  lemma AllReverse(p: Pairing, order: seq<string>, vmOf: map<string, int>)
    requires Reverse(p, order, vmOf, p.vmOf.Values)
    ensures vmOf == Reconciled(p, order).vmOf
  {
    assert forall b | b in p.vmOf :: p.vmOf[b] in p.vmOf.Values;
  }

  lemma ForwardMore(p: Pairing, order: seq<string>, busOf: map<int, string>, done: set<int>, v: int)
    requires Forward(p, order, busOf, done) && v !in done && BusesOf(p, order, v) != []
    ensures Keep(busOf, BusesOf(p, order, v), v) == Keep(p.busOf, BusesOf(p, order, v), v)
    ensures Forward(p, order, busOf[v := Keep(busOf, BusesOf(p, order, v), v)], done + {v})
  {
  }

  class Store {
    var p: Pairing

    constructor ()
      ensures p == EMPTY
    {
      p := EMPTY;
    }

    /** `clear_assignment`. */
    method ClearAssignment(v: int, hint: string)
      modifies this
      ensures p == Cleared(old(p), v, hint)
    {
      var b := hint;
      if v in p.busOf && p.busOf[v] != "" {
        b := p.busOf[v];
      }
      var vmOf := p.vmOf;
      if b != "" {
        vmOf := vmOf - {b};
      }
      p := Pairing(p.busOf - {v}, vmOf);
    }

    /** `set_assignment`. */
    method SetAssignment(v: int, bus: string)
      modifies this
      ensures p == Assigned(old(p), v, bus)
    {
      var busOf, vmOf := p.busOf, p.vmOf;
      if v in busOf && busOf[v] != "" && busOf[v] != bus {
        vmOf := vmOf - {busOf[v]};
      }
      if bus in vmOf && vmOf[bus] != v {
        busOf := busOf - {vmOf[bus]};
      }
      p := Pairing(busOf[v := bus], vmOf[bus := v]);
    }

    /** The buses of each VM, in the order of the reverse map. */
    method Group(order: seq<string>) returns (groups: map<int, seq<string>>)
      requires Lists(p, order)
      ensures Grouped(p, order, groups)
    {
      groups := map[];
      for i := 0 to |order|
        invariant Grouped(p, order[..i], groups)
      {
        assert order[..i + 1][..i] == order[..i];
        var b := order[i];
        assert b in order;
        var v := p.vmOf[b];
        groups := groups[v := (if v in groups then groups[v] else []) + [b]];
      }
      assert order[..|order|] == order;
    }

    /** `reconcile_bus_map`. */
    method ReconcileBusMap(order: seq<string>)
      requires Lists(p, order)
      modifies this
      ensures p == Reconciled(old(p), order)
    {
      var groups := Group(order);
      var busOf, vmOf := p.busOf, p.vmOf;
      var left: set<int> := groups.Keys;
      ghost var done: set<int> := {};
      while left != {}
        invariant p == old(p) && left !! done && left + done == groups.Keys && Grouped(p, order, groups)
        invariant Forward(p, order, busOf, done) && Reverse(p, order, vmOf, done)
        decreases |left|
      {
        assert (forall v :: v !in left) ==> left == {};
        var v :| v in left;
        ForwardMore(p, order, busOf, done, v);
        OneMore(p, order, vmOf, done, v);
        busOf, vmOf := Settled(busOf, vmOf, v, groups[v]);
        left, done := left - {v}, done + {v};
      }
      AllGrouped(p, order, groups);
      AllForward(p, order, busOf);
      AllReverse(p, order, vmOf);
      p := Pairing(busOf, vmOf);
    }
  }

  lemma HasBuses(p: Pairing, order: seq<string>, v: int)
    requires Lists(p, order)
    ensures BusesOf(p, order, v) != [] <==> v in p.vmOf.Values
  {
    BusesOfFacts(p, order, v);
    if v in p.vmOf.Values {
      var b :| b in p.vmOf && p.vmOf[b] == v;
      assert b in BusesOf(p, order, v);
    }
    assert BusesOf(p, order, v) != [] ==> BusesOf(p, order, v)[0] in BusesOf(p, order, v);
  }

  lemma AllGrouped(p: Pairing, order: seq<string>, groups: map<int, seq<string>>)
    requires Lists(p, order) && Grouped(p, order, groups)
    ensures groups.Keys == p.vmOf.Values
  {
    forall v ensures v in groups <==> v in p.vmOf.Values {
      HasBuses(p, order, v);
    }
  }

  /** One VM of the repair: all its buses but the kept one leave the reverse map. */
  method Settled(busOf: map<int, string>, vmOf: map<string, int>, v: int, buses: seq<string>)
    returns (newBusOf: map<int, string>, newVmOf: map<string, int>)
    requires buses != []
    ensures newBusOf == busOf[v := Keep(busOf, buses, v)]
    ensures newVmOf == map b | b in vmOf && (b !in buses || b == Keep(busOf, buses, v)) :: vmOf[b]
  {
    newBusOf, newVmOf := busOf, vmOf;
    if |buses| == 1 {
      if v !in busOf || busOf[v] != buses[0] {
        newBusOf := busOf[v := buses[0]];
      }
      return;
    }
    var keep := if v in busOf && busOf[v] in buses then busOf[v] else buses[|buses| - 1];
    for i := 0 to |buses|
      invariant newBusOf == busOf && newVmOf == map b | b in vmOf && (b !in buses[..i] || b == keep) :: vmOf[b]
    {
      if buses[i] != keep {
        newVmOf := newVmOf - {buses[i]};
      }
    }
    if v !in busOf || busOf[v] != keep {
      newBusOf := busOf[v := keep];
    }
  }
}
