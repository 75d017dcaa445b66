/** Which agent carries out which item of a bulk VM action (src/proxmox_spoke.py, `_route_vm_bulk` and
    `_resolve_agent_for_vm`). */
module BulkRouting {
  import opened Options

  /** A connected agent, in the order of connection; "" and no cluster name are different things. */
  datatype Agent = Agent(id: string, cluster: Option<string>)

  datatype Item = Item(agentId: string, uniqueId: string, vm: string)

  /** What comes back for an item, and from which agent. */
  datatype Row = Row(agent: string, item: Item)

  datatype Result = NoAgents | Rows(rows: seq<Row>)

  /** The part of an id before the first slash. */
  function Cluster(uniqueId: string): string {
    if uniqueId == "" || uniqueId[0] == '/' then "" else [uniqueId[0]] + Cluster(uniqueId[1..])
  }

  /** The cluster of an id is what stands before its first slash. */
  lemma {:induction false} ClusterIsBeforeSlash(cluster: string, rest: string)
    requires '/' !in cluster
    ensures Cluster(cluster + "/" + rest) == cluster && Cluster(cluster) == cluster
  {
    if cluster != "" {
      assert (cluster + "/" + rest)[1..] == cluster[1..] + "/" + rest;
      ClusterIsBeforeSlash(cluster[1..], rest);
    }
  }

  // ── one item: a scan ───────────────────────────────────────────────────────

  /** The first agent of a cluster, "" if there is none. */
  function Scan(agents: seq<Agent>, cluster: string): string {
    if agents == [] then ""
    else if agents[0].cluster == Some(cluster) then agents[0].id else Scan(agents[1..], cluster)
  }

  /** `_resolve_agent_for_vm`. */
  function Resolve(agents: seq<Agent>, item: Item): Option<string> {
    var found :=
      if item.agentId == "" && '/' in item.uniqueId then Scan(agents, Cluster(item.uniqueId)) else item.agentId;
    if found != "" then Some(found) else if agents == [] then None else Some(agents[0].id)
  }

  // ── many items: an index ───────────────────────────────────────────────────

  /** Each named cluster's first agent. */
  function Index(agents: seq<Agent>): map<string, string> {
    if agents == [] then map[]
    else
      var front, last := Index(agents[..|agents| - 1]), agents[|agents| - 1];
      if last.cluster.Some? && last.cluster.value != "" && last.cluster.value !in front
      then front[last.cluster.value := last.id] else front
  }

  /** The agent of an item: the one named, the one the index has for its cluster, or the default. */
  function RouteBy(index: map<string, string>, defaultAgent: string, item: Item): string {
    var cluster := Cluster(item.uniqueId);
    var found :=
      if item.agentId == "" && '/' in item.uniqueId then (if cluster in index then index[cluster] else "")
      else item.agentId;
    if found != "" then found else defaultAgent
  }

  function Route(agents: seq<Agent>, item: Item): string
    requires agents != []
  {
    RouteBy(Index(agents), agents[0].id, item)
  }

  predicate HasAgent(agents: seq<Agent>, cluster: string) {
    exists a | a in agents :: a.cluster == Some(cluster)
  }

  lemma HasAgentTail(agents: seq<Agent>, cluster: string)
    requires agents != []
    ensures HasAgent(agents, cluster) <==> agents[0].cluster == Some(cluster) || HasAgent(agents[1..], cluster)
  {
    assert agents == [agents[0]] + agents[1..];
  }

  lemma {:induction false} ScanFromTheEnd(agents: seq<Agent>, cluster: string)
    requires agents != []
    ensures var front, last := agents[..|agents| - 1], agents[|agents| - 1];
            Scan(agents, cluster) ==
              if HasAgent(front, cluster) then Scan(front, cluster)
              else if last.cluster == Some(cluster) then last.id else ""
  {
    if |agents| > 1 {
      var front := agents[..|agents| - 1];
      HasAgentTail(front, cluster);
      if agents[0].cluster != Some(cluster) {
        ScanFromTheEnd(agents[1..], cluster);
        assert agents[1..][..|agents| - 2] == front[1..];
      }
    }
  }

  /** The index holds what the scan finds, for every cluster with a name. */
  lemma {:induction false} IndexIsScan(agents: seq<Agent>, cluster: string)
    ensures cluster in Index(agents) <==> cluster != "" && exists a | a in agents :: a.cluster == Some(cluster)
    ensures cluster in Index(agents) ==> Index(agents)[cluster] == Scan(agents, cluster)
  {
    if agents != [] {
      var front, last := agents[..|agents| - 1], agents[|agents| - 1];
      IndexIsScan(front, cluster);
      ScanFromTheEnd(agents, cluster);
      assert agents == front + [last];
    }
  }

  lemma {:induction false} ScanMisses(agents: seq<Agent>, cluster: string)
    requires forall a | a in agents :: a.cluster != Some(cluster)
    ensures Scan(agents, cluster) == ""
  {
    if agents != [] {
      assert agents[0] in agents;
      ScanMisses(agents[1..], cluster);
    }
  }

  /** For one item the index and the scan pick the same agent unless the item's cluster part is empty and
      some other agent than the default one is the first with an empty cluster name. */
  lemma RoutesAgreeIff(agents: seq<Agent>, item: Item)
    requires agents != []
    ensures Resolve(agents, item) == Some(Route(agents, item)) <==>
      !(item.agentId == "" && '/' in item.uniqueId && Cluster(item.uniqueId) == "" && Scan(agents, "") !in {"", agents[0].id})
  {
    var cluster := Cluster(item.uniqueId);
    IndexIsScan(agents, cluster);
    if forall a | a in agents :: a.cluster != Some(cluster) {
      ScanMisses(agents, cluster);
    }
  }

  /** They agree on all items exactly when no agent has an empty cluster name, or the first such agent is
      the default one. */
  lemma AlwaysAgreeIff(agents: seq<Agent>)
    requires agents != []
    ensures (forall item :: Resolve(agents, item) == Some(Route(agents, item))) <==> Scan(agents, "") in {"", agents[0].id}
  {
    forall item ensures Scan(agents, "") in {"", agents[0].id} ==> Resolve(agents, item) == Some(Route(agents, item)) {
      RoutesAgreeIff(agents, item);
    }
    var probe := Item("", "/", "");
    RoutesAgreeIff(agents, probe);
  }

  /** Agent `k` is the first one of the cluster. */
  predicate FirstOf(agents: seq<Agent>, cluster: string, k: nat) {
    k < |agents| && agents[k].cluster == Some(cluster) && forall j | 0 <= j < k :: agents[j].cluster != Some(cluster)
  }

  lemma {:induction false} ScanIsFirst(agents: seq<Agent>, cluster: string, k: nat)
    requires FirstOf(agents, cluster, k)
    ensures Scan(agents, cluster) == agents[k].id
  {
    if k > 0 {
      ScanIsFirst(agents[1..], cluster, k - 1);
    }
  }

  /** Where an item of a bulk action goes: to the agent it names; else, with an id of the form cluster/rest, to the
      first agent of that cluster, if it has a name; else, and without a slash, to the agent connected first. */
  lemma RouteIs(agents: seq<Agent>, item: Item, cluster: string, rest: string, k: nat)
    requires agents != [] && '/' !in cluster
    ensures item.agentId != "" ==> Route(agents, item) == item.agentId
    ensures item.agentId == "" && item.uniqueId == cluster + "/" + rest && cluster != "" && FirstOf(agents, cluster, k)
              && agents[k].id != "" ==>
              Route(agents, item) == agents[k].id
    ensures item.agentId == "" && item.uniqueId == cluster + "/" + rest
              && (cluster == "" || forall a | a in agents :: a.cluster != Some(cluster)) ==>
              Route(agents, item) == agents[0].id
    ensures item.agentId == "" && '/' !in item.uniqueId ==> Route(agents, item) == agents[0].id
  {
    ClusterIsBeforeSlash(cluster, rest);
    IndexIsScan(agents, cluster);
    if item.uniqueId == cluster + "/" + rest {
      assert item.uniqueId[|cluster|] == '/';
      if FirstOf(agents, cluster, k) {
        ScanIsFirst(agents, cluster, k);
      }
    }
  }

  // ── grouping ───────────────────────────────────────────────────────────────

  /** The items of one agent, in the order they were given. */
  function ItemsFor(agents: seq<Agent>, items: seq<Item>, agent: string): seq<Item>
    requires agents != []
  {
    if items == [] then []
    else
      var front, last := ItemsFor(agents, items[..|items| - 1], agent), items[|items| - 1];
      if Route(agents, last) == agent then front + [last] else front
  }

  /** The rows of one agent, in the order they come back. */
  function RowsOf(rows: seq<Row>, agent: string): seq<Row> {
    if rows == [] then []
    else
      var front, last := RowsOf(rows[..|rows| - 1], agent), rows[|rows| - 1];
      if last.agent == agent then front + [last] else front
  }

  function RowsFrom(agent: string, items: seq<Item>): seq<Row> {
    if items == [] then [] else RowsFrom(agent, items[..|items| - 1]) + [Row(agent, items[|items| - 1])]
  }

  /** Every item once, with the agent it belongs to. */
  function Assigned(agents: seq<Agent>, items: seq<Item>): seq<Row>
    requires agents != []
  {
    if items == [] then []
    else
      var last := items[|items| - 1];
      Assigned(agents, items[..|items| - 1]) + [Row(Route(agents, last), last)]
  }

  lemma {:induction false} AssignedFacts(agents: seq<Agent>, items: seq<Item>, agent: string)
    requires agents != []
    ensures |Assigned(agents, items)| == |items|
    ensures RowsOf(Assigned(agents, items), agent) == RowsFrom(agent, ItemsFor(agents, items, agent))
  {
    if items != [] {
      var front, last := items[..|items| - 1], items[|items| - 1];
      AssignedFacts(agents, front, agent);
      var rows, mine := Assigned(agents, front), ItemsFor(agents, front, agent);
      assert (rows + [Row(Route(agents, last), last)])[..|rows|] == rows;
      assert (mine + [last])[..|mine|] == mine;
    }
  }

  lemma {:induction false} RowsOfAppend(a: seq<Row>, b: seq<Row>, agent: string)
    ensures RowsOf(a + b, agent) == RowsOf(a, agent) + RowsOf(b, agent)
  {
    if b == [] {
      assert a + b == a;
    } else {
      assert (a + b)[..|a + b| - 1] == a + b[..|b| - 1];
      RowsOfAppend(a, b[..|b| - 1], agent);
    }
  }

  lemma {:induction false} RowsOfRowsFrom(from: string, items: seq<Item>, agent: string)
    ensures RowsOf(RowsFrom(from, items), agent) == if from == agent then RowsFrom(from, items) else []
  {
    if items != [] {
      RowsOfRowsFrom(from, items[..|items| - 1], agent);
      var front := RowsFrom(from, items[..|items| - 1]);
      assert (front + [Row(from, items[|items| - 1])])[..|front|] == front;
    }
  }

  lemma {:induction false} CountInRows(rows: seq<Row>, r: Row)
    ensures multiset(rows)[r] == multiset(RowsOf(rows, r.agent))[r]
  {
    if rows != [] {
      CountInRows(rows[..|rows| - 1], r);
      assert rows == rows[..|rows| - 1] + [rows[|rows| - 1]];
    }
  }

  /** Each agent's rows are those of its items, in their order. */
  ghost predicate Faithful(agents: seq<Agent>, items: seq<Item>, rows: seq<Row>)
    requires agents != []
  {
    forall agent :: RowsOf(rows, agent) == RowsFrom(agent, ItemsFor(agents, items, agent))
  }

  /** Faithful rows are the items' rows, each exactly once. */
  lemma FaithfulMeansOnceEach(agents: seq<Agent>, items: seq<Item>, rows: seq<Row>)
    requires agents != [] && Faithful(agents, items, rows)
    ensures multiset(rows) == multiset(Assigned(agents, items)) && |rows| == |items|
  {
    forall r: Row ensures multiset(rows)[r] == multiset(Assigned(agents, items))[r] {
      CountInRows(rows, r);
      CountInRows(Assigned(agents, items), r);
      AssignedFacts(agents, items, r.agent);
    }
    AssignedFacts(agents, items, "");
    assert multiset(rows) == multiset(Assigned(agents, items));
    assert |multiset(rows)| == |multiset(Assigned(agents, items))|;
  }

  method BuildIndex(agents: seq<Agent>) returns (index: map<string, string>)
    ensures index == Index(agents)
  {
    index := map[];
    for i := 0 to |agents|
      invariant index == Index(agents[..i])
    {
      assert agents[..i + 1][..i] == agents[..i];
      var cn := agents[i].cluster;
      if cn.Some? && cn.value != "" && cn.value !in index {
        index := index[cn.value := agents[i].id];
      }
    }
    assert agents[..|agents|] == agents;
  }

  /** Every agent of the order has a group, each once, and no other. */
  ghost predicate Ordered(order: seq<string>, groups: map<string, seq<Item>>) {
    && (forall i, j | 0 <= i < j < |order| :: order[i] != order[j])
    && (forall a :: a in order <==> a in groups)
  }

  /** An agent's group is its items. */
  predicate GroupIs(agents: seq<Agent>, items: seq<Item>, groups: map<string, seq<Item>>, a: string)
    requires agents != []
  {
    ItemsFor(agents, items, a) == if a in groups then groups[a] else []
  }

  ghost predicate Grouped(agents: seq<Agent>, items: seq<Item>, order: seq<string>, groups: map<string, seq<Item>>)
    requires agents != []
  {
    Ordered(order, groups) && forall a :: GroupIs(agents, items, groups, a)
  }

  function Added(groups: map<string, seq<Item>>, target: string, item: Item): map<string, seq<Item>> {
    groups[target := (if target in groups then groups[target] else []) + [item]]
  }

  lemma GroupedStep(agents: seq<Agent>, items: seq<Item>, i: nat, order: seq<string>, groups: map<string, seq<Item>>)
    requires agents != [] && i < |items| && Grouped(agents, items[..i], order, groups)
    ensures var target := Route(agents, items[i]);
            Grouped(agents, items[..i + 1], if target in groups then order else order + [target],
                    Added(groups, target, items[i]))
  {
    OrderGrows(order, groups, Route(agents, items[i]), items[i]);
    var more, next := items[..i + 1], Added(groups, Route(agents, items[i]), items[i]);
    forall a ensures GroupIs(agents, more, next, a) {
      assert GroupIs(agents, items[..i], groups, a);
      GroupGrows(agents, items, i, groups, a);
    }
  }

  lemma GroupGrows(agents: seq<Agent>, items: seq<Item>, i: nat, groups: map<string, seq<Item>>, a: string)
    requires agents != [] && i < |items| && GroupIs(agents, items[..i], groups, a)
    ensures GroupIs(agents, items[..i + 1], Added(groups, Route(agents, items[i]), items[i]), a)
  {
    assert items[..i + 1][..i] == items[..i];
  }

  lemma OrderGrows(order: seq<string>, groups: map<string, seq<Item>>, target: string, item: Item)
    requires Ordered(order, groups)
    ensures Ordered(if target in groups then order else order + [target], Added(groups, target, item))
  {
  }

  /** The items by agent; `order` is the order in which the agents first occur. */
  method Group(agents: seq<Agent>, items: seq<Item>) returns (order: seq<string>, groups: map<string, seq<Item>>)
    requires agents != []
    ensures Grouped(agents, items, order, groups)
  {
    var index := BuildIndex(agents);
    var defaultAgent := agents[0].id;
    order, groups := [], map[];
    NothingGrouped(agents);
    for i := 0 to |items|
      invariant Grouped(agents, items[..i], order, groups)
    {
      var item := items[i];
      var target := RouteBy(index, defaultAgent, item);
      GroupedStep(agents, items, i, order, groups);
      if target !in groups {
        order := order + [target];
      }
      groups := Added(groups, target, item);
    }
    assert items[..|items|] == items;
  }

  lemma NothingGrouped(agents: seq<Agent>)
    requires agents != []
    ensures Grouped(agents, [], [], map[])
  {
  }

  /** The rows of the agents of `order` are merged. */
  ghost predicate Merged(groups: map<string, seq<Item>>, order: seq<string>, rows: seq<Row>)
    requires forall a | a in order :: a in groups
  {
    forall a :: RowsAre(groups, order, rows, a)
  }

  predicate RowsAre(groups: map<string, seq<Item>>, order: seq<string>, rows: seq<Row>, a: string)
    requires forall a | a in order :: a in groups
  {
    RowsOf(rows, a) == if a in order then RowsFrom(a, groups[a]) else []
  }

  lemma MergedStep(groups: map<string, seq<Item>>, order: seq<string>, rows: seq<Row>, aid: string)
    requires forall a | a in order + [aid] :: a in groups
    requires aid !in order && Merged(groups, order, rows) && aid in groups
    ensures Merged(groups, order + [aid], rows + RowsFrom(aid, groups[aid]))
  {
    var next, more := order + [aid], rows + RowsFrom(aid, groups[aid]);
    forall a ensures RowsAre(groups, next, more, a) {
      assert RowsAre(groups, order, rows, a);
      RowsGrow(groups, order, rows, aid, a);
    }
  }

  lemma RowsGrow(groups: map<string, seq<Item>>, order: seq<string>, rows: seq<Row>, aid: string, a: string)
    requires forall a | a in order + [aid] :: a in groups
    requires aid !in order && RowsAre(groups, order, rows, a) && aid in groups
    ensures RowsAre(groups, order + [aid], rows + RowsFrom(aid, groups[aid]), a)
  {
    RowsOfAppend(rows, RowsFrom(aid, groups[aid]), a);
    RowsOfRowsFrom(aid, groups[aid], a);
    assert a in order + [aid] <==> a in order || a == aid;
  }

  lemma MergedIsFaithful(agents: seq<Agent>, items: seq<Item>, order: seq<string>, groups: map<string, seq<Item>>,
                         rows: seq<Row>)
    requires agents != [] && Grouped(agents, items, order, groups) && Merged(groups, order, rows)
    ensures Faithful(agents, items, rows)
  {
    forall agent ensures RowsOf(rows, agent) == RowsFrom(agent, ItemsFor(agents, items, agent)) {
      assert GroupIs(agents, items, groups, agent) && RowsAre(groups, order, rows, agent);
    }
  }

  /** The rows of the agents, one after the other. */
  method MergeRows(order: seq<string>, groups: map<string, seq<Item>>) returns (merged: seq<Row>)
    requires (forall a | a in order :: a in groups) && forall i, j | 0 <= i < j < |order| :: order[i] != order[j]
    ensures Merged(groups, order, merged)
  {
    merged := [];
    for i := 0 to |order|
      invariant Merged(groups, order[..i], merged)
    {
      assert order[..i + 1] == order[..i] + [order[i]] && order[i] !in order[..i];
      MergedStep(groups, order[..i], merged, order[i]);
      merged := merged + RowsFrom(order[i], groups[order[i]]);
    }
    assert order[..|order|] == order;
  }

  /** `_route_vm_bulk`: every item is carried out exactly once, by the agent it belongs to; one row each. */
  method RouteVmBulk(agents: seq<Agent>, items: seq<Item>) returns (result: Result)
    ensures agents == [] <==> result.NoAgents?
    ensures agents != [] ==> Faithful(agents, items, result.rows)
    ensures agents != [] ==> multiset(result.rows) == multiset(Assigned(agents, items)) && |result.rows| == |items|
  {
    if agents == [] {
      return NoAgents;
    }
    var order, groups := Group(agents, items);
    var merged := MergeRows(order, groups);
    MergedIsFaithful(agents, items, order, groups, merged);
    FaithfulMeansOnceEach(agents, items, merged);
    result := Rows(merged);
  }
}
