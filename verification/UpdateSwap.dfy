/** The self-update: snapshot, item-by-item swap by renames, and restore (agent/src/agent.py,
    `_apply_update`; agent/src/update_recovery.py, `snapshot_code` and `restore_snapshot`). The install
    directory is a map from names to trees; every state it passes through is kept, so that a crash after
    any step is a state of that history. */
module UpdateSwap {
  import opened Options

  datatype Node = File(data: string) | Dir(entries: map<string, Node>) | Link(target: string) | Special

  type Directory = map<string, Node>

  function Get(d: Directory, name: string): Option<Node> {
    if name in d then Some(d[name]) else None
  }

  // ── an item of the new release, and what may go wrong with it ──────────────

  /** An entry of the release, read through its links, and the three names its swap uses in the install
      directory. Copying it fails when it holds a dangling link or a special file. */
  datatype Item = Item(name: string, tmpNew: string, tmpOld: string, node: Node)

  predicate WellNamed(item: Item) {
    item.name != item.tmpNew && item.name != item.tmpOld && item.tmpNew != item.tmpOld
    && item.tmpNew !in KEPT && item.tmpOld !in KEPT
  }

  const KEPT := {".env", "venv"}
  const SRC := "src"

  /** What the file system does while one item is swapped: the states a tree passes through while it is
      copied or deleted (any trees at all), and what a deletion whose errors are ignored leaves. */
  datatype Luck = Luck(clearingNew: seq<Node>, leftNew: Option<Node>, clearingOld: seq<Node>, leftOld: Option<Node>,
                       copying: seq<Node>, dropping: seq<Node>, leftLast: Option<Node>)

  /** The states in which `name` holds each of `nodes` in turn. */
  function Shows(d: Directory, name: string, nodes: seq<Node>): seq<Directory> {
    if nodes == [] then [] else Shows(d, name, nodes[..|nodes| - 1]) + [d[name := nodes[|nodes| - 1]]]
  }

  function End(d: Directory, trace: seq<Directory>): Directory {
    if trace == [] then d else trace[|trace| - 1]
  }

  function Without(d: Directory, name: string, left: Option<Node>): Directory {
    if left.Some? then d[name := left.value] else d - {name}
  }

  /** `rmtree(ignore_errors=True)`: nothing happens to what is not a directory. */
  function RmtreeTrace(d: Directory, name: string, partial: seq<Node>, left: Option<Node>): seq<Directory> {
    if name in d && d[name].Dir? then Shows(d, name, partial) + [Without(d, name, left)] else []
  }

  /** Leftovers of an aborted run are cleared: trees by rmtree, anything else by unlink. */
  function ClearTrace(d: Directory, name: string, partial: seq<Node>, left: Option<Node>): seq<Directory> {
    if name in d && !d[name].Dir? then (if left.Some? then [] else [d - {name}])
    else RmtreeTrace(d, name, partial, left)
  }

  /** `rename` onto `to`: replaces a file by a file or an empty directory by a directory, else fails. */
  predicate CanRename(d: Directory, from: string, to: string) {
    from in d && (to in d ==> if d[from].Dir? then d[to] == Dir(map[]) else !d[to].Dir?)
  }

  function Renamed(d: Directory, from: string, to: string): Directory
    requires from in d
  {
    (d - {from})[to := d[from]]
  }

  /** Copying a file to a path; a directory that is there receives it. */
  function CopiedTo(d: Directory, item: Item, to: string): Node {
    if to in d && d[to].Dir? then Dir(d[to].entries[item.name := item.node]) else item.node
  }

  /** All states of one item's swap, and whether it went through. */
  datatype Swap = Swap(trace: seq<Directory>, ok: bool)

  function Cleared(d: Directory, item: Item, luck: Luck): seq<Directory> {
    var t1 := ClearTrace(d, item.tmpNew, luck.clearingNew, luck.leftNew);
    t1 + ClearTrace(End(d, t1), item.tmpOld, luck.clearingOld, luck.leftOld)
  }

  /** A directory item once the leftovers are cleared: copy, move the old aside, move the new in, drop the
      old. */
  function SwapDirFrom(d2: Directory, item: Item, luck: Luck): Swap {
    if item.tmpNew in d2 then Swap([], false)
    else if !Plain(item.node) then Swap(Shows(d2, item.tmpNew, luck.copying), false)
    else
      var d3 := d2[item.tmpNew := item.node];
      After(Shows(d2, item.tmpNew, luck.copying) + [d3], MovedIn(d3, item, luck))
  }

  function MovedIn(d3: Directory, item: Item, luck: Luck): Swap {
    if item.name in d3 && !CanRename(d3, item.name, item.tmpOld) then Swap([], false)
    else
      var d4 := if item.name in d3 then Renamed(d3, item.name, item.tmpOld) else d3;
      var t4 := if item.name in d3 then [d4] else [];
      if item.tmpNew !in d4 then Swap(t4, false)
      else
        var d5 := Renamed(d4, item.tmpNew, item.name);
        Swap(t4 + ([d5] + RmtreeTrace(d5, item.tmpOld, luck.dropping, luck.leftLast)), true)
  }

  /** A file item once the leftovers are cleared: copy, replace. */
  function SwapFileFrom(d2: Directory, item: Item, luck: Luck): Swap {
    var d3 := d2[item.tmpNew := CopiedTo(d2, item, item.tmpNew)];
    var t3 := Shows(d2, item.tmpNew, luck.copying) + [d3];
    if !Plain(item.node) then Swap(Shows(d2, item.tmpNew, luck.copying), false)
    else if !CanRename(d3, item.tmpNew, item.name) then Swap(t3, false)
    else Swap(t3 + [Renamed(d3, item.tmpNew, item.name)], true)
  }

  function After(front: seq<Directory>, last: Swap): Swap {
    Swap(front + last.trace, last.ok)
  }

  function SwapDir(d: Directory, item: Item, luck: Luck): Swap {
    var t := Cleared(d, item, luck);
    After(t, SwapDirFrom(End(d, t), item, luck))
  }

  function SwapFile(d: Directory, item: Item, luck: Luck): Swap {
    var t := Cleared(d, item, luck);
    After(t, SwapFileFrom(End(d, t), item, luck))
  }

  function SwapItem(d: Directory, item: Item, luck: Luck): Swap {
    if item.name in KEPT then Swap([], true)
    else if item.node.Dir? then SwapDir(d, item, luck)
    else SwapFile(d, item, luck)
  }

  /** The items one after the other; the first that fails ends it. */
  function SwapAll(d: Directory, items: seq<Item>, lucks: seq<Luck>): Swap
    requires |lucks| == |items|
  {
    if items == [] then Swap([], true)
    else
      var n := |items| - 1;
      Extended(d, SwapAll(d, items[..n], lucks[..n]), items[n], lucks[n])
  }

  function Extended(d: Directory, front: Swap, item: Item, luck: Luck): Swap {
    if !front.ok then front
    else
      var last := SwapItem(End(d, front.trace), item, luck);
      After(front.trace, last)
  }

  // ── crash safety of one item ───────────────────────────────────────────────

  /** A directory item's path holds the whole old tree or the whole new one, or is absent while both are
      complete under the two temporary names. */
  predicate DirSafe(was: Option<Node>, item: Item, d: Directory) {
    || Get(d, item.name) == was
    || Get(d, item.name) == Some(item.node)
    || (was.Some? && Get(d, item.name) == None && Get(d, item.tmpOld) == was
        && Get(d, item.tmpNew) == Some(item.node))
  }

  /** A file item's path holds the old file or the new one; a directory is never replaced by a file. */
  predicate FileSafe(was: Option<Node>, item: Item, d: Directory) {
    || Get(d, item.name) == was
    || (Get(d, item.name) == Some(item.node) && !(was.Some? && was.value.Dir?))
  }

  /** Clearing left no directory under the temporary name of a file item. */
  predicate CleanStart(item: Item, luck: Luck) {
    !item.node.Dir? ==> luck.leftNew.None? || !luck.leftNew.value.Dir?
  }

  predicate ItemSafe(was: Option<Node>, item: Item, d: Directory) {
    if item.node.Dir? then DirSafe(was, item, d) else FileSafe(was, item, d)
  }

  /** The two directories differ at most at the given names. */
  ghost predicate SameBut(d: Directory, s: Directory, names: set<string>) {
    forall name | name !in names :: Get(s, name) == Get(d, name)
  }

  ghost predicate AllSameBut(d: Directory, trace: seq<Directory>, names: set<string>) {
    forall s | s in trace :: SameBut(d, s, names)
  }

  lemma SameButTrans(d: Directory, e: Directory, trace: seq<Directory>, names: set<string>, more: set<string>)
    requires SameBut(d, e, names) && AllSameBut(e, trace, more)
    ensures AllSameBut(d, trace, names + more)
  {
    forall s | s in trace ensures SameBut(d, s, names + more) {
      forall name | name !in names + more ensures Get(s, name) == Get(d, name) {
        assert Get(s, name) == Get(e, name) == Get(d, name);
      }
    }
  }

  lemma {:induction false} ShowsFacts(d: Directory, name: string, nodes: seq<Node>)
    ensures AllSameBut(d, Shows(d, name, nodes), {name})
  {
    if nodes != [] {
      ShowsFacts(d, name, nodes[..|nodes| - 1]);
    }
  }

  lemma RmtreeFacts(d: Directory, name: string, partial: seq<Node>, left: Option<Node>)
    ensures var t := RmtreeTrace(d, name, partial, left);
            AllSameBut(d, t, {name}) && SameBut(d, End(d, t), {name})
  {
    ShowsFacts(d, name, partial);
    assert SameBut(d, Without(d, name, left), {name});
  }

  lemma ClearFacts(d: Directory, name: string, partial: seq<Node>, left: Option<Node>)
    ensures var t := ClearTrace(d, name, partial, left);
            && AllSameBut(d, t, {name}) && SameBut(d, End(d, t), {name})
            && (name in End(d, t) && End(d, t)[name].Dir? ==> left.Some? && left.value.Dir?)
  {
    RmtreeFacts(d, name, partial, left);
  }

  lemma ClearedFacts(d: Directory, item: Item, luck: Luck)
    requires WellNamed(item)
    ensures var t, temps := Cleared(d, item, luck), {item.tmpNew, item.tmpOld};
            && AllSameBut(d, t, temps) && SameBut(d, End(d, t), temps)
            && (CleanStart(item, luck) && !item.node.Dir? && item.tmpNew in End(d, t)
                ==> !End(d, t)[item.tmpNew].Dir?)
  {
    var tmpNew, tmpOld := item.tmpNew, item.tmpOld;
    var t1 := ClearTrace(d, tmpNew, luck.clearingNew, luck.leftNew);
    ClearFacts(d, tmpNew, luck.clearingNew, luck.leftNew);
    var d1 := End(d, t1);
    var t2 := ClearTrace(d1, tmpOld, luck.clearingOld, luck.leftOld);
    ClearFacts(d1, tmpOld, luck.clearingOld, luck.leftOld);
    SameButTrans(d, d1, t2, {tmpNew}, {tmpOld});
    SameButTrans(d, d1, [End(d1, t2)], {tmpNew}, {tmpOld});
    assert End(d, t1 + t2) == End(d1, t2);
    assert End(d1, t2) in [End(d1, t2)];
    assert {tmpNew} + {tmpOld} == {tmpNew, tmpOld};
    assert Get(End(d1, t2), tmpNew) == Get(d1, tmpNew);
  }

  function Own(item: Item): set<string> {
    {item.name, item.tmpNew, item.tmpOld}
  }

  /** What one item's swap keeps in every state: the item is safe, and only its own names differ. */
  ghost predicate Good(d: Directory, item: Item, s: Directory) {
    ItemSafe(Get(d, item.name), item, s) && SameBut(d, s, Own(item))
  }

  ghost predicate AllGood(d: Directory, item: Item, trace: seq<Directory>) {
    forall s | s in trace :: Good(d, item, s)
  }

  lemma UntouchedIsGood(d: Directory, item: Item, trace: seq<Directory>)
    requires WellNamed(item)
    requires AllSameBut(d, trace, {item.tmpNew, item.tmpOld})
    ensures AllGood(d, item, trace)
  {
  }

  lemma SwappedIsGood(d: Directory, e: Directory, item: Item, trace: seq<Directory>)
    requires WellNamed(item)
    requires SameBut(d, e, Own(item)) && Get(e, item.name) == Some(item.node)
    requires ItemSafe(Get(d, item.name), item, e)
    requires AllSameBut(e, trace, {item.tmpOld})
    ensures AllGood(d, item, trace)
  {
    SameButTrans(d, e, trace, Own(item), {item.tmpOld});
    assert Own(item) + {item.tmpOld} == Own(item);
  }

  /** The copy of the new version is built beside the old one. */
  lemma CopyingIsGood(d: Directory, d2: Directory, item: Item, copying: seq<Node>, copied: Node)
    requires WellNamed(item)
    requires SameBut(d, d2, {item.tmpNew, item.tmpOld})
    ensures AllGood(d, item, Shows(d2, item.tmpNew, copying) + [d2[item.tmpNew := copied]])
    ensures SameBut(d, d2[item.tmpNew := copied], {item.tmpNew, item.tmpOld})
  {
    var tmpNew, temps := item.tmpNew, {item.tmpNew, item.tmpOld};
    var t := Shows(d2, tmpNew, copying) + [d2[tmpNew := copied]];
    ShowsFacts(d2, tmpNew, copying);
    assert AllSameBut(d2, t, {tmpNew});
    SameButTrans(d, d2, t, temps, {tmpNew});
    assert temps + {tmpNew} == temps;
    UntouchedIsGood(d, item, t);
    assert d2[tmpNew := copied] in t;
  }

  /** The two renames of a directory item, with the window in which its path is absent. */
  lemma RenamesAreGood(d: Directory, d3: Directory, item: Item)
    requires WellNamed(item)
    requires item.node.Dir? && SameBut(d, d3, {item.tmpNew, item.tmpOld})
    requires Get(d3, item.tmpNew) == Some(item.node)
    ensures var tmpNew, tmpOld := item.tmpNew, item.tmpOld;
            var d4 := if item.name in d3 then Renamed(d3, item.name, tmpOld) else d3;
            && Good(d, item, d4) && Get(d4, tmpNew) == Some(item.node)
            && SameBut(d, Renamed(d4, tmpNew, item.name), Own(item))
            && Get(Renamed(d4, tmpNew, item.name), item.name) == Some(item.node)
  {
    assert Get(d3, item.name) == Get(d, item.name);
  }

  lemma MoveInIsSafe(d: Directory, d3: Directory, item: Item, luck: Luck)
    requires WellNamed(item) && item.node.Dir?
    requires SameBut(d, d3, {item.tmpNew, item.tmpOld}) && Get(d3, item.tmpNew) == Some(item.node)
    ensures SafeTrace(d, item, d3, MovedIn(d3, item, luck))
  {
    var tmpNew, tmpOld := item.tmpNew, item.tmpOld;
    assert AllSameBut(d, [d3], {tmpNew, tmpOld}) && d3 in [d3];
    UntouchedIsGood(d, item, [d3]);
    RenamesAreGood(d, d3, item);
    var d4 := if item.name in d3 then Renamed(d3, item.name, tmpOld) else d3;
    var d5 := Renamed(d4, tmpNew, item.name);
    var t6 := RmtreeTrace(d5, tmpOld, luck.dropping, luck.leftLast);
    RmtreeFacts(d5, tmpOld, luck.dropping, luck.leftLast);
    assert AllSameBut(d5, [d5] + t6, {tmpOld});
    SwappedIsGood(d, d5, item, [d5] + t6);
    assert Get(End(d5, t6), item.name) == Get(d5, item.name);
    assert End(d5, t6) in [d5] + t6;
  }

  /** A stretch of the swap from state `e` on: good in every state and at its end, and in place if it went
      through. */
  ghost predicate SafeTrace(d: Directory, item: Item, e: Directory, r: Swap) {
    && AllGood(d, item, r.trace) && Good(d, item, End(e, r.trace))
    && (r.ok ==> Get(End(e, r.trace), item.name) == Some(item.node))
  }

  lemma SafeAfter(d: Directory, item: Item, e: Directory, front: seq<Directory>, last: Swap)
    requires AllGood(d, item, front) && SafeTrace(d, item, End(e, front), last)
    ensures SafeTrace(d, item, e, After(front, last))
  {
    TraceAppend(e, front, last.trace);
  }

  /** A copy that fails leaves the item's path as it was. */
  lemma FailedCopyIsSafe(d: Directory, d2: Directory, item: Item, copying: seq<Node>)
    requires WellNamed(item) && SameBut(d, d2, {item.tmpNew, item.tmpOld})
    ensures SafeTrace(d, item, d2, Swap(Shows(d2, item.tmpNew, copying), false))
  {
    var t := Shows(d2, item.tmpNew, copying);
    CopyingIsGood(d, d2, item, copying, item.node);
    assert forall s | s in t :: s in t + [d2[item.tmpNew := item.node]];
    assert AllSameBut(d, [d2], {item.tmpNew, item.tmpOld}) && d2 in [d2];
    UntouchedIsGood(d, item, [d2]);
  }

  lemma SwapDirFromIsSafe(d: Directory, d2: Directory, item: Item, luck: Luck)
    requires WellNamed(item) && item.node.Dir? && SameBut(d, d2, {item.tmpNew, item.tmpOld})
    ensures SafeTrace(d, item, d2, SwapDirFrom(d2, item, luck))
  {
    FailedCopyIsSafe(d, d2, item, luck.copying);
    if item.tmpNew in d2 {
      FailedCopyIsSafe(d, d2, item, []);
    } else if Plain(item.node) {
      var d3 := d2[item.tmpNew := item.node];
      CopyingIsGood(d, d2, item, luck.copying, item.node);
      MoveInIsSafe(d, d3, item, luck);
      SafeAfter(d, item, d2, Shows(d2, item.tmpNew, luck.copying) + [d3], MovedIn(d3, item, luck));
    }
  }

  lemma SwapDirIsSafe(d: Directory, item: Item, luck: Luck)
    requires WellNamed(item)
    requires item.node.Dir?
    ensures var r := SwapDir(d, item, luck);
            && AllGood(d, item, r.trace) && Good(d, item, End(d, r.trace))
            && (r.ok ==> Get(End(d, r.trace), item.name) == Some(item.node))
  {
    var t := Cleared(d, item, luck);
    ClearedFacts(d, item, luck);
    UntouchedIsGood(d, item, t);
    SwapDirFromIsSafe(d, End(d, t), item, luck);
    SafeAfter(d, item, d, t, SwapDirFrom(End(d, t), item, luck));
  }

  lemma SwapFileIsSafe(d: Directory, item: Item, luck: Luck)
    requires WellNamed(item)
    requires !item.node.Dir? && CleanStart(item, luck)
    ensures var r := SwapFile(d, item, luck);
            && AllGood(d, item, r.trace) && Good(d, item, End(d, r.trace))
            && (r.ok ==> Get(End(d, r.trace), item.name) == Some(item.node))
  {
    var tmpNew := item.tmpNew;
    var t := Cleared(d, item, luck);
    ClearedFacts(d, item, luck);
    UntouchedIsGood(d, item, t);
    var d2 := End(d, t);
    CopyingIsGood(d, d2, item, luck.copying, item.node);
    assert CopiedTo(d2, item, tmpNew) == item.node;
    var d3 := d2[tmpNew := item.node];
    assert d3 in Shows(d2, tmpNew, luck.copying) + [d3];
  }

  /** A file's swap breaks the file's path in one family of cases: clearing left a directory under the temporary
      name, which the copy then goes into, and nothing (or an empty directory) is in the way of its rename. */
  lemma SwapFileIsSafeIff(d: Directory, item: Item, luck: Luck)
    requires WellNamed(item) && item.node.File?
    ensures var r := SwapFile(d, item, luck);
            var cleared := End(d, Cleared(d, item, luck));
            var leftover := item.tmpNew in cleared && cleared[item.tmpNew].Dir?;
            AllGood(d, item, r.trace) <==> !(leftover && (item.name in d ==> d[item.name] == Dir(map[])))
  {
    var r, t := SwapFile(d, item, luck), Cleared(d, item, luck);
    ClearedFacts(d, item, luck);
    UntouchedIsGood(d, item, t);
    var d2 := End(d, t);
    var copied := CopiedTo(d2, item, item.tmpNew);
    CopyingIsGood(d, d2, item, luck.copying, copied);
    var d3 := d2[item.tmpNew := copied];
    var t3 := Shows(d2, item.tmpNew, luck.copying) + [d3];
    assert Get(d3, item.name) == Get(d, item.name) && Get(d3, item.tmpNew) == Some(copied);
    if CanRename(d3, item.tmpNew, item.name) {
      var d4 := Renamed(d3, item.tmpNew, item.name);
      assert r.trace == t + (t3 + [d4]);
      assert d4 in r.trace && Get(d4, item.name) == Some(copied);
      assert SameBut(d, d4, Own(item));
      assert copied.Dir? ==> item.name in copied.entries;
    } else {
      assert r.trace == t + t3;
    }
  }

  lemma SwapItemIsSafe(d: Directory, item: Item, luck: Luck)
    requires WellNamed(item)
    requires CleanStart(item, luck)
    ensures var r := SwapItem(d, item, luck);
            && AllGood(d, item, r.trace) && Good(d, item, End(d, r.trace))
            && (r.ok && item.name !in KEPT ==> Get(End(d, r.trace), item.name) == Some(item.node))
            && (item.name in KEPT ==> r.trace == [])
  {
    if item.name !in KEPT {
      if item.node.Dir? {
        SwapDirIsSafe(d, item, luck);
      } else {
        SwapFileIsSafe(d, item, luck);
      }
    }
  }

  /** When the leftovers can be cleared, an entry that can be copied goes in: a directory always, a file exactly
      when no directory is in its place. What went in leaves no temporary name behind, but for a file that a directory
      replaced: the final deletion only takes directories. */
  lemma CleanSwapIff(d: Directory, item: Item, luck: Luck)
    requires WellNamed(item) && item.name !in KEPT
    requires luck.leftNew.None? && luck.leftOld.None? && luck.leftLast.None?
    ensures var r := SwapItem(d, item, luck);
            var e := End(d, r.trace);
            && (r.ok <==> Plain(item.node) && (item.node.Dir? || !(item.name in d && d[item.name].Dir?)))
            && (r.ok ==> item.tmpNew !in e
                         && (item.tmpOld in e <==> item.node.Dir? && item.name in d && !d[item.name].Dir?))
  {
    var t := Cleared(d, item, luck);
    ClearedFacts(d, item, luck);
    ClearedIsGone(d, item, luck);
    var d2 := End(d, t);
    assert Get(d2, item.name) == Get(d, item.name);
    if item.node.Dir? && Plain(item.node) {
      var d3 := d2[item.tmpNew := item.node];
      CleanMove(d3, item, luck);
      TraceAppend(d, t, SwapDirFrom(d2, item, luck).trace);
      TraceAppend(d2, Shows(d2, item.tmpNew, luck.copying) + [d3], MovedIn(d3, item, luck).trace);
    } else if Plain(item.node) {
      TraceAppend(d, t, SwapFileFrom(d2, item, luck).trace);
    }
  }

  lemma ClearedIsGone(d: Directory, item: Item, luck: Luck)
    requires WellNamed(item) && luck.leftNew.None? && luck.leftOld.None?
    ensures var e := End(d, Cleared(d, item, luck)); item.tmpNew !in e && item.tmpOld !in e
  {
    var t1 := ClearTrace(d, item.tmpNew, luck.clearingNew, luck.leftNew);
    var d1 := End(d, t1);
    var t2 := ClearTrace(d1, item.tmpOld, luck.clearingOld, luck.leftOld);
    TraceAppend(d, t1, t2);
    ClearFacts(d1, item.tmpOld, luck.clearingOld, luck.leftOld);
    assert Get(End(d1, t2), item.tmpNew) == Get(d1, item.tmpNew);
  }

  lemma CleanMove(d3: Directory, item: Item, luck: Luck)
    requires WellNamed(item) && item.tmpNew in d3 && item.tmpOld !in d3 && luck.leftLast.None?
    ensures var r := MovedIn(d3, item, luck);
            var e := End(d3, r.trace);
            r.ok && item.tmpNew !in e && (item.tmpOld in e <==> item.name in d3 && !d3[item.name].Dir?)
  {
    var d4 := if item.name in d3 then Renamed(d3, item.name, item.tmpOld) else d3;
    var d5 := Renamed(d4, item.tmpNew, item.name);
    RmtreeFacts(d5, item.tmpOld, luck.dropping, luck.leftLast);
    var t := RmtreeTrace(d5, item.tmpOld, luck.dropping, luck.leftLast);
    assert Get(End(d5, t), item.tmpNew) == Get(d5, item.tmpNew);
    TraceAppend(d4, [d5], t);
    if item.name in d3 {
      TraceAppend(d3, [d4], [d5] + t);
    }
  }

  /** What clearing leaves under the temporary names: of a tree what its deletion left, a file that could not be
      removed, else nothing. */
  lemma LeftoversAre(d: Directory, item: Item, luck: Luck)
    requires WellNamed(item)
    ensures var e := End(d, Cleared(d, item, luck));
            && Get(e, item.tmpNew) == LeftOf(d, item.tmpNew, luck.leftNew)
            && Get(e, item.tmpOld) == LeftOf(d, item.tmpOld, luck.leftOld)
            && (forall name | name !in {item.tmpNew, item.tmpOld} :: Get(e, name) == Get(d, name))
  {
    var t1 := ClearTrace(d, item.tmpNew, luck.clearingNew, luck.leftNew);
    var d1 := End(d, t1);
    var t2 := ClearTrace(d1, item.tmpOld, luck.clearingOld, luck.leftOld);
    TraceAppend(d, t1, t2);
    ClearLeaves(d, item.tmpNew, luck.clearingNew, luck.leftNew);
    ClearLeaves(d1, item.tmpOld, luck.clearingOld, luck.leftOld);
    assert Get(d1, item.tmpOld) == Get(d, item.tmpOld);
    assert Get(End(d1, t2), item.tmpNew) == Get(d1, item.tmpNew);
  }

  function LeftOf(d: Directory, name: string, left: Option<Node>): Option<Node> {
    if name !in d || left.None? then None else if d[name].Dir? then left else Some(d[name])
  }

  lemma ClearLeaves(d: Directory, name: string, partial: seq<Node>, left: Option<Node>)
    ensures var e := End(d, ClearTrace(d, name, partial, left));
            Get(e, name) == LeftOf(d, name, left) && SameBut(d, e, {name})
  {
    ClearFacts(d, name, partial, left);
  }

  /** A tree of an aborted run that cannot be cleared away from the old tree's temporary name stops the entry: its path
      stays as it was. */
  lemma StuckOldTreeStops(d: Directory, item: Item, luck: Luck)
    requires WellNamed(item) && item.name !in KEPT && item.node.Dir? && item.name in d && d[item.name].Dir?
    requires item.tmpNew !in d && item.tmpOld in d && d[item.tmpOld].Dir?
    requires luck.leftOld.Some? && luck.leftOld.value.Dir? && luck.leftOld.value != Dir(map[])
    ensures var r := SwapItem(d, item, luck); !r.ok && Get(End(d, r.trace), item.name) == Get(d, item.name)
  {
    var t := Cleared(d, item, luck);
    LeftoversAre(d, item, luck);
    var d2 := End(d, t);
    assert Get(d2, item.name) == Get(d, item.name) && Get(d2, item.tmpOld) == luck.leftOld && item.tmpNew !in d2;
    var last := SwapDirFrom(d2, item, luck);
    TraceAppend(d, t, last.trace);
    if Plain(item.node) {
      var d3 := d2[item.tmpNew := item.node];
      assert !CanRename(d3, item.name, item.tmpOld);
      TraceAppend(d2, Shows(d2, item.tmpNew, luck.copying) + [d3], []);
    } else {
      PassedIsSame(d2, item.tmpNew, luck.copying);
    }
  }

  lemma {:induction false} ShowsAre(d: Directory, name: string, nodes: seq<Node>)
    ensures |Shows(d, name, nodes)| == |nodes|
    ensures forall i | 0 <= i < |nodes| :: Shows(d, name, nodes)[i] == d[name := nodes[i]]
  {
    if nodes != [] {
      ShowsAre(d, name, nodes[..|nodes| - 1]);
    }
  }

  lemma NothingToClear(d: Directory, item: Item, luck: Luck)
    requires item.tmpNew !in d && item.tmpOld !in d
    ensures Cleared(d, item, luck) == []
  {
  }

  /** The states after the two renames of a directory: the old tree aside, then the states of its deletion. */
  function Dropped(d: Directory, item: Item, luck: Luck): seq<Directory> {
    Shows(d[item.name := item.node], item.tmpOld, luck.dropping)
      + [if luck.leftLast.Some? then d[item.name := item.node][item.tmpOld := luck.leftLast.value]
         else d[item.name := item.node]]
  }

  /** Every state of a directory's swap where nothing was left over, in order: the copies as they grow, the whole copy
      beside the old tree; the old tree aside and nothing in its place; the new tree in its place; and the old one as it
      goes, or what is left of it. */
  lemma DirSwapStates(d: Directory, item: Item, luck: Luck)
    requires WellNamed(item) && item.name !in KEPT && item.node.Dir? && Plain(item.node)
    requires item.name in d && d[item.name].Dir? && item.tmpNew !in d && item.tmpOld !in d
    ensures var was := d[item.name];
            SwapItem(d, item, luck) ==
              Swap(Shows(d, item.tmpNew, luck.copying)
                     + [d[item.tmpNew := item.node]]
                     + [(d - {item.name})[item.tmpOld := was][item.tmpNew := item.node]]
                     + [d[item.name := item.node][item.tmpOld := was]]
                     + Dropped(d, item, luck), true)
  {
    NothingToClear(d, item, luck);
    var was, d3 := d[item.name], d[item.tmpNew := item.node];
    var d4, d5 := (d - {item.name})[item.tmpOld := was][item.tmpNew := item.node], d[item.name := item.node][item.tmpOld := was];
    assert Renamed(d3, item.name, item.tmpOld) == d4;
    assert Renamed(d4, item.tmpNew, item.name) == d5;
    DroppedIs(d, d5, item, luck);
    var moved := MovedIn(d3, item, luck);
    assert moved == Swap([d4] + ([d5] + Dropped(d, item, luck)), true);
    var copies := Shows(d, item.tmpNew, luck.copying);
    assert copies + [d3] + ([d4] + ([d5] + Dropped(d, item, luck))) == copies + [d3] + [d4] + [d5] + Dropped(d, item, luck);
  }

  /** Where nothing was in its place, the new tree goes in without a step aside. */
  lemma NewDirSwapStates(d: Directory, item: Item, luck: Luck)
    requires WellNamed(item) && item.name !in KEPT && item.node.Dir? && Plain(item.node)
    requires item.name !in d && item.tmpNew !in d && item.tmpOld !in d
    ensures SwapItem(d, item, luck) ==
      Swap(Shows(d, item.tmpNew, luck.copying) + [d[item.tmpNew := item.node]] + [d[item.name := item.node]], true)
  {
    NothingToClear(d, item, luck);
    var d3, d5 := d[item.tmpNew := item.node], d[item.name := item.node];
    assert Renamed(d3, item.tmpNew, item.name) == d5;
    var moved := MovedIn(d3, item, luck);
    assert moved == Swap([] + ([d5] + []), true) && [] + ([d5] + []) == [d5];
  }

  lemma DroppedIs(d: Directory, d5: Directory, item: Item, luck: Luck)
    requires WellNamed(item) && item.tmpOld !in d && item.name in d && d[item.name].Dir?
    requires d5 == d[item.name := item.node][item.tmpOld := d[item.name]]
    ensures RmtreeTrace(d5, item.tmpOld, luck.dropping, luck.leftLast) == Dropped(d, item, luck)
  {
    var base := d[item.name := item.node];
    assert d5 - {item.tmpOld} == base == base - {item.tmpOld};
    SameShows(d5, base, item.tmpOld, luck.dropping);
    assert luck.leftLast.Some? ==> d5[item.tmpOld := luck.leftLast.value] == base[item.tmpOld := luck.leftLast.value];
  }

  lemma {:induction false} SameShows(d: Directory, e: Directory, name: string, nodes: seq<Node>)
    requires d - {name} == e - {name}
    ensures Shows(d, name, nodes) == Shows(e, name, nodes)
  {
    if nodes != [] {
      var n := nodes[|nodes| - 1];
      assert d[name := n] == (d - {name})[name := n] == (e - {name})[name := n] == e[name := n];
      SameShows(d, e, name, nodes[..|nodes| - 1]);
    }
  }

  /** And of a file's: the copies, the whole copy, the file in its place. */
  lemma FileSwapStates(d: Directory, item: Item, luck: Luck)
    requires WellNamed(item) && item.name !in KEPT && item.node.File? && (item.name in d ==> !d[item.name].Dir?)
    requires item.tmpNew !in d && item.tmpOld !in d
    ensures SwapItem(d, item, luck) ==
      Swap(Shows(d, item.tmpNew, luck.copying) + [d[item.tmpNew := item.node]] + [d[item.name := item.node]], true)
  {
    NothingToClear(d, item, luck);
    var d3 := d[item.tmpNew := item.node];
    assert Renamed(d3, item.tmpNew, item.name) == d[item.name := item.node];
  }

  // ── a whole release ────────────────────────────────────────────────────────

  predicate Apart(a: Item, b: Item) {
    a.name != b.name && a.name != b.tmpNew && a.name != b.tmpOld && b.name != a.tmpNew && b.name != a.tmpOld
  }

  /** No item's path is another's, or another's temporary path. */
  predicate WellListed(items: seq<Item>) {
    && (forall i | 0 <= i < |items| :: WellNamed(items[i]))
    && (forall i, j | 0 <= i < j < |items| :: Apart(items[i], items[j]))
  }

  /** The names a release may change. */
  function Touched(items: seq<Item>): set<string> {
    if items == [] then {}
    else
      var last := items[|items| - 1];
      Touched(items[..|items| - 1]) + if last.name in KEPT then {} else Own(last)
  }

  lemma {:induction false} KeptIsNotTouched(items: seq<Item>)
    requires forall i | 0 <= i < |items| :: WellNamed(items[i])
    ensures KEPT !! Touched(items)
  {
    if items != [] {
      KeptIsNotTouched(items[..|items| - 1]);
    }
  }

  lemma {:induction false} ApartIsNotTouched(items: seq<Item>, other: Item)
    requires forall i | 0 <= i < |items| :: Apart(items[i], other)
    ensures other.name !in Touched(items)
  {
    if items != [] {
      ApartIsNotTouched(items[..|items| - 1], other);
    }
  }

  /** A state of the update: every item safe, nothing else touched. */
  ghost predicate CrashSafe(d: Directory, items: seq<Item>, s: Directory) {
    && (forall i | 0 <= i < |items| :: ItemSafe(Get(d, items[i].name), items[i], s))
    && SameBut(d, s, Touched(items))
  }

  predicate InPlace(item: Item, s: Directory) {
    item.name in KEPT || Get(s, item.name) == Some(item.node)
  }

  predicate AllInPlace(items: seq<Item>, s: Directory) {
    forall i | 0 <= i < |items| :: InPlace(items[i], s)
  }

  predicate CleanStarts(items: seq<Item>, lucks: seq<Luck>) {
    |lucks| == |items| && forall i | 0 <= i < |items| :: CleanStart(items[i], lucks[i])
  }

  lemma PlacedIsSafe(was: Option<Node>, item: Item, e: Directory, s: Directory)
    requires Get(s, item.name) == Get(e, item.name)
    requires Get(e, item.name) == was || (Get(e, item.name) == Some(item.node) && ItemSafe(was, item, e))
    ensures ItemSafe(was, item, s)
  {
  }

  lemma EarlierIsSafe(d: Directory, front: seq<Item>, last: Item, s: Directory)
    requires WellListed(front + [last]) && CrashSafe(d, front, s)
    ensures CrashSafe(d, front + [last], s)
  {
    var items, n := front + [last], |front|;
    assert items[n] == last && items[..n] == front && forall i | 0 <= i < n :: items[i] == front[i];
    ApartIsNotTouched(front, last);
    PlacedIsSafe(Get(d, last.name), last, s, s);
    assert Touched(front) <= Touched(items);
  }

  /** The next item's states are safe for the items before it, which stay in place, and for itself. */
  lemma NextItemIsSafe(d: Directory, front: seq<Item>, last: Item, e: Directory, s: Directory)
    requires WellListed(front + [last]) && CrashSafe(d, front, e) && AllInPlace(front, e)
    requires Good(e, last, s) && (last.name in KEPT ==> s == e)
    ensures CrashSafe(d, front + [last], s) && AllInPlace(front, s)
  {
    var items, n := front + [last], |front|;
    assert items[n] == last && items[..n] == front && forall i | 0 <= i < n :: items[i] == front[i];
    ApartIsNotTouched(front, last);
    KeptIsNotTouched(front);
    assert Get(e, last.name) == Get(d, last.name);
    forall i | 0 <= i < n ensures InPlace(front[i], s) && ItemSafe(Get(d, front[i].name), front[i], s) {
      assert Apart(items[i], items[n]) && InPlace(front[i], e);
      assert front[i].name !in Own(last) && Get(s, front[i].name) == Get(e, front[i].name);
      assert front[i].name in KEPT ==> Get(e, front[i].name) == Get(d, front[i].name);
      PlacedIsSafe(Get(d, front[i].name), front[i], e, s);
    }
    forall name | name !in Touched(items) ensures Get(s, name) == Get(d, name) {
      assert Get(e, name) == Get(d, name);
    }
  }

  /** Every state of the update, in order, and its end. */
  ghost predicate AllCrashSafe(d: Directory, items: seq<Item>, trace: seq<Directory>) {
    forall s | s in trace :: CrashSafe(d, items, s)
  }

  lemma LastItemIsSafe(d: Directory, front: seq<Item>, last: Item, luck: Luck, e: Directory)
    requires WellListed(front + [last]) && CleanStart(last, luck) && CrashSafe(d, front, e) && AllInPlace(front, e)
    ensures var r := SwapItem(e, last, luck);
            && AllCrashSafe(d, front + [last], r.trace) && CrashSafe(d, front + [last], End(e, r.trace))
            && (r.ok ==> AllInPlace(front + [last], End(e, r.trace)))
  {
    var r := SwapItem(e, last, luck);
    assert (front + [last])[|front|] == last;
    SwapItemIsSafe(e, last, luck);
    forall s | s in r.trace ensures CrashSafe(d, front + [last], s) {
      NextItemIsSafe(d, front, last, e, s);
    }
    NextItemIsSafe(d, front, last, e, End(e, r.trace));
    assert r.ok ==> InPlace(last, End(e, r.trace));
  }

  ghost predicate SafeRun(d: Directory, items: seq<Item>, r: Swap) {
    && AllCrashSafe(d, items, r.trace) && CrashSafe(d, items, End(d, r.trace))
    && (r.ok ==> AllInPlace(items, End(d, r.trace)))
  }

  lemma EarlierStatesAreSafe(d: Directory, front: seq<Item>, last: Item, trace: seq<Directory>)
    requires WellListed(front + [last]) && AllCrashSafe(d, front, trace)
    ensures AllCrashSafe(d, front + [last], trace)
  {
    forall s | s in trace ensures CrashSafe(d, front + [last], s) {
      EarlierIsSafe(d, front, last, s);
    }
  }

  lemma ExtendedIsSafe(d: Directory, front: seq<Item>, run: Swap, last: Item, luck: Luck)
    requires WellListed(front + [last]) && CleanStart(last, luck) && SafeRun(d, front, run)
    ensures SafeRun(d, front + [last], Extended(d, run, last, luck))
  {
    var e, items := End(d, run.trace), front + [last];
    EarlierStatesAreSafe(d, front, last, run.trace);
    EarlierIsSafe(d, front, last, e);
    if run.ok {
      LastItemIsSafe(d, front, last, luck, e);
      JoinedIsSafe(d, items, run.trace, SwapItem(e, last, luck));
    }
  }

  lemma JoinedIsSafe(d: Directory, items: seq<Item>, trace: seq<Directory>, last: Swap)
    requires AllCrashSafe(d, items, trace) && AllCrashSafe(d, items, last.trace)
    requires CrashSafe(d, items, End(End(d, trace), last.trace))
    requires last.ok ==> AllInPlace(items, End(End(d, trace), last.trace))
    ensures SafeRun(d, items, Swap(trace + last.trace, last.ok))
  {
    TraceAppend(d, trace, last.trace);
  }

  /** After a crash at any step of the swap, every directory item is the old tree, the new tree, or absent
      with both complete beside it; `.env`, `venv` and every other name are as before. */
  lemma {:induction false} EveryCrashIsSafe(d: Directory, items: seq<Item>, lucks: seq<Luck>)
    requires WellListed(items) && CleanStarts(items, lucks)
    ensures SafeRun(d, items, SwapAll(d, items, lucks))
    decreases |items|
  {
    if items != [] {
      var n := |items| - 1;
      EveryCrashIsSafe(d, items[..n], lucks[..n]);
      assert items[..n] + [items[n]] == items;
      ExtendedIsSafe(d, items[..n], SwapAll(d, items[..n], lucks[..n]), items[n], lucks[n]);
    }
  }

  predicate Clearable(luck: Luck) {
    luck.leftNew.None? && luck.leftOld.None? && luck.leftLast.None?
  }

  /** The entry is one of the machine's own, or can be copied and has no directory in a file's place. */
  predicate GoesIn(d: Directory, item: Item) {
    item.name in {".env", "venv"} || (Plain(item.node) && (item.node.Dir? || !(item.name in d && d[item.name].Dir?)))
  }

  predicate AllClearable(items: seq<Item>, lucks: seq<Luck>) {
    |lucks| == |items| && forall i | 0 <= i < |lucks| :: Clearable(lucks[i])
  }

  /** When everything left over can be cleared, a release goes in, with every entry in its place, exactly when each of
      its entries can. */
  lemma CleanReleaseIff(d: Directory, items: seq<Item>, lucks: seq<Luck>)
    requires WellListed(items) && AllClearable(items, lucks)
    ensures var r := SwapAll(d, items, lucks);
            && (r.ok <==> AllGoIn(d, items))
            && (r.ok ==> AllInPlace(items, End(d, r.trace)))
  {
    ReleaseOkIff(d, items, lucks);
    EveryCrashIsSafe(d, items, lucks);
  }

  lemma {:induction false} ReleaseOkIff(d: Directory, items: seq<Item>, lucks: seq<Luck>)
    requires WellListed(items) && AllClearable(items, lucks)
    ensures SwapAll(d, items, lucks).ok <==> AllGoIn(d, items)
    decreases |items|
  {
    if items != [] {
      var n := |items| - 1;
      FrontIsListed(items, lucks);
      ReleaseOkIff(d, items[..n], lucks[..n]);
      LastOkIff(d, items, lucks);
      AllGoInLast(d, items);
    }
  }

  lemma LastOkIff(d: Directory, items: seq<Item>, lucks: seq<Luck>)
    requires items != [] && WellListed(items) && AllClearable(items, lucks)
    ensures var n := |items| - 1;
            SwapAll(d, items, lucks).ok <==> SwapAll(d, items[..n], lucks[..n]).ok && GoesIn(d, items[n])
  {
    var n := |items| - 1;
    FrontIsListed(items, lucks);
    EveryCrashIsSafe(d, items[..n], lucks[..n]);
    LastGoesIn(d, items[..n], SwapAll(d, items[..n], lucks[..n]), items[n], lucks[n], items);
  }

  lemma FrontIsListed(items: seq<Item>, lucks: seq<Luck>)
    requires items != [] && WellListed(items) && AllClearable(items, lucks)
    ensures var n := |items| - 1;
            && WellListed(items[..n]) && AllClearable(items[..n], lucks[..n]) && CleanStarts(items[..n], lucks[..n])
            && items == items[..n] + [items[n]] && Clearable(lucks[n])
  {
  }

  predicate AllGoIn(d: Directory, items: seq<Item>) {
    forall i | 0 <= i < |items| :: GoesIn(d, items[i])
  }

  lemma AllGoInLast(d: Directory, items: seq<Item>)
    requires items != []
    ensures var n := |items| - 1; AllGoIn(d, items) <==> AllGoIn(d, items[..n]) && GoesIn(d, items[n])
  {
    var n := |items| - 1;
    assert forall i | 0 <= i < n :: items[..n][i] == items[i];
  }

  lemma LastGoesIn(d: Directory, front: seq<Item>, run: Swap, last: Item, luck: Luck, items: seq<Item>)
    requires items == front + [last] && WellListed(items) && SafeRun(d, front, run) && Clearable(luck)
    ensures Extended(d, run, last, luck).ok <==> run.ok && GoesIn(d, last)
  {
    assert items[|front|] == last && forall i | 0 <= i < |front| :: items[i] == front[i];
    ApartIsNotTouched(front, last);
    var e := End(d, run.trace);
    assert last.name !in KEPT ==> Get(e, last.name) == Get(d, last.name);
    if run.ok && last.name !in KEPT {
      CleanSwapIff(e, last, luck);
    }
  }

  // ── names in a listing ─────────────────────────────────────────────────────

  /** The entry `name` of the release, with the temporary names process `pid` uses for it. */
  function ItemOf(name: string, pid: string, node: Node): Item {
    Item(name, "." + name + ".new-" + pid, "." + name + ".old-" + pid, node)
  }

  lemma ItemIsWellNamed(name: string, pid: string, node: Node)
    ensures WellNamed(ItemOf(name, pid, node)) && SRC !in {ItemOf(name, pid, node).tmpNew, ItemOf(name, pid, node).tmpOld}
  {
    assert SRC[0] == 's';
    var x, y := ItemOf(name, pid, node).tmpNew, ItemOf(name, pid, node).tmpOld;
    assert |x| == |y| == |name| + |pid| + 6;
    assert x[|name| + 2] == 'n' && y[|name| + 2] == 'o';
    assert forall k | k in KEPT :: |k| == 4;
  }

  /** Two entries of a directory are apart unless one's name is the other's temporary name. */
  lemma ListedItemsAreApart(a: string, b: string, pid: string, m: Node, n: Node)
    requires a != b
    ensures var x, y := ItemOf(a, pid, m), ItemOf(b, pid, n);
            Apart(x, y) <==> b !in {x.tmpNew, x.tmpOld} && a !in {y.tmpNew, y.tmpOld}
  {
  }

  /** What follows the last dash. */
  function AfterDash(s: string): string {
    if s == "" || s[|s| - 1] == '-' then "" else AfterDash(s[..|s| - 1]) + [s[|s| - 1]]
  }

  lemma {:induction false} AfterDashOf(front: string, pid: string)
    requires '-' !in pid
    ensures AfterDash(front + "-" + pid) == pid
  {
    var s := front + "-" + pid;
    if pid == "" {
      assert s[|s| - 1] == '-';
    } else {
      AfterDashOf(front, pid[..|pid| - 1]);
      assert s[..|s| - 1] == front + "-" + pid[..|pid| - 1];
    }
  }

  /** The temporary names of two processes never meet, whatever the entries are called. */
  lemma ProcessesAreApart(name: string, pid: string, node: Node)
    requires '-' !in pid
    ensures AfterDash(ItemOf(name, pid, node).tmpNew) == pid && AfterDash(ItemOf(name, pid, node).tmpOld) == pid
  {
    AfterDashOf("." + name + ".new", pid);
    AfterDashOf("." + name + ".old", pid);
    assert "." + name + ".new-" + pid == "." + name + ".new" + "-" + pid;
    assert "." + name + ".old-" + pid == "." + name + ".old" + "-" + pid;
  }

  lemma NotOwn(item: Item, name: string, pid: string, other: string)
    requires '-' !in pid && '-' !in other && pid != other && item == ItemOf(item.name, pid, item.node)
    requires item.name != ItemOf(name, other, Special).tmpNew
    ensures ItemOf(name, other, Special).tmpNew !in Own(item)
  {
    ProcessesAreApart(name, other, Special);
    ProcessesAreApart(item.name, pid, item.node);
  }

  /** What an aborted update left under the temporary names of its process stays there through every update
      of another process: only names of its own are cleared. */
  lemma StaleLeftoversStay(d: Directory, items: seq<Item>, lucks: seq<Luck>, s: Directory, name: string,
                           pid: string, other: string)
    requires WellListed(items) && CleanStarts(items, lucks) && s in SwapAll(d, items, lucks).trace
    requires '-' !in pid && '-' !in other && pid != other
    requires forall i | 0 <= i < |items| :: items[i] == ItemOf(items[i].name, pid, items[i].node)
    requires forall i | 0 <= i < |items| :: items[i].name != ItemOf(name, other, Special).tmpNew
    ensures Get(s, ItemOf(name, other, Special).tmpNew) == Get(d, ItemOf(name, other, Special).tmpNew)
  {
    var stale := ItemOf(name, other, Special).tmpNew;
    forall i | 0 <= i < |items| ensures stale !in Own(items[i]) {
      NotOwn(items[i], name, pid, other);
    }
    NotAnItem(items, stale);
    EveryCrashIsSafe(d, items, lucks);
    assert CrashSafe(d, items, s);
  }

  // ── snapshot and restore ───────────────────────────────────────────────────

  /** What a whole snapshot holds: links as links, special files left out. */
  function Snapped(n: Node): Node {
    if n.Dir? then Dir(map k | k in n.entries && !n.entries[k].Special? :: Snapped(n.entries[k])) else n
  }

  /** What a restore copies back: links are followed (`target` says to what; a dangling one is dropped). */
  function Restored(n: Node, target: string -> Option<Node>): Node {
    match n
    case Dir(entries) =>
      Dir(map k | k in entries && (entries[k].Link? ==> target(entries[k].target).Some?) :: Restored(entries[k], target))
    case Link(t) => if target(t).Some? then target(t).value else n
    case _ => n
  }

  /** Regular files and directories all the way down. */
  predicate Plain(n: Node) {
    match n
    case File(_) => true
    case Dir(entries) => forall k | k in entries :: Plain(entries[k])
    case _ => false
  }

  lemma {:induction false} RestoreUndoesSnapshotBelow(n: Node, target: string -> Option<Node>)
    requires !n.Special? && forall t :: target(t).Some? ==> !target(t).value.Link?
    ensures (n.Link? && target(n.target).None?) || (Restored(Snapped(n), target) == n <==> Plain(n))
  {
    if n.Dir? {
      var snap := Snapped(n);
      var back := Restored(snap, target);
      forall k | k in n.entries
        ensures k in back.entries && back.entries[k] == n.entries[k] <==> Plain(n.entries[k])
      {
        var child := n.entries[k];
        if !child.Special? {
          assert snap.entries[k] == Snapped(child);
          if !(child.Link? && target(child.target).None?) {
            RestoreUndoesSnapshotBelow(child, target);
            assert back.entries[k] == Restored(Snapped(child), target);
          }
        }
      }
      assert back.entries.Keys <= n.entries.Keys;
      if Plain(n) {
        assert forall k | k in n.entries :: Plain(n.entries[k]);
        assert back.entries == n.entries;
      }
    }
  }

  /** Restoring the snapshot of a code tree gives the tree back exactly when it holds nothing but regular
      files and directories. */
  lemma RestoreUndoesSnapshotIff(n: Node, target: string -> Option<Node>)
    requires n.Dir? && forall t :: target(t).Some? ==> !target(t).value.Link?
    ensures Restored(Snapped(n), target) == n <==> Plain(n)
  {
    RestoreUndoesSnapshotBelow(n, target);
  }

  /** What `snapshot_code` may come to: its copy can stop anywhere or pass over what it cannot read, which is logged
      and no more. Entries may be missing at every level, and a file may be cut short. */
  predicate Captured(taken: Node, n: Node) {
    match n
    case File(_) => taken.File?
    case Dir(entries) =>
      taken.Dir? && forall k | k in taken.entries ::
        k in entries && !entries[k].Special? && Captured(taken.entries[k], entries[k])
    case _ => taken == n
  }

  lemma {:induction false} WholeIsCaptured(n: Node)
    ensures Captured(Snapped(n), n)
  {
    if n.Dir? {
      forall k | k in n.entries && !n.entries[k].Special? ensures Captured(Snapped(n).entries[k], n.entries[k]) {
        WholeIsCaptured(n.entries[k]);
      }
    }
  }

  lemma {:induction false} CapturedIsPlain(taken: Node, n: Node)
    requires Captured(taken, n) && Plain(n)
    ensures Plain(taken)
  {
    if n.Dir? {
      forall k | k in taken.entries ensures Plain(taken.entries[k]) {
        CapturedIsPlain(taken.entries[k], n.entries[k]);
      }
    }
  }

  lemma {:induction false} PlainComesBack(n: Node, target: string -> Option<Node>)
    requires Plain(n)
    ensures Restored(n, target) == n
  {
    if n.Dir? {
      forall k | k in n.entries ensures Restored(n.entries[k], target) == n.entries[k] {
        PlainComesBack(n.entries[k], target);
      }
      assert Restored(n, target).entries == n.entries;
    }
  }

  /** `restore_snapshot`: without a usable backup, or with something else in the tree's place, nothing is
      restored. */
  predicate CanRestore(d: Directory, backup: Option<Node>) {
    backup.Some? && backup.value.Dir? && (SRC in d ==> d[SRC].Dir?)
  }

  function Rollback(d: Directory, backup: Option<Node>, target: string -> Option<Node>): Directory {
    if CanRestore(d, backup) then d[SRC := Restored(backup.value, target)] else d
  }

  lemma {:induction false} DirectoryStays(d: Directory, items: seq<Item>, s: Directory, name: string)
    requires CrashSafe(d, items, s) && name in d && d[name].Dir?
    requires forall i | 0 <= i < |items| :: name !in {items[i].tmpNew, items[i].tmpOld}
    ensures name in s ==> s[name].Dir?
  {
    if i :| 0 <= i < |items| && items[i].name == name {
      assert ItemSafe(Get(d, name), items[i], s);
    } else {
      NotAnItem(items, name);
    }
  }

  lemma {:induction false} NotAnItem(items: seq<Item>, name: string)
    requires forall i | 0 <= i < |items| :: name !in Own(items[i])
    ensures name !in Touched(items)
  {
    if items != [] {
      NotAnItem(items[..|items| - 1], name);
    }
  }

  /** A crash anywhere in the swap, then a restore of the snapshot taken before it, whatever that came to. The
      source tree is what was captured; a tree of regular files and directories is the one before the update
      exactly when it was captured whole. `.env` and `venv` are untouched. */
  lemma RollbackAfterAnyCrashIff(d: Directory, items: seq<Item>, lucks: seq<Luck>, s: Directory, taken: Node,
                                 target: string -> Option<Node>)
    requires WellListed(items) && CleanStarts(items, lucks)
    requires forall i | 0 <= i < |items| :: SRC !in {items[i].tmpNew, items[i].tmpOld}
    requires SRC in d && d[SRC].Dir? && Captured(taken, d[SRC])
    requires s in SwapAll(d, items, lucks).trace
    ensures var after := Rollback(s, Some(taken), target);
            && Get(after, SRC) == Some(Restored(taken, target))
            && (Plain(d[SRC]) ==> (Get(after, SRC) == Get(d, SRC) <==> taken == d[SRC]))
            && (forall k | k in KEPT :: Get(after, k) == Get(d, k))
  {
    EveryCrashIsSafe(d, items, lucks);
    assert CrashSafe(d, items, s);
    DirectoryStays(d, items, s, SRC);
    KeptIsNotTouched(items);
    if Plain(d[SRC]) {
      CapturedIsPlain(taken, d[SRC]);
      PlainComesBack(taken, target);
    }
  }

  /** With the whole snapshot, a crash anywhere and a restore give a source tree of regular files and directories
      back. */
  lemma WholeSnapshotRollsBack(d: Directory, items: seq<Item>, lucks: seq<Luck>, s: Directory,
                               target: string -> Option<Node>)
    requires WellListed(items) && CleanStarts(items, lucks)
    requires forall i | 0 <= i < |items| :: SRC !in {items[i].tmpNew, items[i].tmpOld}
    requires SRC in d && d[SRC].Dir? && Plain(d[SRC]) && s in SwapAll(d, items, lucks).trace
    ensures Get(Rollback(s, Some(Snapped(d[SRC])), target), SRC) == Get(d, SRC)
  {
    WholeIsCaptured(d[SRC]);
    SnappedIsSame(d[SRC]);
    RollbackAfterAnyCrashIff(d, items, lucks, s, Snapped(d[SRC]), target);
  }

  lemma {:induction false} SnappedIsSame(n: Node)
    requires Plain(n)
    ensures Snapped(n) == n
  {
    if n.Dir? {
      forall k | k in n.entries ensures Snapped(n.entries[k]) == n.entries[k] {
        SnappedIsSame(n.entries[k]);
      }
      assert Snapped(n).entries == n.entries;
    }
  }

  // ── the update ─────────────────────────────────────────────────────────────

  const AGENT_FILE := "agent.py"
  const RUN_METHOD := "async def run(self)"

  predicate Contains(text: string, part: string) {
    exists i | 0 <= i <= |text| :: part <= text[i..]
  }

  /** A snapshot the update trusts: its agent.py, read through a link if it is one, is there and not cut short. */
  predicate Trusted(taken: Option<Node>, target: string -> Option<Node>) {
    && taken.Some? && taken.value.Dir? && AGENT_FILE in taken.value.entries
    && var file := Followed(taken.value.entries[AGENT_FILE], target);
       file.Some? && file.value.File? && Contains(file.value.data, RUN_METHOD)
  }

  function Followed(n: Node, target: string -> Option<Node>): Option<Node> {
    if n.Link? then target(n.target) else Some(n)
  }

  /** The gate looks at agent.py alone: a snapshot that lost any other entry of the tree is trusted, and after a
      crash at any step of the swap the restore gives back a tree without it. */
  lemma TrustedSnapshotLosesAFile(d: Directory, items: seq<Item>, lucks: seq<Luck>, s: Directory, lost: string,
                                  target: string -> Option<Node>)
    requires WellListed(items) && CleanStarts(items, lucks)
    requires forall i | 0 <= i < |items| :: SRC !in {items[i].tmpNew, items[i].tmpOld}
    requires SRC in d && d[SRC].Dir? && Plain(d[SRC]) && Trusted(Some(d[SRC]), target)
    requires lost in d[SRC].entries && lost != AGENT_FILE
    requires s in SwapAll(d, items, lucks).trace
    ensures var taken := Dir(d[SRC].entries - {lost});
            && Captured(taken, d[SRC]) && Trusted(Some(taken), target)
            && Get(Rollback(s, Some(taken), target), SRC) == Some(taken) != Get(d, SRC)
  {
    var taken := Dir(d[SRC].entries - {lost});
    LosingIsCapturing(d[SRC], lost);
    CapturedIsPlain(taken, d[SRC]);
    PlainComesBack(taken, target);
    RollbackAfterAnyCrashIff(d, items, lucks, s, taken, target);
    assert lost !in taken.entries;
  }

  lemma LosingIsCapturing(n: Node, lost: string)
    requires n.Dir? && Plain(n)
    ensures Captured(Dir(n.entries - {lost}), n)
  {
    forall k | k in n.entries - {lost} ensures !n.entries[k].Special? && Captured(n.entries[k], n.entries[k]) {
      WholeIsCaptured(n.entries[k]);
      SnappedIsSame(n.entries[k]);
    }
  }

  datatype Result = Current | KnownBad | NoSnapshot | Aborted | Applied

  /** What the repository answers: the remote commit ("" when it cannot be read), the commit pulled, its
      version and its entries. */
  datatype Release = Release(remote: string, head: string, version: string, items: seq<Item>)

  /** Which way an update goes; `trusted` says whether the snapshot passed the gate. */
  function Verdict(d: Directory, installed: string, bad: set<string>, release: Release, trusted: bool,
                   lucks: seq<Luck>): Result
    requires |lucks| == |release.items|
  {
    if (release.remote != "" && installed == release.remote) || (installed != "" && release.head == installed) then Current
    else if release.version in bad then KnownBad
    else if !trusted then NoSnapshot
    else if SwapAll(d, release.items, lucks).ok then Applied else Aborted
  }

  /** The commit to be had is another than the one installed, as far as both are known. */
  predicate NewCommit(installed: string, release: Release) {
    installed == "" || (installed != release.remote && installed != release.head)
  }

  /** The snapshot has an agent.py, possibly through a link, whose text has the run method somewhere in it. */
  ghost predicate HoldsAgent(taken: Option<Node>, target: string -> Option<Node>) {
    exists entries: map<string, Node>, front: string, back: string ::
      && taken == Some(Dir(entries)) && "agent.py" in entries
      && var file := File(front + "async def run(self)" + back);
         entries["agent.py"] == file || (entries["agent.py"].Link? && target(entries["agent.py"].target) == Some(file))
  }

  lemma ContainsIff(text: string, part: string)
    ensures Contains(text, part) <==> exists front, back :: text == front + part + back
  {
    if i :| 0 <= i <= |text| && part <= text[i..] {
      assert text == text[..i] + part + text[i + |part|..];
    }
    if front, back :| text == front + part + back {
      assert text[|front|..] == part + back;
    }
  }

  lemma TrustedIff(taken: Option<Node>, target: string -> Option<Node>)
    ensures Trusted(taken, target) <==> HoldsAgent(taken, target)
  {
    if Trusted(taken, target) {
      var entries := taken.value.entries;
      var text := Followed(entries[AGENT_FILE], target).value.data;
      ContainsIff(text, RUN_METHOD);
      var front, back :| text == front + RUN_METHOD + back;
      assert taken == Some(Dir(entries));
    }
    if HoldsAgent(taken, target) {
      var entries: map<string, Node>, front: string, back: string :|
        taken == Some(Dir(entries)) && "agent.py" in entries
        && var file := File(front + "async def run(self)" + back);
           entries["agent.py"] == file || (entries["agent.py"].Link? && target(entries["agent.py"].target) == Some(file));
      ContainsIff(front + RUN_METHOD + back, RUN_METHOD);
    }
  }

  /** When an update goes which way. The swap begins exactly when the commit is new, the version is not marked bad and
      the snapshot holds an agent.py with the run method; an installed commit counts as current whatever its
      version. */
  lemma VerdictIff(d: Directory, installed: string, bad: set<string>, release: Release, taken: Option<Node>,
                   target: string -> Option<Node>, lucks: seq<Luck>)
    requires |lucks| == |release.items|
    ensures var result := Verdict(d, installed, bad, release, Trusted(taken, target), lucks);
            && (result.Current? <==> !NewCommit(installed, release))
            && (result.KnownBad? <==> NewCommit(installed, release) && release.version in bad)
            && (result.NoSnapshot? <==>
                NewCommit(installed, release) && release.version !in bad && !HoldsAgent(taken, target))
            && (result in {Aborted, Applied} <==>
                NewCommit(installed, release) && release.version !in bad && HoldsAgent(taken, target))
            && (result.Aborted? ==> !SwapAll(d, release.items, lucks).ok)
            && (result.Applied? ==> SwapAll(d, release.items, lucks).ok)
  {
    TrustedIff(taken, target);
  }

  class Installation {
    var root: Directory
    var backup: Option<Node>
    var installed: string
    var badVersions: set<string>
    ghost var history: seq<Directory>

    constructor (d: Directory, commit: string, bad: set<string>)
      ensures root == d && history == [] && installed == commit && badVersions == bad && backup == None
    {
      root, history, installed, badVersions, backup := d, [], commit, bad, None;
    }

    method Put(name: string, node: Node)
      modifies `root, `history
      ensures root == old(root)[name := node] && history == old(history) + [root]
    {
      root := root[name := node];
      history := history + [root];
    }

    method Remove(name: string)
      modifies `root, `history
      ensures root == old(root) - {name} && history == old(history) + [root]
    {
      root := root - {name};
      history := history + [root];
    }

    method Rename(from: string, to: string) returns (ok: bool)
      modifies `root, `history
      ensures ok <==> CanRename(old(root), from, to)
      ensures root == if ok then Renamed(old(root), from, to) else old(root)
      ensures history == if ok then old(history) + [root] else old(history)
    {
      ok := from in root && (to in root ==> if root[from].Dir? then root[to] == Dir(map[]) else !root[to].Dir?);
      if ok {
        root := (root - {from})[to := root[from]];
        history := history + [root];
      }
    }

    /** The path goes through the given trees, one after the other. */
    method Pass(name: string, nodes: seq<Node>)
      modifies `root, `history
      ensures history == old(history) + Shows(old(root), name, nodes)
      ensures root == End(old(root), Shows(old(root), name, nodes))
    {
      ghost var d := root;
      for i := 0 to |nodes|
        invariant history == old(history) + Shows(d, name, nodes[..i])
        invariant root == End(d, Shows(d, name, nodes[..i]))
        invariant root - {name} == d - {name}
      {
        assert nodes[..i + 1][..i] == nodes[..i];
        Put(name, nodes[i]);
        assert root == d[name := nodes[i]];
      }
      assert nodes[..|nodes|] == nodes;
    }

    method Rmtree(name: string, partial: seq<Node>, left: Option<Node>)
      modifies `root, `history
      ensures history == old(history) + RmtreeTrace(old(root), name, partial, left)
      ensures root == End(old(root), RmtreeTrace(old(root), name, partial, left))
    {
      if name in root && root[name].Dir? {
        ghost var d := root;
        ShowsFacts(d, name, partial);
        Pass(name, partial);
        assert SameBut(d, root, {name}) by {
          if Shows(d, name, partial) != [] {
            assert root in Shows(d, name, partial);
          }
        }
        if left.Some? {
          Put(name, left.value);
        } else {
          Remove(name);
        }
        SameDirectory(root, Without(d, name, left));
      }
    }

    method Clear(name: string, partial: seq<Node>, left: Option<Node>)
      modifies `root, `history
      ensures history == old(history) + ClearTrace(old(root), name, partial, left)
      ensures root == End(old(root), ClearTrace(old(root), name, partial, left))
    {
      if name in root && root[name].Dir? {
        Rmtree(name, partial, left);
      } else if name in root && left.None? {
        Remove(name);
      }
    }

    method SwapOne(item: Item, luck: Luck) returns (ok: bool)
      modifies `root, `history
      ensures var r := SwapItem(old(root), item, luck);
              ok == r.ok && history == old(history) + r.trace && root == End(old(root), r.trace)
    {
      if item.name in KEPT {
        return true;
      }
      ghost var d, h := root, history;
      ClearBoth(item, luck);
      ghost var t, d2 := Cleared(d, item, luck), root;
      if item.node.Dir? {
        ok := SwapTree(item, luck);
        Chained(d, h, t, SwapDirFrom(d2, item, luck), root, history);
      } else {
        ok := SwapPlain(item, luck);
        Chained(d, h, t, SwapFileFrom(d2, item, luck), root, history);
      }
    }

    method ClearBoth(item: Item, luck: Luck)
      modifies `root, `history
      ensures history == old(history) + Cleared(old(root), item, luck)
      ensures root == End(old(root), Cleared(old(root), item, luck))
    {
      ghost var d := root;
      Clear(item.tmpNew, luck.clearingNew, luck.leftNew);
      Clear(item.tmpOld, luck.clearingOld, luck.leftOld);
      ghost var t1 := ClearTrace(d, item.tmpNew, luck.clearingNew, luck.leftNew);
      TraceAppend(d, t1, ClearTrace(End(d, t1), item.tmpOld, luck.clearingOld, luck.leftOld));
    }

    /** The new version is copied beside the old one. */
    method Copy(item: Item, copied: Node, copying: seq<Node>)
      modifies `root, `history
      ensures history == old(history) + (Shows(old(root), item.tmpNew, copying) + [root])
      ensures root == old(root)[item.tmpNew := copied]
    {
      ghost var d2 := root;
      Pass(item.tmpNew, copying);
      PassedIsSame(d2, item.tmpNew, copying);
      Put(item.tmpNew, copied);
      SameDirectory(root, d2[item.tmpNew := copied]);
    }

    method SwapTree(item: Item, luck: Luck) returns (ok: bool)
      modifies `root, `history
      ensures var r := SwapDirFrom(old(root), item, luck);
              ok == r.ok && history == old(history) + r.trace && root == End(old(root), r.trace)
    {
      if item.tmpNew in root {
        return false;
      }
      if !Plain(item.node) {
        Pass(item.tmpNew, luck.copying);
        return false;
      }
      ghost var d2, h := root, history;
      Copy(item, item.node, luck.copying);
      ghost var t3 := Shows(d2, item.tmpNew, luck.copying) + [root];
      ghost var d3 := root;
      ok := MoveIn(item, luck);
      Chained(d2, h, t3, MovedIn(d3, item, luck), root, history);
    }

    method MoveIn(item: Item, luck: Luck) returns (ok: bool)
      modifies `root, `history
      ensures var r := MovedIn(old(root), item, luck);
              ok == r.ok && history == old(history) + r.trace && root == End(old(root), r.trace)
    {
      ghost var d3, h := root, history;
      if item.name in root {
        var moved := Rename(item.name, item.tmpOld);
        if !moved {
          return false;
        }
      }
      if item.tmpNew !in root {
        return false;
      }
      ghost var d4, t4 := root, if item.name in d3 then [root] else [];
      assert history == h + t4;
      root := (root - {item.tmpNew})[item.name := root[item.tmpNew]];
      history := history + [root];
      ghost var d5 := root;
      Rmtree(item.tmpOld, luck.dropping, luck.leftLast);
      ghost var t6 := RmtreeTrace(d5, item.tmpOld, luck.dropping, luck.leftLast);
      MovedStates(d3, h, t4, d5, t6, root);
      assert MovedIn(d3, item, luck).trace == t4 + ([d5] + t6);
      ok := true;
    }

    method SwapPlain(item: Item, luck: Luck) returns (ok: bool)
      modifies `root, `history
      ensures var r := SwapFileFrom(old(root), item, luck);
              ok == r.ok && history == old(history) + r.trace && root == End(old(root), r.trace)
    {
      if !Plain(item.node) {
        Pass(item.tmpNew, luck.copying);
        return false;
      }
      ghost var d2 := root;
      var copied := CopiedTo(root, item, item.tmpNew);
      Copy(item, copied, luck.copying);
      ok := Rename(item.tmpNew, item.name);
      TraceAppend(d2, Shows(d2, item.tmpNew, luck.copying), [root]);
    }

    /** The loop over the release's entries. */
    method Swap(items: seq<Item>, lucks: seq<Luck>) returns (ok: bool)
      requires |lucks| == |items|
      modifies `root, `history
      ensures var r := SwapAll(old(root), items, lucks);
              ok == r.ok && history == old(history) + r.trace && root == End(old(root), r.trace)
    {
      ghost var d, h := root, history;
      ok := true;
      var i := 0;
      while i < |items| && ok
        invariant i <= |items|
        invariant Did(d, h, SwapAll(d, items[..i], lucks[..i]), ok, root, history)
      {
        ghost var front, e := SwapAll(d, items[..i], lucks[..i]), root;
        ok := SwapOne(items[i], lucks[i]);
        NextItem(d, items, lucks, i);
        Chained(d, h, front.trace, SwapItem(e, items[i], lucks[i]), root, history);
        i := i + 1;
      }
      WholeSwap(d, items, lucks, i);
    }

    /** `restore_snapshot` of the source tree: the failed tree is deleted, which may leave something (`left`), and
        the backup is copied over it, which may fail (`copied`). A clean restore ends in `Rollback`; otherwise the
        tree is whatever `copying` comes to. Every state differs at the source tree alone. */
    method RestoreSnapshot(target: string -> Option<Node>, dropping: seq<Node>, left: Option<Node>, copying: seq<Node>,
                           copied: bool)
      returns (ok: bool)
      modifies `root, `history
      ensures ok <==> backup.Some? && backup.value.Dir? && (SRC in old(root) ==> old(root)[SRC].Dir?) && copied
      ensures ok && left.None? ==> root == Rollback(old(root), backup, target)
      ensures !CanRestore(old(root), backup) ==> root == old(root) && history == old(history)
      ensures old(history) <= history && AllSameBut(old(root), history[|old(history)|..], {SRC})
      ensures SameBut(old(root), root, {SRC})
    {
      ok := backup.Some? && backup.value.Dir? && (SRC in root ==> root[SRC].Dir?);
      if !ok {
        return;
      }
      ghost var d, h := root, history;
      DropSource(dropping, left);
      ghost var d1, h1 := root, history;
      CopySource(copying, if copied && left.None? then Some(Restored(backup.value, target)) else None);
      SourceOnlyTrans(d, h, d1, h1, root, history);
      if copied && left.None? {
        SameDirectory(root, Rollback(d, backup, target));
      }
      ok := copied;
    }

    /** The failed source tree is deleted; errors are ignored and may leave something. */
    method DropSource(dropping: seq<Node>, left: Option<Node>)
      modifies `root, `history
      ensures SourceOnly(old(root), old(history), root, history)
      ensures left.None? && (SRC in old(root) ==> old(root)[SRC].Dir?) ==> root == old(root) - {SRC}
    {
      ghost var d, t := root, RmtreeTrace(root, SRC, dropping, left);
      RmtreeFacts(d, SRC, dropping, left);
      Rmtree(SRC, dropping, left);
      assert history[|old(history)|..] == t;
      if left.None? && SRC in d && d[SRC].Dir? {
        assert root == Without(d, SRC, left);
      }
    }

    /** The backup is copied in, as far as it goes. */
    method CopySource(copying: seq<Node>, whole: Option<Node>)
      modifies `root, `history
      ensures SourceOnly(old(root), old(history), root, history)
      ensures whole.Some? ==> root == old(root)[SRC := whole.value]
    {
      ghost var d := root;
      ShowsFacts(d, SRC, copying);
      PassedIsSame(d, SRC, copying);
      Pass(SRC, copying);
      assert history[|old(history)|..] == Shows(d, SRC, copying);
      if whole.Some? {
        Put(SRC, whole.value);
        assert history[|old(history)|..] == Shows(d, SRC, copying) + [root];
        SameDirectory(root, d[SRC := whole.value]);
      }
    }

    /** `_apply_update` from the gates to the end of the swap. `taken` is what the snapshot of the source tree came
        to: any tree, or none at all. */
    method ApplyUpdate(release: Release, taken: Option<Node>, target: string -> Option<Node>, lucks: seq<Luck>)
      returns (result: Result)
      requires |lucks| == |release.items|
      modifies this
      ensures badVersions == old(badVersions) && installed == old(installed)
      ensures result == Verdict(old(root), old(installed), old(badVersions), release, Trusted(taken, target), lucks)
      ensures release.version in old(badVersions) || !HoldsAgent(taken, target) || !NewCommit(installed, release) ==>
        root == old(root) && history == old(history) && backup == old(backup)
      ensures result in {Current, KnownBad, NoSnapshot} ==>
        root == old(root) && history == old(history) && backup == old(backup)
      ensures result in {Aborted, Applied} ==>
        && backup == taken
        && history == old(history) + SwapAll(old(root), release.items, lucks).trace
        && root == End(old(root), SwapAll(old(root), release.items, lucks).trace)
    {
      TrustedIff(taken, target);
      if (release.remote != "" && installed == release.remote) || (installed != "" && release.head == installed) {
        return Current;
      }
      if release.version in badVersions {
        return KnownBad;
      }
      if !(taken.Some? && taken.value.Dir? && AGENT_FILE in taken.value.entries) {
        return NoSnapshot;
      }
      var file := Followed(taken.value.entries[AGENT_FILE], target);
      if !(file.Some? && file.value.File? && Contains(file.value.data, RUN_METHOD)) {
        return NoSnapshot;
      }
      backup := taken;
      var ok := Swap(release.items, lucks);
      if !ok {
        return Aborted;
      }
      result := Applied;
    }
  }

  lemma MovedStates(d3: Directory, h: seq<Directory>, t4: seq<Directory>, d5: Directory, t6: seq<Directory>,
                    root: Directory)
    requires root == End(d5, t6)
    ensures h + t4 + [d5] + t6 == h + (t4 + ([d5] + t6)) && End(d3, t4 + ([d5] + t6)) == root
  {
  }

  /** The directory after the swap's states, read off a trace put together from two. */
  lemma TraceAppend(d: Directory, a: seq<Directory>, b: seq<Directory>)
    ensures End(d, a + b) == End(End(d, a), b)
  {
  }

  ghost predicate Did(d: Directory, h: seq<Directory>, r: Swap, ok: bool, root: Directory, history: seq<Directory>) {
    ok == r.ok && history == h + r.trace && root == End(d, r.trace)
  }

  lemma Chained(d: Directory, h: seq<Directory>, front: seq<Directory>, last: Swap,
                root: Directory, history: seq<Directory>)
    requires history == h + front + last.trace && root == End(End(d, front), last.trace)
    ensures Did(d, h, After(front, last), last.ok, root, history)
  {
    TraceAppend(d, front, last.trace);
    assert h + front + last.trace == h + (front + last.trace);
  }

  lemma WholeSwap(d: Directory, items: seq<Item>, lucks: seq<Luck>, i: nat)
    requires |lucks| == |items| && i <= |items|
    requires i < |items| ==> !SwapAll(d, items[..i], lucks[..i]).ok
    ensures SwapAll(d, items[..i], lucks[..i]) == SwapAll(d, items, lucks)
  {
    if i < |items| {
      StoppedSwap(d, items, lucks, i);
    } else {
      assert items[..i] == items && lucks[..i] == lucks;
    }
  }

  /** From one point to another every state differs at the source tree alone. */
  ghost predicate SourceOnly(d: Directory, h: seq<Directory>, root: Directory, history: seq<Directory>) {
    h <= history && AllSameBut(d, history[|h|..], {SRC}) && SameBut(d, root, {SRC})
  }

  lemma SourceOnlyTrans(d: Directory, h: seq<Directory>, d1: Directory, h1: seq<Directory>, root: Directory,
                        history: seq<Directory>)
    requires SourceOnly(d, h, d1, h1) && SourceOnly(d1, h1, root, history)
    ensures SourceOnly(d, h, root, history)
  {
    var t1, t2 := h1[|h|..], history[|h1|..];
    assert history[|h|..] == t1 + t2;
    assert {SRC} + {SRC} == {SRC};
    SameButTrans(d, d1, t2, {SRC}, {SRC});
    SameButTrans(d, d1, [root], {SRC}, {SRC});
    assert root in [root];
  }

  lemma PassedIsSame(d: Directory, name: string, nodes: seq<Node>)
    ensures SameBut(d, End(d, Shows(d, name, nodes)), {name})
  {
    ShowsFacts(d, name, nodes);
    if Shows(d, name, nodes) != [] {
      assert End(d, Shows(d, name, nodes)) in Shows(d, name, nodes);
    }
  }

  lemma NextItem(d: Directory, items: seq<Item>, lucks: seq<Luck>, i: nat)
    requires |lucks| == |items| && i < |items|
    ensures SwapAll(d, items[..i + 1], lucks[..i + 1])
         == Extended(d, SwapAll(d, items[..i], lucks[..i]), items[i], lucks[i])
  {
    assert items[..i + 1][..i] == items[..i] && lucks[..i + 1][..i] == lucks[..i];
  }

  lemma {:induction false} StoppedSwap(d: Directory, items: seq<Item>, lucks: seq<Luck>, i: nat)
    requires |lucks| == |items| && i <= |items| && !SwapAll(d, items[..i], lucks[..i]).ok
    ensures SwapAll(d, items, lucks) == SwapAll(d, items[..i], lucks[..i])
    decreases |items|
  {
    if i < |items| {
      var n := |items| - 1;
      var front, frontLucks := items[..n], lucks[..n];
      assert front[..i] == items[..i] && frontLucks[..i] == lucks[..i];
      StoppedSwap(d, front, frontLucks, i);
      assert SwapAll(d, items, lucks) == Extended(d, SwapAll(d, front, frontLucks), items[n], lucks[n]);
    } else {
      assert items[..i] == items && lucks[..i] == lucks;
    }
  }

  lemma SameDirectory(a: Directory, b: Directory)
    requires forall name :: Get(a, name) == Get(b, name)
    ensures a == b
  {
    assert forall name :: name in a <==> Get(a, name).Some?;
    assert forall name :: name in b <==> Get(b, name).Some?;
    assert a.Keys == b.Keys;
    assert forall name | name in a :: Get(a, name).value == a[name];
    assert forall name | name in b :: Get(b, name).value == b[name];
  }
}
