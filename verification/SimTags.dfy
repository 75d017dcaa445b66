/** The tags of the VMs on a host (agent/src/pve_cmds.py): Proxmox keeps them as one string with semicolons,
    the sweeps split it, edit the list and write it back. */
module SimTags {
  import opened Options
  import opened Text

  // ── one string, many tags ──────────────────────────────────────────────────

  /** `split(";")`. */
  function Pieces(s: string): seq<string> {
    if s == "" then [""]
    else if s[0] == ';' then [""] + Pieces(s[1..])
    else var rest := Pieces(s[1..]); if rest == [] then [] else [[s[0]] + rest[0]] + rest[1..]
  }

  /** The pieces that are not blank. */
  function Solid(pieces: seq<string>): seq<string> {
    if pieces == [] then []
    else
      var front, last := Solid(pieces[..|pieces| - 1]), pieces[|pieces| - 1];
      if Blank(last) then front else front + [last]
  }

  function Stripped(tags: seq<string>): seq<string> {
    if tags == [] then [] else Stripped(tags[..|tags| - 1]) + [Strip(tags[|tags| - 1])]
  }

  /** The tags a stored string means. */
  function Tags(s: string): seq<string> {
    Stripped(Solid(Pieces(s)))
  }

  /** The string `set_tags_any` stores. */
  function Stored(tags: seq<string>): string {
    Join(';', Stripped(Solid(tags)))
  }

  /** What is stored has no gaps: its pieces are the tags that are not blank, stripped. */
  lemma StoredHasNoGaps(tags: seq<string>)
    requires forall t | t in tags :: ';' !in t
    ensures Stripped(Solid(tags)) == [] ==> Stored(tags) == ""
    ensures Stripped(Solid(tags)) != [] ==> Pieces(Stored(tags)) == Stripped(Solid(tags))
  {
    SolidFacts(tags);
    if Stripped(Solid(tags)) != [] {
      PiecesOfJoin(Stripped(Solid(tags)));
    }
  }

  predicate Neat(tag: string) {
    tag != "" && Trimmed(tag)
  }

  predicate Clean(tag: string) {
    Neat(tag) && ';' !in tag
  }

  predicate AllClean(tags: seq<string>) {
    forall t | t in tags :: Clean(t)
  }

  lemma {:induction false} PiecesOfOne(tag: string)
    requires ';' !in tag
    ensures Pieces(tag) == [tag]
  {
    if tag != "" {
      PiecesOfOne(tag[1..]);
      assert [tag[0]] + tag[1..] == tag;
    }
  }

  lemma {:induction false} PiecesOfFirst(tag: string, rest: string)
    requires ';' !in tag
    ensures Pieces(tag + ";" + rest) == [tag] + Pieces(rest)
  {
    var s := tag + ";" + rest;
    if tag == "" {
      assert s[1..] == rest;
    } else {
      PiecesOfFirst(tag[1..], rest);
      assert s[1..] == tag[1..] + ";" + rest;
      assert [tag[0]] + tag[1..] == tag;
    }
  }

  lemma {:induction false} PiecesOfJoin(tags: seq<string>)
    requires tags != [] && forall t | t in tags :: ';' !in t
    ensures Pieces(Join(';', tags)) == tags
  {
    PiecesOfOne(tags[0]);
    if |tags| > 1 {
      PiecesOfJoin(tags[1..]);
      PiecesOfFirst(tags[0], Join(';', tags[1..]));
      assert Join(';', tags) == tags[0] + ";" + Join(';', tags[1..]);
    }
  }

  lemma {:induction false} PiecesHaveNoSemicolon(s: string)
    ensures Pieces(s) != [] && forall t | t in Pieces(s) :: ';' !in t
  {
    if s != "" {
      PiecesHaveNoSemicolon(s[1..]);
      var rest := Pieces(s[1..]);
      assert rest[0] in rest && forall t | t in rest[1..] :: t in rest;
    }
  }

  lemma {:induction false} StripKeepsFree(s: string)
    ensures forall c | c in Strip(s) :: c in s
  {
    RStripFacts(s);
    LStripFacts(RStrip(s));
  }

  lemma {:induction false} SolidFacts(pieces: seq<string>)
    requires forall t | t in pieces :: ';' !in t
    ensures AllClean(Stripped(Solid(pieces)))
  {
    if pieces != [] {
      var last := pieces[|pieces| - 1];
      SolidFacts(pieces[..|pieces| - 1]);
      StripIsTrimmed(last);
      StripKeepsFree(last);
      var front := Solid(pieces[..|pieces| - 1]);
      assert (front + [last])[..|front|] == front;
    }
  }

  lemma {:induction false} CleanTagsStay(tags: seq<string>)
    requires forall t | t in tags :: Neat(t)
    ensures Solid(tags) == tags && Stripped(tags) == tags
  {
    if tags != [] {
      assert Neat(tags[|tags| - 1]);
      StripIsTrimmed(tags[|tags| - 1]);
      CleanTagsStay(tags[..|tags| - 1]);
    }
  }

  /** What is read from a stored string is always clean. */
  lemma TagsAreClean(s: string)
    ensures AllClean(Tags(s))
  {
    PiecesHaveNoSemicolon(s);
    SolidFacts(Pieces(s));
  }

  /** Splitting undoes joining exactly when no tag has a semicolon in it. */
  lemma ReadUndoesStoreIff(tags: seq<string>)
    requires forall t | t in tags :: Neat(t)
    ensures Tags(Stored(tags)) == tags <==> AllClean(tags)
  {
    CleanTagsStay(tags);
    TagsAreClean(Stored(tags));
    if AllClean(tags) && tags != [] {
      PiecesOfJoin(tags);
    }
    assert Stored([]) == "" && Pieces("") == [""];
    assert Strip("") == "" && Solid([""]) == [];
  }

  // ── order-insensitive comparison ───────────────────────────────────────────

  function Insert(x: string, sorted: seq<string>): seq<string> {
    if sorted == [] || Less(x, sorted[0]) then [x] + sorted else [sorted[0]] + Insert(x, sorted[1..])
  }

  /** `sorted`. */
  function Sort(xs: seq<string>): seq<string> {
    if xs == [] then [] else Insert(xs[|xs| - 1], Sort(xs[..|xs| - 1]))
  }

  predicate AtMost(x: string, xs: seq<string>) {
    forall t | t in xs :: !Less(t, x)
  }

  predicate InOrder(xs: seq<string>) {
    xs == [] || (AtMost(xs[0], xs[1..]) && InOrder(xs[1..]))
  }

  lemma {:induction false} InsertAdds(x: string, sorted: seq<string>)
    ensures multiset(Insert(x, sorted)) == multiset(sorted) + multiset{x}
  {
    if sorted != [] && !Less(x, sorted[0]) {
      InsertAdds(x, sorted[1..]);
      assert sorted == [sorted[0]] + sorted[1..];
    }
  }

  lemma AtMostAll(x: string, sorted: seq<string>)
    requires sorted != [] && Less(x, sorted[0]) && InOrder(sorted)
    ensures AtMost(x, sorted)
  {
    forall t | t in sorted ensures !Less(t, x) {
      LessIsTotal(x, sorted[0]);
      assert t != sorted[0] ==> t in sorted[1..];
      if Less(t, x) {
        LessIsTransitive(t, x, sorted[0]);
      }
    }
  }

  lemma {:induction false} InsertKeepsOrder(x: string, sorted: seq<string>)
    requires InOrder(sorted)
    ensures InOrder(Insert(x, sorted))
  {
    if sorted != [] {
      if Less(x, sorted[0]) {
        AtMostAll(x, sorted);
        assert ([x] + sorted)[1..] == sorted;
      } else {
        var r := Insert(x, sorted[1..]);
        InsertKeepsOrder(x, sorted[1..]);
        InsertAdds(x, sorted[1..]);
        assert forall t | t in r :: t in multiset(r) && (t == x || t in sorted[1..]);
        assert ([sorted[0]] + r)[1..] == r;
      }
    }
  }

  lemma {:induction false} SortFacts(xs: seq<string>)
    ensures InOrder(Sort(xs)) && multiset(Sort(xs)) == multiset(xs)
  {
    if xs != [] {
      SortFacts(xs[..|xs| - 1]);
      InsertKeepsOrder(xs[|xs| - 1], Sort(xs[..|xs| - 1]));
      InsertAdds(xs[|xs| - 1], Sort(xs[..|xs| - 1]));
      assert xs == xs[..|xs| - 1] + [xs[|xs| - 1]];
    }
  }

  lemma {:induction false} OrderIsUnique(a: seq<string>, b: seq<string>)
    requires InOrder(a) && InOrder(b) && multiset(a) == multiset(b)
    ensures a == b
  {
    if a == [] {
      assert |multiset(b)| == 0;
    } else {
      assert |b| == |multiset(b)| == |a|;
      SameHead(a, b);
      TailCounts(a);
      TailCounts(b);
      OrderIsUnique(a[1..], b[1..]);
      assert a == [a[0]] + a[1..] && b == [b[0]] + b[1..];
    }
  }

  lemma TailCounts(a: seq<string>)
    requires a != []
    ensures multiset(a[1..]) == multiset(a) - multiset{a[0]}
  {
    assert a == [a[0]] + a[1..];
  }

  lemma SameHead(a: seq<string>, b: seq<string>)
    requires a != [] && b != [] && InOrder(a) && InOrder(b) && multiset(a) == multiset(b)
    ensures a[0] == b[0]
  {
    assert a[0] in multiset(a) && b[0] in multiset(b);
    assert a[0] in multiset(b) && b[0] in multiset(a);
    assert a[0] != b[0] ==> a[0] in b[1..] && b[0] in a[1..];
    LessIsTotal(a[0], b[0]);
  }

  /** Comparing sorted lists compares the lists as multisets. */
  lemma SortedEqualIff(a: seq<string>, b: seq<string>)
    ensures Sort(a) == Sort(b) <==> multiset(a) == multiset(b)
  {
    SortFacts(a);
    SortFacts(b);
    if multiset(a) == multiset(b) {
      OrderIsUnique(Sort(a), Sort(b));
    }
  }

  // ── the simulation tags ────────────────────────────────────────────────────

  /** Begins with `sim-` in any mix of cases. */
  predicate IsSim(tag: string) {
    |tag| >= 4 && tag[0] in "sS" && tag[1] in "iI" && tag[2] in "mM" && tag[3] == '-'
  }

  predicate NotSim(tag: string) {
    !IsSim(tag)
  }

  function Filter(tags: seq<string>, keep: string -> bool): seq<string> {
    if tags == [] then []
    else
      var front, last := Filter(tags[..|tags| - 1], keep), tags[|tags| - 1];
      if keep(last) then front + [last] else front
  }

  /** A list as a sorted list without repeats. */
  function Distinct(tags: seq<string>): seq<string> {
    if tags == [] then []
    else
      var front, last := Distinct(tags[..|tags| - 1]), tags[|tags| - 1];
      if last in front then front else Insert(last, front)
  }

  /** The tags a VM should carry: stripped, simulation tags only, sorted, no repeats. */
  function Wanted(desired: seq<string>): seq<string> {
    Distinct(Filter(Stripped(Solid(desired)), IsSim))
  }

  function NewTags(s: string, desired: seq<string>): seq<string> {
    Filter(Tags(s), NotSim) + Wanted(desired)
  }

  predicate Skips(s: string, desired: seq<string>) {
    Sort(Tags(s)) == Sort(NewTags(s, desired))
  }

  /** The stored string after the sweep has handled the VM without an error. */
  function Handled(s: string, desired: seq<string>): string {
    if Skips(s, desired) then s else Stored(NewTags(s, desired))
  }

  lemma {:induction false} FilterFacts(tags: seq<string>, keep: string -> bool)
    ensures forall t :: t in Filter(tags, keep) <==> t in tags && keep(t)
  {
    if tags != [] {
      FilterFacts(tags[..|tags| - 1], keep);
    }
  }

  lemma {:induction false} FilterAll(tags: seq<string>, keep: string -> bool)
    ensures (forall t | t in tags :: keep(t)) ==> Filter(tags, keep) == tags
    ensures (forall t | t in tags :: !keep(t)) ==> Filter(tags, keep) == []
  {
    if tags != [] {
      FilterAll(tags[..|tags| - 1], keep);
    }
  }

  lemma {:induction false} FilterAppend(a: seq<string>, b: seq<string>, keep: string -> bool)
    ensures Filter(a + b, keep) == Filter(a, keep) + Filter(b, keep)
  {
    if b == [] {
      assert a + b == a;
    } else {
      assert (a + b)[..|a + b| - 1] == a + b[..|b| - 1];
      FilterAppend(a, b[..|b| - 1], keep);
    }
  }

  /** The two kinds of tags make up the list. */
  lemma {:induction false} FilterSplits(tags: seq<string>)
    ensures multiset(tags) == multiset(Filter(tags, NotSim)) + multiset(Filter(tags, IsSim))
  {
    if tags != [] {
      var front := tags[..|tags| - 1];
      FilterSplits(front);
      assert tags == front + [tags[|tags| - 1]];
    }
  }

  lemma {:induction false} StrippedIsNeat(pieces: seq<string>)
    ensures forall t | t in Stripped(Solid(pieces)) :: Neat(t)
  {
    if pieces != [] {
      var last := pieces[|pieces| - 1];
      StrippedIsNeat(pieces[..|pieces| - 1]);
      StripIsTrimmed(last);
      var front := Solid(pieces[..|pieces| - 1]);
      assert (front + [last])[..|front|] == front;
    }
  }

  lemma {:induction false} DistinctFacts(tags: seq<string>)
    ensures InOrder(Distinct(tags)) && forall t :: multiset(Distinct(tags))[t] == if t in tags then 1 else 0
  {
    if tags != [] {
      var front, last := tags[..|tags| - 1], tags[|tags| - 1];
      DistinctFacts(front);
      InsertKeepsOrder(last, Distinct(front));
      InsertAdds(last, Distinct(front));
      assert tags == front + [last];
      assert forall t :: t in Distinct(front) <==> t in multiset(Distinct(front));
    }
  }

  /** The wanted tags are those the caller named: neat, simulation tags, each once, in order. */
  lemma WantedFacts(desired: seq<string>)
    ensures InOrder(Wanted(desired))
    ensures forall t :: t in Wanted(desired) <==> t in Stripped(Solid(desired)) && IsSim(t)
    ensures forall t | t in Wanted(desired) :: Neat(t) && IsSim(t) && multiset(Wanted(desired))[t] == 1
  {
    var sims := Filter(Stripped(Solid(desired)), IsSim);
    StrippedIsNeat(desired);
    FilterFacts(Stripped(Solid(desired)), IsSim);
    DistinctFacts(sims);
    assert forall t :: t in Wanted(desired) <==> t in multiset(Wanted(desired));
  }

  /** New tags are neat, and clean exactly when the wanted ones are. */
  lemma NewTagsFacts(s: string, desired: seq<string>)
    ensures forall t | t in NewTags(s, desired) :: Neat(t)
    ensures AllClean(NewTags(s, desired)) <==> AllClean(Wanted(desired))
    ensures Filter(NewTags(s, desired), NotSim) == Filter(Tags(s), NotSim)
    ensures Filter(NewTags(s, desired), IsSim) == Wanted(desired)
  {
    var others, wanted := Filter(Tags(s), NotSim), Wanted(desired);
    TagsAreClean(s);
    FilterFacts(Tags(s), NotSim);
    WantedFacts(desired);
    FilterAppend(others, wanted, NotSim);
    FilterAppend(others, wanted, IsSim);
    FilterAll(others, NotSim);
    FilterAll(wanted, NotSim);
    FilterAll(others, IsSim);
    FilterAll(wanted, IsSim);
    assert forall t | t in wanted :: t in others + wanted;
  }

  lemma Cancels(n: multiset<string>, x: multiset<string>, y: multiset<string>)
    ensures n + x == n + y <==> x == y
  {
    if n + x == n + y {
      assert forall t :: (n + x)[t] == n[t] + x[t] && (n + y)[t] == n[t] + y[t];
    }
  }

  /** A VM is skipped exactly when its simulation tags are the wanted ones, in any order. */
  lemma SkipsIff(s: string, desired: seq<string>)
    ensures Skips(s, desired) <==> multiset(Filter(Tags(s), IsSim)) == multiset(Wanted(desired))
  {
    var others := Filter(Tags(s), NotSim);
    SortedEqualIff(Tags(s), others + Wanted(desired));
    FilterSplits(Tags(s));
    Cancels(multiset(others), multiset(Filter(Tags(s), IsSim)), multiset(Wanted(desired)));
    assert multiset(others + Wanted(desired)) == multiset(others) + multiset(Wanted(desired));
  }

  /** Once handled, a VM keeps its other tags in their order and carries exactly the wanted simulation tags,
      and a second sweep writes nothing: all this exactly when no wanted tag has a semicolon in it. */
  lemma HandledIff(s: string, desired: seq<string>)
    ensures var t := Handled(s, desired);
            && (AllClean(Wanted(desired)) ==> Filter(Tags(t), NotSim) == Filter(Tags(s), NotSim))
            && (multiset(Filter(Tags(t), IsSim)) == multiset(Wanted(desired)) <==> AllClean(Wanted(desired)))
            && (Skips(t, desired) <==> AllClean(Wanted(desired)))
            && (!Skips(s, desired) && AllClean(Wanted(desired)) ==> Tags(t) == NewTags(s, desired))
  {
    var t := Handled(s, desired);
    NewTagsFacts(s, desired);
    SkipsIff(s, desired);
    SkipsIff(t, desired);
    ReadUndoesStoreIff(NewTags(s, desired));
    TagsAreClean(t);
    FilterFacts(Tags(t), IsSim);
    if multiset(Filter(Tags(t), IsSim)) == multiset(Wanted(desired)) {
      forall w | w in Wanted(desired) ensures Clean(w) {
        assert w in multiset(Wanted(desired));
        assert w in Filter(Tags(t), IsSim);
      }
    }
  }

  function Lower(c: char): char {
    if 'A' <= c <= 'Z' then (c as int + 32) as char else c
  }

  function Lowered(s: string): string {
    seq(|s|, i requires 0 <= i < |s| => Lower(s[i]))
  }

  lemma SimByText(tag: string)
    ensures IsSim(tag) <==> "sim-" <= Lowered(tag)
  {
    if |tag| >= 4 {
      var l := Lowered(tag);
      assert l[0] == Lower(tag[0]) && l[1] == Lower(tag[1]) && l[2] == Lower(tag[2]) && l[3] == Lower(tag[3]);
      assert "sim-" <= l <==> l[..4] == "sim-";
      assert l[..4] == [l[0], l[1], l[2], l[3]];
    }
  }

  /** Tag by tag, by its text alone: a tag whose lower-case text begins with "sim-" is on a handled VM exactly when the
      request named it, any other exactly when it was there before; "staging" stays, a stale "sim-x" goes. */
  lemma HandledByText(s: string, desired: seq<string>, tag: string)
    requires AllClean(Wanted(desired))
    ensures tag in Tags(Handled(s, desired)) <==>
      if "sim-" <= Lowered(tag) then tag in Stripped(Solid(desired)) else tag in Tags(s)
  {
    var t := Handled(s, desired);
    HandledIff(s, desired);
    SimByText(tag);
    WantedFacts(desired);
    FilterFacts(Tags(s), NotSim);
    FilterFacts(Tags(t), NotSim);
    FilterFacts(Tags(t), IsSim);
    assert tag in Filter(Tags(t), IsSim) <==> tag in multiset(Filter(Tags(t), IsSim));
    assert tag in Wanted(desired) <==> tag in multiset(Wanted(desired));
  }

  /** A VM whose simulation tags are the wanted ones keeps its stored string to the letter. */
  lemma SkippedIsUntouched(s: string, desired: seq<string>)
    requires multiset(Filter(Tags(s), IsSim)) == multiset(Wanted(desired))
    ensures Handled(s, desired) == s
  {
    SkipsIff(s, desired);
  }

  lemma OneNeatTag(w: string)
    requires Neat(w)
    ensures Stripped(Solid([w])) == [w] && Distinct([w]) == [w]
  {
    CleanTagsStay([w]);
    assert [w][..0] == [];
  }

  lemma TwoTags(a: string, b: string)
    requires Clean(a) && Clean(b)
    ensures Tags(a + ";" + b) == [a, b]
  {
    assert Join(';', [b]) == b && [a, b][1..] == [b];
    assert a + ";" + b == Join(';', [a, b]);
    PiecesOfJoin([a, b]);
    CleanTagsStay([a, b]);
  }

  /** A single wanted tag is written to a VM without tags. */
  lemma WrittenAlone(w: string)
    requires Neat(w) && IsSim(w)
    ensures Handled("", [w]) == w
  {
    OneNeatTag(w);
    assert [w][..0] == [];
    assert Filter([w], IsSim) == [w] && Wanted([w]) == [w];
    NothingStored();
    assert NewTags("", [w]) == [w];
    SkipsIff("", [w]);
    assert w in multiset(Wanted([w]));
    assert Stored([w]) == w;
  }

  /** With a semicolon in it a wanted tag can leave a tag of another kind behind. */
  lemma SemicolonLeaks(a: string, b: string)
    requires Clean(a) && Clean(b) && IsSim(a) && !IsSim(b)
    ensures Tags(Handled("", [a + ";" + b])) == [a, b]
  {
    WrittenAlone(a + ";" + b);
    TwoTags(a, b);
  }

  lemma NothingStored()
    ensures Tags("") == []
  {
    assert Strip("") == "" && [""][..0] == [];
    assert Solid([""]) == [];
  }

  // ── a tenant's tag is renamed ──────────────────────────────────────────────

  function Without(pieces: seq<string>, tag: string): seq<string> {
    if pieces == [] then []
    else
      var front, last := Without(pieces[..|pieces| - 1], tag), pieces[|pieces| - 1];
      if last == tag then front else front + [last]
  }

  /** `retag_tenant` for one VM: here the pieces are compared as they stand, not stripped. */
  function Retagged(s: string, was: string, now: string): string {
    var pieces := Solid(Pieces(s));
    if was !in pieces then s
    else
      var kept := Without(pieces, was);
      Stored(if now in kept then kept else kept + [now])
  }

  /** What `retag_tenant` makes of a host's tags. */
  function AllRetagged(tags: map<int, string>, was: string, now: string, failing: set<int>): map<int, string> {
    if was == "" || now == "" || was == now then tags
    else map v | v in tags :: if v in failing then tags[v] else Retagged(tags[v], was, now)
  }

  // ── the sweep over a host ──────────────────────────────────────────────────

  datatype Update = Update(vm: int, tags: seq<string>)

  /** The writes a sweep makes in the order of the request, and the VMs whose write failed. */
  function Updates(tags: map<int, string>, order: seq<int>, wanted: map<int, seq<string>>, failing: set<int>): seq<Update>
    requires forall v | v in order :: v in wanted
  {
    if order == [] then []
    else
      var front, v := Updates(tags, order[..|order| - 1], wanted, failing), order[|order| - 1];
      if v in tags && !Skips(tags[v], wanted[v]) && v !in failing then front + [Update(v, NewTags(tags[v], wanted[v]))]
      else front
  }

  function Swept(tags: map<int, string>, wanted: map<int, seq<string>>, failing: set<int>): map<int, string> {
    map v | v in tags :: if v in wanted && v !in failing then Handled(tags[v], wanted[v]) else tags[v]
  }

  /** The VMs of `order` have been seen to. */
  predicate SweptSoFar(tags: map<int, string>, was: map<int, string>, order: seq<int>, wanted: map<int, seq<string>>,
                       failing: set<int>)
    requires forall v | v in order :: v in wanted
  {
    && tags.Keys == was.Keys
    && forall v | v in was :: tags[v] == if v in order && v !in failing then Handled(was[v], wanted[v]) else was[v]
  }

  function ErrorsOf(tags: map<int, string>, order: seq<int>, wanted: map<int, seq<string>>, failing: set<int>): set<int>
    requires forall v | v in order :: v in wanted
  {
    set v | v in failing && v in order && v in tags && !Skips(tags[v], wanted[v])
  }

  /** Where a sweep stands after the VMs of `order`. */
  ghost predicate SweepAt(tags: map<int, string>, was: map<int, string>, order: seq<int>, wanted: map<int, seq<string>>,
                          failing: set<int>, updated: seq<Update>, errors: set<int>)
    requires forall v | v in order :: v in wanted
  {
    && SweptSoFar(tags, was, order, wanted, failing)
    && updated == Updates(was, order, wanted, failing) && errors == ErrorsOf(was, order, wanted, failing)
  }

  /** One more VM has been seen to: it is written, failed, or left alone. */
  lemma SweepStep(tags: map<int, string>, was: map<int, string>, order: seq<int>, v: int, wanted: map<int, seq<string>>,
                  failing: set<int>, updated: seq<Update>, errors: set<int>)
    requires (forall w | w in order :: w in wanted) && v in wanted && v !in order
    requires SweepAt(tags, was, order, wanted, failing, updated, errors)
    ensures var due := v in was && !Skips(was[v], wanted[v]);
            if due && v in failing then SweepAt(tags, was, order + [v], wanted, failing, updated, errors + {v})
            else if due then
              SweepAt(tags[v := Stored(NewTags(was[v], wanted[v]))], was, order + [v], wanted, failing,
                      updated + [Update(v, NewTags(was[v], wanted[v]))], errors)
            else SweepAt(tags, was, order + [v], wanted, failing, updated, errors)
  {
    TagsStep(tags, was, order, v, wanted, failing);
    ErrorsStep(was, order, v, wanted, failing);
    assert (order + [v])[..|order|] == order;
  }

  lemma TagsStep(tags: map<int, string>, was: map<int, string>, order: seq<int>, v: int, wanted: map<int, seq<string>>,
                 failing: set<int>)
    requires (forall w | w in order :: w in wanted) && v in wanted && v !in order
    requires SweptSoFar(tags, was, order, wanted, failing)
    ensures var due := v in was && !Skips(was[v], wanted[v]);
            SweptSoFar(if due && v !in failing then tags[v := Handled(was[v], wanted[v])] else tags, was, order + [v],
                       wanted, failing)
  {
    assert v in was ==> tags[v] == was[v];
    assert v in was && Skips(was[v], wanted[v]) ==> Handled(was[v], wanted[v]) == was[v];
  }

  lemma ErrorsStep(was: map<int, string>, order: seq<int>, v: int, wanted: map<int, seq<string>>, failing: set<int>)
    requires (forall w | w in order :: w in wanted) && v in wanted
    ensures ErrorsOf(was, order + [v], wanted, failing) == ErrorsOf(was, order, wanted, failing) +
              if v in was && !Skips(was[v], wanted[v]) && v in failing then {v} else {}
  {
  }

  lemma NextInOrder(order: seq<int>, i: nat)
    requires i < |order| && forall m, n | 0 <= m < n < |order| :: order[m] != order[n]
    ensures order[i] in order && order[i] !in order[..i] && order[..i + 1] == order[..i] + [order[i]]
  {
  }

  lemma SweptIs(tags: map<int, string>, was: map<int, string>, order: seq<int>, wanted: map<int, seq<string>>,
                failing: set<int>)
    requires forall v :: v in order <==> v in wanted
    requires SweptSoFar(tags, was, order, wanted, failing)
    ensures tags == Swept(was, wanted, failing)
  {
    forall v ensures v in tags <==> v in was {
      assert v in tags.Keys <==> v in was.Keys;
    }
    forall v | v in was ensures tags[v] == Swept(was, wanted, failing)[v] {
    }
  }

  predicate RetaggedSoFar(tags: map<int, string>, before: map<int, string>, order: seq<int>, was: string, now: string,
                          failing: set<int>) {
    && tags.Keys == before.Keys
    && forall v | v in before ::
         tags[v] == if v in order && v !in failing then Retagged(before[v], was, now) else before[v]
  }

  lemma RetaggedIs(tags: map<int, string>, before: map<int, string>, order: seq<int>, was: string, now: string,
                   failing: set<int>)
    requires (forall v :: v in order <==> v in before) && was != "" && now != "" && was != now
    requires RetaggedSoFar(tags, before, order, was, now, failing)
    ensures tags == AllRetagged(before, was, now, failing)
  {
    forall v ensures v in tags <==> v in before {
      assert v in tags.Keys <==> v in before.Keys;
    }
    forall v | v in before ensures tags[v] == AllRetagged(before, was, now, failing)[v] {
    }
  }

  class Host {
    var tags: map<int, string>

    constructor (initial: map<int, string>)
      ensures tags == initial
    {
      tags := initial;
    }

    /** `set_tags_any`. */
    method SetTags(v: int, list: seq<string>)
      modifies this
      ensures tags == old(tags)[v := Stored(list)]
    {
      var kept := [];
      for i := 0 to |list|
        invariant tags == old(tags) && kept == Stripped(Solid(list[..i]))
      {
        assert list[..i + 1][..i] == list[..i];
        if !Blank(list[i]) {
          assert (Solid(list[..i]) + [list[i]])[..|Solid(list[..i])|] == Solid(list[..i]);
          kept := kept + [Strip(list[i])];
        }
      }
      assert list[..|list|] == list;
      tags := tags[v := Join(';', kept)];
    }

    /** One VM of the sweep; `fails` says whether a write to it raises. */
    method SweepOne(v: int, current: string, desired: seq<string>, fails: bool)
      returns (written: Option<seq<string>>, failed: bool)
      modifies this
      ensures written == if Skips(current, desired) || fails then None else Some(NewTags(current, desired))
      ensures failed <==> fails && !Skips(current, desired)
      ensures tags == if written.Some? then old(tags)[v := Stored(written.value)] else old(tags)
    {
      written, failed := None, false;
      var others := Filter(Tags(current), NotSim);
      var newTags := others + Wanted(desired);
      if Sort(Tags(current)) != Sort(newTags) {
        if fails {
          return None, true;
        }
        SetTags(v, newTags);
        written := Some(newTags);
      }
    }

    /** `apply_sim_tags`: one listing, then VM by VM; `failing` are the VMs whose write raises. */
    method ApplySimTags(order: seq<int>, wanted: map<int, seq<string>>, listed: bool, failing: set<int>)
      returns (updated: seq<Update>, errors: set<int>)
      requires forall v :: v in order <==> v in wanted
      requires forall i, j | 0 <= i < j < |order| :: order[i] != order[j]
      modifies this
      ensures !listed ==> tags == old(tags) && updated == [] && errors == {}
      ensures listed ==> updated == Updates(old(tags), order, wanted, failing)
      ensures listed ==> errors == ErrorsOf(old(tags), order, wanted, failing)
      ensures listed ==> tags == Swept(old(tags), wanted, failing)
    {
      updated, errors := [], {};
      if !listed {
        return;
      }
      var current := tags;
      for i := 0 to |order|
        invariant SweepAt(tags, current, order[..i], wanted, failing, updated, errors)
      {
        var v := order[i];
        NextInOrder(order, i);
        SweepStep(tags, current, order[..i], v, wanted, failing, updated, errors);
        if v in current {
          var newTags, failed := SweepOne(v, current[v], wanted[v], v in failing);
          if failed {
            errors := errors + {v};
          } else if newTags.Some? {
            updated := updated + [Update(v, newTags.value)];
          }
        }
      }
      assert order[..|order|] == order;
      SweptIs(tags, current, order, wanted, failing);
    }

    /** `retag_tenant`. */
    method RetagTenant(order: seq<int>, oldTag: string, newTag: string, failing: set<int>)
      requires forall v :: v in order <==> v in tags
      requires forall i, j | 0 <= i < j < |order| :: order[i] != order[j]
      modifies this
      ensures tags == AllRetagged(old(tags), Strip(oldTag), Strip(newTag), failing)
    {
      var was, now := Strip(oldTag), Strip(newTag);
      if was == "" || now == "" || was == now {
        return;
      }
      ghost var before := tags;
      for i := 0 to |order|
        invariant RetaggedSoFar(tags, before, order[..i], was, now, failing)
      {
        var v := order[i];
        assert v in order && order[..i + 1] == order[..i] + [v] && v !in order[..i] && v in before.Keys;
        var pieces := Solid(Pieces(tags[v]));
        if was in pieces {
          var newTags := Without(pieces, was);
          if now !in newTags {
            newTags := newTags + [now];
          }
          if v !in failing {
            SetTags(v, newTags);
          }
        }
      }
      assert order[..|order|] == order;
      RetaggedIs(tags, before, order, was, now, failing);
    }
  }

  /** A host after a sweep, VM by VM and tag by tag: VMs the request does not name and VMs whose write fails stay as they
      are; on any other a simulation tag is there exactly when the request names it for that VM, and any other tag
      exactly when it was there before. No VM comes or goes. */
  lemma HostAfterSweep(tags: map<int, string>, wanted: map<int, seq<string>>, failing: set<int>, v: int, tag: string)
    requires v in wanted ==> AllClean(Wanted(wanted[v]))
    ensures v in Swept(tags, wanted, failing) <==> v in tags
    ensures v in tags && (v !in wanted || v in failing) ==> Swept(tags, wanted, failing)[v] == tags[v]
    ensures v in tags && v in wanted && v !in failing ==>
      (tag in Tags(Swept(tags, wanted, failing)[v]) <==>
         if "sim-" <= Lowered(tag) then tag in Stripped(Solid(wanted[v])) else tag in Tags(tags[v]))
  {
    if v in tags && v in wanted {
      HandledByText(tags[v], wanted[v], tag);
    }
  }

  /** What a sweep reports: a VM is reported exactly when it is on the host, the request names it, its simulation tags
      are not the wanted ones in any order, and the write succeeds; with its new tags. */
  lemma {:induction false} UpdatesIff(tags: map<int, string>, order: seq<int>, wanted: map<int, seq<string>>,
                                      failing: set<int>, u: Update)
    requires forall v | v in order :: v in wanted
    ensures u in Updates(tags, order, wanted, failing) <==>
      && u.vm in order && u.vm in tags && u.vm !in failing
      && multiset(Filter(Tags(tags[u.vm]), IsSim)) != multiset(Wanted(wanted[u.vm]))
      && u.tags == NewTags(tags[u.vm], wanted[u.vm])
  {
    if order != [] {
      var front, last := order[..|order| - 1], order[|order| - 1];
      UpdatesIff(tags, front, wanted, failing, u);
      assert u.vm in order <==> u.vm in front || u.vm == last;
      if u.vm in tags && u.vm == last {
        SkipsIff(tags[last], wanted[last]);
      }
    }
  }

  /** In the order of the request. */
  lemma {:induction false} UpdatesKeepOrder(tags: map<int, string>, a: seq<int>, b: seq<int>, wanted: map<int, seq<string>>,
                                            failing: set<int>)
    requires forall v | v in a + b :: v in wanted
    ensures (forall v | v in a :: v in wanted) && (forall v | v in b :: v in wanted)
    ensures Updates(tags, a + b, wanted, failing) == Updates(tags, a, wanted, failing) + Updates(tags, b, wanted, failing)
  {
    assert forall v | v in a :: v in a + b;
    assert forall v | v in b :: v in a + b;
    if b == [] {
      assert a + b == a;
    } else {
      var front := b[..|b| - 1];
      assert (a + b)[..|a + b| - 1] == a + front;
      UpdatesKeepOrder(tags, a, front, wanted, failing);
    }
  }

  /** A host after a retag, VM by VM: nothing happens without two different names, to a VM whose write fails or to one
      that does not have the old tag as it stands; any other loses the old tag and has the new one once, in its place
      if it had it or else last. */
  lemma HostAfterRetag(tags: map<int, string>, was: string, now: string, failing: set<int>, v: int)
    requires v in tags && (was == "" || Neat(was)) && (now == "" || Clean(now))
    ensures v in AllRetagged(tags, was, now, failing)
    ensures var after, pieces := AllRetagged(tags, was, now, failing)[v], Solid(Pieces(tags[v]));
            var kept := Without(pieces, was);
            && (was == "" || now == "" || was == now || v in failing || was !in pieces ==> after == tags[v])
            && (was != "" && now != "" && was != now && v !in failing && was in pieces ==>
                  Tags(after) == Stripped(if now in kept then kept else kept + [now]))
  {
    if was != "" && now != "" && was in Solid(Pieces(tags[v])) {
      RetaggedTags(tags[v], was, now);
    }
  }

  /** A sweep without failures followed by the same sweep writes nothing, exactly when no wanted tag of a
      listed VM has a semicolon. */
  lemma {:induction false} SecondSweepWritesNothingIff(tags: map<int, string>, order: seq<int>, wanted: map<int, seq<string>>)
    requires forall v | v in order :: v in wanted
    ensures Updates(Swept(tags, wanted, {}), order, wanted, {}) == []
        <==> forall v | v in order && v in tags :: AllClean(Wanted(wanted[v]))
  {
    if order != [] {
      var front, v := order[..|order| - 1], order[|order| - 1];
      SecondSweepWritesNothingIff(tags, front, wanted);
      LastUpdate(Swept(tags, wanted, {}), order, wanted);
      if v in tags {
        HandledIff(tags[v], wanted[v]);
        assert Swept(tags, wanted, {})[v] == Handled(tags[v], wanted[v]);
      }
      assert forall w :: w in order <==> w in front || w == v;
    }
  }

  lemma LastUpdate(tags: map<int, string>, order: seq<int>, wanted: map<int, seq<string>>)
    requires order != [] && forall v | v in order :: v in wanted
    ensures var front, v := order[..|order| - 1], order[|order| - 1];
            Updates(tags, order, wanted, {}) == [] <==>
            Updates(tags, front, wanted, {}) == [] && (v in tags ==> Skips(tags[v], wanted[v]))
  {
  }

  // ── what a retag keeps ─────────────────────────────────────────────────────

  /** The old tag is there with white space around it. */
  predicate Padded(s: string, tag: string) {
    exists p | p in Pieces(s) :: p != tag && Strip(p) == tag
  }

  lemma {:induction false} StrippedSolidHas(pieces: seq<string>, tag: string)
    requires tag != ""
    ensures tag in Stripped(Solid(pieces)) <==> exists p | p in pieces :: Strip(p) == tag
  {
    if pieces != [] {
      var front, last := pieces[..|pieces| - 1], pieces[|pieces| - 1];
      StrippedSolidHas(front, tag);
      assert pieces == front + [last];
      assert (Solid(front) + [last])[..|Solid(front)|] == Solid(front);
    }
  }

  lemma {:induction false} WithoutFacts(pieces: seq<string>, tag: string)
    requires forall p | p in pieces :: !Blank(p) && ';' !in p
    ensures var kept := Without(pieces, tag);
            && (forall p :: p in kept <==> p in pieces && p != tag)
            && Solid(kept) == kept
  {
    if pieces != [] {
      var front, last := pieces[..|pieces| - 1], pieces[|pieces| - 1];
      assert pieces == front + [last];
      WithoutFacts(front, tag);
      assert (Without(front, tag) + [last])[..|Without(front, tag)|] == Without(front, tag);
    }
  }

  lemma {:induction false} WithoutKeepsTheRest(pieces: seq<string>, tag: string, keep: string -> bool)
    requires !keep(Strip(tag))
    ensures Filter(Stripped(Without(pieces, tag)), keep) == Filter(Stripped(pieces), keep)
    decreases |pieces|
  {
    if pieces != [] {
      var front, last := pieces[..|pieces| - 1], pieces[|pieces| - 1];
      WithoutKeepsTheRest(front, tag, keep);
      StrippedLast(Without(front, tag), last);
      FilterLast(Stripped(front), Strip(last), keep);
      FilterLast(Stripped(Without(front, tag)), Strip(last), keep);
    }
  }

  lemma StrippedLast(front: seq<string>, last: string)
    ensures Stripped(front + [last]) == Stripped(front) + [Strip(last)]
  {
    assert (front + [last])[..|front|] == front;
  }

  lemma FilterLast(front: seq<string>, last: string, keep: string -> bool)
    ensures Filter(front + [last], keep) == Filter(front, keep) + if keep(last) then [last] else []
  {
    assert (front + [last])[..|front|] == front;
  }

  lemma {:induction false} SolidIsFree(pieces: seq<string>)
    requires forall p | p in pieces :: ';' !in p
    ensures forall p :: p in Solid(pieces) <==> p in pieces && !Blank(p)
    ensures Solid(Solid(pieces)) == Solid(pieces)
  {
    if pieces != [] {
      var front, last := pieces[..|pieces| - 1], pieces[|pieces| - 1];
      assert pieces == front + [last];
      SolidIsFree(front);
      assert (Solid(front) + [last])[..|Solid(front)|] == Solid(front);
    }
  }

  /** What a retagged VM carries. */
  lemma RetaggedTags(s: string, was: string, now: string)
    requires Neat(was) && Clean(now) && was in Solid(Pieces(s))
    ensures var kept := Without(Solid(Pieces(s)), was);
            Tags(Retagged(s, was, now)) == Stripped(if now in kept then kept else kept + [now])
  {
    var pieces := Solid(Pieces(s));
    PiecesHaveNoSemicolon(s);
    SolidIsFree(Pieces(s));
    WithoutFacts(pieces, was);
    var kept := Without(pieces, was);
    var list := if now in kept then kept else kept + [now];
    StripIsTrimmed(now);
    assert (kept + [now])[..|kept|] == kept;
    assert Solid(list) == list;
    SolidFacts(list);
    StrippedIsNeat(list);
    CleanTagsStay(Stripped(list));
    ReadUndoesStoreIff(Stripped(list));
  }

  /** A retag leaves all other tags and their order. */
  lemma RetagKeepsTheOthers(s: string, was: string, now: string, keep: string -> bool)
    requires Neat(was) && Clean(now) && !keep(was) && !keep(now)
    ensures Filter(Tags(Retagged(s, was, now)), keep) == Filter(Tags(s), keep)
  {
    var pieces := Solid(Pieces(s));
    if was in pieces {
      var kept := Without(pieces, was);
      StripIsTrimmed(was);
      StripIsTrimmed(now);
      RetaggedTags(s, was, now);
      WithoutKeepsTheRest(pieces, was, keep);
      FilterAppend(Stripped(kept), [now], keep);
      assert (kept + [now])[..|kept|] == kept;
      assert Filter([now], keep) == [];
    }
  }

  lemma {:induction false} StrippedHas(list: seq<string>, tag: string)
    ensures tag in Stripped(list) <==> exists p | p in list :: Strip(p) == tag
  {
    if list != [] {
      var front, last := list[..|list| - 1], list[|list| - 1];
      StrippedHas(front, tag);
      assert list == front + [last];
    }
  }

  lemma NewListHas(s: string, was: string, now: string)
    requires Neat(was) && Clean(now) && was != now
    ensures var pieces := Solid(Pieces(s));
            var kept := Without(pieces, was);
            var list := if now in kept then kept else kept + [now];
            now in Stripped(list) && (was in Stripped(list) <==> Padded(s, was))
  {
    var pieces := Solid(Pieces(s));
    var kept := Without(pieces, was);
    var list := if now in kept then kept else kept + [now];
    PiecesHaveNoSemicolon(s);
    SolidIsFree(Pieces(s));
    WithoutFacts(pieces, was);
    StripIsTrimmed(now);
    StrippedHas(list, now);
    StrippedHas(list, was);
    assert now in list;
    if p :| p in Pieces(s) && p != was && Strip(p) == was {
      assert p in list;
    }
  }

  /** A retag puts the new tag where the old one was found, and gets rid of the old tag exactly when no copy
      of it is stored with white space around it. */
  lemma RetagRemovesOldIff(s: string, was: string, now: string)
    requires Neat(was) && Clean(now) && was != now
    ensures was in Pieces(s) ==> now in Tags(Retagged(s, was, now))
    ensures was in Tags(Retagged(s, was, now)) <==> Padded(s, was)
  {
    PiecesHaveNoSemicolon(s);
    SolidIsFree(Pieces(s));
    StripIsTrimmed(was);
    if was in Solid(Pieces(s)) {
      RetaggedTags(s, was, now);
      NewListHas(s, was, now);
    } else {
      StrippedSolidHas(Pieces(s), was);
    }
  }
}
