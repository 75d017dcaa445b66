/** Hub-pushed configuration: the deep merge that every UPDATE_CONFIG goes through
    (agent/src/agent.py, `_deep_merge_config`). */
module ConfigMerge {

  import opened Options

  /** A JSON value. Objects are unordered here: no reader of the configuration looks at key order. */
  datatype Json =
    | Null
    | Bool(b: bool)
    | Num(n: real)
    | Str(s: string)
    | List(items: seq<Json>)
    | Obj(fields: map<string, Json>)

  /** The merged configuration: objects are merged key by key, anything else is replaced whole. */
  function Merge(base: Json, incoming: Json): Json
    decreases incoming
  {
    if !base.Obj? || !incoming.Obj? then incoming
    else Obj(map k | k in base.fields.Keys + incoming.fields.Keys ::
               if k !in incoming.fields then base.fields[k]
               else if k in base.fields then Merge(base.fields[k], incoming.fields[k])
               else incoming.fields[k])
  }

  /** The loop of `_deep_merge_config`: copy the base, then fold in each incoming key. The order in
      which the keys are visited is left open. */
  method DeepMergeConfig(base: Json, incoming: Json) returns (merged: Json)
    ensures merged == Merge(base, incoming)
    decreases incoming
  {
    if !base.Obj? || !incoming.Obj? {
      return incoming;
    }
    var out := base.fields;
    var pending := incoming.fields.Keys;
    while pending != {}
      invariant pending <= incoming.fields.Keys
      invariant out.Keys == base.fields.Keys + (incoming.fields.Keys - pending)
      invariant forall k | k in out && (k in pending || k !in incoming.fields) ::
                  k in base.fields && out[k] == base.fields[k]
      invariant forall k | k in incoming.fields && k !in pending ::
                  out[k] == Merge(base, incoming).fields[k]
      decreases pending
    {
      var k :| k in pending;
      var v := incoming.fields[k];
      if k in out && out[k].Obj? && v.Obj? {
        var inner := DeepMergeConfig(out[k], v);
        out := out[k := inner];
      } else {
        out := out[k := v];
      }
      pending := pending - {k};
    }
    merged := Obj(out);
    assert out == Merge(base, incoming).fields;
  }

  class AgentConfig {
    var config: Json

    constructor (initial: Json)
      ensures config == initial
    {
      config := initial;
    }

    /** UPDATE_CONFIG: the merged value becomes the live configuration. */
    method UpdateConfig(data: Json)
      modifies this
      ensures config == Merge(old(config), data)
    {
      config := DeepMergeConfig(config, data);
    }
  }

  // ── repeated and reordered pushes ──────────────────────────────────────────

  lemma {:induction false} MergeSelf(p: Json)
    ensures Merge(p, p) == p
  {
    if p.Obj? {
      forall k | k in p.fields ensures Merge(p.fields[k], p.fields[k]) == p.fields[k] {
        MergeSelf(p.fields[k]);
      }
      assert Merge(p, p).fields == p.fields;
    }
  }

  /** The same push delivered twice leaves what it left the first time. */
  lemma {:induction false} PushTwiceIsPushOnce(base: Json, p: Json)
    ensures Merge(Merge(base, p), p) == Merge(base, p)
    decreases p
  {
    MergeSelf(p);
    if base.Obj? && p.Obj? {
      var once := Merge(base, p);
      forall k | k in p.fields ensures Merge(once.fields[k], p.fields[k]) == once.fields[k] {
        MergeSelf(p.fields[k]);
        if k in base.fields {
          PushTwiceIsPushOnce(base.fields[k], p.fields[k]);
        }
      }
      assert Merge(once, p).fields == once.fields;
    }
  }

  /** Two pushes agree when, wherever both name the same key, they either say the same or both
      descend into an object and agree there. */
  predicate Agree(p: Json, q: Json)
    decreases p
  {
    p == q
    || (p.Obj? && q.Obj? && forall k | k in p.fields && k in q.fields :: Agree(p.fields[k], q.fields[k]))
  }

  lemma {:induction false} AgreeIffMergeSymmetric(p: Json, q: Json)
    ensures Agree(p, q) <==> Merge(p, q) == Merge(q, p)
    decreases p
  {
    if p.Obj? && q.Obj? {
      forall k | k in p.fields && k in q.fields
        ensures Agree(p.fields[k], q.fields[k]) <==> Merge(p, q).fields[k] == Merge(q, p).fields[k]
      {
        AgreeIffMergeSymmetric(p.fields[k], q.fields[k]);
      }
      if forall k | k in p.fields && k in q.fields :: Merge(p, q).fields[k] == Merge(q, p).fields[k] {
        assert Merge(p, q).fields == Merge(q, p).fields;
      }
    }
  }

  lemma {:induction false} AgreeingPushesCommute(base: Json, p: Json, q: Json)
    requires Agree(p, q)
    ensures Merge(Merge(base, p), q) == Merge(Merge(base, q), p)
    decreases p
  {
    AgreeIffMergeSymmetric(p, q);
    if base.Obj? && p.Obj? && q.Obj? {
      var pq, qp := Merge(Merge(base, p), q), Merge(Merge(base, q), p);
      assert pq.fields.Keys == qp.fields.Keys;
      forall k | k in pq.fields ensures pq.fields[k] == qp.fields[k] {
        if k in p.fields && k in q.fields {
          if p == q {
            assert Agree(p.fields[k], q.fields[k]);
          }
          AgreeIffMergeSymmetric(p.fields[k], q.fields[k]);
          if k in base.fields {
            AgreeingPushesCommute(base.fields[k], p.fields[k], q.fields[k]);
          }
        }
      }
    }
  }

  /** Two pushes can be applied in either order over every base exactly when they agree. */
  lemma PushesCommuteIffAgree(p: Json, q: Json)
    ensures (forall base :: Merge(Merge(base, p), q) == Merge(Merge(base, q), p)) <==> Agree(p, q)
  {
    if Agree(p, q) {
      forall base ensures Merge(Merge(base, p), q) == Merge(Merge(base, q), p) {
        AgreeingPushesCommute(base, p, q);
      }
    } else {
      AgreeIffMergeSymmetric(p, q);
      assert Merge(Merge(Null, p), q) != Merge(Merge(Null, q), p);
    }
  }

  // ── what a push leaves alone ───────────────────────────────────────────────

  /** The value found by following `path` from `j`, if it is there. */
  function At(j: Json, path: seq<string>): Option<Json>
    decreases |path|
  {
    if path == [] then Some(j)
    else if j.Obj? && path[0] in j.fields then At(j.fields[path[0]], path[1..])
    else None
  }

  /** `p` does not touch `path`: following the path inside `p` stays in objects until a key is missing. */
  predicate Untouched(p: Json, path: seq<string>)
    decreases |path|
  {
    path != [] && p.Obj? && (path[0] in p.fields ==> Untouched(p.fields[path[0]], path[1..]))
  }

  lemma {:induction false} UntouchedIsAbsent(p: Json, path: seq<string>)
    requires Untouched(p, path)
    ensures At(p, path) == None
    decreases |path|
  {
    if path[0] in p.fields {
      UntouchedIsAbsent(p.fields[path[0]], path[1..]);
    }
  }

  lemma {:induction false} UntouchedKeepsValue(base: Json, p: Json, path: seq<string>)
    requires Untouched(p, path)
    ensures At(Merge(base, p), path) == At(base, path)
    decreases |path|
  {
    UntouchedIsAbsent(p, path);
    if base.Obj? && path[0] in p.fields && path[0] in base.fields {
      UntouchedKeepsValue(base.fields[path[0]], p.fields[path[0]], path[1..]);
    }
  }

  /** The configuration that holds `leaf` at `path` and nothing else. */
  function Only(path: seq<string>, leaf: Json): Json
    decreases |path|
  {
    if path == [] then leaf else Obj(map[path[0] := Only(path[1..], leaf)])
  }

  lemma {:induction false} TouchedLosesValue(p: Json, path: seq<string>) returns (base: Json)
    requires !Untouched(p, path)
    ensures At(Merge(base, p), path) != At(base, path)
    decreases |path|
  {
    if path == [] {
      base := if p == Null then Bool(true) else Null;
    } else if !p.Obj? {
      base := Only(path, Null);
      OnlyHolds(path, Null);
    } else {
      var inner := TouchedLosesValue(p.fields[path[0]], path[1..]);
      base := Obj(map[path[0] := inner]);
    }
  }

  lemma {:induction false} OnlyHolds(path: seq<string>, leaf: Json)
    ensures At(Only(path, leaf), path) == Some(leaf)
    decreases |path|
  {
    if path != [] {
      OnlyHolds(path[1..], leaf);
    }
  }

  /** A push keeps the value at `path` over every base exactly when it does not touch that path. */
  lemma KeepsPathIffUntouched(p: Json, path: seq<string>)
    ensures (forall base :: At(Merge(base, p), path) == At(base, path)) <==> Untouched(p, path)
  {
    if Untouched(p, path) {
      forall base ensures At(Merge(base, p), path) == At(base, path) {
        UntouchedKeepsValue(base, p, path);
      }
    } else {
      var base := TouchedLosesValue(p, path);
    }
  }

  /** A value that a push sets (anything but an object) is what is read back afterwards. */
  lemma {:induction false} PushedValueWins(base: Json, p: Json, path: seq<string>)
    requires At(p, path).Some? && !At(p, path).value.Obj?
    ensures At(Merge(base, p), path) == At(p, path)
    decreases |path|
  {
    if path != [] && base.Obj? && path[0] in base.fields {
      PushedValueWins(base.fields[path[0]], p.fields[path[0]], path[1..]);
    }
  }

  /** The configuration after a whole sequence of pushes. */
  function AfterPushes(base: Json, pushes: seq<Json>): Json
    decreases |pushes|
  {
    if pushes == [] then base else AfterPushes(Merge(base, pushes[0]), pushes[1..])
  }

  /** Over any sequence of pushes, a path that none of them touches keeps its value. */
  lemma {:induction false} UntouchedOverAllPushes(base: Json, pushes: seq<Json>, path: seq<string>)
    requires forall p | p in pushes :: Untouched(p, path)
    ensures At(AfterPushes(base, pushes), path) == At(base, path)
    decreases |pushes|
  {
    if pushes != [] {
      UntouchedKeepsValue(base, pushes[0], path);
      UntouchedOverAllPushes(Merge(base, pushes[0]), pushes[1..], path);
    }
  }
}
