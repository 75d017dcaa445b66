/** The canonical form that messages are signed over (agent/src/security_utils.py, `MessageSigner`). */
module Signing {
  import opened Options
  import opened Text

  /** A message value. An object keeps its keys in insertion order, as the original's dictionaries do. A float is given
      by mantissa and exponent. */
  datatype Value =
    | Null
    | Bool(b: bool)
    | Int(n: int)
    | Float(mantissa: int, exponent: int)
    | Str(s: string)
    | List(items: seq<Value>)
    | Obj(entries: seq<Entry>)

  datatype Entry = Entry(key: string, value: Value)

  /** Every object, at every level, has distinct keys: what a dictionary can be. */
  predicate WellFormed(v: Value) {
    match v
    case List(items) => forall i | 0 <= i < |items| :: WellFormed(items[i])
    case Obj(entries) =>
      && (forall i, j | 0 <= i < j < |entries| :: entries[i].key != entries[j].key)
      && (forall i | 0 <= i < |entries| :: WellFormed(entries[i].value))
    case _ => true
  }

  // ── canonicalisation ───────────────────────────────────────────────────────

  predicate Sorted(entries: seq<Entry>) {
    forall i, j | 0 <= i < j < |entries| :: Less(entries[i].key, entries[j].key)
  }

  function Insert(e: Entry, sorted: seq<Entry>): seq<Entry> {
    if sorted == [] || Less(e.key, sorted[0].key) then [e] + sorted
    else [sorted[0]] + Insert(e, sorted[1..])
  }

  function Sort(entries: seq<Entry>): seq<Entry> {
    if entries == [] then [] else Insert(entries[0], Sort(entries[1..]))
  }

  /** `_canonicalize`: keys sorted at every level, lists kept in order. */
  function Canonicalize(v: Value): Value
    decreases v, 0
  {
    match v
    case List(items) => List(CanonicalItems(items))
    case Obj(entries) => Obj(Sort(CanonicalEntries(entries)))
    case _ => v
  }

  function CanonicalItems(items: seq<Value>): (r: seq<Value>)
    ensures |r| == |items|
    ensures forall i | 0 <= i < |items| :: r[i] == Canonicalize(items[i])
    decreases items
  {
    if items == [] then [] else [Canonicalize(items[0])] + CanonicalItems(items[1..])
  }

  function CanonicalEntry(e: Entry): Entry
    decreases e, 1
  {
    Entry(e.key, Canonicalize(e.value))
  }

  function CanonicalEntries(entries: seq<Entry>): (r: seq<Entry>)
    ensures |r| == |entries|
    ensures forall i | 0 <= i < |entries| :: r[i] == CanonicalEntry(entries[i])
    decreases entries
  {
    if entries == [] then [] else [CanonicalEntry(entries[0])] + CanonicalEntries(entries[1..])
  }

  // ── equality up to key order ───────────────────────────────────────────────

  /** The same message, object keys read as unordered at every level. */
  predicate SameUpToOrder(a: Value, b: Value)
    decreases a, 0
  {
    match a
    case List(items) =>
      b.List? && |items| == |b.items| && forall i | 0 <= i < |items| :: SameUpToOrder(items[i], b.items[i])
    case Obj(entries) =>
      b.Obj? && |entries| == |b.entries| && forall e | e in entries :: exists f :: f in b.entries && Matches(e, f)
    case _ => a == b
  }

  predicate Matches(e: Entry, f: Entry)
    decreases e, 1
  {
    e.key == f.key && SameUpToOrder(e.value, f.value)
  }

  // ── sorting facts ──────────────────────────────────────────────────────────

  predicate DistinctKeys(entries: seq<Entry>) {
    forall i, j | 0 <= i < j < |entries| :: entries[i].key != entries[j].key
  }

  lemma {:induction false} InsertKeepsSorted(e: Entry, sorted: seq<Entry>)
    requires Sorted(sorted) && forall o | o in sorted :: o.key != e.key
    ensures Sorted(Insert(e, sorted)) && multiset(Insert(e, sorted)) == multiset(sorted) + multiset{e}
  {
    if sorted == [] {
    } else if Less(e.key, sorted[0].key) {
      forall j | 0 < j < |sorted| ensures Less(e.key, sorted[j].key) {
        LessIsTransitive(e.key, sorted[0].key, sorted[j].key);
      }
    } else {
      LessIsTotal(e.key, sorted[0].key);
      InsertKeepsSorted(e, sorted[1..]);
      assert sorted == [sorted[0]] + sorted[1..];
      var r := Insert(e, sorted[1..]);
      forall j | 0 <= j < |r| ensures Less(sorted[0].key, r[j].key) {
        assert r[j] in multiset(r);
      }
    }
  }

  lemma {:induction false} SortSorts(entries: seq<Entry>)
    requires DistinctKeys(entries)
    ensures Sorted(Sort(entries)) && multiset(Sort(entries)) == multiset(entries)
    ensures |Sort(entries)| == |entries|
  {
    if entries != [] {
      var first, rest := entries[0], entries[1..];
      SortSorts(rest);
      OtherKeys(first, rest, Sort(rest));
      InsertKeepsSorted(first, Sort(rest));
      assert entries == [first] + rest;
      SameSize(Sort(entries), entries);
    }
  }

  lemma OtherKeys(first: Entry, rest: seq<Entry>, sorted: seq<Entry>)
    requires DistinctKeys([first] + rest) && multiset(sorted) == multiset(rest)
    ensures forall o | o in sorted :: o.key != first.key
  {
    forall o | o in sorted ensures o.key != first.key {
      assert o in multiset(sorted) && o in rest;
      var i :| 0 <= i < |rest| && rest[i] == o;
      assert ([first] + rest)[0] == first && ([first] + rest)[i + 1] == o;
    }
  }

  lemma SameSize(a: seq<Entry>, b: seq<Entry>)
    requires multiset(a) == multiset(b)
    ensures |a| == |b|
  {
    assert |multiset(a)| == |a| && |multiset(b)| == |b|;
  }

  lemma SortKeepsMembers(entries: seq<Entry>)
    requires DistinctKeys(entries)
    ensures forall e :: e in Sort(entries) <==> e in entries
  {
    SortSorts(entries);
    forall e ensures e in Sort(entries) <==> e in entries {
      assert e in Sort(entries) <==> e in multiset(Sort(entries));
      assert e in entries <==> e in multiset(entries);
    }
  }

  /** Sorted entries contained in other sorted entries are no more; and if as many, they are the same. */
  lemma {:induction false} SortedWithin(x: seq<Entry>, y: seq<Entry>)
    requires Sorted(x) && Sorted(y) && forall e | e in x :: e in y
    ensures |x| <= |y| && (|x| == |y| ==> x == y)
  {
    if x != [] {
      assert x[0] in y;
      var m :| 0 <= m < |y| && y[m] == x[0];
      var rest := y[m + 1..];
      forall e | e in x[1..] ensures e in rest {
        assert e in y;
        var n :| 0 <= n < |y| && y[n] == e;
        LessIsTotal(x[0].key, e.key);
        assert n > m && rest[n - m - 1] == e;
      }
      SortedWithin(x[1..], rest);
    }
  }

  // ── the canonical form decides equality up to key order ────────────────────

  lemma {:induction false} CanonicalIffSame(a: Value, b: Value)
    requires WellFormed(a) && WellFormed(b)
    ensures Canonicalize(a) == Canonicalize(b) <==> SameUpToOrder(a, b)
    decreases a
  {
    match a
    case List(items) =>
      if b.List? && |items| == |b.items| {
        forall i | 0 <= i < |items|
          ensures CanonicalItems(items)[i] == CanonicalItems(b.items)[i] <==> SameUpToOrder(items[i], b.items[i])
        {
          CanonicalIffSame(items[i], b.items[i]);
        }
        if SameUpToOrder(a, b) {
          assert CanonicalItems(items) == CanonicalItems(b.items);
        }
      } else if b.List? {
        assert |CanonicalItems(items)| != |CanonicalItems(b.items)|;
      }
    case Obj(entries) =>
      if b.Obj? {
        forall e, f | e in entries && f in b.entries
          ensures CanonicalEntry(e) == CanonicalEntry(f) <==> Matches(e, f)
        {
          CanonicalIffSame(e.value, f.value);
        }
        SameEntriesIff(CanonicalEntries(entries), CanonicalEntries(b.entries));
        ObjectsSameIff(a, b);
      }
    case _ =>
  }

  lemma SameEntriesIff(x: seq<Entry>, y: seq<Entry>)
    requires DistinctKeys(x) && DistinctKeys(y)
    ensures Sort(x) == Sort(y) <==> |x| == |y| && forall e | e in x :: e in y
  {
    SortSorts(x);
    SortSorts(y);
    SortKeepsMembers(x);
    SortKeepsMembers(y);
    if |x| == |y| && forall e | e in x :: e in y {
      SortedWithin(Sort(x), Sort(y));
    }
  }

  lemma CanonicalMembers(entries: seq<Entry>)
    ensures forall e | e in entries :: CanonicalEntry(e) in CanonicalEntries(entries)
    ensures forall c | c in CanonicalEntries(entries) :: exists e :: e in entries && c == CanonicalEntry(e)
  {
    forall e | e in entries ensures CanonicalEntry(e) in CanonicalEntries(entries) {
      var i :| 0 <= i < |entries| && entries[i] == e;
      assert CanonicalEntries(entries)[i] == CanonicalEntry(e);
    }
    forall c | c in CanonicalEntries(entries) ensures exists e :: e in entries && c == CanonicalEntry(e) {
      var i :| 0 <= i < |entries| && CanonicalEntries(entries)[i] == c;
      assert entries[i] in entries;
    }
  }

  lemma ObjectsSameIff(a: Value, b: Value)
    requires a.Obj? && b.Obj?
    requires forall e, f | e in a.entries && f in b.entries ::
               CanonicalEntry(e) == CanonicalEntry(f) <==> Matches(e, f)
    ensures SameUpToOrder(a, b) <==>
            |a.entries| == |b.entries| && forall c | c in CanonicalEntries(a.entries) :: c in CanonicalEntries(b.entries)
  {
    CanonicalMembers(a.entries);
    CanonicalMembers(b.entries);
  }

  /** The canonical form is a well-formed message, and the same message up to key order. */
  lemma {:induction false} CanonicalIsSame(v: Value)
    requires WellFormed(v)
    ensures WellFormed(Canonicalize(v)) && SameUpToOrder(Canonicalize(v), v)
    decreases v
  {
    match v
    case List(items) =>
      forall i | 0 <= i < |items|
        ensures WellFormed(CanonicalItems(items)[i]) && SameUpToOrder(CanonicalItems(items)[i], items[i])
      {
        CanonicalIsSame(items[i]);
      }
    case Obj(entries) =>
      var c := CanonicalEntries(entries);
      SortSorts(c);
      SortKeepsMembers(c);
      CanonicalMembers(entries);
      forall e | e in Sort(c) ensures WellFormed(e.value) && exists f :: f in entries && Matches(e, f) {
        assert e in c;
        var f :| f in entries && e == CanonicalEntry(f);
        CanonicalIsSame(f.value);
      }
      SortedKeysDiffer(Sort(c));
    case _ =>
  }

  /** At every level the keys of an object rise. */
  predicate Ordered(v: Value) {
    match v
    case List(items) => forall i | 0 <= i < |items| :: Ordered(items[i])
    case Obj(entries) => Sorted(entries) && forall i | 0 <= i < |entries| :: Ordered(entries[i].value)
    case _ => true
  }

  /** The canonical form has its keys in rising order at every level: together with CanonicalIsSame this is all
      there is to it. */
  lemma {:induction false} CanonicalIsOrdered(v: Value)
    requires WellFormed(v)
    ensures Ordered(Canonicalize(v))
    decreases v
  {
    match v
    case List(items) =>
      forall i | 0 <= i < |items| ensures Ordered(CanonicalItems(items)[i]) {
        CanonicalIsOrdered(items[i]);
      }
    case Obj(entries) =>
      var c := CanonicalEntries(entries);
      SortSorts(c);
      SortKeepsMembers(c);
      CanonicalMembers(entries);
      forall e | e in Sort(c) ensures Ordered(e.value) {
        assert e in c;
        var f :| f in entries && e == CanonicalEntry(f);
        CanonicalIsOrdered(f.value);
      }
    case _ =>
  }

  lemma SortedKeysDiffer(entries: seq<Entry>)
    requires Sorted(entries)
    ensures DistinctKeys(entries)
  {
    forall i, j | 0 <= i < j < |entries| ensures entries[i].key != entries[j].key {
      LessIsTotal(entries[i].key, entries[j].key);
    }
  }

  lemma CanonicalizeIsIdempotent(v: Value)
    requires WellFormed(v)
    ensures Canonicalize(Canonicalize(v)) == Canonicalize(v)
  {
    CanonicalIsSame(v);
    CanonicalIffSame(Canonicalize(v), v);
  }

  // ── signing ────────────────────────────────────────────────────────────────

  const SIGNATURE := "signature"

  /** The entries that are signed: all but the signature itself. */
  function Without(entries: seq<Entry>): seq<Entry> {
    if entries == [] then []
    else if entries[0].key == SIGNATURE then Without(entries[1..])
    else [entries[0]] + Without(entries[1..])
  }

  function Lookup(entries: seq<Entry>, key: string): Option<Value> {
    if entries == [] then None
    else if entries[0].key == key then Some(entries[0].value)
    else Lookup(entries[1..], key)
  }

  /** `Faulty`: a signature that is present but no text makes the comparison raise. */
  datatype Verdict = Accepted | Refused | Faulty

  /** What the original's `not sig` tells apart. */
  predicate Truthy(v: Value) {
    match v
    case Null => false
    case Bool(b) => b
    case Int(n) => n != 0
    case Float(mantissa, _) => mantissa != 0
    case Str(s) => s != ""
    case List(items) => items != []
    case Obj(entries) => entries != []
  }

  /** A signer with its secret; serialising and keyed hashing together are one unknown digest. */
  datatype Signer = Signer(secret: string, digest: (string, Value) -> string) {

    function Sign(entries: seq<Entry>): string {
      digest(secret, Canonicalize(Obj(Without(entries))))
    }

    function Verify(entries: seq<Entry>): Verdict {
      var sig := Lookup(entries, SIGNATURE);
      if sig.None? || !Truthy(sig.value) then Refused
      else if !sig.value.Str? then Faulty
      else if Sign(entries) == sig.value.s then Accepted else Refused
    }

    /** Signing does not depend on key order, at any level. */
    lemma SignIgnoresOrder(a: seq<Entry>, b: seq<Entry>)
      requires WellFormed(Obj(a)) && WellFormed(Obj(b)) && SameUpToOrder(Obj(a), Obj(b))
      ensures Sign(a) == Sign(b)
    {
      CanonicalIffSame(Obj(a), Obj(b));
      CanonicalWithout(a);
      CanonicalWithout(b);
    }

    /** A signed message, in any key order, is accepted. */
    lemma ReorderedIsAccepted(msg: seq<Entry>, received: seq<Entry>)
      requires WellFormed(Obj(msg)) && Lookup(msg, SIGNATURE) == Some(Str(Sign(msg))) && Sign(msg) != ""
      requires WellFormed(Obj(received)) && SameUpToOrder(Obj(received), Obj(msg))
      ensures Verify(received) == Accepted
    {
      SignIgnoresOrder(received, msg);
      SameLookup(received, msg, SIGNATURE);
    }

    /** With a digest that tells secrets and texts apart, two signers' signatures agree exactly when they have one
        secret and the messages say the same apart from their signatures. */
    lemma SignaturesAgreeIff(other: Signer, a: seq<Entry>, b: seq<Entry>)
      requires Injective(digest) && other.digest == digest && WellFormed(Obj(a)) && WellFormed(Obj(b))
      ensures Sign(a) == other.Sign(b) <==> secret == other.secret && SignedAlike(a, b)
    {
      SignedAlikeIff(a, b);
    }

    /** A message that carries the signature of another message is accepted exactly when the signer had this secret
        and the two say the same apart from their signatures: no entry can be changed, added, dropped or renamed. */
    lemma AcceptedIffSigned(other: Signer, msg: seq<Entry>, received: seq<Entry>)
      requires Injective(digest) && other.digest == digest && WellFormed(Obj(msg)) && WellFormed(Obj(received))
      requires Lookup(received, SIGNATURE) == Some(Str(other.Sign(msg))) && other.Sign(msg) != ""
      ensures Verify(received) == Accepted <==> secret == other.secret && SignedAlike(received, msg)
      ensures Verify(received) != Faulty
    {
      CarriedText(received, other.Sign(msg));
      SignaturesAgreeIff(other, received, msg);
    }

    lemma CarriedText(received: seq<Entry>, text: string)
      requires Lookup(received, SIGNATURE) == Some(Str(text)) && text != ""
      ensures Verify(received) == if Sign(received) == text then Accepted else Refused
    {
    }

    /** Every verdict, by the signature entry of the message: none or an empty one is refused, one that is no text is
        an error, a text is accepted exactly when it is this signer's. */
    lemma VerdictIff(entries: seq<Entry>)
      requires WellFormed(Obj(entries))
      ensures Verify(entries) == Accepted <==> Entry("signature", Str(Sign(entries))) in entries && Sign(entries) != ""
      ensures Verify(entries) == Faulty <==>
        exists v: Value :: Entry("signature", v) in entries && !v.Str? && !v.Null? && v != Bool(false) && v != Int(0)
                           && !(v.Float? && v.mantissa == 0) && v != List([]) && v != Obj([])
    {
      assert DistinctKeys(entries);
      if Lookup(entries, SIGNATURE).Some? {
        LookupIsMember(entries, SIGNATURE);
      }
      forall v: Value | Entry("signature", v) in entries ensures Lookup(entries, SIGNATURE) == Some(v) {
        LookupFinds(entries, Entry("signature", v));
      }
    }
  }

  /** The digest tells secrets and canonical forms apart. */
  ghost predicate Injective(digest: (string, Value) -> string) {
    forall k: string, v: Value, l: string, w: Value :: digest(k, v) == digest(l, w) ==> k == l && v == w
  }

  /** The messages have the same entries up to key order, other than those under the key "signature". */
  predicate SignedAlike(a: seq<Entry>, b: seq<Entry>) {
    Covered(a, b) && Covered(b, a)
  }

  /** Every entry other than those under the key "signature" has one like it in the other message. */
  predicate Covered(a: seq<Entry>, b: seq<Entry>) {
    forall e | e in a && e.key != "signature" :: HasMatch(e, b)
  }

  predicate HasMatch(e: Entry, entries: seq<Entry>) {
    exists f :: f in entries && Matches(e, f)
  }

  lemma {:induction false} WithoutMembers(entries: seq<Entry>)
    ensures forall e :: e in Without(entries) <==> e in entries && e.key != "signature"
  {
    if entries != [] {
      WithoutMembers(entries[1..]);
    }
  }

  /** Canonical entries of the one are canonical entries of the other. */
  predicate Within(x: seq<Entry>, y: seq<Entry>) {
    forall c | c in x :: c in y
  }

  lemma WithinIff(x: seq<Entry>, y: seq<Entry>)
    requires WellFormed(Obj(x)) && WellFormed(Obj(y))
    ensures Within(CanonicalEntries(x), CanonicalEntries(y)) <==> forall e | e in x :: HasMatch(e, y)
  {
    CanonicalMembers(x);
    forall e | e in x ensures CanonicalEntry(e) in CanonicalEntries(y) <==> HasMatch(e, y) {
      MatchIffMember(e, y);
    }
  }

  lemma MatchIffMember(e: Entry, y: seq<Entry>)
    requires WellFormed(e.value) && WellFormed(Obj(y))
    ensures CanonicalEntry(e) in CanonicalEntries(y) <==> HasMatch(e, y)
  {
    CanonicalMembers(y);
    forall f | f in y ensures CanonicalEntry(e) == CanonicalEntry(f) <==> Matches(e, f) {
      CanonicalIffSame(e.value, f.value);
    }
  }

  lemma BothWithinIff(x: seq<Entry>, y: seq<Entry>)
    requires DistinctKeys(x) && DistinctKeys(y)
    ensures Sort(x) == Sort(y) <==> Within(x, y) && Within(y, x)
  {
    SortSorts(x);
    SortSorts(y);
    SortKeepsMembers(x);
    SortKeepsMembers(y);
    if Within(x, y) && Within(y, x) {
      SortedWithin(Sort(x), Sort(y));
      SortedWithin(Sort(y), Sort(x));
    }
  }

  /** Signed forms are equal exactly for messages that say the same apart from their signatures. */
  lemma SignedAlikeIff(a: seq<Entry>, b: seq<Entry>)
    requires WellFormed(Obj(a)) && WellFormed(Obj(b))
    ensures Canonicalize(Obj(Without(a))) == Canonicalize(Obj(Without(b))) <==> SignedAlike(a, b)
  {
    var x, y := Without(a), Without(b);
    WithoutIsWellFormed(a);
    WithoutIsWellFormed(b);
    BothWithinIff(CanonicalEntries(x), CanonicalEntries(y));
    WithinIff(x, y);
    WithinIff(y, x);
    CoveredWithout(a, b);
    CoveredWithout(b, a);
  }

  lemma CoveredWithout(a: seq<Entry>, b: seq<Entry>)
    ensures Covered(a, b) <==> forall e | e in Without(a) :: HasMatch(e, Without(b))
  {
    var whole, signed := (e: Entry) => HasMatch(e, b), (e: Entry) => HasMatch(e, Without(b));
    forall e: Entry | e.key != "signature" ensures whole(e) <==> signed(e) {
      MatchWithout(e, b);
    }
    EveryWithout(a, whole, signed);
    assert Covered(a, b) <==> forall e | e in a && e.key != "signature" :: whole(e);
    assert (forall e | e in Without(a) :: HasMatch(e, Without(b))) <==> (forall e | e in Without(a) :: signed(e));
  }

  lemma EveryWithout(a: seq<Entry>, p: Entry -> bool, q: Entry -> bool)
    requires forall e: Entry | e.key != "signature" :: p(e) <==> q(e)
    ensures (forall e | e in a && e.key != "signature" :: p(e)) <==> (forall e | e in Without(a) :: q(e))
  {
    WithoutMembers(a);
  }

  lemma MatchWithout(e: Entry, entries: seq<Entry>)
    requires e.key != "signature"
    ensures HasMatch(e, entries) <==> HasMatch(e, Without(entries))
  {
    WithoutMembers(entries);
  }

  lemma {:induction false} LookupFinds(entries: seq<Entry>, e: Entry)
    requires DistinctKeys(entries) && e in entries
    ensures Lookup(entries, e.key) == Some(e.value)
  {
    if entries[0] != e {
      assert e in entries[1..];
      LookupFinds(entries[1..], e);
    }
  }

  lemma {:induction false} LookupIsMember(entries: seq<Entry>, key: string)
    requires Lookup(entries, key).Some?
    ensures Entry(key, Lookup(entries, key).value) in entries
  {
    if entries[0].key != key {
      LookupIsMember(entries[1..], key);
    }
  }

  lemma SameCanonicalMembers(a: seq<Entry>, b: seq<Entry>, c: Entry)
    requires WellFormed(Obj(a)) && WellFormed(Obj(b)) && SameUpToOrder(Obj(a), Obj(b))
    requires c in CanonicalEntries(b)
    ensures c in CanonicalEntries(a)
  {
    CanonicalIffSame(Obj(a), Obj(b));
    SortKeepsMembers(CanonicalEntries(a));
    SortKeepsMembers(CanonicalEntries(b));
  }

  lemma CanonicalText(v: Value, text: string)
    ensures Canonicalize(v) == Str(text) <==> v == Str(text)
  {
  }

  lemma TextIsCanonicalMember(entries: seq<Entry>, key: string, text: string)
    requires Lookup(entries, key) == Some(Str(text))
    ensures Entry(key, Str(text)) in CanonicalEntries(entries)
  {
    LookupIsMember(entries, key);
    CanonicalText(Str(text), text);
    var i :| 0 <= i < |entries| && entries[i] == Entry(key, Str(text));
    assert CanonicalEntries(entries)[i] == CanonicalEntry(entries[i]);
  }

  lemma CanonicalTextIsFound(entries: seq<Entry>, key: string, text: string)
    requires DistinctKeys(entries) && Entry(key, Str(text)) in CanonicalEntries(entries)
    ensures Lookup(entries, key) == Some(Str(text))
  {
    var i :| 0 <= i < |entries| && CanonicalEntries(entries)[i] == Entry(key, Str(text));
    CanonicalText(entries[i].value, text);
    LookupFinds(entries, entries[i]);
  }

  lemma SameLookup(a: seq<Entry>, b: seq<Entry>, key: string)
    requires WellFormed(Obj(a)) && WellFormed(Obj(b)) && SameUpToOrder(Obj(a), Obj(b))
    requires Lookup(b, key).Some? && Lookup(b, key).value.Str?
    ensures Lookup(a, key) == Lookup(b, key)
  {
    var text := Lookup(b, key).value.s;
    TextIsCanonicalMember(b, key, text);
    SameCanonicalMembers(a, b, Entry(key, Str(text)));
    CanonicalTextIsFound(a, key, text);
  }

  lemma {:induction false} WithoutIsWellFormed(entries: seq<Entry>)
    requires WellFormed(Obj(entries))
    ensures WellFormed(Obj(Without(entries)))
    ensures forall e | e in Without(entries) :: e in entries
  {
    if entries != [] {
      var rest := entries[1..];
      assert forall i | 0 <= i < |rest| :: rest[i] == entries[i + 1];
      WithoutIsWellFormed(rest);
      var kept := Without(rest);
      forall j | 0 <= j < |kept| ensures kept[j].key != entries[0].key {
        assert kept[j] in rest;
      }
    }
  }

  lemma {:induction false} WithoutThenCanonical(entries: seq<Entry>)
    ensures CanonicalEntries(Without(entries)) == Without(CanonicalEntries(entries))
  {
    if entries != [] {
      WithoutThenCanonical(entries[1..]);
      assert CanonicalEntries(entries)[1..] == CanonicalEntries(entries[1..]);
    }
  }

  lemma {:induction false} WithoutThenSort(entries: seq<Entry>)
    requires DistinctKeys(entries)
    ensures Sort(Without(entries)) == Without(Sort(entries))
  {
    if entries != [] {
      WithoutThenSort(entries[1..]);
      SortSorts(entries[1..]);
      SortKeepsMembers(entries[1..]);
      WithoutSorted(entries[0], Sort(entries[1..]));
    }
  }

  lemma CanonicalWithout(entries: seq<Entry>)
    requires DistinctKeys(entries)
    ensures Canonicalize(Obj(Without(entries))) == Obj(Without(Sort(CanonicalEntries(entries))))
  {
    WithoutThenCanonical(entries);
    WithoutThenSort(CanonicalEntries(entries));
  }

  lemma {:induction false} WithoutSorted(e: Entry, sorted: seq<Entry>)
    requires Sorted(sorted) && forall o | o in sorted :: o.key != e.key
    ensures Without(Insert(e, sorted)) == if e.key == SIGNATURE then Without(sorted) else Insert(e, Without(sorted))
    decreases |sorted|
  {
    if sorted == [] {
    } else if Less(e.key, sorted[0].key) {
      assert ([e] + sorted)[1..] == sorted;
      forall o | o in sorted ensures Less(e.key, o.key) {
        if o != sorted[0] {
          LessIsTransitive(e.key, sorted[0].key, o.key);
        }
      }
      WithoutKeepsLess(e, sorted);
    } else {
      assert ([sorted[0]] + Insert(e, sorted[1..]))[1..] == Insert(e, sorted[1..]);
      WithoutSorted(e, sorted[1..]);
    }
  }

  lemma {:induction false} WithoutKeepsLess(e: Entry, sorted: seq<Entry>)
    requires Sorted(sorted) && forall o | o in sorted :: Less(e.key, o.key)
    ensures Insert(e, Without(sorted)) == [e] + Without(sorted)
  {
    if sorted != [] && sorted[0].key == SIGNATURE {
      WithoutKeepsLess(e, sorted[1..]);
    }
  }
}
