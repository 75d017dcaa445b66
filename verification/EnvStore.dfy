/** The agent's .env file and the install identity kept in it (agent/src/agent.py: `_env_get`,
    `_env_upsert`, `_save_secret`, `_clear_secret`, `_machine_fingerprint`, `_ensure_install_uuid`). */
module EnvStore {
  import opened Options
  import opened Text

  const UUID := "INSTALL_UUID"
  const MACHINE := "INSTALL_UUID_MACHINE"
  const SECRET := "AGENT_SECRET"

  // ── lines of a file ────────────────────────────────────────────────────────

  function FirstNewline(s: string): (k: nat)
    ensures k <= |s| && (k < |s| ==> s[k] == '\n')
  {
    if s == "" || s[0] == '\n' then 0 else 1 + FirstNewline(s[1..])
  }

  /** The lines a file is read as: each keeps its newline, the last may lack one. */
  function Lines(s: string): seq<string>
    decreases |s|
  {
    if s == "" then []
    else
      var k := FirstNewline(s);
      if k == |s| then [s] else [s[..k + 1]] + Lines(s[k + 1..])
  }

  /** `writelines` */
  function Concat(lines: seq<string>): string {
    if lines == [] then "" else lines[0] + Concat(lines[1..])
  }

  /** Exactly one newline, at the end. */
  predicate Terminated(line: string) {
    line != "" && FirstNewline(line) == |line| - 1
  }

  predicate AllTerminated(lines: seq<string>) {
    forall l | l in lines :: Terminated(l)
  }

  lemma {:induction false} FirstNewlineOf(line: string, rest: string)
    requires Terminated(line)
    ensures FirstNewline(line + rest) == |line| - 1
  {
    if line[0] != '\n' {
      assert (line + rest)[1..] == line[1..] + rest;
      FirstNewlineOf(line[1..], rest);
    }
  }

  lemma LinesOfFirst(line: string, rest: string)
    requires Terminated(line)
    ensures Lines(line + rest) == [line] + Lines(rest)
  {
    FirstNewlineOf(line, rest);
    assert (line + rest)[..|line|] == line && (line + rest)[|line|..] == rest;
  }

  lemma LinesOfConcat(lines: seq<string>, rest: string)
    requires AllTerminated(lines)
    ensures Lines(Concat(lines) + rest) == lines + Lines(rest)
  {
    OneByOne(lines);
    LinesAppend(lines, rest);
  }

  predicate EachTerminated(lines: seq<string>) {
    lines == [] || (Terminated(lines[0]) && EachTerminated(lines[1..]))
  }

  lemma {:induction false} OneByOne(lines: seq<string>)
    requires AllTerminated(lines)
    ensures EachTerminated(lines)
    decreases |lines|
  {
    if lines != [] {
      TailTerminated(lines);
      OneByOne(lines[1..]);
    }
  }

  lemma {:induction false} LinesAppend(lines: seq<string>, rest: string)
    requires EachTerminated(lines)
    ensures Lines(Concat(lines) + rest) == lines + Lines(rest)
    decreases |lines|
  {
    if lines == [] {
      NoLines(rest);
    } else {
      LinesAppend(lines[1..], rest);
      LinesStep(lines, Concat(lines[1..]) + rest, Lines(rest));
      ConcatOf(lines, rest);
    }
  }

  lemma NoLines(rest: string)
    ensures Lines(Concat([]) + rest) == [] + Lines(rest)
  {
    assert Concat([]) + rest == rest;
  }

  lemma LinesStep(lines: seq<string>, tail: string, restLines: seq<string>)
    requires lines != [] && Terminated(lines[0]) && Lines(tail) == lines[1..] + restLines
    ensures Lines(lines[0] + tail) == lines + restLines
  {
    LinesOfFirst(lines[0], tail);
    Glued(lines, Lines(tail), restLines);
  }

  lemma Glued(lines: seq<string>, tail: seq<string>, rest: seq<string>)
    requires lines != [] && tail == lines[1..] + rest
    ensures [lines[0]] + tail == lines + rest
  {
  }

  lemma TailTerminated(lines: seq<string>)
    requires lines != [] && AllTerminated(lines)
    ensures Terminated(lines[0]) && AllTerminated(lines[1..])
  {
  }

  lemma ConcatOf(lines: seq<string>, rest: string)
    requires lines != []
    ensures Concat(lines) + rest == lines[0] + (Concat(lines[1..]) + rest)
  {
  }

  // ── reading and rewriting keys ─────────────────────────────────────────────

  predicate IsKey(key: string) {
    '=' !in key && '\n' !in key
  }

  predicate Assigns(line: string, key: string) {
    key + "=" <= line
  }

  /** The value of the first line that assigns the key; "" when there is none. */
  function Find(lines: seq<string>, key: string): string {
    if lines == [] then ""
    else if Assigns(lines[0], key) then Strip(lines[0][|key| + 1..])
    else Find(lines[1..], key)
  }

  function LinesOf(file: Option<string>): seq<string> {
    if file.Some? then Lines(file.value) else []
  }

  function Get(file: Option<string>, key: string): string {
    Find(LinesOf(file), key)
  }

  datatype Update = Update(key: string, value: string)

  function LineOf(u: Update): string {
    u.key + "=" + u.value + "\n"
  }

  predicate Replaced(line: string, updates: seq<Update>) {
    exists u :: u in updates && Assigns(line, u.key)
  }

  function Keep(lines: seq<string>, updates: seq<Update>): seq<string> {
    if lines == [] then []
    else if Replaced(lines[0], updates) then Keep(lines[1..], updates)
    else [lines[0]] + Keep(lines[1..], updates)
  }

  function NewLines(updates: seq<Update>): seq<string> {
    if updates == [] then [] else [LineOf(updates[0])] + NewLines(updates[1..])
  }

  function Upsert(file: Option<string>, updates: seq<Update>): Option<string> {
    Some(Concat(Keep(LinesOf(file), updates) + NewLines(updates)))
  }

  /** Clearing a secret only rewrites a file that exists. */
  function Cleared(file: Option<string>): Option<string> {
    if file.Some? then Some(Concat(Keep(Lines(file.value), [Update(SECRET, "")]))) else None
  }

  // ── the machine's fingerprint ──────────────────────────────────────────────

  /** The id in the machine's `i`-th id file. `ids` holds the contents of the files in the order they are tried:
      /etc/machine-id, its D-Bus copy, the DMI product UUID. */
  function Id(ids: seq<string>, i: nat): string
    requires i < |ids|
  {
    Strip(ids[i])
  }

  /** The first id from the `i`-th file on that can be read and is not empty. */
  function FirstId(ids: seq<string>, readable: set<nat>, i: nat): string
    decreases |ids| - i
  {
    if i >= |ids| then ""
    else if i in readable && Id(ids, i) != "" then Id(ids, i)
    else FirstId(ids, readable, i + 1)
  }

  /** The fingerprint a boot sees that can read the files `readable`; "" when none gives an id. */
  function Fingerprint(ids: seq<string>, readable: set<nat>): string {
    FirstId(ids, readable, 0)
  }

  lemma {:induction false} FirstIdFacts(ids: seq<string>, readable: set<nat>, i: nat)
    ensures FirstId(ids, readable, i) != "" ==> exists k :: i <= k < |ids| && Id(ids, k) == FirstId(ids, readable, i)
    ensures forall j | i <= j < |ids| :: FirstId(ids, {j}, i) == Id(ids, j)
    decreases |ids| - i
  {
    if i < |ids| {
      FirstIdFacts(ids, readable, i + 1);
      NoneReadable(ids, i, i + 1);
    }
  }

  /** The first readable file with an id wins. */
  predicate FirstFrom(ids: seq<string>, readable: set<nat>, i: nat, fingerprint: string) {
    if fingerprint == "" then forall k | i <= k < |ids| && k in readable :: Id(ids, k) == ""
    else exists k :: i <= k < |ids| && k in readable && Id(ids, k) == fingerprint
                     && forall j | i <= j < k && j in readable :: Id(ids, j) == ""
  }

  lemma {:induction false} FirstIdIff(ids: seq<string>, readable: set<nat>, i: nat, fingerprint: string)
    ensures FirstId(ids, readable, i) == fingerprint <==> FirstFrom(ids, readable, i, fingerprint)
    decreases |ids| - i
  {
    if i < |ids| {
      FirstIdIff(ids, readable, i + 1, fingerprint);
      if FirstFrom(ids, readable, i + 1, fingerprint) && fingerprint != "" {
        var k :| i + 1 <= k < |ids| && k in readable && Id(ids, k) == fingerprint
                 && forall j | i + 1 <= j < k && j in readable :: Id(ids, j) == "";
        assert !(i in readable && Id(ids, i) != "") ==> FirstFrom(ids, readable, i, fingerprint);
      }
    }
  }

  /** The fingerprint is the id in the first file that can be read and has one: no file before it that can be read
      has an id. It is "" exactly when no file that can be read has one. */
  lemma FingerprintIsFirst(ids: seq<string>, readable: set<nat>, fingerprint: string)
    ensures Fingerprint(ids, readable) == fingerprint <==>
      if fingerprint == "" then forall k | 0 <= k < |ids| && k in readable :: Id(ids, k) == ""
      else exists k :: 0 <= k < |ids| && k in readable && Id(ids, k) == fingerprint
                       && forall j | 0 <= j < k && j in readable :: Id(ids, j) == ""
  {
    FirstIdIff(ids, readable, 0, fingerprint);
  }

  lemma {:induction false} NoneReadable(ids: seq<string>, j: nat, i: nat)
    requires j < i
    ensures FirstId(ids, {j}, i) == ""
    decreases |ids| - i
  {
    if i < |ids| {
      NoneReadable(ids, j, i + 1);
    }
  }

  // ── the install identity at start-up ───────────────────────────────────────

  /** A boot mints when there is no UUID, or the stored one is bound to another fingerprint than the one it sees. */
  predicate Mints(file: Option<string>, fingerprint: string) {
    var stored := Get(file, MACHINE);
    Get(file, UUID) == "" || (fingerprint != "" && stored != "" && stored != fingerprint)
  }

  function BootUpdates(file: Option<string>, fingerprint: string, minted: string): seq<Update> {
    var bind := if fingerprint != "" then [Update(MACHINE, fingerprint)] else [];
    if Mints(file, fingerprint) then [Update(UUID, minted)] + bind
    else if Get(file, MACHINE) == "" then bind else []
  }

  function Booted(file: Option<string>, fingerprint: string, minted: string): Option<string> {
    var updates := BootUpdates(file, fingerprint, minted);
    if updates == [] then file else Upsert(file, updates)
  }

  class AgentEnv {
    var file: Option<string>

    constructor (initial: Option<string>)
      ensures file == initial
    {
      file := initial;
    }

    method EnvGet(key: string) returns (value: string)
      ensures value == Get(file, key)
    {
      var lines := LinesOf(file);
      for i := 0 to |lines|
        invariant Find(lines[i..], key) == Find(lines, key)
      {
        assert lines[i..][1..] == lines[i + 1..];
        if Assigns(lines[i], key) {
          return Strip(lines[i][|key| + 1..]);
        }
      }
      return "";
    }

    method EnvUpsert(updates: seq<Update>)
      modifies this
      ensures file == Upsert(old(file), updates)
    {
      var lines := Keep(LinesOf(file), updates);
      ghost var all := lines + NewLines(updates);
      assert updates[0..] == updates;
      for i := 0 to |updates|
        invariant lines + NewLines(updates[i..]) == all
      {
        assert updates[i..][1..] == updates[i + 1..];
        lines := lines + [LineOf(updates[i])];
      }
      assert lines == all;
      file := Some(Concat(lines));
    }

    method SaveSecret(secret: string)
      modifies this
      ensures file == Upsert(old(file), [Update(SECRET, secret)])
    {
      EnvUpsert([Update(SECRET, secret)]);
    }

    method ClearSecret()
      modifies this
      ensures file == Cleared(old(file))
    {
      if file.Some? {
        file := Some(Concat(Keep(Lines(file.value), [Update(SECRET, "")])));
      }
    }

    /** The id files are tried in turn. */
    method MachineFingerprint(ids: seq<string>, readable: set<nat>) returns (fingerprint: string)
      ensures fingerprint == Fingerprint(ids, readable)
    {
      for i := 0 to |ids|
        invariant FirstId(ids, readable, i) == Fingerprint(ids, readable)
      {
        if i in readable {
          var v := Strip(ids[i]);
          if v != "" {
            return v;
          }
        }
      }
      return "";
    }

    /** The returned identity is read back from the file unless it was there before the boot. When the file
        cannot be opened for writing nothing changes and, if a write was due, no identity is returned. */
    method EnsureInstallUuid(ids: seq<string>, readable: set<nat>, minted: string, writable: bool)
      returns (uuid: string)
      modifies this
      ensures var fingerprint := Fingerprint(ids, readable);
              && file == (if writable then Booted(old(file), fingerprint, minted) else old(file))
              && uuid == (if !writable && BootUpdates(old(file), fingerprint, minted) != [] then ""
                          else Get(if Mints(old(file), fingerprint) then file else old(file), UUID))
    {
      var fingerprint := MachineFingerprint(ids, readable);
      ghost var updates := BootUpdates(file, fingerprint, minted);
      var bind := if fingerprint != "" then [Update(MACHINE, fingerprint)] else [];
      var existing := EnvGet(UUID);
      if existing != "" {
        var stored := EnvGet(MACHINE);
        if fingerprint != "" && stored != "" && stored != fingerprint {
          assert updates == [Update(UUID, minted), Update(MACHINE, fingerprint)];
          if !writable {
            return "";
          }
          EnvUpsert([Update(UUID, minted), Update(MACHINE, fingerprint)]);
          uuid := EnvGet(UUID);
          return;
        }
        if fingerprint != "" && stored == "" {
          if !writable {
            return "";
          }
          EnvUpsert([Update(MACHINE, fingerprint)]);
        }
        return existing;
      }
      if !writable {
        return "";
      }
      EnvUpsert([Update(UUID, minted)] + bind);
      uuid := EnvGet(UUID);
    }
  }

  // ── what a rewrite does to every key ───────────────────────────────────────

  /** A value that fits on its line. */
  predicate Fits(value: string) {
    '\n' !in value
  }

  /** A value that fits on its line and is read back unchanged. */
  predicate OneLine(value: string) {
    Fits(value) && Trimmed(value)
  }

  predicate Writable(updates: seq<Update>) {
    && (forall u | u in updates :: IsKey(u.key) && Fits(u.value))
    && (forall i, j | 0 <= i < j < |updates| :: updates[i].key != updates[j].key)
  }

  /** The file is missing, empty, or ends with a newline. */
  predicate WellEnded(file: Option<string>) {
    AllTerminated(LinesOf(file))
  }

  lemma {:induction false} NoNewlineFirst(s: string)
    ensures '\n' !in s ==> FirstNewline(s + "\n") == |s|
  {
    if s != "" {
      assert (s + "\n")[1..] == s[1..] + "\n";
      NoNewlineFirst(s[1..]);
    }
  }

  lemma LineIsTerminated(u: Update)
    requires IsKey(u.key) && Fits(u.value)
    ensures Terminated(LineOf(u))
  {
    NoNewlineFirst(u.key + "=" + u.value);
  }

  /** A line assigns at most one key. */
  lemma OneKeyPerLine(line: string, k: string, l: string)
    requires IsKey(k) && IsKey(l) && Assigns(line, k) && Assigns(line, l)
    ensures k == l
  {
    assert line[|k|] == '=' && line[|l|] == '=';
    assert forall i | 0 <= i < |k| :: line[i] == k[i] && k[i] in k;
    assert forall i | 0 <= i < |l| :: line[i] == l[i] && l[i] in l;
    assert k == line[..|k|] && l == line[..|l|];
  }

  lemma {:induction false} KeepFacts(lines: seq<string>, updates: seq<Update>)
    ensures forall l | l in Keep(lines, updates) :: l in lines && !Replaced(l, updates)
  {
    if lines != [] {
      KeepFacts(lines[1..], updates);
    }
  }

  lemma {:induction false} NewLinesFacts(updates: seq<Update>)
    requires Writable(updates)
    ensures AllTerminated(NewLines(updates))
  {
    if updates != [] {
      LineIsTerminated(updates[0]);
      NewLinesFacts(updates[1..]);
    }
  }

  lemma {:induction false} UpsertLines(file: Option<string>, updates: seq<Update>)
    requires WellEnded(file) && Writable(updates)
    ensures LinesOf(Upsert(file, updates)) == Keep(LinesOf(file), updates) + NewLines(updates)
    ensures WellEnded(Upsert(file, updates))
  {
    var lines := Keep(LinesOf(file), updates) + NewLines(updates);
    KeepFacts(LinesOf(file), updates);
    NewLinesFacts(updates);
    LinesOfConcat(lines, "");
    assert Concat(lines) + "" == Concat(lines) && lines + [] == lines;
  }

  lemma {:induction false} FindSkips(a: seq<string>, b: seq<string>, key: string)
    ensures (forall l | l in a :: !Assigns(l, key)) ==> Find(a + b, key) == Find(b, key)
    ensures (forall l | l in b :: !Assigns(l, key)) ==> Find(a + b, key) == Find(a, key)
  {
    if a == [] {
      assert a + b == b;
      if b != [] && forall l | l in b :: !Assigns(l, key) {
        FindSkips(a, b[1..], key);
        assert a + b[1..] == b[1..];
      }
    } else {
      assert (a + b)[1..] == a[1..] + b;
      FindSkips(a[1..], b, key);
    }
  }

  lemma {:induction false} FindKept(lines: seq<string>, updates: seq<Update>, key: string)
    requires IsKey(key) && forall u | u in updates :: IsKey(u.key) && u.key != key
    ensures Find(Keep(lines, updates), key) == Find(lines, key)
  {
    if lines != [] {
      FindKept(lines[1..], updates, key);
      if Replaced(lines[0], updates) && Assigns(lines[0], key) {
        var u :| u in updates && Assigns(lines[0], u.key);
        OneKeyPerLine(lines[0], u.key, key);
      }
    }
  }

  function ValueIn(updates: seq<Update>, key: string): Option<string> {
    if updates == [] then None
    else if updates[0].key == key then Some(updates[0].value) else ValueIn(updates[1..], key)
  }

  lemma AssignedValue(u: Update, key: string)
    requires IsKey(u.key) && IsKey(key)
    ensures Assigns(LineOf(u), key) <==> key == u.key
    ensures Strip(LineOf(u)[|u.key| + 1..]) == Strip(u.value)
  {
    var line := LineOf(u);
    assert line[..|u.key| + 1] == u.key + "=";
    if Assigns(line, key) {
      OneKeyPerLine(line, key, u.key);
    }
    assert line[|u.key| + 1..] == u.value + "\n";
    StripDropsNewline(u.value);
  }

  lemma StripDropsNewline(value: string)
    ensures Strip(value + "\n") == Strip(value)
  {
    assert (value + "\n")[..|value|] == value;
  }

  lemma {:induction false} FindNew(updates: seq<Update>, key: string)
    requires Writable(updates) && IsKey(key)
    ensures ValueIn(updates, key).Some? ==> Find(NewLines(updates), key) == Strip(ValueIn(updates, key).value)
    ensures ValueIn(updates, key).None? ==> forall l | l in NewLines(updates) :: !Assigns(l, key)
    ensures ValueIn(updates, key).None? <==> forall u | u in updates :: u.key != key
  {
    if updates != [] {
      AssignedValue(updates[0], key);
      FindNew(updates[1..], key);
    }
  }

  /** After a rewrite of a well-ended file, every updated key reads as its new value without outer white space,
      every other key as before. */
  lemma GetAfterUpsert(file: Option<string>, updates: seq<Update>, key: string)
    requires WellEnded(file) && Writable(updates) && IsKey(key)
    ensures Get(Upsert(file, updates), key)
         == if ValueIn(updates, key).Some? then Strip(ValueIn(updates, key).value) else Get(file, key)
  {
    UpsertLines(file, updates);
    FindNew(updates, key);
    KeepFacts(LinesOf(file), updates);
    FindSkips(Keep(LinesOf(file), updates), NewLines(updates), key);
    if ValueIn(updates, key).None? {
      FindKept(LinesOf(file), updates, key);
    } else {
      ValueComesFromUpdate(updates, key);
    }
  }

  lemma {:induction false} ValueComesFromUpdate(updates: seq<Update>, key: string)
    requires ValueIn(updates, key).Some?
    ensures exists u :: u in updates && u.key == key
  {
    if updates[0].key != key {
      ValueComesFromUpdate(updates[1..], key);
    }
  }

  // ── when an append is safe ─────────────────────────────────────────────────

  lemma {:induction false} TerminatedPrefix(s: string)
    requires FirstNewline(s) < |s|
    ensures Terminated(s[..FirstNewline(s) + 1])
  {
    if s[0] != '\n' {
      TerminatedPrefix(s[1..]);
      var k := FirstNewline(s[1..]);
      assert s[..k + 2] == [s[0]] + s[1..][..k + 1];
      assert s[..k + 2][1..] == s[1..][..k + 1];
    }
  }

  /** Only the last line of a file can lack its newline. */
  lemma {:induction false} LastMayBeOpen(s: string) returns (closed: seq<string>, open: string)
    ensures AllTerminated(closed) && FirstNewline(open) == |open|
    ensures Lines(s) == closed + (if open == "" then [] else [open])
    decreases |s|
  {
    if s == "" {
      closed, open := [], "";
    } else {
      var k := FirstNewline(s);
      if k == |s| {
        closed, open := [], s;
      } else {
        TerminatedPrefix(s);
        closed, open := LastMayBeOpen(s[k + 1..]);
        closed := [s[..k + 1]] + closed;
      }
    }
  }

  lemma {:induction false} KeepAppend(a: seq<string>, b: seq<string>, updates: seq<Update>)
    ensures Keep(a + b, updates) == Keep(a, updates) + Keep(b, updates)
  {
    if a == [] {
      assert a + b == b;
    } else {
      assert (a + b)[1..] == a[1..] + b;
      KeepAppend(a[1..], b, updates);
    }
  }

  /** Text glued in front of an assignment hides it. */
  lemma GluedIsNoAssignment(front: string, u: Update)
    requires front != "" && IsKey(u.key) && !Assigns(front, u.key)
    ensures !Assigns(front + LineOf(u), u.key)
  {
    var line, key := front + LineOf(u), u.key;
    if |front| <= |key| {
      assert line[|key|] == key[|key| - |front|] && key[|key| - |front|] in key;
    } else {
      assert line[..|key| + 1] == front[..|key| + 1];
    }
  }

  lemma OneLineFile(u: Update)
    requires IsKey(u.key) && Fits(u.value)
    ensures Lines(LineOf(u)) == [LineOf(u)]
  {
    LineIsTerminated(u);
    OpenThenLine("", LineOf(u));
    assert "" + LineOf(u) == LineOf(u);
  }

  lemma ClosedAppend(kept: seq<string>, u: Update)
    requires AllTerminated(kept) && IsKey(u.key) && Fits(u.value) && forall l | l in kept :: !Assigns(l, u.key)
    ensures Find(Lines(Concat(kept + [LineOf(u)])), u.key) == Strip(u.value)
  {
    ConcatAppend(kept, [LineOf(u)]);
    ConcatOne(LineOf(u));
    LinesOfConcat(kept, LineOf(u));
    OneLineFile(u);
    FindSkips(kept, [LineOf(u)], u.key);
    AssignedValue(u, u.key);
  }

  lemma ConcatGlued(kept: seq<string>, open: string, line: string)
    ensures Concat(kept + [open] + [line]) == Concat(kept) + (open + line)
  {
    ConcatAppend(kept + [open], [line]);
    ConcatAppend(kept, [open]);
    ConcatOne(open);
    ConcatOne(line);
    assert Concat(kept) + open + line == Concat(kept) + (open + line);
  }

  lemma GluedLines(kept: seq<string>, open: string, line: string)
    requires AllTerminated(kept) && Terminated(line) && FirstNewline(open) == |open|
    ensures Lines(Concat(kept + [open] + [line])) == kept + [open + line]
  {
    ConcatGlued(kept, open, line);
    var glued := open + line;
    OpenThenLine(open, line);
    LinesOfConcat(kept, glued);
  }

  lemma ConcatOne(line: string)
    ensures Concat([line]) == line
  {
    assert [line][1..] == [] && line + "" == line;
  }

  lemma OpenAppend(kept: seq<string>, open: string, u: Update)
    requires AllTerminated(kept) && IsKey(u.key) && Fits(u.value)
    requires !Assigns(open, u.key) && forall l | l in kept :: !Assigns(l, u.key)
    requires open != "" && FirstNewline(open) == |open|
    ensures Find(Lines(Concat(kept + [open] + [LineOf(u)])), u.key) == ""
  {
    LineIsTerminated(u);
    GluedLines(kept, open, LineOf(u));
    GluedIsNoAssignment(open, u);
    NotFound(kept + [open + LineOf(u)], u.key);
  }

  /** A single key written to any file is read back exactly when every line that stays is complete. */
  lemma WriteReadsBackIff(file: Option<string>, u: Update)
    requires Writable([u]) && !Blank(u.value)
    ensures Get(Upsert(file, [u]), u.key) == Strip(u.value) <==> AllTerminated(Keep(LinesOf(file), [u]))
  {
    assert u in [u] && NewLines([u]) == [LineOf(u)];
    var closed, open := LastMayBeOpen(if file.Some? then file.value else "");
    KeepAppend(closed, if open == "" then [] else [open], [u]);
    KeepFacts(LinesOf(file), [u]);
    KeepFacts(closed, [u]);
    var kept := Keep(closed, [u]);
    if open == "" || Replaced(open, [u]) {
      assert Keep(LinesOf(file), [u]) == kept;
      ClosedAppend(kept, u);
    } else {
      assert Keep(LinesOf(file), [u]) == kept + [open];
      assert open in kept + [open] && !Terminated(open);
      OpenAppend(kept, open, u);
    }
  }

  lemma {:induction false} ConcatAppend(a: seq<string>, b: seq<string>)
    ensures Concat(a + b) == Concat(a) + Concat(b)
  {
    if a == [] {
      assert a + b == b;
    } else {
      assert (a + b)[1..] == a[1..] + b;
      ConcatAppend(a[1..], b);
    }
  }

  lemma {:induction false} OpenThenLine(open: string, line: string)
    requires FirstNewline(open) == |open| && Terminated(line)
    ensures Terminated(open + line) && Lines(open + line) == [open + line]
  {
    if open == "" {
      assert open + line == line;
    } else {
      assert (open + line)[1..] == open[1..] + line;
      OpenThenLine(open[1..], line);
    }
    assert (open + line)[..|open + line|] == open + line;
  }

  // ── whole lifetimes ────────────────────────────────────────────────────────

  const OWN_KEYS := [UUID, MACHINE, SECRET]

  lemma OwnKeys()
    ensures IsKey(UUID) && IsKey(MACHINE) && IsKey(SECRET)
    ensures UUID != MACHINE && UUID != SECRET && MACHINE != SECRET
  {
  }

  /** A line that belongs to somebody else. */
  predicate Foreign(line: string) {
    !Assigns(line, UUID) && !Assigns(line, MACHINE) && !Assigns(line, SECRET)
  }

  function ForeignLines(lines: seq<string>): seq<string> {
    if lines == [] then []
    else if Foreign(lines[0]) then [lines[0]] + ForeignLines(lines[1..])
    else ForeignLines(lines[1..])
  }

  predicate OnlyOwnKeys(updates: seq<Update>) {
    forall u | u in updates :: u.key in OWN_KEYS
  }

  lemma {:induction false} ForeignAppend(a: seq<string>, b: seq<string>)
    ensures ForeignLines(a + b) == ForeignLines(a) + ForeignLines(b)
  {
    if a == [] {
      assert a + b == b;
    } else {
      assert (a + b)[1..] == a[1..] + b;
      ForeignAppend(a[1..], b);
    }
  }

  lemma {:induction false} ForeignKept(lines: seq<string>, updates: seq<Update>)
    requires OnlyOwnKeys(updates)
    ensures ForeignLines(Keep(lines, updates)) == ForeignLines(lines)
  {
    if lines != [] {
      ForeignKept(lines[1..], updates);
      if !Replaced(lines[0], updates) {
        assert Keep(lines, updates)[1..] == Keep(lines[1..], updates);
      }
    }
  }

  lemma {:induction false} NoForeignNew(updates: seq<Update>)
    requires OnlyOwnKeys(updates)
    ensures ForeignLines(NewLines(updates)) == []
  {
    if updates != [] {
      var line := LineOf(updates[0]);
      assert line[..|updates[0].key| + 1] == updates[0].key + "=";
      NoForeignNew(updates[1..]);
    }
  }

  lemma UpsertKeepsForeign(file: Option<string>, updates: seq<Update>)
    requires WellEnded(file) && Writable(updates) && OnlyOwnKeys(updates)
    ensures ForeignLines(LinesOf(Upsert(file, updates))) == ForeignLines(LinesOf(file))
  {
    UpsertLines(file, updates);
    ForeignAppend(Keep(LinesOf(file), updates), NewLines(updates));
    ForeignKept(LinesOf(file), updates);
    NoForeignNew(updates);
  }

  /** What happens to a machine's .env: a boot that can read some of the id files, a secret provisioned, a secret
      dropped. */
  datatype Event = Boot(readable: set<nat>, minted: string) | Save(secret: string) | Clear

  function Step(file: Option<string>, e: Event, ids: seq<string>): Option<string> {
    match e
    case Boot(readable, minted) => Booted(file, Fingerprint(ids, readable), minted)
    case Save(secret) => Upsert(file, [Update(SECRET, secret)])
    case Clear => Cleared(file)
  }

  function After(file: Option<string>, events: seq<Event>, ids: seq<string>): Option<string>
    decreases |events|
  {
    if events == [] then file else After(Step(file, events[0], ids), events[1..], ids)
  }

  predicate Legal(e: Event) {
    match e
    case Boot(_, minted) => minted != "" && OneLine(minted)
    case Save(secret) => Fits(secret)
    case Clear => true
  }

  predicate AllLegal(events: seq<Event>) {
    forall e | e in events :: Legal(e)
  }

  /** A machine's ids fit on a line each. */
  predicate WellFormed(ids: seq<string>) {
    forall i | 0 <= i < |ids| :: Fits(Id(ids, i))
  }

  lemma FingerprintFacts(ids: seq<string>, readable: set<nat>)
    ensures Fingerprint(ids, readable) != "" ==>
      exists k :: 0 <= k < |ids| && Id(ids, k) == Fingerprint(ids, readable)
    ensures forall j | 0 <= j < |ids| :: Fingerprint(ids, {j}) == Id(ids, j)
    ensures WellFormed(ids) ==> OneLine(Fingerprint(ids, readable))
  {
    FirstIdFacts(ids, readable, 0);
    if k :| 0 <= k < |ids| && Id(ids, k) == Fingerprint(ids, readable) {
      StripIsTrimmed(ids[k]);
    }
  }

  /** One event: the file stays well-ended, other people's lines stay, and the identity follows the rule. */
  lemma StepFacts(file: Option<string>, e: Event, ids: seq<string>)
    requires WellEnded(file) && Legal(e) && WellFormed(ids)
    ensures var f := Step(file, e, ids);
            && WellEnded(f) && ForeignLines(LinesOf(f)) == ForeignLines(LinesOf(file))
            && (!e.Boot? ==> Get(f, UUID) == Get(file, UUID) && Get(f, MACHINE) == Get(file, MACHINE))
            && (e.Boot? ==> Identified(file, Fingerprint(ids, e.readable), e.minted, f))
  {
    OwnKeys();
    match e
    case Boot(readable, minted) =>
      FingerprintFacts(ids, readable);
      BootFacts(file, Fingerprint(ids, readable), minted);
    case Save(secret) =>
      var updates := [Update(SECRET, secret)];
      UpsertKeepsForeign(file, updates);
      UpsertLines(file, updates);
      GetAfterUpsert(file, updates, UUID);
      GetAfterUpsert(file, updates, MACHINE);
    case Clear =>
      ClearedFacts(file);
  }

  /** What a boot makes of the identity and its binding. */
  predicate Identified(file: Option<string>, fingerprint: string, minted: string, f: Option<string>) {
    && Get(f, UUID) == (if Mints(file, fingerprint) then minted else Get(file, UUID))
    && Get(f, MACHINE) == (if fingerprint != "" && (Mints(file, fingerprint) || Get(file, MACHINE) == "") then fingerprint
                           else Get(file, MACHINE))
  }

  lemma BootWrites(file: Option<string>, fingerprint: string, minted: string)
    requires Fits(minted) && Fits(fingerprint)
    ensures var updates := BootUpdates(file, fingerprint, minted);
            && IsKey(UUID) && IsKey(MACHINE) && Writable(updates) && OnlyOwnKeys(updates)
            && ValueIn(updates, UUID) == (if Mints(file, fingerprint) then Some(minted) else None)
            && ValueIn(updates, MACHINE) ==
               (if fingerprint != "" && (Mints(file, fingerprint) || Get(file, MACHINE) == "") then Some(fingerprint)
                else None)
  {
    OwnKeys();
  }

  lemma BootFacts(file: Option<string>, fingerprint: string, minted: string)
    requires WellEnded(file) && OneLine(minted) && OneLine(fingerprint)
    ensures var f := Booted(file, fingerprint, minted);
            && WellEnded(f) && ForeignLines(LinesOf(f)) == ForeignLines(LinesOf(file))
            && Identified(file, fingerprint, minted, f)
  {
    var updates := BootUpdates(file, fingerprint, minted);
    BootWrites(file, fingerprint, minted);
    if updates != [] {
      UpsertKeepsForeign(file, updates);
      UpsertLines(file, updates);
      GetAfterUpsert(file, updates, UUID);
      GetAfterUpsert(file, updates, MACHINE);
    }
  }

  /** A boot that mints ends the file with the identity's line and then its binding's. */
  lemma MintedLines(file: Option<string>, fingerprint: string, minted: string)
    requires WellEnded(file) && Mints(file, fingerprint) && Fits(minted) && Fits(fingerprint) && fingerprint != ""
    ensures exists others ::
      LinesOf(Booted(file, fingerprint, minted)) == others + [LineOf(Update(UUID, minted)), LineOf(Update(MACHINE, fingerprint))]
  {
    var updates := [Update(UUID, minted), Update(MACHINE, fingerprint)];
    assert BootUpdates(file, fingerprint, minted) == updates;
    BootWrites(file, fingerprint, minted);
    UpsertLines(file, updates);
    TwoNewLines(Update(UUID, minted), Update(MACHINE, fingerprint));
  }

  lemma TwoNewLines(u: Update, w: Update)
    ensures NewLines([u, w]) == [LineOf(u), LineOf(w)]
  {
    var two, one := [u, w], [w];
    assert two[1..] == one && one[1..] == [];
    assert NewLines(one) == [LineOf(w)] + NewLines([]) && NewLines([]) == [];
    assert NewLines(two) == [LineOf(u)] + NewLines(one);
  }

  lemma ClearedFacts(file: Option<string>)
    requires WellEnded(file)
    ensures WellEnded(Cleared(file)) && ForeignLines(LinesOf(Cleared(file))) == ForeignLines(LinesOf(file))
    ensures Get(Cleared(file), UUID) == Get(file, UUID) && Get(Cleared(file), MACHINE) == Get(file, MACHINE)
    ensures Get(Cleared(file), SECRET) == ""
  {
    OwnKeys();
    if file.Some? {
      var gone := [Update(SECRET, "")];
      var kept := Keep(LinesOf(file), gone);
      KeepFacts(LinesOf(file), gone);
      LinesOfConcat(kept, "");
      assert Concat(kept) + "" == Concat(kept) && kept + [] == kept;
      ForeignKept(LinesOf(file), gone);
      FindKept(LinesOf(file), gone, UUID);
      FindKept(LinesOf(file), gone, MACHINE);
      assert gone[0] in gone;
      NotFound(kept, SECRET);
    }
  }

  lemma {:induction false} NotFound(lines: seq<string>, key: string)
    requires forall l | l in lines :: !Assigns(l, key)
    ensures Find(lines, key) == ""
  {
    if lines != [] {
      NotFound(lines[1..], key);
    }
  }

  /** Over every lifetime on one machine, other people's lines keep content and order. */
  lemma {:induction false} ForeignLinesKept(file: Option<string>, events: seq<Event>, ids: seq<string>)
    requires WellEnded(file) && AllLegal(events) && WellFormed(ids)
    ensures WellEnded(After(file, events, ids))
    ensures ForeignLines(LinesOf(After(file, events, ids))) == ForeignLines(LinesOf(file))
    decreases |events|
  {
    if events != [] {
      StepFacts(file, events[0], ids);
      ForeignLinesKept(Step(file, events[0], ids), events[1..], ids);
    }
  }

  predicate Agree(a: string, b: string) {
    a == "" || b == "" || a == b
  }

  /** The ids that the machine's files hold, and the fingerprint stored, are one and the same. */
  predicate OneIdentity(ids: seq<string>, stored: string) {
    && (forall i, j | 0 <= i < |ids| && 0 <= j < |ids| :: Agree(Id(ids, i), Id(ids, j)))
    && (forall i | 0 <= i < |ids| :: Agree(Id(ids, i), stored))
  }

  lemma {:induction false} UuidKept(file: Option<string>, events: seq<Event>, ids: seq<string>)
    requires WellEnded(file) && AllLegal(events) && WellFormed(ids)
    requires Get(file, UUID) != "" && OneIdentity(ids, Get(file, MACHINE))
    ensures Get(After(file, events, ids), UUID) == Get(file, UUID)
    decreases |events|
  {
    if events != [] {
      var e := events[0];
      StepFacts(file, e, ids);
      if e.Boot? {
        FingerprintFacts(ids, e.readable);
        assert Agree(Fingerprint(ids, e.readable), Get(file, MACHINE));
      }
      UuidKept(Step(file, e, ids), events[1..], ids);
    }
  }

  /** The identity in the file survives every lifetime on the machine. */
  ghost predicate StableOn(file: Option<string>, ids: seq<string>) {
    forall events | AllLegal(events) :: Get(After(file, events, ids), UUID) == Get(file, UUID)
  }

  /** A boot that sees another fingerprint than the stored one replaces the identity, be it on the same machine: a
      boot that can read other id files than the one that bound it. The next boot that sees the old one replaces
      it again. */
  lemma OtherReadingMints(file: Option<string>, ids: seq<string>, first: set<nat>, second: set<nat>,
                          minted: string, again: string)
    requires WellEnded(file) && WellFormed(ids) && Legal(Boot(second, minted)) && Legal(Boot(first, again))
    requires Get(file, UUID) != "" && Get(file, MACHINE) == Fingerprint(ids, first) != ""
    requires Fingerprint(ids, second) !in {"", Fingerprint(ids, first)}
    ensures var f := Step(file, Boot(second, minted), ids);
            Get(f, UUID) == minted && Get(Step(f, Boot(first, again), ids), UUID) == again
  {
    StepFacts(file, Boot(second, minted), ids);
    StepFacts(Step(file, Boot(second, minted), ids), Boot(first, again), ids);
  }

  /** Such a machine: its machine-id cannot be read at the second boot, its product UUID can. */
  lemma UnreadableMachineIdMints(file: Option<string>, ids: seq<string>, minted: string)
    requires WellEnded(file) && WellFormed(ids) && |ids| == 3 && minted != "" && OneLine(minted)
    requires Get(file, UUID) != "" && Get(file, MACHINE) == Id(ids, 0) != ""
    requires Id(ids, 2) !in {"", Id(ids, 0)}
    ensures Get(After(file, [Boot({2}, minted)], ids), UUID) == minted
  {
    FingerprintFacts(ids, {2});
    StepFacts(file, Boot({2}, minted), ids);
    AfterOne(file, Boot({2}, minted), ids);
  }

  lemma AfterOne(file: Option<string>, e: Event, ids: seq<string>)
    ensures After(file, [e], ids) == Step(file, e, ids)
  {
    assert After(file, [e], ids) == After(Step(file, e, ids), [e][1..], ids) && [e][1..] == [];
  }

  lemma AfterTwo(file: Option<string>, e: Event, e': Event, ids: seq<string>)
    ensures After(file, [e, e'], ids) == Step(Step(file, e, ids), e', ids)
  {
    assert After(file, [e, e'], ids) == After(Step(file, e, ids), [e, e'][1..], ids) && [e, e'][1..] == [e'];
    AfterOne(Step(file, e, ids), e', ids);
  }

  lemma Unsettled(file: Option<string>, ids: seq<string>, events: seq<Event>)
    requires AllLegal(events) && Get(After(file, events, ids), UUID) != Get(file, UUID)
    ensures !StableOn(file, ids)
  {
  }

  /** A boot that reads the `j`-th id alone replaces an identity bound to anything else. */
  lemma OneBootUnsettles(file: Option<string>, ids: seq<string>, j: nat)
    requires WellEnded(file) && WellFormed(ids) && Get(file, UUID) != ""
    requires j < |ids| && !Agree(Id(ids, j), Get(file, MACHINE))
    ensures !StableOn(file, ids)
  {
    var other := AnotherUuid(Get(file, UUID));
    var e := Boot({j}, other);
    FingerprintFacts(ids, {j});
    StepFacts(file, e, ids);
    AfterOne(file, e, ids);
    Unsettled(file, ids, [e]);
  }

  lemma AnotherUuid(uuid: string) returns (other: string)
    ensures other !in {"", uuid} && OneLine(other)
  {
    other := if uuid == "1" then "2" else "1";
  }

  /** Two boots that read different ids unsettle an identity that is not bound. */
  lemma TwoBootsUnsettle(file: Option<string>, ids: seq<string>, i: nat, j: nat)
    requires WellEnded(file) && WellFormed(ids) && Get(file, UUID) != "" && Get(file, MACHINE) == ""
    requires i < |ids| && j < |ids| && !Agree(Id(ids, i), Id(ids, j))
    ensures !StableOn(file, ids)
  {
    var other := AnotherUuid(Get(file, UUID));
    var e, e' := Boot({i}, other), Boot({j}, other);
    FingerprintFacts(ids, {i});
    FingerprintFacts(ids, {j});
    StepFacts(file, e, ids);
    StepFacts(Step(file, e, ids), e', ids);
    AfterTwo(file, e, e', ids);
    Unsettled(file, ids, [e, e']);
  }

  /** A stored identity is kept for good on a machine, whichever of its ids each boot can read, exactly when all the
      ids it has and the stored fingerprint, as far as there is one, are the same. */
  lemma StableIff(file: Option<string>, ids: seq<string>)
    requires WellEnded(file) && WellFormed(ids) && Get(file, UUID) != ""
    ensures StableOn(file, ids) <==> OneIdentity(ids, Get(file, MACHINE))
  {
    var stored := Get(file, MACHINE);
    if OneIdentity(ids, stored) {
      forall events | AllLegal(events) ensures Get(After(file, events, ids), UUID) == Get(file, UUID) {
        UuidKept(file, events, ids);
      }
    } else if j :| 0 <= j < |ids| && !Agree(Id(ids, j), stored) {
      OneBootUnsettles(file, ids, j);
    } else {
      var i, j :| 0 <= i < |ids| && 0 <= j < |ids| && !Agree(Id(ids, i), Id(ids, j));
      assert Agree(Id(ids, i), stored) && Agree(Id(ids, j), stored);
      TwoBootsUnsettle(file, ids, i, j);
    }
  }

  /** A file without an identity: the one minted by a boot is kept for good exactly when the machine's ids are all
      the same and, if that boot could read none of them, so is a fingerprint left in the file. */
  lemma FirstMintIsStableIff(file: Option<string>, readable: set<nat>, minted: string, ids: seq<string>)
    requires WellEnded(file) && WellFormed(ids) && Legal(Boot(readable, minted)) && Get(file, UUID) == ""
    ensures var f := Step(file, Boot(readable, minted), ids);
            && Get(f, UUID) == minted
            && (StableOn(f, ids) <==>
                OneIdentity(ids, if Fingerprint(ids, readable) != "" then "" else Get(file, MACHINE)))
  {
    StepFacts(file, Boot(readable, minted), ids);
    FingerprintFacts(ids, readable);
    StableIff(Step(file, Boot(readable, minted), ids), ids);
  }

  /** A cloned file (bound to another fingerprint) gets the fresh UUID at the first boot that can read an id, and
      that one is kept for good exactly when the machine's ids are all the same. */
  lemma CloneGetsItsOwnIdentity(file: Option<string>, readable: set<nat>, minted: string, ids: seq<string>)
    requires WellEnded(file) && WellFormed(ids) && Legal(Boot(readable, minted))
    requires Get(file, UUID) != "" && Get(file, MACHINE) != ""
    requires Fingerprint(ids, readable) !in {"", Get(file, MACHINE)}
    ensures var f := Step(file, Boot(readable, minted), ids);
            Get(f, UUID) == minted && (StableOn(f, ids) <==> OneIdentity(ids, ""))
  {
    StepFacts(file, Boot(readable, minted), ids);
    FingerprintFacts(ids, readable);
    StableIff(Step(file, Boot(readable, minted), ids), ids);
  }
}
