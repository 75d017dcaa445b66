/** The hub-managed block inside root's crontab (agent/src/managed_crontab.py). */
module ManagedCrontab {
  import opened Text

  // ── lines outside any question of markers ──────────────────────────────────

  /** The cleaned desired lines: blank lines dropped, trailing white space removed. */
  function CleanLines(lines: seq<string>): seq<string> {
    if lines == [] then []
    else if Blank(lines[0]) then CleanLines(lines[1..])
    else [RStrip(lines[0])] + CleanLines(lines[1..])
  }

  function Desired(desired: string): seq<string> {
    CleanLines(SplitLines(desired))
  }

  lemma {:induction false} CleanedLine(lines: seq<string>, c: string)
    requires c in CleanLines(lines)
    ensures exists l :: l in lines && c == RStrip(l) && !Blank(l)
  {
    if Blank(lines[0]) || c != RStrip(lines[0]) {
      CleanedLine(lines[1..], c);
    }
  }

  lemma {:induction false} CleanedKeeps(lines: seq<string>, l: string)
    requires l in lines && !Blank(l)
    ensures RStrip(l) in CleanLines(lines)
  {
    if l != lines[0] {
      CleanedKeeps(lines[1..], l);
    }
  }

  lemma DesiredLines(desired: string)
    ensures forall c | c in Desired(desired) :: BreakFree(c) && !Blank(c) && c != ""
  {
    LinesAreBreakFree(desired);
    forall c | c in Desired(desired) ensures BreakFree(c) && !Blank(c) && c != "" {
      CleanedLine(SplitLines(desired), c);
      var l :| l in SplitLines(desired) && c == RStrip(l) && !Blank(l);
      StripIgnoresTrailingSpace(l);
      RStripFacts(l);
      assert forall ch | ch in c :: ch in l;
    }
  }

  /** `text.rstrip("\n")` */
  function TrimNewlines(text: string): string {
    if text != "" && text[|text| - 1] == '\n' then TrimNewlines(text[..|text| - 1]) else text
  }

  function DropEmptyTail(lines: seq<string>): (kept: seq<string>)
    ensures kept <= lines
    ensures kept != [] ==> kept[|kept| - 1] != ""
  {
    if lines != [] && lines[|lines| - 1] == "" then DropEmptyTail(lines[..|lines| - 1]) else lines
  }

  lemma {:induction false} TrimJoined(lines: seq<string>)
    requires forall l | l in lines :: BreakFree(l)
    ensures TrimNewlines(Join('\n', lines)) == Join('\n', DropEmptyTail(lines))
    ensures Join('\n', DropEmptyTail(lines)) == "" <==> DropEmptyTail(lines) == []
  {
    if lines != [] {
      var j, front, last := Join('\n', lines), lines[..|lines| - 1], lines[|lines| - 1];
      JoinLast('\n', lines);
      if last == "" {
        TrimJoined(front);
        if front != [] {
          assert j[..|j| - 1] == Join('\n', front);
        }
      } else {
        assert j[|j| - 1] == last[|last| - 1] && last[|last| - 1] in last && BreakFree(last);
      }
    }
  }

  predicate NoBlank(lines: seq<string>) {
    forall l | l in lines :: !Blank(l)
  }

  /** The last line is there and not blank. */
  predicate Firm(lines: seq<string>) {
    lines != [] && !Blank(lines[|lines| - 1])
  }

  function NonBlank(lines: seq<string>): seq<string> {
    if lines == [] then []
    else if Blank(lines[0]) then NonBlank(lines[1..])
    else [lines[0]] + NonBlank(lines[1..])
  }

  lemma {:induction false} NonBlankAppend(a: seq<string>, b: seq<string>)
    ensures NonBlank(a + b) == NonBlank(a) + NonBlank(b)
    decreases |a|
  {
    if a == [] {
      assert a + b == b;
    } else {
      var rest := a[1..];
      NonBlankAppend(rest, b);
      assert (a + b)[0] == a[0] && (a + b)[1..] == rest + b;
      assert [a[0]] + (NonBlank(rest) + NonBlank(b)) == [a[0]] + NonBlank(rest) + NonBlank(b);
    }
  }

  /** The cleaned lines are the lines that are not blank, in their order, each without its trailing white space. */
  lemma {:induction false} CleanedInOrder(lines: seq<string>)
    ensures |CleanLines(lines)| == |NonBlank(lines)|
    ensures forall i | 0 <= i < |NonBlank(lines)| :: CleanLines(lines)[i] == RStrip(NonBlank(lines)[i])
  {
    if lines != [] {
      CleanedInOrder(lines[1..]);
    }
  }

  /** Drops the one blank separator line that precedes a managed block. */
  function DropSeparator(out: seq<string>): seq<string> {
    if out != [] && Blank(out[|out| - 1]) then out[..|out| - 1] else out
  }

  lemma DroppedSeparatorIsBlank(out: seq<string>)
    ensures NonBlank(DropSeparator(out)) == NonBlank(out)
  {
    if out != [] && Blank(out[|out| - 1]) {
      var front, last := out[..|out| - 1], out[|out| - 1];
      assert out == front + [last];
      NonBlankAppend(front, [last]);
    }
  }

  /** The lines from index `i` on; none once `i` has stepped past the end. */
  function Tail(lines: seq<string>, i: nat): seq<string> {
    if i <= |lines| then lines[i..] else []
  }

  lemma TailSteps(lines: seq<string>, i: nat)
    requires i < |lines|
    ensures Tail(lines, i) != [] && Tail(lines, i)[0] == lines[i] && Tail(lines, i)[1..] == Tail(lines, i + 1)
  {
  }

  /** The two marker lines that fence the managed block, and the operations over them. */
  datatype Fence = Fence(begin: string, end: string) {

    predicate IsBegin(line: string) { Strip(line) == begin }
    predicate IsEnd(line: string) { Strip(line) == end }

    /** The markers are two different one-line texts without outer white space. */
    predicate Proper() {
      && begin != "" && end != "" && begin != end
      && Trimmed(begin) && Trimmed(end) && BreakFree(begin) && BreakFree(end)
    }

    lemma MarkersAreMarkers()
      requires Proper()
      ensures IsBegin(begin) && !IsEnd(begin) && !Blank(begin)
      ensures IsEnd(end) && !IsBegin(end) && !Blank(end)
      ensures forall l | Blank(l) :: !IsBegin(l) && !IsEnd(l)
    {
      StripIsTrimmed(begin);
      StripIsTrimmed(end);
    }

    /** A marker line is the marker with any white space around it. */
    lemma MarkersByText(line: string)
      requires Proper()
      ensures IsBegin(line) <==> exists front, back :: Spaces(front) && Spaces(back) && line == front + begin + back
      ensures IsEnd(line) <==> exists front, back :: Spaces(front) && Spaces(back) && line == front + end + back
    {
      var front, back := StripParts(line);
      if front, back :| Spaces(front) && Spaces(back) && line == front + begin + back {
        StripOf(front, begin, back);
      }
      if front, back :| Spaces(front) && Spaces(back) && line == front + end + back {
        StripOf(front, end, back);
      }
    }

    predicate HasEnd(lines: seq<string>) {
      exists l :: l in lines && IsEnd(l)
    }

    predicate NoBegin(lines: seq<string>) {
      forall l | l in lines :: !IsBegin(l)
    }

    // ── removing managed blocks ──────────────────────────────────────────────

    /** What follows the first END line, or nothing when the block is never closed. */
    function AfterEnd(lines: seq<string>): (rest: seq<string>)
      ensures |rest| <= |lines| && rest == lines[|lines| - |rest|..]
    {
      if lines == [] then [] else if IsEnd(lines[0]) then lines[1..] else AfterEnd(lines[1..])
    }

    /** `out` followed by the lines of `lines` that stay when every managed block is cut out. */
    function StripFrom(lines: seq<string>, out: seq<string>): seq<string>
      decreases |lines|
    {
      if lines == [] then out
      else if IsBegin(lines[0]) then StripFrom(AfterEnd(lines[1..]), DropSeparator(out))
      else StripFrom(lines[1..], out + [lines[0]])
    }

    /** The inner loop of `_strip_block`: step to just past the END marker, or past the end of file. */
    method SkipBlock(lines: seq<string>, start: nat) returns (i: nat)
      requires start <= |lines|
      ensures start < i && Tail(lines, i) == AfterEnd(lines[start..])
    {
      i := start;
      while i < |lines| && !IsEnd(lines[i])
        invariant start <= i <= |lines|
        invariant AfterEnd(lines[i..]) == AfterEnd(lines[start..])
      {
        TailSteps(lines, i);
        i := i + 1;
      }
      if i < |lines| {
        TailSteps(lines, i);
      }
      i := i + 1;
    }

    /** `_strip_block` with its index loop. */
    method StripBlock(text: string) returns (stripped: string)
      ensures stripped == Join('\n', StripFrom(SplitLines(text), []))
    {
      var lines := SplitLines(text);
      var out := [];
      var i := 0;
      while i < |lines|
        invariant StripFrom(Tail(lines, i), out) == StripFrom(lines, [])
      {
        TailSteps(lines, i);
        if IsBegin(lines[i]) {
          i := SkipBlock(lines, i + 1);
          if out != [] && Blank(out[|out| - 1]) {
            out := out[..|out| - 1];
          }
        } else {
          out := out + [lines[i]];
          i := i + 1;
        }
      }
      stripped := Join('\n', out);
    }

    // ── rewriting the block ──────────────────────────────────────────────────

    /** `reconcile_block`, over text. */
    function Reconcile(existing: string, desired: string): string {
      var base := TrimNewlines(Join('\n', StripFrom(SplitLines(existing), [])));
      var body := Join('\n', Desired(desired));
      if body == "" then (if base != "" then base + "\n" else "")
      else
        var block := begin + "\n" + body + "\n" + end;
        if base != "" then base + "\n\n" + block + "\n" else block + "\n"
    }

    method ReconcileBlock(existing: string, desired: string) returns (text: string)
      ensures text == Reconcile(existing, desired)
    {
      var stripped := StripBlock(existing);
      var base := TrimNewlines(stripped);
      var body := Join('\n', Desired(desired));
      if body == "" {
        text := if base != "" then base + "\n" else "";
      } else {
        var block := begin + "\n" + body + "\n" + end;
        text := if base != "" then base + "\n\n" + block + "\n" else block + "\n";
      }
    }

    // ── the same operation, line by line ─────────────────────────────────────

    /** The operator's own lines, as a reconcile keeps them. */
    function BaseLines(existing: string): seq<string> {
      DropEmptyTail(StripFrom(SplitLines(existing), []))
    }

    function Fenced(body: seq<string>): seq<string> {
      [begin] + (body + [end])
    }

    function WithBlock(base: seq<string>, body: seq<string>): seq<string> {
      if body == [] then base else if base == [] then Fenced(body) else base + [""] + Fenced(body)
    }

    lemma {:induction false} StrippedComesFrom(lines: seq<string>, out: seq<string>)
      ensures forall l | l in StripFrom(lines, out) :: l in lines || l in out
      decreases |lines|
    {
      if lines != [] {
        if IsBegin(lines[0]) {
          StrippedComesFrom(AfterEnd(lines[1..]), DropSeparator(out));
        } else {
          StrippedComesFrom(lines[1..], out + [lines[0]]);
        }
      }
    }

    lemma JoinFenced(body: seq<string>)
      requires body != []
      ensures Join('\n', Fenced(body)) == begin + "\n" + Join('\n', body) + "\n" + end
    {
      JoinAppend('\n', body, [end]);
      JoinAppend('\n', [begin], body + [end]);
    }

    lemma RenderWithBlock(base: seq<string>, body: seq<string>)
      requires body != []
      ensures var block := begin + "\n" + Join('\n', body) + "\n" + end;
              Render(WithBlock(base, body)) == if base == [] then block + "\n" else Join('\n', base) + "\n\n" + block + "\n"
    {
      JoinFenced(body);
      if base != [] {
        var joined, fenced := Join('\n', base), Fenced(body);
        JoinAppend('\n', base, [""]);
        JoinAppend('\n', base + [""], fenced);
        assert Join('\n', [""]) == "";
        TwoNewlines(joined, Join('\n', fenced));
      }
    }

    lemma TwoNewlines(a: string, b: string)
      ensures (a + ['\n'] + "") + ['\n'] + b == a + "\n\n" + b
    {
    }

    /** The text that `Reconcile` builds is the rendering of the base lines followed by the block. */
    lemma ReconcileByLines(existing: string, desired: string)
      requires Proper()
      ensures Reconcile(existing, desired) == Render(WithBlock(BaseLines(existing), Desired(desired)))
    {
      LinesAreBreakFree(existing);
      StrippedComesFrom(SplitLines(existing), []);
      TrimJoined(StripFrom(SplitLines(existing), []));
      DesiredLines(desired);
      var body := Desired(desired);
      if body != [] {
        assert body[0] in body && Join('\n', body) != "";
        RenderWithBlock(BaseLines(existing), body);
      }
    }

    lemma ReconciledLines(existing: string, desired: string)
      requires Proper()
      ensures SplitLines(Reconcile(existing, desired)) == WithBlock(BaseLines(existing), Desired(desired))
    {
      ReconcileByLines(existing, desired);
      LinesAreBreakFree(existing);
      StrippedComesFrom(SplitLines(existing), []);
      DesiredLines(desired);
      SplitUndoesRender(WithBlock(BaseLines(existing), Desired(desired)));
    }

    // ── put-put, and exactly when it holds ───────────────────────────────────

    lemma {:induction false} StripSkipsPlain(plain: seq<string>, rest: seq<string>, out: seq<string>)
      requires NoBegin(plain)
      ensures StripFrom(plain + rest, out) == StripFrom(rest, out + plain)
      decreases |plain|
    {
      if plain == [] {
        assert plain + rest == rest && out + plain == out;
      } else {
        assert (plain + rest)[1..] == plain[1..] + rest;
        StripSkipsPlain(plain[1..], rest, out + [plain[0]]);
        assert out + [plain[0]] + plain[1..] == out + plain;
      }
    }

    lemma {:induction false} StrippedHasNoBegin(lines: seq<string>, out: seq<string>)
      requires NoBegin(out)
      ensures NoBegin(StripFrom(lines, out))
      decreases |lines|
    {
      if lines != [] {
        if IsBegin(lines[0]) {
          StrippedHasNoBegin(AfterEnd(lines[1..]), DropSeparator(out));
        } else {
          StrippedHasNoBegin(lines[1..], out + [lines[0]]);
        }
      }
    }

    /** Stripping a freshly written block leaves the base and whatever the body let escape. */
    lemma StripWrittenBlock(base: seq<string>, body: seq<string>)
      requires Proper() && NoBegin(base) && (base != [] ==> base[|base| - 1] != "") && body != []
      ensures StripFrom(WithBlock(base, body), []) == StripFrom(AfterEnd(body + [end]), base)
    {
      MarkersAreMarkers();
      var sep := if base == [] then [] else [""];
      var rest := Fenced(body);
      assert WithBlock(base, body) == (base + sep) + rest;
      assert Blank("");
      StripSkipsPlain(base + sep, rest, []);
      assert rest[1..] == body + [end];
      assert [] + (base + sep) == base + sep;
      assert DropSeparator(base + sep) == base;
    }

    lemma {:induction false} AfterEndOfBody(body: seq<string>)
      requires Proper()
      ensures !HasEnd(body) ==> AfterEnd(body + [end]) == []
      ensures HasEnd(body) ==> AfterEnd(body + [end]) == AfterEnd(body) + [end] && |AfterEnd(body)| < |body|
    {
      MarkersAreMarkers();
      if body == [] {
        assert body + [end] == [end];
      } else {
        assert (body + [end])[1..] == body[1..] + [end];
        if !IsEnd(body[0]) {
          AfterEndOfBody(body[1..]);
          assert HasEnd(body) <==> HasEnd(body[1..]);
        }
      }
    }

    /** The operator's lines survive a reconcile whose desired text hides no END line. */
    lemma BaseSurvives(existing: string, desired: string)
      requires Proper() && !HasEnd(Desired(desired))
      ensures BaseLines(Reconcile(existing, desired)) == BaseLines(existing)
    {
      var base, body := BaseLines(existing), Desired(desired);
      ReconciledLines(existing, desired);
      StrippedHasNoBegin(SplitLines(existing), []);
      if body == [] {
        StripSkipsPlain(base, [], []);
        assert base + [] == base && [] + base == base;
      } else {
        StripWrittenBlock(base, body);
        AfterEndOfBody(body);
      }
      assert DropEmptyTail(base) == base;
    }

    /** With a hidden END line, a crontab of one blank line comes back changed. */
    lemma HiddenEndDamages(blank: string, desired: string)
      requires Proper() && HasEnd(Desired(desired))
      requires BaseLines(blank) == [blank] && Blank(blank) && blank != ""
      ensures BaseLines(Reconcile(blank, desired)) != BaseLines(blank)
    {
      var base, body := [blank], Desired(desired);
      ReconciledLines(blank, desired);
      MarkersAreMarkers();
      StripWrittenBlock(base, body);
      AfterEndOfBody(body);
      DesiredLines(desired);
      EscapeesAreNotBlank(body);
      EscapedLinesShow(AfterEnd(body) + [end], base);
    }

    lemma EscapeesAreNotBlank(body: seq<string>)
      requires NoBlank(body) && !Blank(end)
      ensures NoBlank(AfterEnd(body) + [end])
    {
    }

    lemma EscapedLinesShow(rest: seq<string>, base: seq<string>)
      requires rest != [] && NoBlank(rest)
      requires |base| == 1 && Blank(base[0])
      ensures DropEmptyTail(StripFrom(rest, base)) != base
    {
      if IsBegin(rest[0]) {
        StrippedComesFrom(AfterEnd(rest[1..]), []);
        assert DropSeparator(base) == [];
        assert base[0] !in StripFrom(rest, base);
      } else {
        NoBlankBehind(rest);
        FirmGrows(base, rest[0]);
        NonBlankLinesStay(rest[1..], base + [rest[0]]);
        assert DropEmptyTail(StripFrom(rest, base)) == StripFrom(rest, base);
      }
    }

    lemma NoBlankBehind(lines: seq<string>)
      requires lines != [] && NoBlank(lines)
      ensures !Blank(lines[0]) && NoBlank(lines[1..]) && NoBlank(AfterEnd(lines[1..]))
    {
    }

    lemma FirmGrows(out: seq<string>, l: string)
      requires !Blank(l)
      ensures Firm(out + [l]) && out <= out + [l]
    {
    }

    lemma FirmHasNoSeparator(out: seq<string>)
      requires Firm(out)
      ensures DropSeparator(out) == out
    {
    }

    lemma {:induction false} NonBlankLinesStay(lines: seq<string>, out: seq<string>)
      requires NoBlank(lines) && Firm(out)
      ensures Firm(StripFrom(lines, out)) && out <= StripFrom(lines, out)
      decreases |lines|
    {
      if lines != [] {
        NoBlankBehind(lines);
        if IsBegin(lines[0]) {
          FirmHasNoSeparator(out);
          NonBlankLinesStay(AfterEnd(lines[1..]), out);
        } else {
          FirmGrows(out, lines[0]);
          NonBlankLinesStay(lines[1..], out + [lines[0]]);
          PrefixOfPrefix(out, out + [lines[0]], StripFrom(lines[1..], out + [lines[0]]));
        }
      }
    }

    lemma PrefixOfPrefix(a: seq<string>, b: seq<string>, c: seq<string>)
      requires a <= b && b <= c
      ensures a <= c
    {
    }

    /** The desired text hides an END line exactly when one of its lines strips to the END marker. */
    lemma HiddenEndIff(desired: string)
      requires Proper()
      ensures HasEnd(Desired(desired)) <==> HasEnd(SplitLines(desired))
    {
      MarkersAreMarkers();
      var lines := SplitLines(desired);
      if HasEnd(Desired(desired)) {
        var c :| c in Desired(desired) && IsEnd(c);
        CleanedLine(lines, c);
        var l :| l in lines && c == RStrip(l) && !Blank(l);
        StripIgnoresTrailingSpace(l);
      }
      if HasEnd(lines) {
        var l :| l in lines && IsEnd(l);
        CleanedKeeps(lines, l);
        StripIgnoresTrailingSpace(l);
        assert IsEnd(RStrip(l));
      }
    }

    lemma OneBlankLine()
      requires Proper()
      ensures BaseLines(" ") == [" "] && Blank(" ")
    {
      MarkersAreMarkers();
      assert SplitLines(" ") == [" "];
      assert RStrip(" ") == "";
      assert StripFrom([" "], []) == StripFrom([], [] + [" "]);
    }

    /** Put-put: writing `d1` and then anything else is writing the other alone, over every crontab,
        exactly when no line of `d1` strips to the END marker. */
    lemma PutPutIff(d1: string)
      requires Proper()
      ensures (forall existing, d2 :: Reconcile(Reconcile(existing, d1), d2) == Reconcile(existing, d2))
         <==> !HasEnd(SplitLines(d1))
    {
      HiddenEndIff(d1);
      if !HasEnd(Desired(d1)) {
        forall existing, d2 ensures Reconcile(Reconcile(existing, d1), d2) == Reconcile(existing, d2) {
          BaseSurvives(existing, d1);
          ReconcileByLines(Reconcile(existing, d1), d2);
          ReconcileByLines(existing, d2);
        }
      } else {
        OneBlankLine();
        HiddenEndDamages(" ", d1);
        ReconciledLines(Reconcile(" ", d1), "");
        ReconciledLines(" ", "");
        assert Reconcile(Reconcile(" ", d1), "") != Reconcile(" ", "");
      }
    }

    // ── reading the block back; the operator's lines ─────────────────────────

    /** The lines inside managed blocks, read off line by line. */
    function Inside(lines: seq<string>, inBlock: bool): seq<string> {
      if lines == [] then []
      else if inBlock then
        if IsEnd(lines[0]) then Inside(lines[1..], false) else [lines[0]] + Inside(lines[1..], true)
      else Inside(lines[1..], IsBegin(lines[0]))
    }

    /** The lines outside managed blocks; a block that is never closed runs to the end. */
    function Outside(lines: seq<string>, inBlock: bool): seq<string> {
      if lines == [] then []
      else if inBlock then Outside(lines[1..], !IsEnd(lines[0]))
      else if IsBegin(lines[0]) then Outside(lines[1..], true)
      else [lines[0]] + Outside(lines[1..], false)
    }

    lemma {:induction false} OutsideSkipsBlock(lines: seq<string>)
      ensures Outside(lines, true) == Outside(AfterEnd(lines), false)
    {
      if lines != [] && !IsEnd(lines[0]) {
        OutsideSkipsBlock(lines[1..]);
      }
    }

    lemma {:induction false} StrippedIsOutside(lines: seq<string>, out: seq<string>)
      ensures NonBlank(StripFrom(lines, out)) == NonBlank(out) + NonBlank(Outside(lines, false))
      decreases |lines|
    {
      if lines != [] {
        if IsBegin(lines[0]) {
          OutsideSkipsBlock(lines[1..]);
          DroppedSeparatorIsBlank(out);
          StrippedIsOutside(AfterEnd(lines[1..]), DropSeparator(out));
        } else {
          StrippedIsOutside(lines[1..], out + [lines[0]]);
          NonBlankAppend(out, [lines[0]]);
          NonBlankAppend([lines[0]], Outside(lines[1..], false));
        }
      }
    }

    lemma {:induction false} TrimKeepsNonBlank(lines: seq<string>)
      ensures NonBlank(DropEmptyTail(lines)) == NonBlank(lines)
    {
      if lines != [] && lines[|lines| - 1] == "" {
        TrimKeepsNonBlank(lines[..|lines| - 1]);
        assert lines == lines[..|lines| - 1] + [""];
        NonBlankAppend(lines[..|lines| - 1], [""]);
        assert Blank("");
      }
    }

    lemma BaseIsOutside(existing: string)
      ensures NonBlank(BaseLines(existing)) == NonBlank(Outside(SplitLines(existing), false))
    {
      StrippedIsOutside(SplitLines(existing), []);
      TrimKeepsNonBlank(StripFrom(SplitLines(existing), []));
    }

    lemma {:induction false} OutsideSkipsPlain(plain: seq<string>, rest: seq<string>)
      requires NoBegin(plain)
      ensures Outside(plain + rest, false) == plain + Outside(rest, false)
    {
      if plain == [] {
        assert plain + rest == rest;
      } else {
        assert (plain + rest)[1..] == plain[1..] + rest;
        OutsideSkipsPlain(plain[1..], rest);
      }
    }

    lemma {:induction false} OutsideIsMember(lines: seq<string>, inBlock: bool)
      ensures forall l | l in Outside(lines, inBlock) :: l in lines
    {
      if lines != [] {
        OutsideIsMember(lines[1..], if inBlock then !IsEnd(lines[0]) else IsBegin(lines[0]));
      }
    }

    lemma {:induction false} NonBlankOfNonBlank(lines: seq<string>)
      requires NoBlank(lines)
      ensures NonBlank(lines) == lines
    {
      if lines != [] {
        FirstOfNonBlank(lines);
        NonBlankOfNonBlank(lines[1..]);
      }
    }

    lemma FirstOfNonBlank(lines: seq<string>)
      requires lines != [] && NoBlank(lines)
      ensures NoBlank(lines[1..]) && NonBlank(lines) == [lines[0]] + NonBlank(lines[1..])
      ensures [lines[0]] + lines[1..] == lines
    {
      assert lines[0] in lines;
      assert forall l | l in lines[1..] :: l in lines;
    }

    /** The desired lines that escape from the block, because an END line among them closes it. */
    function Escaped(body: seq<string>): seq<string> {
      Outside(AfterEnd(body + [end]), false)
    }

    lemma WrittenOutside(base: seq<string>, body: seq<string>)
      requires Proper() && NoBegin(base) && body != [] && NoBlank(body)
      ensures NonBlank(Outside(WithBlock(base, body), false)) == NonBlank(base) + Escaped(body)
    {
      var front := FrontOf(base);
      FrontFacts(base);
      assert WithBlock(base, body) == front + Fenced(body);
      OutsideSkipsPlain(front, Fenced(body));
      OutsideFenced(body);
      NonBlankAppend(front, Escaped(body));
      EscapedIsNotBlank(body);
      NonBlankOfNonBlank(Escaped(body));
    }

    /** What is written in front of the block. */
    function FrontOf(base: seq<string>): seq<string> {
      if base == [] then [] else base + [""]
    }

    lemma FrontFacts(base: seq<string>)
      requires Proper() && NoBegin(base)
      ensures NoBegin(FrontOf(base)) && NonBlank(FrontOf(base)) == NonBlank(base)
    {
      MarkersAreMarkers();
      assert Blank("");
      NonBlankAppend(base, [""]);
      assert [""][1..] == [];
    }

    lemma OutsideFenced(body: seq<string>)
      requires Proper()
      ensures Outside(Fenced(body), false) == Escaped(body)
    {
      MarkersAreMarkers();
      assert Fenced(body)[0] == begin && Fenced(body)[1..] == body + [end];
      OutsideSkipsBlock(body + [end]);
    }

    lemma EscapedIsNotBlank(body: seq<string>)
      requires Proper() && NoBlank(body)
      ensures NoBlank(Escaped(body))
    {
      MarkersAreMarkers();
      OutsideIsMember(AfterEnd(body + [end]), false);
      assert end in body + [end] && !Blank(end);
      assert forall l | l in AfterEnd(body + [end]) :: l in body + [end];
    }

    /** The operator's non-blank lines keep content and order through a reconcile, whatever shape the managed
        blocks of the existing crontab are in, exactly when no desired line escapes from the block: none strips to
        the END marker, or what follows the first that does is again hidden by BEGIN lines. */
    lemma OperatorLinesKeptIff(existing: string, desired: string)
      requires Proper()
      ensures NonBlank(Outside(SplitLines(Reconcile(existing, desired)), false))
           == NonBlank(Outside(SplitLines(existing), false))
         <==> !HasEnd(SplitLines(desired)) || Escaped(Desired(desired)) == []
    {
      var base, body := BaseLines(existing), Desired(desired);
      HiddenEndIff(desired);
      ReconciledLines(existing, desired);
      BaseIsOutside(existing);
      StrippedHasNoBegin(SplitLines(existing), []);
      DesiredLines(desired);
      if body == [] {
        OutsideSkipsPlain(base, []);
        assert base + [] == base;
      } else {
        WrittenOutside(base, body);
        AfterEndOfBody(body);
      }
    }

    lemma NothingEscapes(body: seq<string>)
      requires Proper() && body == [end, begin]
      ensures HasEnd(body) && Escaped(body) == []
    {
      MarkersAreMarkers();
      assert IsEnd(body[0]) && body[0] in body;
      var rest := [begin, end];
      assert (body + [end])[0] == end && (body + [end])[1..] == rest;
      assert rest[1..] == [end] && [end][1..] == [];
      OutsideOfTwo(rest);
    }

    lemma OutsideOfTwo(rest: seq<string>)
      requires |rest| == 2 && IsBegin(rest[0]) && IsEnd(rest[1])
      ensures Outside(rest, false) == []
    {
      var last := rest[1..];
      assert last[0] == rest[1] && last[1..] == [];
      assert Outside(last, true) == Outside([], false);
    }

    /** An END line followed by a BEGIN line hides what comes after: nothing of the operator's is touched. */
    lemma EndThenBeginIsHarmless(existing: string, desired: string)
      requires Proper() && Desired(desired) == [end, begin]
      ensures HasEnd(SplitLines(desired)) && Escaped(Desired(desired)) == []
      ensures NonBlank(Outside(SplitLines(Reconcile(existing, desired)), false))
           == NonBlank(Outside(SplitLines(existing), false))
    {
      NothingEscapes([end, begin]);
      HiddenEndIff(desired);
      OperatorLinesKeptIff(existing, desired);
    }

    /** The operator's non-blank lines keep content and order when no desired line strips to the END marker. */
    lemma OperatorLinesKept(existing: string, desired: string)
      requires Proper() && !HasEnd(SplitLines(desired))
      ensures NonBlank(Outside(SplitLines(Reconcile(existing, desired)), false))
           == NonBlank(Outside(SplitLines(existing), false))
    {
      OperatorLinesKeptIff(existing, desired);
    }

    lemma {:induction false} InsideSkipsPlain(plain: seq<string>, rest: seq<string>)
      requires NoBegin(plain)
      ensures Inside(plain + rest, false) == Inside(rest, false)
    {
      if plain == [] {
        assert plain + rest == rest;
      } else {
        assert (plain + rest)[1..] == plain[1..] + rest;
        InsideSkipsPlain(plain[1..], rest);
      }
    }

    lemma {:induction false} InsideBody(body: seq<string>)
      requires Proper()
      ensures Inside(body + [end], true) == body <==> !HasEnd(body)
    {
      MarkersAreMarkers();
      if body == [] {
        assert body + [end] == [end];
      } else {
        assert (body + [end])[1..] == body[1..] + [end];
        if IsEnd(body[0]) {
          InsideIsShorter(body[1..] + [end], false);
        } else {
          InsideBody(body[1..]);
          assert HasEnd(body) <==> HasEnd(body[1..]);
        }
      }
    }

    lemma {:induction false} InsideIsShorter(lines: seq<string>, inBlock: bool)
      ensures |Inside(lines, inBlock)| <= |lines|
      ensures lines != [] && !inBlock ==> |Inside(lines, inBlock)| < |lines|
    {
      if lines != [] {
        InsideIsShorter(lines[1..], if inBlock then !IsEnd(lines[0]) else IsBegin(lines[0]));
      }
    }

    /** The managed lines read back from the written crontab are the cleaned desired lines, exactly
        when none of those is itself an END line. */
    lemma ReadBackIff(existing: string, desired: string)
      requires Proper()
      ensures Inside(SplitLines(Reconcile(existing, desired)), false) == Desired(desired)
         <==> !HasEnd(SplitLines(desired))
    {
      var base, body := BaseLines(existing), Desired(desired);
      HiddenEndIff(desired);
      ReconciledLines(existing, desired);
      StrippedHasNoBegin(SplitLines(existing), []);
      MarkersAreMarkers();
      if body == [] {
        InsideSkipsPlain(base, []);
        assert base + [] == base;
      } else {
        InsideBody(body);
        if base == [] {
          assert Inside(Fenced(body), false) == Inside(Fenced(body)[1..], true);
        } else {
          assert Blank("");
          InsideSkipsPlain(base + [""], Fenced(body));
        }
        assert Fenced(body)[1..] == body + [end];
      }
    }

    /** The block that is written, read back position by position, holds the desired lines that are not blank in the
        order they were given, each without its trailing white space, exactly when none of them strips to the END
        marker. */
    lemma ManagedLinesInOrderIff(existing: string, desired: string)
      requires Proper()
      ensures var managed, given := Inside(SplitLines(Reconcile(existing, desired)), false), NonBlank(SplitLines(desired));
              |managed| == |given| && (forall i | 0 <= i < |given| :: managed[i] == RStrip(given[i]))
              <==> !HasEnd(SplitLines(desired))
    {
      var managed, given := Inside(SplitLines(Reconcile(existing, desired)), false), NonBlank(SplitLines(desired));
      ReadBackIff(existing, desired);
      CleanedInOrder(SplitLines(desired));
      if |managed| == |given| && forall i | 0 <= i < |given| :: managed[i] == RStrip(given[i]) {
        assert managed == Desired(desired);
      }
    }
  }

  /** Root's crontab on the node. Installing blank text removes the crontab, which then reads as "". */
  class RootCrontab {
    var text: string

    constructor (initial: string)
      ensures text == initial
    {
      text := initial;
    }

    /** `apply_managed_crontab`. `accepted` is the outcome of the crontab program. A rejected text changes nothing
        and is reported; a removal that fails changes nothing and is reported as a change all the same. */
    method Apply(fence: Fence, desired: string, accepted: bool) returns (ok: bool, changed: bool)
      modifies this
      ensures text == if accepted then Applied(fence, old(text), desired) else old(text)
      ensures var target := fence.Reconcile(old(text), desired);
              text == if !accepted || (Blank(target) && Blank(old(text))) then old(text)
                      else if Blank(target) then "" else target
      ensures ok <==> accepted || !Writes(fence, old(text), desired) || Blank(fence.Reconcile(old(text), desired))
      ensures changed <==> ok && Writes(fence, old(text), desired)
    {
      var target := fence.ReconcileBlock(text, desired);
      if target == text || (Blank(target) && Blank(text)) {
        return true, false;
      }
      if !Blank(target) && !accepted {
        return false, false;
      }
      if accepted {
        text := if Blank(target) then "" else target;
      }
      return true, true;
    }
  }

  predicate Writes(fence: Fence, current: string, desired: string) {
    var target := fence.Reconcile(current, desired);
    target != current && !(Blank(target) && Blank(current))
  }

  function Applied(fence: Fence, current: string, desired: string): string {
    var target := fence.Reconcile(current, desired);
    if !Writes(fence, current, desired) then current else if Blank(target) then "" else target
  }

  /** `in_sync` of `current_managed_crontab_status`. */
  predicate InSync(fence: Fence, current: string, desired: string) {
    fence.Reconcile(current, desired) == current
  }

  lemma NonSpaceIsNotBlank(s: string, c: char)
    requires c in s && !IsSpace(c)
    ensures !Blank(s)
  {
    RStripFacts(s);
    StripIgnoresTrailingSpace(s);
  }

  lemma BlankTargetHasNoBlock(fence: Fence, existing: string, desired: string)
    requires fence.Proper() && Blank(fence.Reconcile(existing, desired))
    ensures Join('\n', Desired(desired)) == ""
  {
    var target := fence.Reconcile(existing, desired);
    if Join('\n', Desired(desired)) != "" {
      var c := fence.begin[0];
      assert !IsSpace(c) && c in target;
      NonSpaceIsNotBlank(target, c);
    }
  }

  /** After an apply the status reads "in sync", except in one case: the crontab and its target are
      both blank but not the same text. Then nothing is written and the drift stays reported. */
  lemma ApplyReachesSyncIff(fence: Fence, current: string, desired: string)
    requires fence.Proper() && !fence.HasEnd(SplitLines(desired))
    ensures InSync(fence, Applied(fence, current, desired), desired)
       <==> !(Blank(current) && Blank(fence.Reconcile(current, desired)) && !InSync(fence, current, desired))
  {
    var target := fence.Reconcile(current, desired);
    fence.PutPutIff(desired);
    if Writes(fence, current, desired) && Blank(target) {
      BlankTargetHasNoBlock(fence, current, desired);
      assert fence.BaseLines("") == [];
      assert Desired(desired) == [] ==> fence.Reconcile("", desired) == "";
    }
  }

  /** Applying the same desired text again never writes. */
  lemma SecondApplyWritesNothing(fence: Fence, current: string, desired: string)
    requires fence.Proper() && !fence.HasEnd(SplitLines(desired))
    ensures !Writes(fence, Applied(fence, current, desired), desired)
  {
    ApplyReachesSyncIff(fence, current, desired);
  }

  /** The markers the agent uses. */
  const MANAGED :=
    Fence("# BEGIN LM-MANAGED" + " (do not edit \U{2014} " + "managed by Lab Manager)", "# END LM-MANAGED")

  lemma ManagedIsProper()
    ensures MANAGED.Proper()
  {
    assert BreakFree("# BEGIN LM-MANAGED") && BreakFree(" (do not edit \U{2014} ") && BreakFree("managed by Lab Manager)");
    assert |MANAGED.begin| != |MANAGED.end|;
  }
}
