/** The string operations of the original's language that the document editors rest on. */
module Text {

  /** A character that `str.strip` removes. */
  predicate IsSpace(c: char) {
    || '\t' <= c <= '\r' || '\U{1c}' <= c <= ' ' || c == '\U{85}' || c == '\U{a0}'
    || c == '\U{1680}' || '\U{2000}' <= c <= '\U{200a}' || c == '\U{2028}' || c == '\U{2029}'
    || c == '\U{202f}' || c == '\U{205f}' || c == '\U{3000}'
  }

  /** A character at which `str.splitlines` ends a line. */
  predicate IsBreak(c: char) {
    || '\n' <= c <= '\r' || '\U{1c}' <= c <= '\U{1e}' || c == '\U{85}'
    || c == '\U{2028}' || c == '\U{2029}'
  }

  function RStrip(s: string): string {
    if s == "" || !IsSpace(s[|s| - 1]) then s else RStrip(s[..|s| - 1])
  }

  function LStrip(s: string): string {
    if s == "" || !IsSpace(s[0]) then s else LStrip(s[1..])
  }

  function Strip(s: string): string {
    LStrip(RStrip(s))
  }

  lemma {:induction false} RStripFacts(s: string)
    ensures RStrip(s) <= s
    ensures RStrip(s) != "" ==> !IsSpace(RStrip(s)[|RStrip(s)| - 1])
    ensures RStrip(RStrip(s)) == RStrip(s)
    ensures forall c | c in s && !IsSpace(c) :: RStrip(s) != ""
  {
    if s != "" && IsSpace(s[|s| - 1]) {
      RStripFacts(s[..|s| - 1]);
    }
  }

  lemma {:induction false} LStripFacts(s: string)
    ensures |LStrip(s)| <= |s| && LStrip(s) == s[|s| - |LStrip(s)|..]
    ensures LStrip(s) != "" ==> !IsSpace(LStrip(s)[0])
    ensures forall c | c in s && !IsSpace(c) :: LStrip(s) != ""
  {
    if s != "" && IsSpace(s[0]) {
      LStripFacts(s[1..]);
    }
  }

  predicate Blank(s: string) {
    Strip(s) == ""
  }

  /** A string whose two ends are not white space. */
  predicate Trimmed(s: string) {
    s == "" || (!IsSpace(s[0]) && !IsSpace(s[|s| - 1]))
  }

  lemma StripIsTrimmed(s: string)
    ensures Trimmed(Strip(s))
    ensures Strip(Strip(s)) == Strip(s)
    ensures Strip(s) == s <==> Trimmed(s)
  {
    RStripFacts(s);
    LStripFacts(RStrip(s));
    var r, l := RStrip(s), Strip(s);
    if l != "" {
      assert l[|l| - 1] == r[|r| - 1];
    }
  }

  lemma StripIgnoresTrailingSpace(s: string)
    ensures Strip(RStrip(s)) == Strip(s)
    ensures Blank(s) <==> RStrip(s) == ""
  {
    RStripFacts(s);
    var r := RStrip(s);
    LStripFacts(r);
    if r != "" {
      assert r[|r| - 1] in r;
    }
  }

  predicate Spaces(s: string) {
    forall c | c in s :: IsSpace(c)
  }

  lemma {:induction false} RStripOf(core: string, back: string)
    requires Spaces(back) && (core != "" ==> !IsSpace(core[|core| - 1]))
    ensures RStrip(core + back) == core
  {
    if back != "" {
      assert (core + back)[..|core + back| - 1] == core + back[..|back| - 1];
      RStripOf(core, back[..|back| - 1]);
    } else {
      assert core + back == core;
    }
  }

  lemma {:induction false} LStripOf(front: string, core: string)
    requires Spaces(front) && (core != "" ==> !IsSpace(core[0]))
    ensures LStrip(front + core) == core
  {
    if front != "" {
      assert (front + core)[1..] == front[1..] + core;
      LStripOf(front[1..], core);
    } else {
      assert front + core == core;
    }
  }

  /** Strip takes the white space off both ends and nothing else. */
  lemma StripOf(front: string, core: string, back: string)
    requires Spaces(front) && Spaces(back) && Trimmed(core)
    ensures Strip(front + core + back) == core
  {
    if core == "" {
      assert front + core + back == "" + (front + back);
      RStripOf("", front + back);
    } else {
      RStripOf(front + core, back);
      LStripOf(front, core);
    }
  }

  /** A text is what Strip leaves with white space on both sides. */
  lemma StripParts(s: string) returns (front: string, back: string)
    ensures Spaces(front) && Spaces(back) && s == front + Strip(s) + back
  {
    var r := RStrip(s);
    RStripSpaces(s);
    LStripSpaces(r);
    LStripFacts(r);
    var core := Strip(s);
    front, back := r[..|r| - |core|], s[|r|..];
    assert core == r[|r| - |core|..];
    assert front + core == r;
    assert r == s[..|r|] && r + back == s;
  }

  lemma {:induction false} RStripSpaces(s: string)
    ensures RStrip(s) <= s && Spaces(s[|RStrip(s)|..])
  {
    RStripFacts(s);
    if s != "" && IsSpace(s[|s| - 1]) {
      var rest := s[..|s| - 1];
      RStripSpaces(rest);
      RStripFacts(rest);
      assert s[|RStrip(rest)|..] == rest[|RStrip(rest)|..] + [s[|s| - 1]];
    }
  }

  lemma {:induction false} LStripSpaces(s: string)
    ensures |LStrip(s)| <= |s| && Spaces(s[..|s| - |LStrip(s)|])
  {
    if s != "" && IsSpace(s[0]) {
      var rest := s[1..];
      LStripSpaces(rest);
      var k := |rest| - |LStrip(rest)|;
      assert LStrip(s) == LStrip(rest);
      assert s[..k + 1] == [s[0]] + rest[..k];
    }
  }

  predicate BreakFree(s: string) {
    forall c | c in s :: !IsBreak(c)
  }

  /** The index of the first line break, or the length when there is none. */
  function FirstBreak(s: string): (k: nat)
    ensures k <= |s|
  {
    if s == "" || IsBreak(s[0]) then 0 else 1 + FirstBreak(s[1..])
  }

  lemma {:induction false} FirstBreakIsFirst(s: string)
    ensures BreakFree(s[..FirstBreak(s)])
    ensures FirstBreak(s) < |s| ==> IsBreak(s[FirstBreak(s)])
  {
    if s != "" && !IsBreak(s[0]) {
      FirstBreakIsFirst(s[1..]);
      var k := FirstBreak(s[1..]);
      assert s[..k + 1] == [s[0]] + s[1..][..k];
    }
  }

  /** `str.splitlines`: a carriage return followed by a newline is one break; a final break does not
      start another line. */
  function SplitLines(s: string): seq<string>
    decreases |s|
  {
    if s == "" then []
    else
      var k := FirstBreak(s);
      if k == |s| then [s]
      else if s[k] == '\r' && k + 1 < |s| && s[k + 1] == '\n' then [s[..k]] + SplitLines(s[k + 2..])
      else [s[..k]] + SplitLines(s[k + 1..])
  }

  lemma {:induction false} LinesAreBreakFree(s: string)
    ensures forall l | l in SplitLines(s) :: BreakFree(l)
    decreases |s|
  {
    if s != "" {
      var k := FirstBreak(s);
      FirstBreakIsFirst(s);
      if k == |s| {
        assert s[..k] == s;
      } else if s[k] == '\r' && k + 1 < |s| && s[k + 1] == '\n' {
        LinesAreBreakFree(s[k + 2..]);
      } else {
        LinesAreBreakFree(s[k + 1..]);
      }
    }
  }

  lemma {:induction false} FirstBreakBefore(line: string, rest: string)
    requires BreakFree(line) && (rest != "" ==> IsBreak(rest[0]))
    ensures FirstBreak(line + rest) == |line|
  {
    if line != "" {
      assert (line + rest)[1..] == line[1..] + rest;
      assert line[0] in line;
      FirstBreakBefore(line[1..], rest);
    } else {
      assert line + rest == rest;
    }
  }

  /** Reading lines off a text: up to the first break, a carriage return with its newline counting as one; the last
      line may go without. */
  lemma SplitLinesOf(line: string, brk: char, rest: string)
    requires BreakFree(line) && IsBreak(brk)
    ensures SplitLines(line + "\r\n" + rest) == [line] + SplitLines(rest)
    ensures brk != '\r' || rest == "" || rest[0] != '\n' ==> SplitLines(line + [brk] + rest) == [line] + SplitLines(rest)
    ensures SplitLines(line) == if line == "" then [] else [line]
  {
    SplitAtPair(line, rest);
    if brk != '\r' || rest == "" || rest[0] != '\n' {
      SplitAtBreak(line, brk, rest);
    }
    FirstBreakBefore(line, "");
    assert line + "" == line && line[..|line|] == line;
  }

  lemma SplitAtPair(line: string, rest: string)
    requires BreakFree(line)
    ensures SplitLines(line + "\r\n" + rest) == [line] + SplitLines(rest)
  {
    var text := line + "\r\n" + rest;
    FirstBreakBefore(line, "\r\n" + rest);
    assert text == line + ("\r\n" + rest) && text[..|line|] == line && text[|line| + 2..] == rest;
  }

  lemma SplitAtBreak(line: string, brk: char, rest: string)
    requires BreakFree(line) && IsBreak(brk) && (brk != '\r' || rest == "" || rest[0] != '\n')
    ensures SplitLines(line + [brk] + rest) == [line] + SplitLines(rest)
  {
    var text := line + [brk] + rest;
    FirstBreakBefore(line, [brk] + rest);
    assert text == line + ([brk] + rest) && text[..|line|] == line && text[|line| + 1..] == rest;
  }

  /** `sep.join(parts)` for a one-character separator. */
  function Join(sep: char, parts: seq<string>): string {
    if |parts| == 0 then ""
    else if |parts| == 1 then parts[0]
    else parts[0] + [sep] + Join(sep, parts[1..])
  }

  /** Lines written out with a final newline; no lines at all is the empty text. */
  function Render(lines: seq<string>): string {
    if lines == [] then "" else Join('\n', lines) + "\n"
  }

  lemma {:induction false} FirstBreakOf(line: string, rest: string)
    requires BreakFree(line)
    ensures FirstBreak(line + "\n" + rest) == |line|
  {
    if line != "" {
      assert (line + "\n" + rest)[1..] == line[1..] + "\n" + rest;
      assert line[0] in line;
      FirstBreakOf(line[1..], rest);
    }
  }

  /** Reading back what was rendered gives the lines. */
  lemma {:induction false} SplitUndoesRender(lines: seq<string>)
    requires forall l | l in lines :: BreakFree(l)
    ensures SplitLines(Render(lines)) == lines
  {
    if lines != [] {
      var rest := lines[1..];
      var s := Render(lines);
      assert s == lines[0] + "\n" + Render(rest);
      FirstBreakOf(lines[0], Render(rest));
      assert s[..|lines[0]|] == lines[0] && s[|lines[0]| + 1..] == Render(rest);
      SplitUndoesRender(rest);
    }
  }

  lemma {:induction false} JoinLast(sep: char, parts: seq<string>)
    requires parts != []
    ensures Join(sep, parts) == if |parts| == 1 then parts[0]
                                else Join(sep, parts[..|parts| - 1]) + [sep] + parts[|parts| - 1]
  {
    if |parts| > 1 {
      JoinLast(sep, parts[1..]);
      assert parts[1..][..|parts| - 2] == parts[..|parts| - 1][1..];
    }
  }

  lemma {:induction false} JoinAppend(sep: char, a: seq<string>, b: seq<string>)
    requires a != [] && b != []
    ensures Join(sep, a + b) == Join(sep, a) + [sep] + Join(sep, b)
  {
    if |a| == 1 {
      assert (a + b)[1..] == b;
    } else {
      JoinAppend(sep, a[1..], b);
      assert (a + b)[1..] == a[1..] + b;
    }
  }

  // ── order ──────────────────────────────────────────────────────────────────

  /** String order by code points, the order `sorted` gives. */
  predicate Less(a: string, b: string) {
    b != "" && (a == "" || a[0] < b[0] || (a[0] == b[0] && Less(a[1..], b[1..])))
  }

  /** The first place where they differ decides; a string comes after its own beginnings. */
  lemma {:induction false} LessIff(a: string, b: string)
    ensures Less(a, b) <==> exists k :: 0 <= k <= |a| && k < |b| && a[..k] == b[..k] && (k == |a| || a[k] < b[k])
  {
    if a != "" && b != "" && a[0] == b[0] {
      LessIff(a[1..], b[1..]);
      if k :| 0 <= k <= |a[1..]| && k < |b[1..]| && a[1..][..k] == b[1..][..k] && (k == |a[1..]| || a[1..][k] < b[1..][k]) {
        assert a[..k + 1] == [a[0]] + a[1..][..k] && b[..k + 1] == [b[0]] + b[1..][..k];
      }
      if k :| 0 <= k <= |a| && k < |b| && a[..k] == b[..k] && (k == |a| || a[k] < b[k]) {
        assert k > 0;
        assert a[1..][..k - 1] == a[..k][1..] && b[1..][..k - 1] == b[..k][1..];
      }
    } else if a == "" && b != "" {
      assert a[..0] == b[..0];
    } else if b != "" {
      assert a[..0] == b[..0];
      if k :| 0 <= k <= |a| && k < |b| && a[..k] == b[..k] && (k == |a| || a[k] < b[k]) {
        assert k > 0 ==> a[..k][0] == b[..k][0];
      }
    }
  }

  lemma {:induction false} LessIsTotal(a: string, b: string)
    ensures Less(a, b) || a == b || Less(b, a)
    ensures !(Less(a, b) && Less(b, a)) && !Less(a, a)
  {
    if a != "" {
      LessIsTotal(a[1..], a[1..]);
      if b != "" {
        LessIsTotal(a[1..], b[1..]);
        assert a == [a[0]] + a[1..] && b == [b[0]] + b[1..];
      }
    }
  }

  lemma {:induction false} LessIsTransitive(a: string, b: string, c: string)
    requires Less(a, b) && Less(b, c)
    ensures Less(a, c)
  {
    if a != "" && a[0] == b[0] && b[0] == c[0] {
      LessIsTransitive(a[1..], b[1..], c[1..]);
    }
  }
}
