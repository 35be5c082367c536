/** The normal form of a page body, which its content hash covers, and what survives a write and a read. */
module BodyHash {
  import opened Texts

  // ----- line ends ---------------------------------------------------------------------------------

  /** replace("\r\n", "\n") */
  function Crlf(s: string): string {
    if s == "" then ""
    else if s[0] == '\r' && |s| > 1 && s[1] == '\n' then "\n" + Crlf(s[2..])
    else [s[0]] + Crlf(s[1..])
  }

  /** replace("\r", "\n") */
  function Cr(s: string): string {
    seq(|s|, i requires 0 <= i < |s| => if s[i] == '\r' then '\n' else s[i])
  }

  /** All line ends as "\n"; also what reading a text file does. */
  function Universal(s: string): string {
    Cr(Crlf(s))
  }

  predicate NoCr(s: string) {
    forall i :: 0 <= i < |s| ==> s[i] != '\r'
  }

  // ----- lines ----------------------------------------------------------------------------------------

  /** One more character read: a newline opens a line, anything else extends the last one. */
  function Extend(lines: seq<string>, c: char): (longer: seq<string>)
    requires |lines| > 0
    ensures |longer| > 0
  {
    if c == '\n' then lines + [""] else lines[|lines| - 1 := lines[|lines| - 1] + [c]]
  }

  /** split("\n") */
  function Lines(s: string): (lines: seq<string>)
    ensures |lines| > 0
  {
    if s == "" then [""] else Extend(Lines(s[..|s| - 1]), s[|s| - 1])
  }

  /** "\n".join */
  function Join(lines: seq<string>): string
    requires |lines| > 0
  {
    if |lines| == 1 then lines[0] else Join(lines[..|lines| - 1]) + "\n" + lines[|lines| - 1]
  }

  function StripEach(lines: seq<string>): seq<string> {
    seq(|lines|, i requires 0 <= i < |lines| => StripRight(lines[i]))
  }

  /** Trailing whitespace dropped from every line. */
  function Trimmed(s: string): string {
    Join(StripEach(Lines(s)))
  }

  function StripLeftNewlines(s: string): string {
    if s != "" && s[0] == '\n' then StripLeftNewlines(s[1..]) else s
  }

  function StripRightNewlines(s: string): string {
    if s != "" && s[|s| - 1] == '\n' then StripRightNewlines(s[..|s| - 1]) else s
  }

  /** strip("\n") */
  function StripNewlines(s: string): string {
    StripRightNewlines(StripLeftNewlines(s))
  }

  /** What the content hash is computed over. */
  function Normal(body: string): string {
    StripNewlines(Trimmed(Universal(body)))
  }

  function ContentHash(body: string, sha: string -> string): string {
    sha(Normal(body))
  }

  // ----- laws of lines ----------------------------------------------------------------------------------

  lemma LinesGrow(s: string, c: char)
    ensures Lines(s + [c]) == Extend(Lines(s), c)
  {
    assert (s + [c])[..|s|] == s;
  }

  lemma ExtendSplit(a: seq<string>, b: seq<string>, c: char)
    requires |b| > 0
    ensures Extend(a + b, c) == a + Extend(b, c)
  {
  }

  lemma {:induction false} LinesSplit(a: string, b: string)
    ensures Lines(a + "\n" + b) == Lines(a) + Lines(b)
    decreases |b|
  {
    if b == "" {
      assert a + "\n" + b == a + ['\n'];
      LinesGrow(a, '\n');
    } else {
      var init, c := b[..|b| - 1], b[|b| - 1];
      LinesSplit(a, init);
      LinesGrow(a + "\n" + init, c);
      assert (a + "\n" + init) + [c] == a + "\n" + b;
      ExtendSplit(Lines(a), Lines(init), c);
    }
  }

  lemma {:induction false} JoinSplit(a: seq<string>, b: seq<string>)
    requires |a| > 0 && |b| > 0
    ensures Join(a + b) == Join(a) + "\n" + Join(b)
    decreases |b|
  {
    assert (a + b)[..|a + b| - 1] == a + b[..|b| - 1];
    if |b| > 1 {
      JoinSplit(a, b[..|b| - 1]);
    } else {
      assert a + b[..|b| - 1] == a;
    }
  }

  lemma TrimmedSplit(a: string, b: string)
    ensures Trimmed(a + "\n" + b) == Trimmed(a) + "\n" + Trimmed(b)
  {
    LinesSplit(a, b);
    assert StripEach(Lines(a) + Lines(b)) == StripEach(Lines(a)) + StripEach(Lines(b));
    JoinSplit(StripEach(Lines(a)), StripEach(Lines(b)));
  }

  /** A newline behind the text stays, any other whitespace goes. */
  lemma TrimmedGrow(s: string, c: char)
    requires IsSpace(c)
    ensures Trimmed(s + [c]) == if c == '\n' then Trimmed(s) + "\n" else Trimmed(s)
  {
    LinesGrow(s, c);
    var before, after := Lines(s), Lines(s + [c]);
    if c == '\n' {
      assert s + [c] == s + "\n" + "";
      TrimmedSplit(s, "");
      assert Trimmed("") == "";
    } else {
      StripRightGrow(before[|before| - 1], c);
      assert StripEach(after) == StripEach(before);
    }
  }

  lemma StripRightGrow(l: string, c: char)
    requires IsSpace(c)
    ensures StripRight(l + [c]) == StripRight(l)
  {
    assert (l + [c])[..|l|] == l;
  }

  predicate Blank(s: string) {
    forall i :: 0 <= i < |s| ==> IsSpace(s[i])
  }

  predicate Newlines(s: string) {
    forall i :: 0 <= i < |s| ==> s[i] == '\n'
  }

  /** Whitespace behind the text leaves only newlines. */
  lemma {:induction false} TrimmedBlankTail(s: string, tail: string) returns (rest: string)
    requires Blank(tail)
    ensures Trimmed(s + tail) == Trimmed(s) + rest && Newlines(rest)
    decreases |tail|
  {
    if tail == "" {
      rest := "";
      assert s + tail == s;
    } else {
      var init, c := tail[..|tail| - 1], tail[|tail| - 1];
      rest := TrimmedBlankTail(s, init);
      assert (s + init) + [c] == s + tail;
      TrimmedGrow(s + init, c);
      if c == '\n' {
        rest := rest + "\n";
      }
    }
  }

  predicate StartsDark(s: string) {
    s != "" && !IsSpace(s[0])
  }

  predicate EndsDark(s: string) {
    s != "" && !IsSpace(s[|s| - 1])
  }

  /** Indentation: whitespace within one line. */
  predicate IsIndent(s: string) {
    Blank(s) && forall i :: 0 <= i < |s| ==> s[i] != '\n' && s[i] != '\r'
  }

  /** The first line moved in. */
  function Indented(indent: string, lines: seq<string>): seq<string>
    requires |lines| > 0
  {
    lines[0 := indent + lines[0]]
  }

  lemma ExtendIndented(indent: string, lines: seq<string>, c: char)
    requires |lines| > 0
    ensures Extend(Indented(indent, lines), c) == Indented(indent, Extend(lines, c))
  {
    assert indent + (lines[0] + [c]) == indent + lines[0] + [c];
  }

  lemma {:induction false} LinesOfIndented(indent: string, s: string)
    requires IsIndent(indent)
    ensures Lines(indent + s) == Indented(indent, Lines(s))
    decreases |s|
  {
    if s == "" {
      OneLine(indent);
      assert indent + s == indent;
    } else {
      var init, c := s[..|s| - 1], s[|s| - 1];
      LinesOfIndented(indent, init);
      LinesGrow(indent + init, c);
      assert (indent + init) + [c] == indent + s;
      ExtendIndented(indent, Lines(init), c);
    }
  }

  lemma {:induction false} FirstLineStarts(s: string)
    requires StartsDark(s)
    ensures Lines(s)[0] != "" && Lines(s)[0][0] == s[0]
  {
    if |s| > 1 {
      FirstLineStarts(s[..|s| - 1]);
    } else {
      assert s[..0] == "";
    }
  }

  lemma {:induction false} OneLine(s: string)
    requires forall i :: 0 <= i < |s| ==> s[i] != '\n'
    ensures Lines(s) == [s]
  {
    if s != "" {
      OneLine(s[..|s| - 1]);
      LinesGrow(s[..|s| - 1], s[|s| - 1]);
      assert s[..|s| - 1] + [s[|s| - 1]] == s;
    }
  }

  lemma {:induction false} StripRightIndented(indent: string, l: string)
    requires StartsDark(l)
    ensures StripRight(indent + l) == indent + StripRight(l)
    ensures StartsDark(StripRight(l)) && StripRight(l)[0] == l[0]
    decreases |l|
  {
    var n := |indent + l|;
    assert (indent + l)[..n - 1] == indent + l[..|l| - 1];
    if IsSpace(l[|l| - 1]) {
      StripRightIndented(indent, l[..|l| - 1]);
    }
  }

  lemma {:induction false} JoinIndented(indent: string, lines: seq<string>)
    requires |lines| > 0
    ensures Join(Indented(indent, lines)) == indent + Join(lines)
    ensures lines[0] != "" ==> Join(lines) != "" && Join(lines)[0] == lines[0][0]
    decreases |lines|
  {
    if |lines| > 1 {
      var init := lines[..|lines| - 1];
      JoinIndented(indent, init);
      assert Indented(indent, lines)[..|lines| - 1] == Indented(indent, init);
    }
  }

  /** Indentation in front of the text stays. */
  lemma TrimmedIndented(indent: string, s: string)
    requires IsIndent(indent) && StartsDark(s)
    ensures Trimmed(indent + s) == indent + Trimmed(s)
    ensures Trimmed(s) != "" && Trimmed(s)[0] == s[0]
  {
    LinesOfIndented(indent, s);
    FirstLineStarts(s);
    StripRightIndented(indent, Lines(s)[0]);
    assert StripEach(Indented(indent, Lines(s))) == Indented(indent, StripEach(Lines(s)));
    JoinIndented(indent, StripEach(Lines(s)));
  }

  /** A last character that is no whitespace stays last. */
  lemma TrimmedEndsDark(s: string)
    requires EndsDark(s)
    ensures EndsDark(Trimmed(s))
  {
    var init, c := s[..|s| - 1], s[|s| - 1];
    assert init + [c] == s;
    LinesGrow(init, c);
    var lines := StripEach(Lines(s));
    var last := Lines(s)[|lines| - 1];
    assert last[|last| - 1] == c && lines[|lines| - 1] == last;
  }

  lemma {:induction false} StripNewlinesAround(before: string, s: string, after: string)
    requires Newlines(before) && Newlines(after)
    requires s != "" ==> s[0] != '\n' && s[|s| - 1] != '\n'
    ensures StripNewlines(before + s + after) == s
    decreases |before| + |after|
  {
    var all := before + s + after;
    if before != "" {
      assert all[1..] == before[1..] + s + after;
      StripNewlinesAround(before[1..], s, after);
    } else if after != "" {
      if s == "" {
        assert all[1..] == before + s + after[1..];
        StripNewlinesAround(before, s, after[1..]);
      } else {
        assert all[..|all| - 1] == before + s + after[..|after| - 1];
        StripNewlinesAround(before, s, after[..|after| - 1]);
        assert StripLeftNewlines(all) == all;
      }
    } else {
      assert all == s;
    }
  }

  // ----- the parts of a body ---------------------------------------------------------------------------

  /** The leading whitespace up to and including the last line end in it. */
  predicate IsGap(s: string) {
    Blank(s) && (s != "" ==> s[|s| - 1] == '\n' || s[|s| - 1] == '\r')
  }

  /** The whitespace between the last line end and the first other character; "" for a blank text. */
  function Indent(s: string, run: string): string {
    if s == "" then ""
    else if s[0] == '\n' || s[0] == '\r' then Indent(s[1..], "")
    else if IsSpace(s[0]) then Indent(s[1..], run + [s[0]])
    else run
  }

  predicate FirstLineIndented(body: string) {
    Indent(body, "") != ""
  }

  /** gap, indentation, core, trailing whitespace: every body with content has these parts. */
  predicate HasParts(body: string, gap: string, indent: string, core: string, tail: string) {
    && body == gap + indent + core + tail
    && IsGap(gap) && IsIndent(indent) && StartsDark(core) && EndsDark(core) && Blank(tail)
  }

  lemma {:induction false} StripLeftRemoves(s: string) returns (lead: string)
    ensures s == lead + StripLeft(s) && Blank(lead)
    ensures StripLeft(s) == "" || StartsDark(StripLeft(s))
  {
    lead := "";
    if s != "" && IsSpace(s[0]) {
      lead := StripLeftRemoves(s[1..]);
      lead := [s[0]] + lead;
    }
  }

  lemma {:induction false} StripRightRemoves(s: string) returns (tail: string)
    ensures s == StripRight(s) + tail && Blank(tail)
    ensures StripRight(s) == "" || EndsDark(StripRight(s))
  {
    tail := "";
    if s != "" && IsSpace(s[|s| - 1]) {
      tail := StripRightRemoves(s[..|s| - 1]);
      tail := tail + [s[|s| - 1]];
    }
  }

  lemma StripIsBlankOrCore(s: string) returns (lead: string, tail: string)
    ensures s == lead + Strip(s) + tail && Blank(lead) && Blank(tail)
    ensures Strip(s) == "" ==> tail == ""
    ensures Strip(s) != "" ==> StartsDark(Strip(s)) && EndsDark(Strip(s))
  {
    lead := StripLeftRemoves(s);
    var t := StripLeft(s);
    tail := StripRightRemoves(t);
    assert t != "" && Strip(s) == "" ==> t == tail;
    assert Strip(s) != "" ==> t[0] == Strip(s)[0];
  }

  /** The length of the gap in leading whitespace. */
  function GapEnd(lead: string): (n: nat)
    ensures n <= |lead|
  {
    if lead == "" then 0
    else if GapEnd(lead[1..]) > 0 then 1 + GapEnd(lead[1..])
    else if lead[0] == '\n' || lead[0] == '\r' then 1
    else 0
  }

  lemma {:induction false} GapEndSplits(lead: string)
    requires Blank(lead)
    ensures IsGap(lead[..GapEnd(lead)]) && IsIndent(lead[GapEnd(lead)..])
  {
    if lead != "" {
      var rest := lead[1..];
      GapEndSplits(rest);
      assert lead == [lead[0]] + rest;
    }
  }

  /** The indentation that a run and more leading whitespace make. */
  function IndentPart(lead: string, run: string): string {
    if GapEnd(lead) == 0 then run + lead else lead[GapEnd(lead)..]
  }

  function NextRun(c: char, run: string): string {
    if c == '\n' || c == '\r' then "" else run + [c]
  }

  lemma IndentPartStep(lead: string, run: string)
    requires lead != ""
    ensures IndentPart(lead, run) == IndentPart(lead[1..], NextRun(lead[0], run))
  {
    var rest := lead[1..];
    assert lead == [lead[0]] + rest;
    if GapEnd(rest) > 0 {
      assert rest[GapEnd(rest)..] == lead[1 + GapEnd(rest)..];
    }
  }

  lemma {:induction false} IndentIs(lead: string, core: string, run: string)
    requires Blank(lead) && StartsDark(core)
    ensures Indent(lead + core, run) == IndentPart(lead, run)
    decreases |lead|
  {
    if lead == "" {
      assert lead + core == core && run + "" == run;
    } else {
      assert (lead + core)[1..] == lead[1..] + core;
      IndentIs(lead[1..], core, NextRun(lead[0], run));
      IndentPartStep(lead, run);
    }
  }

  lemma Parts(body: string) returns (gap: string, indent: string, tail: string)
    requires Strip(body) != ""
    ensures HasParts(body, gap, indent, Strip(body), tail) && indent == Indent(body, "")
  {
    var lead: string;
    lead, tail := StripIsBlankOrCore(body);
    gap, indent := lead[..GapEnd(lead)], lead[GapEnd(lead)..];
    GapEndSplits(lead);
    IndentIs(lead, Strip(body), "");
    assert lead == gap + indent && "" + lead == lead;
    IndentIgnoresTail(lead, Strip(body), tail, "");
  }

  lemma {:induction false} IndentIgnoresTail(lead: string, core: string, tail: string, run: string)
    requires Blank(lead) && StartsDark(core)
    ensures Indent(lead + core + tail, run) == Indent(lead + core, run)
    decreases |lead|
  {
    if lead != "" {
      assert (lead + core + tail)[1..] == lead[1..] + core + tail;
      assert (lead + core)[1..] == lead[1..] + core;
      IndentIgnoresTail(lead[1..], core, tail, NextRun(lead[0], run));
    } else {
      assert lead + core + tail == core + tail && lead + core == core;
    }
  }

  // ----- line ends within the parts ------------------------------------------------------------------------

  /** Replacing line ends goes part by part unless a cut runs through "\r\n". */
  lemma {:induction false} CrlfSplit(a: string, b: string)
    requires a == "" || b == "" || a[|a| - 1] != '\r' || b[0] != '\n'
    ensures Crlf(a + b) == Crlf(a) + Crlf(b)
    decreases |a|
  {
    if a == "" {
      assert a + b == b;
    } else if a[0] == '\r' && |a| > 1 && a[1] == '\n' {
      assert (a + b)[2..] == a[2..] + b;
      CrlfSplit(a[2..], b);
      assert "\n" + (Crlf(a[2..]) + Crlf(b)) == ("\n" + Crlf(a[2..])) + Crlf(b);
    } else {
      assert (a + b)[1..] == a[1..] + b;
      CrlfSplit(a[1..], b);
      assert [a[0]] + (Crlf(a[1..]) + Crlf(b)) == ([a[0]] + Crlf(a[1..])) + Crlf(b);
    }
  }

  lemma UniversalSplit(a: string, b: string)
    requires a == "" || b == "" || a[|a| - 1] != '\r' || b[0] != '\n'
    ensures Universal(a + b) == Universal(a) + Universal(b)
  {
    CrlfSplit(a, b);
  }

  lemma {:induction false} CrlfBlank(s: string)
    requires Blank(s)
    ensures Blank(Crlf(s))
  {
    if s != "" {
      CrlfBlank(if s[0] == '\r' && |s| > 1 && s[1] == '\n' then s[2..] else s[1..]);
    }
  }

  lemma {:induction false} CrlfLast(s: string)
    requires s != ""
    ensures Crlf(s) != "" && Crlf(s)[|Crlf(s)| - 1] == s[|s| - 1]
  {
    if s[0] == '\r' && |s| > 1 && s[1] == '\n' {
      if |s| > 2 {
        CrlfLast(s[2..]);
      }
    } else if |s| > 1 {
      CrlfLast(s[1..]);
    }
  }

  lemma {:induction false} CrlfOfNoCr(s: string)
    requires NoCr(s)
    ensures Crlf(s) == s
  {
    if s != "" {
      CrlfOfNoCr(s[1..]);
    }
  }

  lemma UniversalShape(s: string)
    ensures NoCr(Universal(s))
    ensures Blank(s) ==> Blank(Universal(s))
    ensures StartsDark(s) ==> StartsDark(Universal(s)) && Universal(s)[0] == s[0]
    ensures EndsDark(s) ==> EndsDark(Universal(s))
    ensures NoCr(s) ==> Universal(s) == s
  {
    if Blank(s) {
      CrlfBlank(s);
    }
    if s != "" {
      CrlfLast(s);
    }
    if NoCr(s) {
      CrlfOfNoCr(s);
    }
  }

  lemma GapBecomesLines(gap: string)
    requires IsGap(gap)
    ensures Blank(Universal(gap)) && (gap != "" ==> EndsWithNewline(Universal(gap)))
  {
    UniversalShape(gap);
    if gap != "" {
      CrlfLast(gap);
    }
  }

  predicate EndsWithNewline(s: string) {
    s != "" && s[|s| - 1] == '\n'
  }

  /** The parts of the body, line ends replaced. */
  lemma UniversalParts(body: string, gap: string, indent: string, core: string, tail: string)
    requires HasParts(body, gap, indent, core, tail)
    ensures Universal(body) == Universal(gap) + indent + Universal(core) + Universal(tail)
  {
    UniversalShape(indent);
    UniversalSplit(gap + indent + core, tail);
    UniversalSplit(gap + indent, core);
    UniversalSplit(gap, indent);
  }

  // ----- the normal form ------------------------------------------------------------------------------------

  /** Leading blank lines leave only newlines. */
  lemma TrimmedGap(gap: string, s: string) returns (before: string)
    requires Blank(gap) && (gap != "" ==> EndsWithNewline(gap))
    ensures Trimmed(gap + s) == before + Trimmed(s) && Newlines(before)
  {
    if gap == "" {
      before := "";
      assert gap + s == s;
    } else {
      var init := gap[..|gap| - 1];
      assert gap + s == init + "\n" + s;
      TrimmedSplit(init, s);
      before := TrimmedBlankTail("", init);
      assert "" + init == init && Trimmed("") == "";
      before := before + "\n";
    }
  }

  /** The normal form is the indentation of the first line and the core with trimmed lines. */
  lemma NormalForm(body: string)
    ensures Strip(body) == "" ==> Normal(body) == ""
    ensures Strip(body) != "" ==> Normal(body) == Indent(body, "") + Trimmed(Universal(Strip(body)))
  {
    if Strip(body) == "" {
      NormalOfBlank(body);
    } else {
      var gap, indent, tail := Parts(body);
      NormalOfParts(body, gap, indent, Strip(body), tail);
    }
  }

  lemma NormalOfBlank(body: string)
    requires Strip(body) == ""
    ensures Normal(body) == ""
  {
    var lead, tail := StripIsBlankOrCore(body);
    assert body == lead;
    UniversalShape(body);
    var u := Universal(body);
    var rest := TrimmedBlankTail("", u);
    assert "" + u == u && Trimmed("") == "" && "" + rest == rest;
    StripNewlinesAround(rest, "", "");
    assert rest + "" + "" == rest;
  }

  lemma NormalOfParts(body: string, gap: string, indent: string, core: string, tail: string)
    requires HasParts(body, gap, indent, core, tail)
    ensures Normal(body) == indent + Trimmed(Universal(core))
  {
    UniversalParts(body, gap, indent, core, tail);
    GapBecomesLines(gap);
    UniversalShape(core);
    UniversalShape(tail);
    NormalOfUniversal(Universal(gap), indent, Universal(core), Universal(tail));
  }

  lemma NormalOfUniversal(gap: string, indent: string, core: string, tail: string)
    requires Blank(gap) && (gap != "" ==> EndsWithNewline(gap)) && Blank(tail)
    requires IsIndent(indent) && StartsDark(core) && EndsDark(core)
    ensures StripNewlines(Trimmed(gap + indent + core + tail)) == indent + Trimmed(core)
  {
    TrimmedIndented(indent, core);
    TrimmedEndsDark(core);
    var before := TrimmedGap(gap, indent + core);
    var front, middle := gap + (indent + core), indent + Trimmed(core);
    var after := TrimmedBlankTail(front, tail);
    assert gap + indent + core + tail == front + tail;
    assert Trimmed(front + tail) == before + middle + after;
    StripNewlinesAround(before, middle, after);
  }

  /** What a body becomes by being written to the vault and read again. */
  function ReadBack(body: string): string {
    Universal(Strip(body))
  }

  lemma ReadBackShape(body: string)
    ensures NoCr(ReadBack(body)) && Strip(ReadBack(body)) == ReadBack(body)
    ensures ReadBack(body) == "" <==> Strip(body) == ""
    ensures Indent(ReadBack(body), "") == ""
  {
    var lead, tail := StripIsBlankOrCore(body);
    UniversalShape(Strip(body));
  }

  /** The normal form after write and read is the old one without the indentation of the first line with
      content, so the content hash still matches exactly when that line is not indented. */
  lemma NormalSurvivesIff(body: string)
    ensures Normal(body) == Indent(body, "") + Normal(ReadBack(body))
    ensures Normal(ReadBack(body)) == Normal(body) <==> !FirstLineIndented(body)
  {
    NormalForm(body);
    NormalOfReadBack(body);
    if Strip(body) == "" {
      BlankHasNoIndent(body);
    }
  }

  lemma NormalOfReadBack(body: string)
    ensures Normal(ReadBack(body)) == if Strip(body) == "" then "" else Trimmed(Universal(Strip(body)))
  {
    var read := ReadBack(body);
    NormalForm(read);
    ReadBackShape(body);
    UniversalShape(read);
    assert "" + Trimmed(read) == Trimmed(read);
  }

  lemma BlankHasNoIndent(body: string)
    requires Strip(body) == ""
    ensures Indent(body, "") == ""
  {
    var lead, tail := StripIsBlankOrCore(body);
    assert body == lead;
    IndentOfBlank(body, "");
  }

  lemma {:induction false} IndentOfBlank(s: string, run: string)
    requires Blank(s)
    ensures Indent(s, run) == ""
    decreases |s|
  {
    if s != "" {
      IndentOfBlank(s[1..], NextRun(s[0], run));
    }
  }

  /** The content-hash rule of the lint. */
  predicate HashRuleHolds(stored: string, body: string, sha: string -> string) {
    stored == "" || stored == ContentHash(body, sha)
  }

  /** The hash stored by a write matches the body that is read back exactly when the first line with
      content is not indented, for a hash that tells the two normal forms apart. */
  lemma StoredHashMatchesIff(body: string, sha: string -> string)
    requires sha(Normal(body)) != ""
    requires sha(Normal(body)) == sha(Normal(ReadBack(body))) ==> Normal(body) == Normal(ReadBack(body))
    ensures HashRuleHolds(ContentHash(body, sha), ReadBack(body), sha) <==> !FirstLineIndented(body)
  {
    NormalSurvivesIff(body);
  }

  /** A body whose first line is indented fails the rule as soon as it is read back. */
  lemma IndentedBodyDrifts()
    ensures FirstLineIndented(" x") && Normal(ReadBack(" x")) != Normal(" x")
  {
    assert " x"[1..] == "x";
    assert Indent(" x", "") == Indent("x", " ");
    NormalSurvivesIff(" x");
  }

  // ----- normalising twice -------------------------------------------------------------------------------------

  lemma {:induction false} LinesAreWithoutNewlines(s: string, k: nat)
    requires k < |Lines(s)|
    ensures forall i :: 0 <= i < |Lines(s)[k]| ==> Lines(s)[k][i] != '\n' && (NoCr(s) ==> Lines(s)[k][i] != '\r')
  {
    if s != "" {
      var init := s[..|s| - 1];
      if k < |Lines(init)| {
        LinesAreWithoutNewlines(init, k);
      }
    }
  }

  lemma {:induction false} StripRightKeeps(s: string)
    ensures StripRight(s) <= s && StripRight(StripRight(s)) == StripRight(s)
  {
    if s != "" && IsSpace(s[|s| - 1]) {
      StripRightKeeps(s[..|s| - 1]);
    }
  }

  predicate PlainLine(line: string) {
    forall i :: 0 <= i < |line| ==> line[i] != '\n' && line[i] != '\r'
  }

  predicate PlainLines(lines: seq<string>) {
    forall k :: 0 <= k < |lines| ==> PlainLine(lines[k])
  }

  lemma {:induction false} JoinHasNoCr(lines: seq<string>)
    requires |lines| > 0 && PlainLines(lines)
    ensures NoCr(Join(lines))
  {
    assert PlainLine(lines[|lines| - 1]);
    if |lines| > 1 {
      JoinHasNoCr(lines[..|lines| - 1]);
    }
  }

  lemma {:induction false} LinesOfJoin(lines: seq<string>)
    requires |lines| > 0 && PlainLines(lines)
    ensures Lines(Join(lines)) == lines
  {
    var init, last := lines[..|lines| - 1], lines[|lines| - 1];
    assert lines == init + [last];
    assert PlainLine(last);
    OneLine(last);
    if init != [] {
      LinesOfJoin(init);
      LinesOfJoinStep(init, last);
    }
  }

  lemma LinesOfJoinStep(lines: seq<string>, last: string)
    requires |lines| > 0 && Lines(Join(lines)) == lines && Lines(last) == [last]
    ensures Lines(Join(lines) + "\n" + last) == lines + [last]
  {
    LinesSplit(Join(lines), last);
  }

  lemma {:induction false} StripRightDropsSpace(s: string)
    ensures var t := StripRight(s);
            && t <= s && (t == "" || !IsSpace(t[|t| - 1]))
            && forall j :: |t| <= j < |s| ==> IsSpace(s[j])
  {
    if s != "" && IsSpace(s[|s| - 1]) {
      StripRightDropsSpace(s[..|s| - 1]);
    }
  }

  /** Trimming keeps the lines of a text, each up to its last character that is no whitespace. */
  lemma LinesAreTrimmed(s: string, i: nat)
    requires NoCr(s) && i < |Lines(s)|
    ensures |Lines(Trimmed(s))| == |Lines(s)|
    ensures var line, trimmed := Lines(s)[i], Lines(Trimmed(s))[i];
            && trimmed <= line && (trimmed == "" || !IsSpace(trimmed[|trimmed| - 1]))
            && forall j :: |trimmed| <= j < |line| ==> IsSpace(line[j])
  {
    var lines := StripEach(Lines(s));
    forall k | 0 <= k < |lines|
      ensures PlainLine(lines[k])
    {
      LinesAreWithoutNewlines(s, k);
      StripRightKeeps(Lines(s)[k]);
    }
    LinesOfJoin(lines);
    StripRightDropsSpace(Lines(s)[i]);
  }

  lemma TrimmedTwice(s: string)
    requires NoCr(s)
    ensures Trimmed(Trimmed(s)) == Trimmed(s) && NoCr(Trimmed(s))
  {
    var lines := StripEach(Lines(s));
    forall k | 0 <= k < |lines|
      ensures PlainLine(lines[k])
    {
      LinesAreWithoutNewlines(s, k);
      StripRightKeeps(Lines(s)[k]);
    }
    LinesOfJoin(lines);
    JoinHasNoCr(lines);
    forall k | 0 <= k < |lines|
      ensures StripEach(lines)[k] == lines[k]
    {
      StripRightKeeps(Lines(s)[k]);
    }
    assert StripEach(lines) == lines;
  }

  /** Normalising is idempotent. */
  lemma NormalIsIdempotent(body: string)
    ensures Normal(Normal(body)) == Normal(body)
  {
    NormalForm(body);
    if Strip(body) == "" {
      assert Trimmed(Universal("")) == "";
    } else {
      var gap, indent, tail := Parts(body);
      var core := Universal(Strip(body));
      UniversalShape(Strip(body));
      TrimmedTwice(core);
      TrimmedIndented(indent, core);
      TrimmedEndsDark(core);
      var t := Trimmed(core);
      TrimmedIndented(indent, t);
      UniversalShape(indent + t);
      StripNewlinesAround("", indent + t, "");
      assert "" + (indent + t) + "" == indent + t;
    }
  }
}
