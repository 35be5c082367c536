/** Splitting a text into overlapping windows: the loop, and what it guarantees about where windows
    start and end. */
module Windows {

  /** str.rfind(c, lo, hi) for one character: the last position in [lo, hi), or -1. */
  function RFind(text: string, c: char, lo: nat, hi: nat): (i: int)
    requires hi <= |text|
    ensures i == -1 || (lo <= i < hi && text[i] == c)
    decreases hi
  {
    if hi <= lo then -1
    else if text[hi - 1] == c then hi - 1
    else RFind(text, c, lo, hi - 1)
  }

  /** Nothing after the position found is the character: it is the last one in the range. */
  lemma {:induction false} RFindIsLast(text: string, c: char, lo: nat, hi: nat, j: nat)
    requires lo <= j < hi <= |text| && text[j] == c
    ensures RFind(text, c, lo, hi) >= j
    decreases hi
  {
    if text[hi - 1] != c {
      RFindIsLast(text, c, lo, hi - 1, j);
    }
  }

  /** Where a window that does not reach the end of the text is cut: after the last space, else before
      the last newline, else hard at its full length. */
  function Boundary(text: string, start: nat, end: nat): (b: nat)
    requires start < end < |text|
    ensures start < b <= end
  {
    var space := RFind(text, ' ', start + 1, end);
    if space > start then space
    else
      var newline := RFind(text, '\n', start + 1, end);
      if newline > start then newline else end
  }

  function NextStart(start: nat, boundary: nat, overlap: nat): (n: nat)
    requires start < boundary
    ensures start < n <= boundary
  {
    if boundary - overlap > start then boundary - overlap else boundary
  }

  datatype Span = Span(start: nat, end: nat)

  /** The windows from a start on, as positions in the text. */
  function Spans(text: string, start: nat, target: nat, overlap: nat): seq<Span>
    requires target >= 1
    decreases |text| - start
  {
    if start >= |text| then []
    else if start + target >= |text| then [Span(start, |text|)]
    else
      var b := Boundary(text, start, start + target);
      [Span(start, b)] + Spans(text, NextStart(start, b, overlap), target, overlap)
  }

  function Slice(text: string, s: Span): string
    requires s.start <= s.end <= |text|
  {
    text[s.start..s.end]
  }

  /** The windows' texts. */
  function WindowTexts(text: string, start: nat, target: nat, overlap: nat): seq<string>
    requires target >= 1
    decreases |text| - start
  {
    if start >= |text| then []
    else if start + target >= |text| then [text[start..]]
    else
      var b := Boundary(text, start, start + target);
      [text[start..b]] + WindowTexts(text, NextStart(start, b, overlap), target, overlap)
  }

  method CutAt(text: string, start: nat, end: nat) returns (boundary: nat)
    requires start < end < |text|
    ensures boundary == Boundary(text, start, end)
  {
    var found := RFind(text, ' ', start + 1, end);
    if found <= start {
      found := RFind(text, '\n', start + 1, end);
    }
    if found <= start {
      found := end;
    }
    boundary := found;
  }

  /** The loop over the text. */
  method SlidingWindows(text: string, target: nat, overlap: nat) returns (windows: seq<string>)
    requires target >= 1
    ensures windows == WindowTexts(text, 0, target, overlap)
  {
    windows := [];
    ghost var all := WindowTexts(text, 0, target, overlap);
    var start := 0;
    while start < |text|
      invariant windows + WindowTexts(text, start, target, overlap) == all
      decreases |text| - start
    {
      var end := start + target;
      if end >= |text| {
        windows := windows + [text[start..]];
        return;
      }
      var boundary := CutAt(text, start, end);
      var next := boundary - overlap;
      next := if next > start then next else boundary;
      assert next == NextStart(start, Boundary(text, start, start + target), overlap);
      ghost var before, rest := windows, WindowTexts(text, next, target, overlap);
      windows := windows + [text[start..boundary]];
      assert windows + rest == all;
      start := next;
    }
    assert windows + [] == windows;
  }

  /** The windows are the texts of the spans. */
  ghost predicate Slices(text: string, windows: seq<string>, spans: seq<Span>) {
    && |windows| == |spans|
    && forall i :: 0 <= i < |spans| ==>
         spans[i].start <= spans[i].end <= |text| && windows[i] == Slice(text, spans[i])
  }

  lemma {:induction false} TextsAreSlices(text: string, start: nat, target: nat, overlap: nat)
    requires target >= 1
    ensures Slices(text, WindowTexts(text, start, target, overlap), Spans(text, start, target, overlap))
    decreases |text| - start
  {
    if start < |text| && start + target < |text| {
      TextsAreSlices(text, NextStart(start, Boundary(text, start, start + target), overlap), target, overlap);
    }
  }

  // ----- what the spans guarantee ----------------------------------------------------------------

  /** Two consecutive windows: the next starts the overlap before the previous end, or at it where the overlap
      would not take it past the previous start; it starts strictly later and ends no earlier. */
  ghost predicate Follows(a: Span, b: Span, overlap: nat) {
    && a.start < b.start <= a.end <= b.end
    && b.start == (if a.end - overlap > a.start then a.end - overlap else a.end)
    && (b.start == a.end ==> a.end < b.end)
  }

  /** The character stands strictly between two positions. */
  predicate Stands(text: string, c: char, after: nat, before: nat)
    requires before <= |text|
  {
    exists j :: after < j < before && text[j] == c
  }

  /** The position is the last one of the character strictly between two positions. */
  predicate IsLastBetween(text: string, c: char, after: nat, at: nat, before: nat)
    requires before <= |text|
  {
    && after < at < before && text[at] == c
    && forall j :: at < j < before ==> text[j] != c
  }

  /** Where a window that may reach up to the limit ends: at the last space on the way; without a space, at the
      last newline; without either, at the limit. */
  predicate WellCut(text: string, s: Span, limit: nat)
    requires limit <= |text|
  {
    if Stands(text, ' ', s.start, limit) then IsLastBetween(text, ' ', s.start, s.end, limit)
    else if Stands(text, '\n', s.start, limit) then IsLastBetween(text, '\n', s.start, s.end, limit)
    else s.end == limit
  }

  lemma FoundIsLast(text: string, c: char, start: nat, limit: nat)
    requires start < limit <= |text|
    ensures var i := RFind(text, c, start + 1, limit);
            if Stands(text, c, start, limit) then i >= 0 && IsLastBetween(text, c, start, i, limit) else i == -1
  {
    forall j | start < j < limit && text[j] == c
      ensures RFind(text, c, start + 1, limit) >= j
    {
      RFindIsLast(text, c, start + 1, limit, j);
    }
  }

  /** Every window but the last ends where the rule says, and could not have reached the end of the text. */
  lemma {:induction false} SpansAreWellCut(text: string, start: nat, target: nat, overlap: nat, i: nat)
    requires target >= 1
    requires i + 1 < |Spans(text, start, target, overlap)|
    ensures var s := Spans(text, start, target, overlap)[i];
            s.start + target < |text| && WellCut(text, s, s.start + target)
    decreases i
  {
    var b := Boundary(text, start, start + target);
    if i > 0 {
      SpansAreWellCut(text, NextStart(start, b, overlap), target, overlap, i - 1);
    } else {
      FoundIsLast(text, ' ', start, start + target);
      FoundIsLast(text, '\n', start, start + target);
    }
  }

  /** One window and the next. */
  ghost predicate StepsTo(text: string, a: Span, b: Span, target: nat, overlap: nat) {
    && a.start + target < |text| && WellCut(text, a, a.start + target)
    && Follows(a, b, overlap)
  }

  predicate EndsText(text: string, s: Span, target: nat) {
    s.start + target >= |text| && s.end == |text|
  }

  /** The rules for the windows of a text from a start on. */
  ghost predicate Windowing(text: string, start: nat, target: nat, overlap: nat, spans: seq<Span>) {
    if start >= |text| then spans == []
    else
      && spans != [] && spans[0].start == start && EndsText(text, spans[|spans| - 1], target)
      && forall i :: 0 <= i < |spans| - 1 ==> StepsTo(text, spans[i], spans[i + 1], target, overlap)
  }

  /** The windows keep the rules. */
  lemma SpansAreWindowing(text: string, start: nat, target: nat, overlap: nat)
    requires target >= 1
    ensures Windowing(text, start, target, overlap, Spans(text, start, target, overlap))
  {
    var spans := Spans(text, start, target, overlap);
    forall i | 0 <= i < |spans| - 1
      ensures StepsTo(text, spans[i], spans[i + 1], target, overlap)
    {
      SpansAreWellCut(text, start, target, overlap, i);
      SpansFollow(text, start, target, overlap, i);
    }
    if start < |text| {
      SpansFit(text, start, target, overlap);
      LastReachesEnd(text, start, target, overlap);
    }
  }

  lemma {:induction false} LastReachesEnd(text: string, start: nat, target: nat, overlap: nat)
    requires target >= 1 && start < |text|
    ensures var spans := Spans(text, start, target, overlap);
            spans != [] && spans[|spans| - 1].start + target >= |text|
    decreases |text| - start
  {
    if start + target < |text| {
      var next := NextStart(start, Boundary(text, start, start + target), overlap);
      LastReachesEnd(text, next, target, overlap);
    }
  }

  lemma RestIsWindowing(text: string, start: nat, target: nat, overlap: nat, spans: seq<Span>)
    requires target >= 1 && Windowing(text, start, target, overlap, spans) && |spans| > 1
    ensures StepsTo(text, spans[0], spans[1], target, overlap)
    ensures Windowing(text, spans[1].start, target, overlap, spans[1..])
  {
    var rest := spans[1..];
    assert StepsTo(text, spans[0], spans[1], target, overlap);
    forall i | 0 <= i < |rest| - 1
      ensures StepsTo(text, rest[i], rest[i + 1], target, overlap)
    {
      assert StepsTo(text, spans[i + 1], spans[i + 2], target, overlap);
    }
  }

  /** The rules leave one choice: whatever keeps them is the windows of the loop. */
  lemma {:induction false} WindowsAreDetermined(text: string, start: nat, target: nat, overlap: nat, spans: seq<Span>)
    requires target >= 1 && Windowing(text, start, target, overlap, spans)
    ensures spans == Spans(text, start, target, overlap)
    decreases |spans|
  {
    if |spans| > 1 {
      RestIsWindowing(text, start, target, overlap, spans);
      WindowsAreDetermined(text, spans[1].start, target, overlap, spans[1..]);
      CutIsBoundary(text, spans[0], target);
      assert spans == [spans[0]] + spans[1..];
    } else if |spans| == 1 {
      assert spans == [spans[0]];
    }
  }

  lemma CutIsBoundary(text: string, s: Span, target: nat)
    requires target >= 1 && s.start + target < |text| && WellCut(text, s, s.start + target)
    ensures s.end == Boundary(text, s.start, s.start + target)
  {
    FoundIsLast(text, ' ', s.start, s.start + target);
    FoundIsLast(text, '\n', s.start, s.start + target);
  }

  /** A cut between windows is the last space, or newline, or full length its window allows; a window
      that starts before the cut and reaches further can only cut at or after it. */
  lemma CutsNeverGoBack(text: string, start: nat, later: nat, target: nat)
    requires target >= 1 && start + target < |text| && later + target < |text|
    requires start < later <= Boundary(text, start, start + target)
    ensures var b, b' := Boundary(text, start, start + target), Boundary(text, later, later + target);
            b <= b' && (later == b ==> b < b')
  {
    var end, end' := start + target, later + target;
    var b := Boundary(text, start, end);
    var space, space' := RFind(text, ' ', start + 1, end), RFind(text, ' ', later + 1, end');
    var line, line' := RFind(text, '\n', start + 1, end), RFind(text, '\n', later + 1, end');
    // A space or newline the earlier window cut at is still in reach of the later one.
    if later < b && b == space {
      RFindIsLast(text, ' ', later + 1, end', space);
    }
    if later < b && b == line {
      RFindIsLast(text, '\n', later + 1, end', line);
    }
    // One the later window finds, and the earlier did not take, lies beyond the earlier one.
    if later < space' < end {
      RFindIsLast(text, ' ', start + 1, end, space');
    }
    if later < line' < end {
      RFindIsLast(text, '\n', start + 1, end, line');
    }
  }

  /** Every window is non-empty and at most the target long, and the last one ends the text. */
  lemma {:induction false} SpansFit(text: string, start: nat, target: nat, overlap: nat)
    requires target >= 1 && start < |text|
    ensures var spans := Spans(text, start, target, overlap);
            && |spans| > 0 && spans[0].start == start && spans[|spans| - 1].end == |text|
            && forall i :: 0 <= i < |spans| ==>
                 spans[i].start < spans[i].end <= |text| && spans[i].end - spans[i].start <= target
    decreases |text| - start
  {
    if start + target < |text| {
      var b := Boundary(text, start, start + target);
      var rest := Spans(text, NextStart(start, b, overlap), target, overlap);
      SpansFit(text, NextStart(start, b, overlap), target, overlap);
      assert Spans(text, start, target, overlap) == [Span(start, b)] + rest;
    }
  }

  /** Starts strictly increase, ends never go backwards, and each window overlaps the previous by
      exactly the overlap or abuts it. */
  lemma {:induction false} SpansFollow(text: string, start: nat, target: nat, overlap: nat, i: nat)
    requires target >= 1
    requires i + 1 < |Spans(text, start, target, overlap)|
    ensures var spans := Spans(text, start, target, overlap); Follows(spans[i], spans[i + 1], overlap)
    decreases i
  {
    var b := Boundary(text, start, start + target);
    var next := NextStart(start, b, overlap);
    var rest := Spans(text, next, target, overlap);
    if i > 0 {
      SpansFollow(text, next, target, overlap, i - 1);
    } else if next + target < |text| {
      CutsNeverGoBack(text, start, next, target);
    }
  }

  /** At most two consecutive windows share an end. */
  lemma {:induction false} SharedEndsComeInPairs(text: string, start: nat, target: nat, overlap: nat, i: nat)
    requires target >= 1
    requires i + 2 < |Spans(text, start, target, overlap)|
    ensures var spans := Spans(text, start, target, overlap); spans[i].end < spans[i + 2].end
    decreases i
  {
    SpansFollow(text, start, target, overlap, i);
    SpansFollow(text, start, target, overlap, i + 1);
    var spans := Spans(text, start, target, overlap);
    if spans[i].end == spans[i + 1].end {
      SecondStartsAtEnd(text, start, target, overlap, i);
    }
  }

  /** When a window ends where the one before it ended, the window after it starts there. */
  lemma {:induction false} SecondStartsAtEnd(text: string, start: nat, target: nat, overlap: nat, i: nat)
    requires target >= 1
    requires i + 2 < |Spans(text, start, target, overlap)|
    requires var spans := Spans(text, start, target, overlap); spans[i].end == spans[i + 1].end
    ensures var spans := Spans(text, start, target, overlap); spans[i + 2].start == spans[i + 1].end
    decreases i
  {
    var b := Boundary(text, start, start + target);
    var next := NextStart(start, b, overlap);
    if i > 0 {
      SecondStartsAtEnd(text, next, target, overlap, i - 1);
    } else {
      SpansFollow(text, start, target, overlap, 0);
    }
  }

  ghost predicate Chained(spans: seq<Span>) {
    forall i :: 0 <= i < |spans| - 1 ==> spans[i + 1].start <= spans[i].end <= spans[i + 1].end
  }

  /** The windows joined up, each without the part that reaches back before the end of the previous:
      covered is how far the text is already put together. */
  function Rejoined(windows: seq<string>, spans: seq<Span>, covered: nat): string
    requires |windows| == |spans|
    requires forall i :: 0 <= i < |spans| ==> |windows[i]| == spans[i].end - spans[i].start
    requires (spans != [] ==> spans[0].start <= covered <= spans[0].end) && Chained(spans)
  {
    if spans == [] then ""
    else windows[0][covered - spans[0].start..] + Rejoined(windows[1..], spans[1..], spans[0].end)
  }

  lemma {:induction false} SpansChained(text: string, start: nat, target: nat, overlap: nat)
    requires target >= 1
    ensures Chained(Spans(text, start, target, overlap))
  {
    var spans := Spans(text, start, target, overlap);
    forall i | 0 <= i < |spans| - 1
      ensures spans[i + 1].start <= spans[i].end <= spans[i + 1].end
    {
      SpansFollow(text, start, target, overlap, i);
    }
  }

  lemma {:induction false} SlicesRejoin(text: string, windows: seq<string>, spans: seq<Span>, covered: nat)
    requires Slices(text, windows, spans) && Chained(spans)
    requires spans != [] && spans[0].start <= covered <= spans[0].end && spans[|spans| - 1].end == |text|
    ensures Rejoined(windows, spans, covered) == text[covered..]
    decreases |spans|
  {
    var a := spans[0];
    if |spans| == 1 {
      assert spans[1..] == [] && windows[1..] == [];
      assert text[a.start..][covered - a.start..] == text[covered..];
    } else {
      SlicesRejoin(text, windows[1..], spans[1..], a.end);
      assert windows[0][covered - a.start..] == text[covered..a.end];
      assert text[covered..a.end] + text[a.end..] == text[covered..];
    }
  }

  /** Nothing is lost: every text is given back whole by its windows, the overlaps dropped. */
  lemma WindowsCoverText(text: string, target: nat, overlap: nat)
    requires target >= 1
    ensures var windows, spans := WindowTexts(text, 0, target, overlap), Spans(text, 0, target, overlap);
            && Slices(text, windows, spans) && Chained(spans)
            && (text != "" ==> spans != [] && spans[0].start == 0)
            && Rejoined(windows, spans, 0) == text
  {
    TextsAreSlices(text, 0, target, overlap);
    SpansChained(text, 0, target, overlap);
    if text != "" {
      SpansFit(text, 0, target, overlap);
      SlicesRejoin(text, WindowTexts(text, 0, target, overlap), Spans(text, 0, target, overlap), 0);
      assert text[0..] == text;
    }
  }
}
