/** What the chunks of a document say: which texts they come from, and what their hashes tell apart. */
module ChunkTexts {
  import opened Wrappers
  import opened Texts
  import opened Windows
  import opened Chunking

  // ----- the normal form behind the body hash -----------------------------------------------------

  /** The words of a text: its longest runs without whitespace. */
  function SplitWords(s: string): (words: seq<string>)
    ensures s != "" && !IsSpace(s[0]) ==> words != []
  {
    if s == "" then []
    else if IsSpace(s[0]) then SplitWords(s[1..])
    else if |s| == 1 || IsSpace(s[1]) then [[s[0]]] + SplitWords(s[1..])
    else
      var rest := SplitWords(s[1..]);
      [[s[0]] + rest[0]] + rest[1..]
  }

  /** Words with one space between each and the next. */
  function Spaced(words: seq<string>): string {
    if words == [] then ""
    else if |words| == 1 then words[0]
    else words[0] + " " + Spaced(words[1..])
  }

  predicate IsWord(w: string) {
    w != "" && forall i :: 0 <= i < |w| ==> !IsSpace(w[i])
  }

  lemma {:induction false} SplitGivesWords(s: string)
    ensures forall i :: 0 <= i < |SplitWords(s)| ==> IsWord(SplitWords(s)[i])
    ensures SplitWords(s) == [] <==> forall i :: 0 <= i < |s| ==> IsSpace(s[i])
  {
    if s != "" {
      SplitGivesWords(s[1..]);
      assert forall i :: 0 < i < |s| ==> s[i] == s[1..][i - 1];
    }
  }

  function SpaceIf(b: bool): string {
    if b then " " else ""
  }

  predicate StartsBlank(s: string) {
    s != "" && IsSpace(s[0])
  }

  predicate EndsBlank(s: string) {
    s != "" && IsSpace(s[|s| - 1])
  }

  /** The words of a text with single spaces, and one space for whitespace before and behind them. */
  function Tidy(s: string): string {
    SpaceIf(SplitWords(s) != [] && StartsBlank(s)) + Spaced(SplitWords(s)) + SpaceIf(EndsBlank(s))
  }

  lemma PrependWord(w: string, words: seq<string>)
    ensures Spaced([w] + words) == w + (if words == [] then "" else " " + Spaced(words))
  {
    assert ([w] + words)[1..] == words;
  }

  lemma GrowWord(c: char, w: string, more: seq<string>)
    ensures Spaced([[c] + w] + more) == [c] + Spaced([w] + more)
  {
    PrependWord([c] + w, more);
    PrependWord(w, more);
    var tail := if more == [] then "" else " " + Spaced(more);
    assert ([c] + w) + tail == [c] + (w + tail);
  }

  lemma WordsGrow(s: string)
    requires s != "" && !IsSpace(s[0])
    ensures var words := SplitWords(s[1..]);
            Spaced(SplitWords(s)) == [s[0]] + (SpaceIf(words != [] && StartsBlank(s[1..])) + Spaced(words))
  {
    var words := SplitWords(s[1..]);
    if |s| == 1 {
      PrependWord([s[0]], words);
    } else if IsSpace(s[1]) {
      assert StartsBlank(s[1..]);
      PrependWord([s[0]], words);
    } else {
      assert !StartsBlank(s[1..]);
      GrowWord(s[0], words[0], words[1..]);
      assert [words[0]] + words[1..] == words;
    }
  }

  /** In front of a text, a character that is no whitespace is the first of its first word. */
  lemma TidyCharacter(s: string)
    requires s != "" && !IsSpace(s[0])
    ensures Tidy(s) == [s[0]] + Tidy(s[1..])
  {
    var words := SplitWords(s[1..]);
    WordsGrow(s);
    assert EndsBlank(s) == EndsBlank(s[1..]);
    FrontStays(s[0], SpaceIf(words != [] && StartsBlank(s[1..])), Spaced(words), SpaceIf(EndsBlank(s)));
  }

  lemma FrontStays(c: char, a: string, b: string, t: string)
    ensures "" + ([c] + (a + b)) + t == [c] + (a + b + t)
  {
  }

  /** In front of a text, whitespace makes one space, or none when whitespace follows. */
  lemma TidySpace(s: string)
    requires StartsBlank(s)
    ensures Tidy(s) == if |s| > 1 && IsSpace(s[1]) then Tidy(s[1..]) else " " + Tidy(s[1..])
  {
    var rest := s[1..];
    SplitGivesWords(rest);
    if rest != "" {
      assert rest[|rest| - 1] == s[|s| - 1] && rest[0] == s[1];
    }
  }

  lemma {:induction false} CollapseTidies(s: string)
    ensures Collapse(s) == Tidy(s)
  {
    if s != "" {
      CollapseTidies(s[1..]);
      if IsSpace(s[0]) {
        TidySpace(s);
      } else {
        TidyCharacter(s);
      }
    }
  }

  lemma {:induction false} SpacedEnds(words: seq<string>)
    requires words != [] && forall i :: 0 <= i < |words| ==> IsWord(words[i])
    ensures var t := Spaced(words); t != "" && !IsSpace(t[0]) && !IsSpace(t[|t| - 1])
  {
    if |words| > 1 {
      SpacedEnds(words[1..]);
    }
  }

  lemma StripLeftOfSpace(before: bool, u: string)
    ensures StripLeft(SpaceIf(before) + u) == StripLeft(u)
  {
    if before {
      assert (" " + u)[1..] == u;
    } else {
      assert "" + u == u;
    }
  }

  lemma StripRightOfSpace(t: string, behind: bool)
    ensures StripRight(t + SpaceIf(behind)) == StripRight(t)
  {
    if behind {
      assert (t + " ")[..|t|] == t;
    } else {
      assert t + "" == t;
    }
  }

  lemma StripEnds(t: string, before: bool, behind: bool)
    requires t != "" ==> !IsSpace(t[0]) && !IsSpace(t[|t| - 1])
    ensures Strip(SpaceIf(before) + t + SpaceIf(behind)) == t
  {
    var u := t + SpaceIf(behind);
    assert SpaceIf(before) + t + SpaceIf(behind) == SpaceIf(before) + u;
    StripLeftOfSpace(before, u);
    if t == "" {
      StripLeftOfSpace(behind, "");
      assert u == SpaceIf(behind) + "";
    } else {
      StripRightOfSpace(t, behind);
    }
  }

  /** The normal form is the words with single spaces, so it tells exactly the sequences of words apart: whitespace
      between, before and behind them does not reach the hash. */
  lemma NormalisedIsSpaced(s: string)
    ensures Normalised(s) == Spaced(SplitWords(s))
  {
    var words := SplitWords(s);
    CollapseTidies(s);
    SplitGivesWords(s);
    if words != [] {
      SpacedEnds(words);
    }
    StripEnds(Spaced(words), words != [] && StartsBlank(s), EndsBlank(s));
  }

  lemma {:induction false} SplitOfWord(w: string, rest: string)
    requires IsWord(w) && (rest == "" || IsSpace(rest[0]))
    ensures SplitWords(w + rest) == [w] + SplitWords(rest)
  {
    var s := w + rest;
    assert s[1..] == w[1..] + rest;
    if |w| == 1 {
      assert w == [s[0]] && s[1..] == rest;
    } else {
      SplitOfWord(w[1..], rest);
      assert !IsSpace(s[1]);
      assert [s[0]] + w[1..] == w;
    }
  }

  lemma {:induction false} SplitOfSpaced(words: seq<string>)
    requires forall i :: 0 <= i < |words| ==> IsWord(words[i])
    ensures SplitWords(Spaced(words)) == words
  {
    if |words| == 1 {
      SplitOfWord(words[0], "");
      assert words[0] + "" == words[0];
    } else if |words| > 1 {
      var rest := " " + Spaced(words[1..]);
      SplitOfSpaced(words[1..]);
      SplitOfWord(words[0], rest);
      assert Spaced(words) == words[0] + rest && rest[1..] == Spaced(words[1..]);
    }
  }

  /** Two texts have the same normal form if and only if they have the same words in the same order. */
  lemma SameNormalIffSameWords(a: string, b: string)
    ensures Normalised(a) == Normalised(b) <==> SplitWords(a) == SplitWords(b)
  {
    NormalisedIsSpaced(a);
    NormalisedIsSpaced(b);
    SplitGivesWords(a);
    SplitGivesWords(b);
    SplitOfSpaced(SplitWords(a));
    SplitOfSpaced(SplitWords(b));
  }

  // ----- where chunks come from ---------------------------------------------------------------------

  /** The text that one span of a body covers. */
  predicate Covers(body: string, spans: seq<Span>, m: nat, text: string) {
    m < |spans| && spans[m].start <= spans[m].end <= |body| && text == body[spans[m].start..spans[m].end]
  }

  /** A text of the section: what one window of its stripped body covers. A body that fits has one window. */
  ghost predicate IsTextOf(section: Section, target: nat, overlap: nat, text: string) {
    var body := Strip(section.body);
    exists spans: seq<Span>, m: nat :: Windowing(body, 0, target, overlap, spans) && Covers(body, spans, m, text)
  }

  lemma FittingBodyIsOneWindow(body: string, target: nat, overlap: nat)
    requires target >= 1 && 0 < |body| <= target
    ensures WindowTexts(body, 0, target, overlap) == [body]
  {
    assert body[0..] == body;
  }

  /** The section's texts are exactly those. */
  lemma SectionTextsAre(section: Section, target: nat, overlap: nat, text: string)
    requires target >= 1
    ensures text in SectionTexts(section, target, overlap) <==> IsTextOf(section, target, overlap, text)
  {
    var body := Strip(section.body);
    var spans := Spans(body, 0, target, overlap);
    if body != "" && |body| <= target {
      FittingBodyIsOneWindow(body, target, overlap);
    }
    assert SectionTexts(section, target, overlap) == WindowTexts(body, 0, target, overlap);
    TextsAreSlices(body, 0, target, overlap);
    SpansAreWindowing(body, 0, target, overlap);
    if text in WindowTexts(body, 0, target, overlap) {
      var m :| 0 <= m < |spans| && WindowTexts(body, 0, target, overlap)[m] == text;
      assert Covers(body, spans, m, text);
    }
    if IsTextOf(section, target, overlap, text) {
      var other: seq<Span>, m: nat :| Windowing(body, 0, target, overlap, other) && Covers(body, other, m, text);
      WindowsAreDetermined(body, 0, target, overlap, other);
      assert WindowTexts(body, 0, target, overlap)[m] == Slice(body, spans[m]);
    }
  }

  lemma {:induction false} PieceHasText(heading: string, texts: seq<string>, p: Piece)
    requires p in Pieces(heading, texts)
    ensures p.heading == heading && p.text != "" && exists m :: 0 <= m < |texts| && p.text == Strip(texts[m])
  {
    var init := texts[..|texts| - 1];
    if p in Pieces(heading, init) {
      PieceHasText(heading, init, p);
      var m :| 0 <= m < |init| && p.text == Strip(init[m]);
      assert texts[m] == init[m];
    }
  }

  lemma {:induction false} PieceHasSection(sections: seq<Section>, target: nat, overlap: nat, p: Piece)
    returns (j: nat, text: string)
    requires target >= 1 && p in AllPieces(sections, target, overlap)
    ensures j < |sections| && IsTextOf(sections[j], target, overlap, text)
    ensures p == Piece(sections[j].heading, Strip(text)) && p.text != ""
  {
    var n := |sections| - 1;
    var texts := SectionTexts(sections[n], target, overlap);
    if p in Pieces(sections[n].heading, texts) {
      PieceHasText(sections[n].heading, texts, p);
      var m :| 0 <= m < |texts| && p.text == Strip(texts[m]);
      j, text := n, texts[m];
      SectionTextsAre(sections[n], target, overlap, text);
    } else {
      j, text := PieceHasSection(sections[..n], target, overlap, p);
    }
  }

  /** Every chunk is the stripped text of a window of some section, under that section's heading, with the hash of
      its normal form, an estimate of a token for four characters, and its place in the order. */
  lemma ChunkComesFromWindow<D>(sections: seq<Section>, targetTokens: int, overlapTokens: int, sha: string -> D, i: nat)
    returns (j: nat, text: string)
    requires i < |ChunksFor(sections, targetTokens, overlapTokens, sha)|
    ensures j < |sections|
    ensures IsTextOf(sections[j], AtLeast(1, targetTokens * 4), AtLeast(0, overlapTokens * 4), text)
    ensures var c := ChunksFor(sections, targetTokens, overlapTokens, sha)[i];
            && c.position == i && c.body == Strip(text) != "" && c.bodyHash == sha(Normalised(c.body))
            && c.parentSection == (if sections[j].heading == "" then None else Some(sections[j].heading))
            && c.tokenCount == AtLeast(1, |c.body| / 4)
  {
    var target, overlap := AtLeast(1, targetTokens * 4), AtLeast(0, overlapTokens * 4);
    var pieces := AllPieces(sections, target, overlap);
    ChunksAreFirstOccurrences(pieces, sha, i);
    var k :| IsFirst(pieces, k, sha) && Stored(pieces, sha)[i] == ChunkOf(pieces[k], i, sha);
    j, text := PieceHasSection(sections, target, overlap, pieces[k]);
  }

  /** Every window of a section that is not blank is told by a chunk: one with the same words. */
  lemma WindowHasChunk<D>(sections: seq<Section>, targetTokens: int, overlapTokens: int, sha: string -> D, j: nat,
                          text: string)
    returns (i: nat)
    requires j < |sections| && Strip(text) != ""
    requires IsTextOf(sections[j], AtLeast(1, targetTokens * 4), AtLeast(0, overlapTokens * 4), text)
    ensures i < |ChunksFor(sections, targetTokens, overlapTokens, sha)|
    ensures ChunksFor(sections, targetTokens, overlapTokens, sha)[i].bodyHash == sha(Normalised(Strip(text)))
  {
    var target, overlap := AtLeast(1, targetTokens * 4), AtLeast(0, overlapTokens * 4);
    SectionTextsAre(sections[j], target, overlap, text);
    var texts := SectionTexts(sections[j], target, overlap);
    var m :| 0 <= m < |texts| && texts[m] == text;
    EveryWindowIsStored(sections, target, overlap, sha, j, m);
    var chunks := ChunksFor(sections, targetTokens, overlapTokens, sha);
    var c :| c in chunks && c.bodyHash == sha(Normalised(Strip(text)));
    i :| 0 <= i < |chunks| && chunks[i] == c;
  }
}
