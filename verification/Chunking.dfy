/** Chunks of a source: sections windowed, stripped, and stored once per normalised text. */
module Chunking {
  import opened Wrappers
  import opened Windows
  import opened Texts

  datatype Section = Section(heading: string, body: string)

  datatype Chunk<D> = Chunk(position: nat, parentSection: Option<string>, body: string, bodyHash: D, tokenCount: nat)

  /** re.sub(r"\s+", " ", s): every run of whitespace becomes one space. */
  function Collapse(s: string): string {
    if s == "" then ""
    else if !IsSpace(s[0]) then [s[0]] + Collapse(s[1..])
    else if |s| > 1 && IsSpace(s[1]) then Collapse(s[1..])
    else " " + Collapse(s[1..])
  }

  /** What the body hash is taken of; cosmetic whitespace does not reach it. */
  function Normalised(s: string): string {
    Strip(Collapse(s))
  }

  function Tokens(s: string): nat {
    if |s| / 4 > 1 then |s| / 4 else 1
  }

  /** max(bound, n) */
  function AtLeast(bound: nat, n: int): (m: nat)
    ensures m >= bound && m >= n && (m == bound || m == n)
  {
    if n > bound then n else bound
  }

  // A piece of text waiting to become a chunk, with the heading it stands under.
  datatype Piece = Piece(heading: string, text: string)

  /** A section's pieces: the body itself when it is small enough, otherwise its windows. */
  function SectionTexts(section: Section, target: nat, overlap: nat): seq<string>
    requires target >= 1
  {
    var body := Strip(section.body);
    if body == "" then []
    else if |body| <= target then [body]
    else WindowTexts(body, 0, target, overlap)
  }

  /** Stripped, blank ones dropped. */
  function Pieces(heading: string, texts: seq<string>): seq<Piece> {
    if texts == [] then []
    else
      var text := Strip(texts[|texts| - 1]);
      Pieces(heading, texts[..|texts| - 1]) + if text == "" then [] else [Piece(heading, text)]
  }

  function AllPieces(sections: seq<Section>, target: nat, overlap: nat): seq<Piece>
    requires target >= 1
  {
    if sections == [] then []
    else
      var s := sections[|sections| - 1];
      AllPieces(sections[..|sections| - 1], target, overlap) + Pieces(s.heading, SectionTexts(s, target, overlap))
  }

  function HashOf<D>(p: Piece, sha: string -> D): D {
    sha(Normalised(p.text))
  }

  /** The chunks of a list of pieces: each hash stored at its first occurrence, numbered as stored. */
  function Stored<D(==)>(pieces: seq<Piece>, sha: string -> D): seq<Chunk<D>> {
    if pieces == [] then []
    else
      var p := pieces[|pieces| - 1];
      var earlier := Stored(pieces[..|pieces| - 1], sha);
      if HashOf(p, sha) in Hashes(earlier) then earlier
      else earlier + [ChunkOf(p, |earlier|, sha)]
  }

  function ChunkOf<D>(p: Piece, position: nat, sha: string -> D): Chunk<D> {
    Chunk(position, if p.heading == "" then None else Some(p.heading), p.text, HashOf(p, sha), Tokens(p.text))
  }

  function Hashes<D(==)>(chunks: seq<Chunk<D>>): set<D> {
    set c | c in chunks :: c.bodyHash
  }

  // ----- what the chunks guarantee -----------------------------------------------------------------

  function HashesOf<D(==)>(pieces: seq<Piece>, sha: string -> D): set<D> {
    set p | p in pieces :: HashOf(p, sha)
  }

  lemma HashesOfMore<D>(init: seq<Piece>, p: Piece, sha: string -> D)
    ensures HashesOf(init + [p], sha) == HashesOf(init, sha) + {HashOf(p, sha)}
  {
    var all := init + [p];
    forall q | q in init
      ensures q in all
    {
    }
    assert all[|init|] == p && p in all;
  }

  /** Every piece is represented: its normalised hash is some chunk's, and no chunk has any other. */
  lemma {:induction false} HashesAreThePieces<D>(pieces: seq<Piece>, sha: string -> D)
    ensures Hashes(Stored(pieces, sha)) == HashesOf(pieces, sha)
  {
    if pieces != [] {
      var init, p := pieces[..|pieces| - 1], pieces[|pieces| - 1];
      assert pieces == init + [p];
      HashesAreThePieces(init, sha);
      StoredStep(init, p, sha);
      HashesOfMore(init, p, sha);
    }
  }

  lemma StoredStep<D>(init: seq<Piece>, p: Piece, sha: string -> D)
    ensures Stored(init + [p], sha)
            == if HashOf(p, sha) in Hashes(Stored(init, sha)) then Stored(init, sha)
               else Stored(init, sha) + [ChunkOf(p, |Stored(init, sha)|, sha)]
  {
    assert (init + [p])[..|init|] == init;
  }

  ghost predicate NumberedOnce<D>(chunks: seq<Chunk<D>>) {
    && (forall i :: 0 <= i < |chunks| ==> chunks[i].position == i)
    && (forall i, j :: 0 <= i < j < |chunks| ==> chunks[i].bodyHash != chunks[j].bodyHash)
  }

  lemma AppendKeepsNumbered<D>(chunks: seq<Chunk<D>>, c: Chunk<D>)
    requires NumberedOnce(chunks) && c.position == |chunks| && c.bodyHash !in Hashes(chunks)
    ensures NumberedOnce(chunks + [c])
  {
    forall i | 0 <= i < |chunks|
      ensures chunks[i].bodyHash != c.bodyHash
    {
      assert chunks[i] in chunks && chunks[i].bodyHash in Hashes(chunks);
    }
  }

  /** Positions are 0..n-1, and no two chunks share a hash. */
  lemma {:induction false} StoredOnce<D>(pieces: seq<Piece>, sha: string -> D)
    ensures NumberedOnce(Stored(pieces, sha))
  {
    if pieces != [] {
      var init, p := pieces[..|pieces| - 1], pieces[|pieces| - 1];
      assert pieces == init + [p];
      StoredOnce(init, sha);
      StoredStep(init, p, sha);
      if HashOf(p, sha) !in Hashes(Stored(init, sha)) {
        AppendKeepsNumbered(Stored(init, sha), ChunkOf(p, |Stored(init, sha)|, sha));
      }
    }
  }

  /** No piece before k has k's hash. */
  ghost predicate IsFirst<D>(pieces: seq<Piece>, k: int, sha: string -> D) {
    0 <= k < |pieces| && forall m :: 0 <= m < k ==> HashOf(pieces[m], sha) != HashOf(pieces[k], sha)
  }

  /** A chunk is made of the first piece with its hash: the piece that stands before every other one. */
  lemma {:induction false} ChunksAreFirstOccurrences<D>(pieces: seq<Piece>, sha: string -> D, i: nat)
    requires i < |Stored(pieces, sha)|
    ensures exists k :: IsFirst(pieces, k, sha) && Stored(pieces, sha)[i] == ChunkOf(pieces[k], i, sha)
  {
    var n := |pieces| - 1;
    var init := pieces[..n];
    if i < |Stored(init, sha)| {
      ChunksAreFirstOccurrences(init, sha, i);
      var k :| IsFirst(init, k, sha) && Stored(init, sha)[i] == ChunkOf(init[k], i, sha);
      assert forall m :: 0 <= m <= k ==> pieces[m] == init[m];
      assert IsFirst(pieces, k, sha);
    } else {
      HashesAreThePieces(init, sha);
      forall m | 0 <= m < n
        ensures HashOf(pieces[m], sha) != HashOf(pieces[n], sha)
      {
        assert init[m] in init;
        assert HashOf(init[m], sha) in Hashes(Stored(init, sha));
      }
      assert IsFirst(pieces, n, sha);
    }
  }

  /** Every window of every section that is not blank is a piece. */
  lemma {:induction false} EveryTextIsAPiece(heading: string, texts: seq<string>, i: nat)
    requires i < |texts| && Strip(texts[i]) != ""
    ensures Piece(heading, Strip(texts[i])) in Pieces(heading, texts)
  {
    if i < |texts| - 1 {
      EveryTextIsAPiece(heading, texts[..|texts| - 1], i);
    }
  }

  lemma {:induction false} EverySectionContributes(sections: seq<Section>, target: nat, overlap: nat, j: nat, p: Piece)
    requires target >= 1 && j < |sections|
    requires p in Pieces(sections[j].heading, SectionTexts(sections[j], target, overlap))
    ensures p in AllPieces(sections, target, overlap)
  {
    if j < |sections| - 1 {
      EverySectionContributes(sections[..|sections| - 1], target, overlap, j, p);
    }
  }

  /** No window is lost: each non-blank one has a chunk with its normalised hash. */
  lemma EveryWindowIsStored<D>(sections: seq<Section>, target: nat, overlap: nat, sha: string -> D, j: nat, i: nat)
    requires target >= 1 && j < |sections|
    requires i < |SectionTexts(sections[j], target, overlap)|
    requires Strip(SectionTexts(sections[j], target, overlap)[i]) != ""
    ensures sha(Normalised(Strip(SectionTexts(sections[j], target, overlap)[i])))
            in Hashes(Stored(AllPieces(sections, target, overlap), sha))
  {
    var texts := SectionTexts(sections[j], target, overlap);
    var p := Piece(sections[j].heading, Strip(texts[i]));
    EveryTextIsAPiece(sections[j].heading, texts, i);
    EverySectionContributes(sections, target, overlap, j, p);
    HashesAreThePieces(AllPieces(sections, target, overlap), sha);
    assert HashOf(p, sha) == sha(Normalised(Strip(texts[i])));
  }

  /** What the chunker makes of sections: sizes are given in tokens of four characters. */
  function ChunksFor<D(==)>(sections: seq<Section>, targetTokens: int, overlapTokens: int, sha: string -> D)
    : seq<Chunk<D>>
  {
    Stored(AllPieces(sections, AtLeast(1, targetTokens * 4), AtLeast(0, overlapTokens * 4)), sha)
  }

  // ----- the loops ---------------------------------------------------------------------------------

  method CutSection(section: Section, target: nat, overlap: nat) returns (texts: seq<string>)
    requires target >= 1
    ensures texts == SectionTexts(section, target, overlap)
  {
    var body := Strip(section.body);
    texts := [];
    if body != "" {
      if |body| <= target {
        texts := [body];
      } else {
        texts := SlidingWindows(body, target, overlap);
      }
    }
  }

  /** Chunk an ordered list of sections. */
  method ChunkSections<D(==)>(sections: seq<Section>, targetTokens: int, overlapTokens: int, sha: string -> D)
    returns (chunks: seq<Chunk<D>>)
    ensures chunks == ChunksFor(sections, targetTokens, overlapTokens, sha)
  {
    var target := AtLeast(1, targetTokens * 4);
    var overlap := AtLeast(0, overlapTokens * 4);
    chunks := [];
    var seen: set<D> := {};
    var j := 0;
    while j < |sections|
      invariant j <= |sections|
      invariant chunks == Stored(AllPieces(sections[..j], target, overlap), sha)
      invariant seen == Hashes(chunks)
    {
      var section := sections[j];
      var texts := CutSection(section, target, overlap);
      assert sections[..j + 1][..j] == sections[..j];
      chunks, seen := StorePieces(section.heading, texts, AllPieces(sections[..j], target, overlap), chunks, seen, sha);
      j := j + 1;
    }
    assert sections[..j] == sections;
  }

  /** Store a piece unless its hash has been seen. */
  method StorePiece<D(==)>(
    heading: string, text: string, ghost earlier: seq<Piece>, chunks0: seq<Chunk<D>>, seen0: set<D>, sha: string -> D)
    returns (chunks: seq<Chunk<D>>, seen: set<D>)
    requires chunks0 == Stored(earlier, sha) && seen0 == Hashes(chunks0)
    ensures chunks == Stored(earlier + [Piece(heading, text)], sha) && seen == Hashes(chunks)
  {
    chunks, seen := chunks0, seen0;
    StoredStep(earlier, Piece(heading, text), sha);
    var digest := sha(Normalised(text));
    if digest !in seen {
      seen := seen + {digest};
      var chunk := Chunk(|chunks|, if heading == "" then None else Some(heading), text, digest, Tokens(text));
      chunks := chunks + [chunk];
    }
  }

  lemma PiecesStep(heading: string, texts: seq<string>, i: nat)
    requires i < |texts|
    ensures Pieces(heading, texts[..i + 1])
            == Pieces(heading, texts[..i]) + if Strip(texts[i]) == "" then [] else [Piece(heading, Strip(texts[i]))]
  {
    assert texts[..i + 1][..i] == texts[..i];
  }

  method StorePieces<D(==)>(heading: string, texts: seq<string>, ghost earlier: seq<Piece>, chunks0: seq<Chunk<D>>,
                            seen0: set<D>, sha: string -> D)
    returns (chunks: seq<Chunk<D>>, seen: set<D>)
    requires chunks0 == Stored(earlier, sha) && seen0 == Hashes(chunks0)
    ensures chunks == Stored(earlier + Pieces(heading, texts), sha) && seen == Hashes(chunks)
  {
    chunks, seen := chunks0, seen0;
    ghost var pieces, more: seq<Piece> := earlier, [];
    var i := 0;
    while i < |texts|
      invariant i <= |texts|
      invariant more == Pieces(heading, texts[..i]) && pieces == earlier + more
      invariant chunks == Stored(pieces, sha) && seen == Hashes(chunks)
    {
      var text := Strip(texts[i]);
      PiecesStep(heading, texts, i);
      i := i + 1;
      if text == "" {
        continue;
      }
      chunks, seen := StorePiece(heading, text, pieces, chunks, seen, sha);
      pieces, more := pieces + [Piece(heading, text)], more + [Piece(heading, text)];
    }
    assert texts[..i] == texts;
  }
}
